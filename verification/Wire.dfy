/**
 The SFTP wire format: sftp/wire.rs:70-174, the frames of sftp/mod.rs:35-53 and 96-104, and the NAME
 page of fs/sftp.rs:126-142; draft-ietf-secsh-filexfer-02 sections 3, 5 and 7.
 */
module Wire {
  import opened Common
  import opened Remotes

  const U16_SPAN: nat := 0x1_0000

  type Fixed4 = s: seq<byte> | |s| == 4 witness [0, 0, 0, 0]

  function Be4(v: u32): Fixed4
  {
    [v / 0x100_0000, v / U16_SPAN % 256, v / 256 % 256, v % 256]
  }

  function FromBe4(s: Fixed4): (v: u32)
  {
    var b0: nat, b1: nat, b2: nat, b3: nat := s[0], s[1], s[2], s[3];
    b0 * 0x100_0000 + b1 * U16_SPAN + b2 * 256 + b3
  }

  lemma ByBytes(q: nat, r: nat)
    requires r < 256
    ensures (256 * q + r) / 256 == q && (256 * q + r) % 256 == r
  {
  }

  lemma ByWords(q: nat, r: nat)
    requires r < U16_SPAN
    ensures (U16_SPAN * q + r) / U16_SPAN == q
  {
  }

  lemma ByThree(q: nat, r: nat)
    requires r < 0x100_0000
    ensures (0x100_0000 * q + r) / 0x100_0000 == q
  {
  }

  lemma FourBytes(a: nat, b: nat, c: nat, d: nat)
    requires a < 256 && b < 256 && c < 256 && d < 256
    ensures var v := 0x100_0000 * a + U16_SPAN * b + 256 * c + d;
      v / 0x100_0000 == a && v / U16_SPAN % 256 == b && v / 256 % 256 == c && v % 256 == d
  {
    var v := 0x100_0000 * a + U16_SPAN * b + 256 * c + d;
    ByThree(a, U16_SPAN * b + 256 * c + d);
    assert v == U16_SPAN * (256 * a + b) + (256 * c + d);
    ByWords(256 * a + b, 256 * c + d);
    ByBytes(a, b);
    assert v == 256 * (256 * (256 * a + b) + c) + d;
    ByBytes(256 * (256 * a + b) + c, d);
    ByBytes(256 * a + b, c);
  }

  lemma Be4Back(v: u32)
    ensures FromBe4(Be4(v)) == v
  {
    var a, low := v / 0x100_0000, v % 0x100_0000;
    var b, c, d := low / U16_SPAN, low % U16_SPAN / 256, low % U16_SPAN % 256;
    assert v == 0x100_0000 * a + U16_SPAN * b + 256 * c + d;
    FourBytes(a, b, c, d);
  }

  function Be8(v: u64): (s: seq<byte>)
    ensures |s| == 8
  {
    Be4(v / U32_SPAN) + Be4(v % U32_SPAN)
  }

  /** A string is its length and its bytes; the length is cast to 32 bits. */
  function OfStr(s: seq<byte>): seq<byte> { Be4(|s| % U32_SPAN) + s }

  // ---- What a decoder at position i makes of the bytes ----

  datatype Taken<+T> = Taken(value: Option<T>, i: nat)

  function GetU32(b: seq<byte>, i: nat): (r: Taken<u32>)
    requires i <= |b|
    ensures i <= r.i <= |b|
  {
    if i + 4 <= |b| then Taken(Some(FromBe4(b[i..i + 4])), i + 4) else Taken(None, i)
  }

  function GetU64(b: seq<byte>, i: nat): (r: Taken<u64>)
    requires i <= |b|
    ensures i <= r.i <= |b|
  {
    if i + 8 <= |b| then Taken(Some(FromBe4(b[i..i + 4]) * U32_SPAN + FromBe4(b[i + 4..i + 8])), i + 8)
    else Taken(None, i)
  }

  /** A length that runs past the end has been read all the same. */
  function GetStr(b: seq<byte>, i: nat): (r: Taken<seq<byte>>)
    requires i <= |b|
    ensures i <= r.i <= |b|
  {
    var n := GetU32(b, i);
    if n.value.None? then Taken(None, n.i)
    else if n.i + n.value.value <= |b| then Taken(Some(b[n.i..n.i + n.value.value]), n.i + n.value.value)
    else Taken(None, n.i)
  }

  lemma U32At(b: seq<byte>, i: nat, v: u32)
    requires At(b, i, Be4(v))
    ensures GetU32(b, i) == Taken(Some(v), i + 4)
  {
    Be4Back(v);
  }

  lemma U64At(b: seq<byte>, i: nat, v: u64)
    requires At(b, i, Be8(v))
    ensures GetU64(b, i) == Taken(Some(v), i + 8)
  {
    AtJoined(b, i, Be4(v / U32_SPAN), Be4(v % U32_SPAN));
    Be4Back(v / U32_SPAN);
    Be4Back(v % U32_SPAN);
  }

  lemma StrAt(b: seq<byte>, i: nat, s: seq<byte>)
    requires At(b, i, OfStr(s)) && |s| < U32_SPAN
    ensures GetStr(b, i) == Taken(Some(s), i + |OfStr(s)|)
  {
    hide Be4;
    AtJoined(b, i, Be4(|s|), s);
    U32At(b, i, |s|);
  }

  // ---- Attributes ----

  datatype Pair = Pair(first: seq<byte>, second: seq<byte>)

  predicate SendablePairs(pairs: seq<Pair>)
  {
    forall i :: 0 <= i < |pairs| ==> |pairs[i].first| < U32_SPAN && |pairs[i].second| < U32_SPAN
  }

  /** What a server may say of a file: any subset of the groups, extensions, and flags nobody defined. */
  datatype Said = Said(
    size: Option<u64>, ids: Option<(u32, u32)>, permissions: Option<u32>, times: Option<(u32, u32)>,
    extended: Option<seq<Pair>>, undefinedFlags: nat)
  {
    predicate Sendable()
    {
      && undefinedFlags < 0x800_0000
      && (extended.Some? ==> |extended.value| < U32_SPAN && SendablePairs(extended.value))
    }

    /** What of it the origin keeps. */
    function Kept(): Attrs
    {
      Attrs(size,
        if ids.Some? then Some(ids.value.0) else None, if ids.Some? then Some(ids.value.1) else None,
        permissions,
        if times.Some? then Some(times.value.0) else None, if times.Some? then Some(times.value.1) else None)
    }
  }

  const A_SIZE: nat := 1
  const A_UIDGID: nat := 2
  const A_PERM: nat := 4
  const A_TIME: nat := 8
  const A_EXT: nat := 0x8000_0000

  /** flags & bit != 0, for a bit that is a power of two. */
  predicate Has(flags: u32, bit: nat)
    requires bit > 0
  {
    flags / bit % 2 == 1
  }

  function Bit(b: bool): (n: nat) ensures n < 2 { if b then 1 else 0 }

  function Flags(said: Said): u32
    requires said.undefinedFlags < 0x800_0000
  {
    Bit(said.size.Some?) * A_SIZE + Bit(said.ids.Some?) * A_UIDGID + Bit(said.permissions.Some?) * A_PERM
    + Bit(said.times.Some?) * A_TIME + said.undefinedFlags * 16 + Bit(said.extended.Some?) * A_EXT
  }

  function OfPairs(pairs: seq<Pair>): seq<byte>
  {
    if pairs == [] then [] else OfStr(pairs[0].first) + OfStr(pairs[0].second) + OfPairs(pairs[1..])
  }

  function OfTwo(two: Option<(u32, u32)>): seq<byte>
  {
    if two.Some? then Be4(two.value.0) + Be4(two.value.1) else []
  }

  function OfSaid(said: Said): seq<byte>
    requires said.undefinedFlags < 0x800_0000
  {
    Be4(Flags(said)) + (OfU64(said.size) + (OfTwo(said.ids) + (OfU32(said.permissions)
    + (OfTwo(said.times) + OfExtended(said.extended)))))
  }

  lemma FlagsTell(said: Said)
    requires said.undefinedFlags < 0x800_0000
    ensures Has(Flags(said), A_SIZE) == said.size.Some?
    ensures Has(Flags(said), A_UIDGID) == said.ids.Some?
    ensures Has(Flags(said), A_PERM) == said.permissions.Some?
    ensures Has(Flags(said), A_TIME) == said.times.Some?
    ensures Has(Flags(said), A_EXT) == said.extended.Some?
  {
    BitsTell(Bit(said.size.Some?), Bit(said.ids.Some?), Bit(said.permissions.Some?), Bit(said.times.Some?),
             said.undefinedFlags, Bit(said.extended.Some?));
  }

  lemma BitsTell(a: nat, b: nat, c: nat, d: nat, rest: nat, e: nat)
    requires a < 2 && b < 2 && c < 2 && d < 2 && rest < 0x800_0000 && e < 2
    ensures var n := a + b * 2 + c * 4 + d * 8 + rest * 16 + e * A_EXT;
      n % 2 == a && n / 2 % 2 == b && n / 4 % 2 == c && n / 8 % 2 == d && n / A_EXT == e
  {
    var n := a + b * 2 + c * 4 + d * 8 + rest * 16 + e * A_EXT;
    var n8 := d + rest * 2 + e * 0x1000_0000;
    var n4 := c + n8 * 2;
    var n2 := b + n4 * 2;
    LowBit(a, n2);
    LowBit(b, n4);
    LowBit(c, n8);
    LowBit(d, rest + e * 0x800_0000);
    assert n / 4 == n / 2 / 2 && n / 8 == n / 4 / 2;
  }

  lemma LowBit(bit: nat, rest: nat)
    requires bit < 2
    ensures (bit + rest * 2) % 2 == bit && (bit + rest * 2) / 2 == rest
  {
  }

  function MaybeU32(b: seq<byte>, i: nat, there: bool): (r: Taken<Option<u32>>)
    requires i <= |b|
    ensures i <= r.i <= |b|
  {
    if !there then Taken(Some(None), i)
    else
      var v := GetU32(b, i);
      Taken(if v.value.Some? then Some(v.value) else None, v.i)
  }

  function MaybeU64(b: seq<byte>, i: nat, there: bool): (r: Taken<Option<u64>>)
    requires i <= |b|
    ensures i <= r.i <= |b|
  {
    if !there then Taken(Some(None), i)
    else
      var v := GetU64(b, i);
      Taken(if v.value.Some? then Some(v.value) else None, v.i)
  }

  function MaybeTwo(b: seq<byte>, i: nat, there: bool): (r: Taken<Option<(u32, u32)>>)
    requires i <= |b|
    ensures i <= r.i <= |b|
  {
    if !there then Taken(Some(None), i)
    else
      var v := GetU32(b, i);
      if v.value.None? then Taken(None, v.i)
      else
        var w := GetU32(b, v.i);
        Taken(if w.value.Some? then Some(Some((v.value.value, w.value.value))) else None, w.i)
  }

  /** n pairs of strings, read and thrown away. */
  function SkipPairs(b: seq<byte>, i: nat, n: nat): (r: Taken<bool>)
    requires i <= |b|
    ensures i <= r.i <= |b|
    decreases n
  {
    if n == 0 then Taken(Some(true), i)
    else
      var v := GetStr(b, i);
      if v.value.None? then Taken(None, v.i)
      else
        var w := GetStr(b, v.i);
        if w.value.None? then Taken(None, w.i) else SkipPairs(b, w.i, n - 1)
  }

  function SkipExtended(b: seq<byte>, i: nat, there: bool): (r: Taken<bool>)
    requires i <= |b|
    ensures i <= r.i <= |b|
  {
    if !there then Taken(Some(true), i)
    else
      var n := GetU32(b, i);
      if n.value.None? then Taken(None, n.i) else SkipPairs(b, n.i, n.value.value)
  }

  function GetAttrs(b: seq<byte>, i: nat): (r: Taken<Attrs>)
    requires i <= |b|
    ensures i <= r.i <= |b|
  {
    var flags := GetU32(b, i);
    if flags.value.None? then Taken(None, flags.i)
    else
      var f := flags.value.value;
      var size := MaybeU64(b, flags.i, Has(f, A_SIZE));
      if size.value.None? then Taken(None, size.i)
      else
        var ids := MaybeTwo(b, size.i, Has(f, A_UIDGID));
        if ids.value.None? then Taken(None, ids.i)
        else
          var permissions := MaybeU32(b, ids.i, Has(f, A_PERM));
          if permissions.value.None? then Taken(None, permissions.i)
          else
            var times := MaybeTwo(b, permissions.i, Has(f, A_TIME));
            if times.value.None? then Taken(None, times.i)
            else
              var extended := SkipExtended(b, times.i, Has(f, A_EXT));
              if extended.value.None? then Taken(None, extended.i)
              else
                var said :=
                  Said(size.value.value, ids.value.value, permissions.value.value, times.value.value, None, 0);
                Taken(Some(said.Kept()), extended.i)
  }

  lemma TwoAt(b: seq<byte>, i: nat, two: Option<(u32, u32)>)
    requires At(b, i, OfTwo(two))
    ensures MaybeTwo(b, i, two.Some?) == Taken(Some(two), i + |OfTwo(two)|)
  {
    if two.Some? {
      AtJoined(b, i, Be4(two.value.0), Be4(two.value.1));
      U32At(b, i, two.value.0);
      U32At(b, i + 4, two.value.1);
    }
  }

  lemma PairAt(b: seq<byte>, i: nat, x: seq<byte>, y: seq<byte>, n: nat)
    requires At(b, i, OfStr(x)) && At(b, i + |OfStr(x)|, OfStr(y)) && |x| < U32_SPAN && |y| < U32_SPAN && n > 0
    ensures SkipPairs(b, i, n) == SkipPairs(b, i + |OfStr(x)| + |OfStr(y)|, n - 1)
  {
    hide OfStr, At, GetStr;
    StrAt(b, i, x);
    StrAt(b, i + |OfStr(x)|, y);
  }

  lemma {:induction false} PairsAt(b: seq<byte>, i: nat, pairs: seq<Pair>)
    requires At(b, i, OfPairs(pairs)) && SendablePairs(pairs)
    ensures SkipPairs(b, i, |pairs|) == Taken(Some(true), i + |OfPairs(pairs)|)
    decreases |pairs|
  {
    hide OfStr, GetStr;
    if pairs != [] {
      var p, rest := pairs[0], pairs[1..];
      var x, y := OfStr(p.first), OfStr(p.second);
      AtJoined(b, i, x + y, OfPairs(rest));
      AtJoined(b, i, x, y);
      PairAt(b, i, p.first, p.second, |pairs|);
      PairsAt(b, i + |x| + |y|, rest);
    }
  }

  function OfExtended(extended: Option<seq<Pair>>): seq<byte>
  {
    if extended.Some? then Be4(|extended.value| % U32_SPAN) + OfPairs(extended.value) else []
  }

  lemma ExtendedAt(b: seq<byte>, i: nat, extended: Option<seq<Pair>>)
    requires At(b, i, OfExtended(extended))
    requires extended.Some? ==> |extended.value| < U32_SPAN && SendablePairs(extended.value)
    ensures SkipExtended(b, i, extended.Some?) == Taken(Some(true), i + |OfExtended(extended)|)
  {
    hide OfPairs, SkipPairs, GetU32, At, SendablePairs, Be4;
    if extended.Some? {
      AtJoined(b, i, Be4(|extended.value|), OfPairs(extended.value));
      U32At(b, i, |extended.value|);
      PairsAt(b, i + 4, extended.value);
    }
  }

  function OfU64(v: Option<u64>): seq<byte> { if v.Some? then Be8(v.value) else [] }

  function OfU32(v: Option<u32>): seq<byte> { if v.Some? then Be4(v.value) else [] }

  lemma MaybeU32At(b: seq<byte>, i: nat, v: Option<u32>)
    requires At(b, i, OfU32(v))
    ensures MaybeU32(b, i, v.Some?) == Taken(Some(v), i + |OfU32(v)|)
  {
    if v.Some? {
      U32At(b, i, v.value);
    }
  }

  lemma MaybeU64At(b: seq<byte>, i: nat, v: Option<u64>)
    requires At(b, i, OfU64(v))
    ensures MaybeU64(b, i, v.Some?) == Taken(Some(v), i + |OfU64(v)|)
  {
    if v.Some? {
      U64At(b, i, v.value);
    }
  }

  function FromPermissions(said: Said): seq<byte>
  {
    OfU32(said.permissions) + (OfTwo(said.times) + OfExtended(said.extended))
  }

  lemma SizeAndIdsAt(b: seq<byte>, i: nat, said: Said)
    requires said.Sendable() && At(b, i, OfSaid(said))
    ensures var i1 := i + 4; var i2 := i1 + |OfU64(said.size)|; var i3 := i2 + |OfTwo(said.ids)|;
      && GetU32(b, i) == Taken(Some(Flags(said)), i1)
      && MaybeU64(b, i1, said.size.Some?) == Taken(Some(said.size), i2)
      && MaybeTwo(b, i2, said.ids.Some?) == Taken(Some(said.ids), i3)
      && At(b, i3, FromPermissions(said))
      && |OfSaid(said)| == i3 - i + |FromPermissions(said)|
  {
    hide OfU64, OfTwo, OfU32, OfExtended, MaybeU64, MaybeTwo, GetU32, Flags, At;
    var rest := FromPermissions(said);
    var ids := OfTwo(said.ids) + rest;
    var size := OfU64(said.size) + ids;
    assert OfSaid(said) == Be4(Flags(said)) + size;
    AtJoined(b, i, Be4(Flags(said)), size);
    U32At(b, i, Flags(said));
    AtJoined(b, i + 4, OfU64(said.size), ids);
    MaybeU64At(b, i + 4, said.size);
    AtJoined(b, i + 4 + |OfU64(said.size)|, OfTwo(said.ids), rest);
    TwoAt(b, i + 4 + |OfU64(said.size)|, said.ids);
  }

  lemma FromPermissionsAt(b: seq<byte>, i: nat, said: Said)
    requires said.Sendable() && At(b, i, FromPermissions(said))
    ensures var i1 := i + |OfU32(said.permissions)|; var i2 := i1 + |OfTwo(said.times)|;
      && MaybeU32(b, i, said.permissions.Some?) == Taken(Some(said.permissions), i1)
      && MaybeTwo(b, i1, said.times.Some?) == Taken(Some(said.times), i2)
      && SkipExtended(b, i2, said.extended.Some?) == Taken(Some(true), i + |FromPermissions(said)|)
  {
    hide OfU32, OfTwo, OfExtended, MaybeU32, MaybeTwo, SkipExtended, At;
    var times := OfTwo(said.times) + OfExtended(said.extended);
    AtJoined(b, i, OfU32(said.permissions), times);
    MaybeU32At(b, i, said.permissions);
    var i1 := i + |OfU32(said.permissions)|;
    AtJoined(b, i1, OfTwo(said.times), OfExtended(said.extended));
    TwoAt(b, i1, said.times);
    ExtendedAt(b, i1 + |OfTwo(said.times)|, said.extended);
  }

  /** Whatever the server said decodes to what of it is kept, and the decoder stands behind it. */
  lemma AttrsAt(b: seq<byte>, i: nat, said: Said)
    requires said.Sendable() && At(b, i, OfSaid(said))
    ensures GetAttrs(b, i) == Taken(Some(said.Kept()), i + |OfSaid(said)|)
  {
    hide OfSaid, MaybeU32, MaybeU64, MaybeTwo, SkipExtended, Flags, Has, At, OfU64, OfTwo, GetU32, FromPermissions,
      OfU32, OfExtended;
    SizeAndIdsAt(b, i, said);
    FlagsTell(said);
    FromPermissionsAt(b, i + 4 + |OfU64(said.size)| + |OfTwo(said.ids)|, said);
  }

  // ---- A NAME page ----

  const MOST_NAMES: nat := 0x1_0000

  datatype Named = Named(name: seq<byte>, longname: seq<byte>, said: Said)
  {
    predicate Sendable() { |name| < U32_SPAN && |longname| < U32_SPAN && said.Sendable() }

    function Kept(): Entry { Entry(name, said.Kept()) }
  }

  datatype PageError = NoCount | Implausible(count: nat) | NoFilename | NoLongname | NoAttrs

  function OfNamed(n: Named): seq<byte>
    requires n.Sendable()
  {
    OfStr(n.name) + (OfStr(n.longname) + OfSaid(n.said))
  }

  predicate SendableAll(page: seq<Named>) { forall i :: 0 <= i < |page| ==> page[i].Sendable() }

  function OfAll(page: seq<Named>): seq<byte>
    requires SendableAll(page)
  {
    if page == [] then [] else OfNamed(page[0]) + OfAll(page[1..])
  }

  function OfPage(page: seq<Named>): seq<byte>
    requires SendableAll(page) && |page| < U32_SPAN
  {
    Be4(|page|) + OfAll(page)
  }

  function KeptOf(page: seq<Named>): seq<Entry>
  {
    if page == [] then [] else [page[0].Kept()] + KeptOf(page[1..])
  }

  datatype Got = Got(entry: Result<Entry, PageError>, i: nat)

  function GetNamed(b: seq<byte>, i: nat): (r: Got)
    requires i <= |b|
    ensures i <= r.i <= |b|
  {
    var name := GetStr(b, i);
    if name.value.None? then Got(Err(NoFilename), name.i)
    else
      var longname := GetStr(b, name.i);
      if longname.value.None? then Got(Err(NoLongname), longname.i)
      else
        var attrs := GetAttrs(b, longname.i);
        if attrs.value.None? then Got(Err(NoAttrs), attrs.i)
        else Got(Ok(Entry(name.value.value, attrs.value.value)), attrs.i)
  }

  function GetAll(b: seq<byte>, i: nat, n: nat): Result<seq<Entry>, PageError>
    requires i <= |b|
    decreases n
  {
    if n == 0 then Ok([])
    else
      var first := GetNamed(b, i);
      if first.entry.Err? then Err(first.entry.error)
      else Join([first.entry.value], GetAll(b, first.i, n - 1))
  }

  /** Entries decoded already, in front of what the rest decodes to. */
  function Join(out: seq<Entry>, rest: Result<seq<Entry>, PageError>): Result<seq<Entry>, PageError>
  {
    if rest.Ok? then Ok(out + rest.value) else rest
  }

  lemma GetAllNext(b: seq<byte>, i: nat, n: nat, e: Result<Entry, PageError>, j: nat)
    requires i <= |b| && n > 0 && GetNamed(b, i) == Got(e, j)
    ensures GetAll(b, i, n) == if e.Ok? then Join([e.value], GetAll(b, j, n - 1)) else Err(e.error)
  {
  }

  lemma JoinNext(out: seq<Entry>, e: Entry, rest: Result<seq<Entry>, PageError>)
    ensures Join(out, Join([e], rest)) == Join(out + [e], rest)
  {
    if rest.Ok? {
      assert out + ([e] + rest.value) == (out + [e]) + rest.value;
    }
  }

  function GetNames(b: seq<byte>): Result<seq<Entry>, PageError>
  {
    var count := GetU32(b, 0);
    if count.value.None? then Err(NoCount)
    else if count.value.value > MOST_NAMES then Err(Implausible(count.value.value))
    else GetAll(b, count.i, count.value.value)
  }

  lemma NamedAt(b: seq<byte>, i: nat, n: Named)
    requires n.Sendable() && At(b, i, OfNamed(n))
    ensures GetNamed(b, i) == Got(Ok(n.Kept()), i + |OfNamed(n)|)
  {
    hide OfStr, OfSaid, GetStr, GetAttrs, At;
    var rest := OfStr(n.longname) + OfSaid(n.said);
    AtJoined(b, i, OfStr(n.name), rest);
    StrAt(b, i, n.name);
    var i1 := i + |OfStr(n.name)|;
    AtJoined(b, i1, OfStr(n.longname), OfSaid(n.said));
    StrAt(b, i1, n.longname);
    AttrsAt(b, i1 + |OfStr(n.longname)|, n.said);
  }

  lemma JoinKept(page: seq<Named>)
    requires page != []
    ensures Join([page[0].Kept()], Ok(KeptOf(page[1..]))) == Ok(KeptOf(page))
  {
  }

  lemma {:induction false} AllAt(b: seq<byte>, i: nat, page: seq<Named>)
    requires SendableAll(page) && At(b, i, OfAll(page))
    ensures GetAll(b, i, |page|) == Ok(KeptOf(page))
    decreases |page|
  {
    if page != [] {
      AtJoined(b, i, OfNamed(page[0]), OfAll(page[1..]));
      NamedAt(b, i, page[0]);
      AllAt(b, i + |OfNamed(page[0])|, page[1..]);
      GetAllNext(b, i, |page|, Ok(page[0].Kept()), i + |OfNamed(page[0])|);
      JoinKept(page);
    }
  }

  /** Any page a server may send decodes to its entries, unless it counts more than is plausible. */
  lemma NamesRoundTrip(page: seq<Named>, after: seq<byte>)
    requires SendableAll(page) && |page| < U32_SPAN
    ensures GetNames(OfPage(page) + after) ==
      if |page| <= MOST_NAMES then Ok(KeptOf(page)) else Err(Implausible(|page|))
  {
    hide OfAll, Be4, GetU32, GetAll;
    var b := OfPage(page) + after;
    assert b[..|OfPage(page)|] == OfPage(page);
    assert At(b, 0, OfPage(page));
    AtJoined(b, 0, Be4(|page|), OfAll(page));
    U32At(b, 0, |page|);
    if |page| <= MOST_NAMES {
      AllAt(b, 4, page);
    }
  }

  // ---- The encoder and the decoder ----

  class Enc {
    var bytes: seq<byte>

    constructor ()
      ensures bytes == []
    {
      bytes := [];
    }

    method U32(v: u32)
      modifies this
      ensures bytes == old(bytes) + Be4(v)
    {
      bytes := bytes + Be4(v);
    }

    method U64(v: u64)
      modifies this
      ensures bytes == old(bytes) + Be8(v)
    {
      bytes := bytes + Be8(v);
    }

    method Str(v: seq<byte>)
      modifies this
      ensures bytes == old(bytes) + OfStr(v)
    {
      bytes := bytes + Be4(|v| % U32_SPAN);
      bytes := bytes + v;
    }

    method MaybeU32(v: Option<u32>)
      modifies this
      ensures bytes == old(bytes) + OfU32(v)
    {
      if v.Some? {
        U32(v.value);
      }
    }

    method MaybeU64(v: Option<u64>)
      modifies this
      ensures bytes == old(bytes) + OfU64(v)
    {
      if v.Some? {
        U64(v.value);
      }
    }

    method MaybeTwo(two: Option<(u32, u32)>)
      modifies this
      ensures bytes == old(bytes) + OfTwo(two)
    {
      if two.Some? {
        U32(two.value.0);
        U32(two.value.1);
      }
    }

    method Pairs(pairs: seq<Pair>)
      modifies this
      ensures bytes == old(bytes) + OfPairs(pairs)
    {
      hide OfStr;
      assert pairs[0..] == pairs;
      for i := 0 to |pairs|
        invariant bytes + OfPairs(pairs[i..]) == old(bytes) + OfPairs(pairs)
      {
        assert pairs[i..][0] == pairs[i] && pairs[i..][1..] == pairs[i + 1..];
        Str(pairs[i].first);
        Str(pairs[i].second);
      }
      assert pairs[|pairs|..] == [];
    }

    method MaybeExtended(extended: Option<seq<Pair>>)
      modifies this
      ensures bytes == old(bytes) + OfExtended(extended)
    {
      hide Be4, OfPairs;
      if extended.Some? {
        U32(|extended.value| % U32_SPAN);
        Pairs(extended.value);
      }
    }

    /** Attributes: the flags, and after them the groups there are. */
    method Attributes(said: Said)
      requires said.Sendable()
      modifies this
      ensures bytes == old(bytes) + OfSaid(said)
    {
      hide Be4, Flags, OfU64, OfU32, OfTwo, OfExtended;
      U32(Flags(said));
      MaybeU64(said.size);
      MaybeTwo(said.ids);
      MaybeU32(said.permissions);
      MaybeTwo(said.times);
      MaybeExtended(said.extended);
      SixJoined(old(bytes), Be4(Flags(said)), OfU64(said.size), OfTwo(said.ids), OfU32(said.permissions),
                OfTwo(said.times), OfExtended(said.extended));
    }

    method NamedEntry(n: Named)
      requires n.Sendable()
      modifies this
      ensures bytes == old(bytes) + OfNamed(n)
    {
      hide OfStr, OfSaid;
      Str(n.name);
      Str(n.longname);
      Attributes(n.said);
    }

    /** A NAME page: how many, and then each with its two names and its attributes. */
    method Page(page: seq<Named>)
      requires SendableAll(page) && |page| < U32_SPAN
      modifies this
      ensures bytes == old(bytes) + OfPage(page)
    {
      hide Be4, OfNamed;
      U32(|page|);
      assert page[0..] == page;
      for i := 0 to |page|
        invariant bytes + OfAll(page[i..]) == old(bytes) + OfPage(page)
      {
        assert page[i..][0] == page[i] && page[i..][1..] == page[i + 1..];
        NamedEntry(page[i]);
      }
      assert page[|page|..] == [];
    }
  }

  lemma SixJoined(o: seq<byte>, a: seq<byte>, b: seq<byte>, c: seq<byte>, d: seq<byte>, e: seq<byte>, f: seq<byte>)
    ensures o + a + b + c + d + e + f == o + (a + (b + (c + (d + (e + f)))))
  {
  }

  class Dec {
    const b: seq<byte>
    var i: nat

    ghost predicate Valid()
      reads this
    {
      i <= |b|
    }

    constructor (b: seq<byte>)
      ensures Valid() && this.b == b && i == 0
    {
      this.b, i := b, 0;
    }

    method U32() returns (v: Option<u32>)
      requires Valid()
      modifies this
      ensures Valid() && Taken(v, i) == GetU32(b, old(i))
    {
      var end := i + 4;
      if end > |b| {
        return None;
      }
      v := Some(FromBe4(b[i..end]));
      i := end;
    }

    method U64() returns (v: Option<u64>)
      requires Valid()
      modifies this
      ensures Valid() && Taken(v, i) == GetU64(b, old(i))
    {
      var end := i + 8;
      if end > |b| {
        return None;
      }
      v := Some(FromBe4(b[i..i + 4]) * U32_SPAN + FromBe4(b[i + 4..end]));
      i := end;
    }

    method Str() returns (v: Option<seq<byte>>)
      requires Valid()
      modifies this
      ensures Valid() && Taken(v, i) == GetStr(b, old(i))
    {
      var n := U32();
      if n.None? {
        return None;
      }
      var end := i + n.value;
      if end > |b| {
        return None;
      }
      v := Some(b[i..end]);
      i := end;
    }

    /** `Attrs::decode`: nothing is read out of bounds and nothing twice, whatever the bytes. */
    method Attributes() returns (a: Option<Attrs>)
      requires Valid()
      modifies this
      ensures Valid() && Taken(a, i) == GetAttrs(b, old(i))
    {
      hide GetU32, GetU64, SkipPairs, Has;
      var flags := U32();
      if flags.None? { return None; }
      var size: Option<u64> := None;
      if Has(flags.value, A_SIZE) {
        size := U64();
        if size.None? { return None; }
      }
      var uid: Option<u32>, gid: Option<u32> := None, None;
      if Has(flags.value, A_UIDGID) {
        uid := U32();
        if uid.None? { return None; }
        gid := U32();
        if gid.None? { return None; }
      }
      var permissions: Option<u32> := None;
      if Has(flags.value, A_PERM) {
        permissions := U32();
        if permissions.None? { return None; }
      }
      var atime: Option<u32>, mtime: Option<u32> := None, None;
      if Has(flags.value, A_TIME) {
        atime := U32();
        if atime.None? { return None; }
        mtime := U32();
        if mtime.None? { return None; }
      }
      if Has(flags.value, A_EXT) {
        var skipped := Extended();
        if !skipped { return None; }
      }
      a := Some(Attrs(size, uid, gid, permissions, atime, mtime));
    }

    method Extended() returns (ok: bool)
      requires Valid()
      modifies this
      ensures Valid() && Taken(if ok then Some(true) else None, i) == SkipExtended(b, old(i), true)
    {
      hide GetStr, GetU32;
      var n := U32();
      if n.None? {
        return false;
      }
      ghost var all := SkipPairs(b, i, n.value);
      for k := 0 to n.value
        invariant Valid() && SkipPairs(b, i, n.value - k) == all
      {
        var first := Str();
        if first.None? {
          return false;
        }
        var second := Str();
        if second.None? {
          return false;
        }
      }
      ok := true;
    }

    /** One entry: its name, a long name nobody wants, and its attributes. */
    method Entry() returns (entry: Result<Remotes.Entry, PageError>)
      requires Valid()
      modifies this
      ensures Valid() && Got(entry, i) == GetNamed(b, old(i))
    {
      var name := Str();
      if name.None? {
        return Err(NoFilename);
      }
      var longname := Str();
      if longname.None? {
        return Err(NoLongname);
      }
      var attrs := Attributes();
      if attrs.None? {
        return Err(NoAttrs);
      }
      entry := Ok(Remotes.Entry(name.value, attrs.value));
    }

    method Entries(n: nat) returns (entries: Result<seq<Remotes.Entry>, PageError>)
      requires Valid()
      modifies this
      ensures Valid() && entries == GetAll(b, old(i), n)
    {
      hide GetNamed;
      var out: seq<Remotes.Entry> := [];
      ghost var all := GetAll(b, i, n);
      JoinNothing(all);
      for k := 0 to n
        invariant Valid() && all == Join(out, GetAll(b, i, n - k))
      {
        ghost var at := i;
        var entry := Entry();
        GetAllNext(b, at, n - k, entry, i);
        if entry.Err? {
          return Err(entry.error);
        }
        JoinNext(out, entry.value, GetAll(b, i, n - k - 1));
        out := out + [entry.value];
      }
      JoinAll(out);
      entries := Ok(out);
    }
  }

  lemma JoinNothing(all: Result<seq<Entry>, PageError>)
    ensures Join([], all) == all
  {
    if all.Ok? {
      assert [] + all.value == all.value;
    }
  }

  lemma JoinAll(out: seq<Entry>)
    ensures Join(out, Ok([])) == Ok(out)
  {
    assert out + [] == out;
  }

  /** `decode_names` */
  method DecodeNames(payload: seq<byte>) returns (entries: Result<seq<Entry>, PageError>)
    ensures entries == GetNames(payload)
  {
    var d := new Dec(payload);
    var count := d.U32();
    if count.None? {
      return Err(NoCount);
    }
    if count.value > MOST_NAMES {
      return Err(Implausible(count.value));
    }
    entries := d.Entries(count.value);
  }

  /** A page through the encoder and back through the decoder. */
  method NamesThereAndBack(page: seq<Named>) returns (entries: Result<seq<Entry>, PageError>)
    requires SendableAll(page) && |page| < U32_SPAN
    ensures entries == if |page| <= MOST_NAMES then Ok(KeptOf(page)) else Err(Implausible(|page|))
  {
    var e := new Enc();
    e.Page(page);
    NamesRoundTrip(page, []);
    assert OfPage(page) + [] == e.bytes;
    entries := DecodeNames(e.bytes);
  }
}
