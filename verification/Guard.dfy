/** Keeping a request path inside its alias base, origin/guard.rs, and the path walk of origin/mod.rs. */
module Guard {
  import opened Common

  const SLASH: byte := 47
  const DOT: byte := 46
  const PERCENT: byte := 37
  const NUL: byte := 0

  // ---- UTF-8, RFC 3629 section 4 ----

  predicate Continuation(b: byte) { 0x80 <= b <= 0xBF }

  /** The length of the well-formed character at the front of s, or 0 if there is none. */
  function CharLength(s: Path): (n: nat)
    ensures n <= |s|
  {
    if s == [] then 0
    else if s[0] <= 0x7F then 1
    else if 0xC2 <= s[0] <= 0xDF then
      if |s| >= 2 && Continuation(s[1]) then 2 else 0
    else if 0xE0 <= s[0] <= 0xEF then
      if |s| >= 3 && Continuation(s[1]) && Continuation(s[2])
        && (s[0] == 0xE0 ==> s[1] >= 0xA0) && (s[0] == 0xED ==> s[1] <= 0x9F) then 3 else 0
    else if 0xF0 <= s[0] <= 0xF4 then
      if |s| >= 4 && Continuation(s[1]) && Continuation(s[2]) && Continuation(s[3])
        && (s[0] == 0xF0 ==> s[1] >= 0x90) && (s[0] == 0xF4 ==> s[1] <= 0x8F) then 4 else 0
    else 0
  }

  predicate Utf8(s: Path)
    decreases |s|
  {
    s == [] || (CharLength(s) > 0 && Utf8(s[CharLength(s)..]))
  }

  lemma {:induction false} Utf8Joins(a: Path, b: Path)
    requires Utf8(a) && Utf8(b)
    ensures Utf8(a + b)
    decreases |a|
  {
    if a == [] {
      assert a + b == b;
    } else {
      var n := CharLength(a);
      assert forall i :: 0 <= i < |a| ==> (a + b)[i] == a[i];
      assert CharLength(a + b) == n;
      Utf8Joins(a[n..], b);
      DropOfSum(a, b, n);
    }
  }

  lemma DropOfSum<T>(a: seq<T>, b: seq<T>, n: nat)
    requires n <= |a|
    ensures (a + b)[n..] == a[n..] + b
  {
  }

  lemma Regroup<T>(a: seq<T>, b: seq<T>, c: seq<T>)
    ensures a + (b + c) == (a + b) + c
  {
  }

  // ---- Percent escapes ----

  function Hex(c: byte): Option<nat>
  {
    if '0' as int <= c <= '9' as int then Some(c - '0' as int)
    else if 'a' as int <= c <= 'f' as int then Some(c - 'a' as int + 10)
    else if 'A' as int <= c <= 'F' as int then Some(c - 'A' as int + 10)
    else None
  }

  /** The meaning of a percent-escaped string: None if an escape is cut short or not hexadecimal. */
  function Unescape(s: Path): Option<Path>
  {
    if s == [] then Some([])
    else if s[0] != PERCENT then
      match Unescape(s[1..])
      case None => None
      case Some(rest) => Some([s[0]] + rest)
    else if |s| < 3 || Hex(s[1]).None? || Hex(s[2]).None? then None
    else
      match Unescape(s[3..])
      case None => None
      case Some(rest) => Some([OfHex(Hex(s[1]).value, Hex(s[2]).value)] + rest)
  }

  /** `(hi << 4) | lo`, with the byte it wraps into. */
  function OfHex(hi: nat, lo: nat): byte { (hi * 16 + lo) % 256 }

  lemma {:induction false} UnescapeJoins(a: Path, b: Path)
    requires Unescape(a).Some?
    ensures Unescape(a + b) ==
      if Unescape(b).Some? then Some(Unescape(a).value + Unescape(b).value) else None
    decreases |a|
  {
    if a == [] {
      assert a + b == b;
      if Unescape(b).Some? {
        assert [] + Unescape(b).value == Unescape(b).value;
      }
    } else if a[0] != PERCENT {
      DropOfSum(a, b, 1);
      UnescapeJoins(a[1..], b);
      if Unescape(b).Some? {
        Regroup([a[0]], Unescape(a[1..]).value, Unescape(b).value);
      }
    } else {
      DropOfSum(a, b, 3);
      UnescapeJoins(a[3..], b);
      if Unescape(b).Some? {
        Regroup([OfHex(Hex(a[1]).value, Hex(a[2]).value)], Unescape(a[3..]).value, Unescape(b).value);
      }
    }
  }

  /** One turn of the decoding loop: the byte at the front, and how much of the input it took. */
  lemma UnescapeStep(s: Path, i: nat, out: Path, n: nat, b: byte)
    requires i + n <= |s| && n > 0
    requires Unescape(s[i..]) == if Unescape(s[i..][n..]).Some? then Some([b] + Unescape(s[i..][n..]).value) else None
    ensures Unescape(s[i..]).Some? <==> Unescape(s[i + n..]).Some?
    ensures Unescape(s[i..]).Some? ==> out + Unescape(s[i..]).value == (out + [b]) + Unescape(s[i + n..]).value
  {
    assert s[i..][n..] == s[i + n..];
    if Unescape(s[i..]).Some? {
      Regroup(out, [b], Unescape(s[i + n..]).value);
    }
  }

  method PercentDecode(s: Path) returns (r: Option<Path>)
    ensures r == if Unescape(s).Some? && Utf8(Unescape(s).value) then Unescape(s) else None
  {
    var out: Path := [];
    var i := 0;
    assert s[0..] == s && forall v: Path :: [] + v == v;
    while i < |s|
      invariant 0 <= i <= |s|
      invariant Unescape(s) == if Unescape(s[i..]).Some? then Some(out + Unescape(s[i..]).value) else None
    {
      if s[i] == PERCENT {
        if i + 1 >= |s| || i + 2 >= |s| {
          return None;
        }
        var hi, lo := Hex(s[i + 1]), Hex(s[i + 2]);
        if hi.None? || lo.None? {
          return None;
        }
        UnescapeStep(s, i, out, 3, OfHex(hi.value, lo.value));
        out := out + [OfHex(hi.value, lo.value)];
        i := i + 3;
      } else {
        UnescapeStep(s, i, out, 1, s[i]);
        out := out + [s[i]];
        i := i + 1;
      }
    }
    assert s[|s|..] == [] && out + [] == out;
    r := if Utf8(out) then Some(out) else None;
  }

  predicate Unreserved(b: byte)
  {
    || 'A' as int <= b <= 'Z' as int || 'a' as int <= b <= 'z' as int || '0' as int <= b <= '9' as int
    || b == '-' as int || b == '_' as int || b == '.' as int || b == '~' as int
  }

  function UpperHex(n: nat): byte
    requires n < 16
  {
    if n < 10 then '0' as int + n else 'A' as int + n - 10
  }

  function EscapeByte(b: byte): Path
  {
    if Unreserved(b) then [b] else [PERCENT, UpperHex(b / 16), UpperHex(b % 16)]
  }

  function Escaped(s: Path): Path
  {
    if s == [] then [] else Escaped(s[..|s| - 1]) + EscapeByte(s[|s| - 1])
  }

  method UrlEscape(s: Path) returns (out: Path)
    ensures out == Escaped(s)
    ensures Unescape(out) == Some(s)
  {
    out := [];
    for i := 0 to |s|
      invariant out == Escaped(s[..i])
    {
      assert s[..i + 1][..i] == s[..i];
      out := out + EscapeByte(s[i]);
    }
    assert s[..|s|] == s;
    EscapedMeans(s);
  }

  /** Escaping is undone by unescaping. */
  lemma {:induction false} EscapedMeans(s: Path)
    ensures Unescape(Escaped(s)) == Some(s)
  {
    if s != [] {
      var init, b := s[..|s| - 1], s[|s| - 1];
      EscapedMeans(init);
      EscapeByteMeans(b);
      UnescapeJoins(Escaped(init), EscapeByte(b));
      assert init + [b] == s;
    }
  }

  lemma HexBack(n: nat)
    requires n < 16
    ensures Hex(UpperHex(n)) == Some(n) && UpperHex(n) != PERCENT
  {
  }

  lemma EscapeByteMeans(b: byte)
    ensures Unescape(EscapeByte(b)) == Some([b])
  {
    hide Hex, UpperHex;
    var e := EscapeByte(b);
    assert [b] + [] == [b];
    if Unreserved(b) {
      assert b != PERCENT && e[1..] == [];
    } else {
      HexBack(b / 16);
      HexBack(b % 16);
      assert OfHex(b / 16, b % 16) == b;
      assert e[3..] == [];
      assert Unescape(e) == Some([b] + []);
    }
  }

  // ---- Segments ----

  /** `str::split('/')`: always at least one segment. */
  function Split(s: Path): (segs: seq<Path>)
    ensures segs != []
    ensures forall i :: 0 <= i < |segs| ==> SLASH !in segs[i]
  {
    if s == [] then [[]]
    else
      var last := s[|s| - 1];
      var segs := Split(s[..|s| - 1]);
      if last == SLASH then segs + [[]]
      else segs[..|segs| - 1] + [segs[|segs| - 1] + [last]]
  }

  lemma {:induction false} SplitAppendName(s: Path, name: Path)
    requires SLASH !in name
    ensures Split(s + [SLASH] + name) == Split(s) + [name]
  {
    hide Split;
    if name == [] {
      SplitGrows(s, SLASH);
      assert s + [SLASH] + name == s + [SLASH];
    } else {
      var init, c := name[..|name| - 1], name[|name| - 1];
      assert init + [c] == name && c in name;
      SplitAppendName(s, init);
      SplitGrows(s + [SLASH] + init, c);
      Regroup(s + [SLASH], init, [c]);
    }
  }

  predicate Real(seg: Path)
  {
    seg != [] && seg != [DOT] && seg != [DOT, DOT]
  }

  /** How deep below the base a run of segments ends; below zero is outside it. */
  function Depth(segs: seq<Path>): int
  {
    if segs == [] then 0
    else
      var last := segs[|segs| - 1];
      Depth(segs[..|segs| - 1]) + (if last == [DOT, DOT] then -1 else if Real(last) then 1 else 0)
  }

  predicate Escapes(segs: seq<Path>)
  {
    exists k :: 0 <= k <= |segs| && Depth(segs[..k]) < 0
  }

  /** The segments that survive, when none of the climbs leaves the base. */
  function Survivors(segs: seq<Path>): seq<Path>
  {
    if segs == [] then []
    else
      var last := segs[|segs| - 1];
      var before := Survivors(segs[..|segs| - 1]);
      if last == [DOT, DOT] then (if before == [] then [] else before[..|before| - 1])
      else if Real(last) then before + [last]
      else before
  }

  lemma {:induction false} SurvivorsAreReal(segs: seq<Path>)
    ensures forall i :: 0 <= i < |Survivors(segs)| ==> Real(Survivors(segs)[i]) && Survivors(segs)[i] in segs
    ensures !Escapes(segs) ==> |Survivors(segs)| == Depth(segs)
  {
    if segs != [] {
      var init := segs[..|segs| - 1];
      SurvivorsAreReal(init);
      assert segs[|segs| - 1] in segs;
      assert forall s :: s in init ==> s in segs;
      if !Escapes(segs) {
        assert !Escapes(init) by {
          forall k | 0 <= k <= |init| ensures Depth(init[..k]) >= 0 {
            assert segs[..k] == init[..k];
          }
        }
        assert segs[..|segs|] == segs;
      }
    }
  }

  function TrimEnd(s: Path): Path
  {
    if s != [] && s[|s| - 1] == SLASH then TrimEnd(s[..|s| - 1]) else s
  }

  /** `base`, then every segment after a slash. */
  function Joined(base: Path, segs: seq<Path>): Path
  {
    if segs == [] then base else Joined(base, segs[..|segs| - 1]) + [SLASH] + segs[|segs| - 1]
  }

  /** What a request path names below a base, or None if the path is refused. */
  function Segments(path: Path): Option<seq<Path>>
  {
    match Unescape(path)
    case None => None
    case Some(d) => if !Utf8(d) || NUL in d || Escapes(Split(d)) then None else Some(Survivors(Split(d)))
  }

  /** What one more segment does, as long as none has climbed above the base. */
  lemma NoSegments()
    ensures Survivors([]) == [] && Depth([]) == 0
  {
  }

  lemma NextSegment(segs: seq<Path>, i: nat)
    requires i < |segs| && forall k :: 0 <= k <= i ==> Depth(segs[..k]) >= 0
    ensures var out := Survivors(segs[..i]); var next := Survivors(segs[..i + 1]); var seg := segs[i];
      && (Depth(segs[..i + 1]) < 0 <==> seg == [DOT, DOT] && out == [])
      && (Depth(segs[..i + 1]) >= 0 ==>
        next == if seg == [] || seg == [DOT] then out else if seg == [DOT, DOT] then out[..|out| - 1] else out + [seg])
  {
    assert segs[..i + 1][..i] == segs[..i];
    assert !Escapes(segs[..i]) by {
      forall k | 0 <= k <= i ensures Depth(segs[..i][..k]) >= 0 {
        assert segs[..i][..k] == segs[..k];
      }
    }
    SurvivorsAreReal(segs[..i]);
  }

  /** origin/guard.rs:105-127. */
  method Resolve(base: Path, path: Path) returns (r: Option<Path>)
    ensures r == if Segments(path).Some? then Some(Joined(TrimEnd(base), Segments(path).value)) else None
  {
    hide Survivors, Depth, Split, TrimEnd;
    var decoded := PercentDecode(path);
    if decoded.None? || NUL in decoded.value {
      return None;
    }
    var segs := Split(decoded.value);
    var out: seq<Path> := [];
    assert segs[..0] == [];
    NoSegments();
    for i := 0 to |segs|
      invariant out == Survivors(segs[..i])
      invariant forall k :: 0 <= k <= i ==> Depth(segs[..k]) >= 0
    {
      NextSegment(segs, i);
      var segment := segs[i];
      if segment == [] || segment == [DOT] {
      } else if segment == [DOT, DOT] {
        if out == [] {
          return None;
        }
        out := out[..|out| - 1];
      } else {
        out := out + [segment];
      }
    }
    assert segs[..|segs|] == segs;
    var trimmed := TrimEnd(base);
    if out == [] {
      return Some(trimmed);
    }
    r := Some(Joined(trimmed, out));
  }

  // ---- Appending an entry name ----

  /** A name a directory can really hold. */
  predicate EntryName(name: Path)
  {
    Real(name) && SLASH !in name && NUL !in name && Utf8(name)
  }

  /** A link to an entry of the directory a path names leads to exactly that entry. */
  lemma LinkToEntry(base: Path, path: Path, name: Path)
    requires Segments(path).Some? && EntryName(name)
    ensures Segments(path + [SLASH] + Escaped(name)) == Some(Segments(path).value + [name])
    ensures Joined(TrimEnd(base), Segments(path).value + [name])
         == Joined(TrimEnd(base), Segments(path).value) + [SLASH] + name
  {
    var d := Unescape(path).value;
    LinkMeans(path, name);
    Utf8Joins(d, [SLASH]);
    Utf8Joins(d + [SLASH], name);
    SplitAppendName(d, name);
    SurvivorsGrow(Split(d), name);
    ChainGrows(TrimEnd(base), Segments(path).value, name);
  }

  lemma LinkMeans(path: Path, name: Path)
    requires Unescape(path).Some?
    ensures Unescape(path + [SLASH] + Escaped(name)) == Some(Unescape(path).value + [SLASH] + name)
  {
    UnescapeJoins(path, [SLASH]);
    assert [SLASH][1..] == [] && [SLASH] + [] == [SLASH];
    assert Unescape([SLASH]) == Some([SLASH]);
    UnescapeJoins(path + [SLASH], Escaped(name));
    EscapedMeans(name);
  }

  lemma SurvivorsGrow(segs: seq<Path>, name: Path)
    requires !Escapes(segs) && Real(name)
    ensures !Escapes(segs + [name]) && Survivors(segs + [name]) == Survivors(segs) + [name]
  {
    var more := segs + [name];
    assert more[..|segs|] == segs;
    forall k | 0 <= k <= |more| ensures Depth(more[..k]) >= 0 {
      if k <= |segs| {
        assert more[..k] == segs[..k];
      } else {
        assert more[..k] == more && segs[..|segs|] == segs;
      }
    }
  }

  // ---- The steps from the base down to a file ----

  datatype Step = Step(dir: Path, name: Path)

  function TrimStart(s: Path): Path
  {
    if s != [] && s[0] == SLASH then TrimStart(s[1..]) else s
  }

  function NonEmpty(segs: seq<Path>): seq<Path>
  {
    if segs == [] then []
    else NonEmpty(segs[..|segs| - 1]) + (if segs[|segs| - 1] == [] then [] else [segs[|segs| - 1]])
  }

  /** Each segment, with the directory it is to be looked up in. */
  function Chain(base: Path, segs: seq<Path>): (chain: seq<Step>)
    ensures |chain| == |segs|
  {
    if segs == [] then []
    else
      var init := segs[..|segs| - 1];
      Chain(base, init) + [Step(Joined(base, init), segs[|segs| - 1])]
  }

  lemma {:induction false} ChainAt(base: Path, segs: seq<Path>, i: nat)
    requires i < |segs|
    ensures Chain(base, segs)[i] == Step(Joined(base, segs[..i]), segs[i])
  {
    var init := segs[..|segs| - 1];
    if i < |init| {
      ChainAt(base, init, i);
      assert init[..i] == segs[..i];
    } else {
      assert init == segs[..i];
    }
  }

  lemma ChainGrows(base: Path, segs: seq<Path>, name: Path)
    ensures Chain(base, segs + [name]) == Chain(base, segs) + [Step(Joined(base, segs), name)]
    ensures Joined(base, segs + [name]) == Joined(base, segs) + [SLASH] + name
  {
    assert (segs + [name])[..|segs|] == segs;
  }

  lemma NonEmptyGrows(segs: seq<Path>, i: nat)
    requires i < |segs|
    ensures NonEmpty(segs[..i + 1]) == if segs[i] == [] then NonEmpty(segs[..i]) else NonEmpty(segs[..i]) + [segs[i]]
  {
    assert segs[..i + 1][..i] == segs[..i];
  }

  /** What `components` looks at: the file below the base, without leading slashes. */
  function Below(base: Path, file: Path): Path
  {
    var b := TrimEnd(base);
    TrimStart(if b <= file then file[|b|..] else [])
  }

  /** origin/mod.rs:2749-2763. */
  method Components(base: Path, file: Path) returns (out: seq<Step>)
    ensures out == Chain(TrimEnd(base), NonEmpty(Split(Below(base, file))))
  {
    var segs := Split(Below(base, file));
    var dir := TrimEnd(base);
    out := [];
    for i := 0 to |segs|
      invariant out == Chain(TrimEnd(base), NonEmpty(segs[..i]))
      invariant dir == Joined(TrimEnd(base), NonEmpty(segs[..i]))
    {
      var name := segs[i];
      NonEmptyGrows(segs, i);
      if name != [] {
        ChainGrows(TrimEnd(base), NonEmpty(segs[..i]), name);
        out := out + [Step(dir, name)];
        dir := dir + [SLASH] + name;
      }
    }
    assert segs[..|segs|] == segs;
  }

  /** Segments as a path can hold them. */
  predicate Plain(segs: seq<Path>)
  {
    forall i :: 0 <= i < |segs| ==> segs[i] != [] && SLASH !in segs[i]
  }

  lemma {:induction false} JoinedFromEmpty(base: Path, segs: seq<Path>)
    ensures Joined(base, segs) == base + Joined([], segs)
  {
    if segs == [] {
      assert base + [] == base;
    } else {
      var init := segs[..|segs| - 1];
      JoinedFromEmpty(base, init);
      Regroup(base, Joined([], init), [SLASH] + segs[|segs| - 1]);
      Regroup(base + Joined([], init), [SLASH], segs[|segs| - 1]);
      Regroup(Joined([], init), [SLASH], segs[|segs| - 1]);
    }
  }

  /** Splitting what was joined gives the segments back, after the empty one before the first slash. */
  lemma {:induction false} SplitOfJoined(segs: seq<Path>)
    requires Plain(segs)
    ensures Split(Joined([], segs)) == [[]] + segs
  {
    if segs != [] {
      var init := segs[..|segs| - 1];
      SplitOfJoined(init);
      SplitAppendName(Joined([], init), segs[|segs| - 1]);
      assert init + [segs[|segs| - 1]] == segs;
    }
  }

  lemma {:induction false} NonEmptyOfPlain(segs: seq<Path>)
    requires Plain(segs)
    ensures NonEmpty(segs) == segs
    ensures NonEmpty([[]] + segs) == segs
  {
    if segs == [] {
      var one: seq<Path> := [[]];
      assert one + segs == one && one[..0] == [];
    } else {
      var init := segs[..|segs| - 1];
      NonEmptyOfPlain(init);
      assert init + [segs[|segs| - 1]] == segs;
      assert ([[]] + segs)[..|segs|] == [[]] + init;
    }
  }

  /** Leading slashes only ever add empty segments. */
  lemma {:induction false} TrimStartKeepsNames(s: Path)
    ensures NonEmpty(Split(TrimStart(s))) == NonEmpty(Split(s))
    decreases |s|
  {
    hide Split, NonEmpty;
    if s != [] && s[0] == SLASH {
      TrimStartKeepsNames(s[1..]);
      SplitLeadingSlash(s[1..]);
      assert [SLASH] + s[1..] == s;
      NonEmptyPrepend(Split(s[1..]));
    }
  }

  /** One character more. */
  lemma SplitGrows(s: Path, c: byte)
    ensures var segs := Split(s);
      Split(s + [c]) == if c == SLASH then segs + [[]] else segs[..|segs| - 1] + [segs[|segs| - 1] + [c]]
  {
    assert (s + [c])[..|s|] == s;
  }

  lemma SplitNothing()
    ensures Split([]) == [[]]
  {
  }

  lemma {:induction false} SplitLeadingSlash(s: Path)
    ensures Split([SLASH] + s) == [[]] + Split(s)
  {
    hide Split;
    SplitNothing();
    if s == [] {
      SplitGrows([], SLASH);
      assert [] + [SLASH] == [SLASH] + s;
    } else {
      var init, c := s[..|s| - 1], s[|s| - 1];
      SplitLeadingSlash(init);
      SplitGrows(init, c);
      SplitGrows([SLASH] + init, c);
      Regroup([SLASH], init, [c]);
      assert init + [c] == s;
      PrependCommutes(Split(init), c);
    }
  }

  lemma PrependCommutes(segs: seq<Path>, c: byte)
    requires segs != []
    ensures ([[]] + segs)[..|segs|] == [[]] + segs[..|segs| - 1] && ([[]] + segs)[|segs|] == segs[|segs| - 1]
    ensures ([[]] + segs) + [[]] == [[]] + (segs + [[]])
    ensures [[]] + segs[..|segs| - 1] + [segs[|segs| - 1] + [c]] ==
      [[]] + (segs[..|segs| - 1] + [segs[|segs| - 1] + [c]])
  {
  }

  lemma {:induction false} NonEmptyPrepend(segs: seq<Path>)
    ensures NonEmpty([[]] + segs) == NonEmpty(segs)
  {
    if segs == [] {
      var one: seq<Path> := [[]];
      assert one + segs == one && one[..0] == [];
    } else {
      NonEmptyPrepend(segs[..|segs| - 1]);
      assert ([[]] + segs)[..|segs|] == [[]] + segs[..|segs| - 1];
    }
  }

  /** Walking down to what a base and some plain segments name passes exactly those segments. */
  lemma StepsOf(base: Path, segs: seq<Path>)
    requires Plain(segs)
    ensures NonEmpty(Split(Below(base, Joined(TrimEnd(base), segs)))) == segs
  {
    var b := TrimEnd(base);
    JoinedFromEmpty(b, segs);
    assert (b + Joined([], segs))[|b|..] == Joined([], segs);
    TrimStartKeepsNames(Joined([], segs));
    SplitOfJoined(segs);
    NonEmptyOfPlain(segs);
  }

  /** What Resolve lets through is made of plain segments. */
  lemma ResolvedIsPlain(path: Path)
    requires Segments(path).Some?
    ensures Plain(Segments(path).value)
    ensures forall i :: 0 <= i < |Segments(path).value| ==> Real(Segments(path).value[i])
  {
    SurvivorsAreReal(Split(Unescape(path).value));
  }
}
