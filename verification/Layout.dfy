/** Where each field stands on the wire, byte by byte: draft-ietf-secsh-filexfer-02 sections 3, 5 and 7. */
module Layout {
  import opened Common
  import opened Wire
  import Remotes
  import Frames

  /** Four bytes read as a number, the most significant one first. */
  function Word(b: seq<byte>, i: nat): nat
    requires i + 4 <= |b|
  {
    b[i] as nat * 0x100_0000 + b[i + 1] as nat * 0x1_0000 + b[i + 2] as nat * 0x100 + b[i + 3] as nat
  }

  lemma WordOf(b: seq<byte>, i: nat, v: u32)
    requires At(b, i, Be4(v))
    ensures i + 4 <= |b| && Word(b, i) == v
  {
    Be4Back(v);
    var four := b[i..i + 4];
    assert four[0] == b[i] && four[1] == b[i + 1] && four[2] == b[i + 2] && four[3] == b[i + 3];
  }

  lemma WordsOf(b: seq<byte>, i: nat, v: u64)
    requires At(b, i, Be8(v))
    ensures i + 8 <= |b| && Word(b, i) * 0x1_0000_0000 + Word(b, i + 4) == v
  {
    AtJoined(b, i, Be4(v / U32_SPAN), Be4(v % U32_SPAN));
    WordOf(b, i, v / U32_SPAN);
    WordOf(b, i + 4, v % U32_SPAN);
  }

  /** Where the fields behind the flags start, those that are there at all. */
  function IdsAt(said: Said): nat { 4 + if said.size.Some? then 8 else 0 }

  function PermissionsAt(said: Said): nat { IdsAt(said) + if said.ids.Some? then 8 else 0 }

  function TimesAt(said: Said): nat { PermissionsAt(said) + if said.permissions.Some? then 4 else 0 }

  lemma GroupsAt(said: Said)
    requires said.Sendable()
    ensures var b := OfSaid(said);
      && At(b, 0, Be4(Flags(said))) && At(b, 4, OfU64(said.size)) && At(b, IdsAt(said), OfTwo(said.ids))
      && At(b, PermissionsAt(said), OfU32(said.permissions)) && At(b, TimesAt(said), OfTwo(said.times))
  {
    hide At, Flags;
    var b := OfSaid(said);
    var times := OfTwo(said.times) + OfExtended(said.extended);
    var permissions := OfU32(said.permissions) + times;
    var ids := OfTwo(said.ids) + permissions;
    WholeAt(b);
    AtJoined(b, 0, Be4(Flags(said)), OfU64(said.size) + ids);
    AtJoined(b, 4, OfU64(said.size), ids);
    AtJoined(b, IdsAt(said), OfTwo(said.ids), permissions);
    AtJoined(b, PermissionsAt(said), OfU32(said.permissions), times);
    AtJoined(b, TimesAt(said), OfTwo(said.times), OfExtended(said.extended));
  }

  lemma WholeAt(b: seq<byte>)
    ensures At(b, 0, b)
  {
    assert b[0..|b|] == b;
  }

  /** Attributes: a word of flags, then the groups it announces, each in its place. */
  lemma AttrsLaidOut(said: Said)
    requires said.Sendable()
    ensures var b := OfSaid(said);
      && |b| >= 4
      && Word(b, 0) == (if said.size.Some? then 0x1 else 0) + (if said.ids.Some? then 0x2 else 0)
        + (if said.permissions.Some? then 0x4 else 0) + (if said.times.Some? then 0x8 else 0)
        + said.undefinedFlags * 0x10 + (if said.extended.Some? then 0x8000_0000 else 0)
      && (said.size.Some? ==> 12 <= |b| && Word(b, 4) * 0x1_0000_0000 + Word(b, 8) == said.size.value)
      && (said.permissions.Some? ==>
        PermissionsAt(said) + 4 <= |b| && Word(b, PermissionsAt(said)) == said.permissions.value)
  {
    hide At, OfSaid;
    GroupsAt(said);
    var b := OfSaid(said);
    WordOf(b, 0, Flags(said));
    if said.size.Some? {
      WordsOf(b, 4, said.size.value);
    }
    if said.permissions.Some? {
      WordOf(b, PermissionsAt(said), said.permissions.value);
    }
  }

  /** Owner before group, access before change; and what is kept of them goes by those places. */
  lemma PairsLaidOut(said: Said)
    requires said.Sendable()
    ensures var b := OfSaid(said); var kept := said.Kept();
      && kept.size == said.size && kept.permissions == said.permissions
      && (if said.ids.None? then kept.uid == kept.gid == None else
        IdsAt(said) + 8 <= |b| && kept.uid == Some(Word(b, IdsAt(said))) && kept.gid == Some(Word(b, IdsAt(said) + 4)))
      && (if said.times.None? then kept.atime == kept.mtime == None else
        TimesAt(said) + 8 <= |b| && kept.atime == Some(Word(b, TimesAt(said)))
        && kept.mtime == Some(Word(b, TimesAt(said) + 4)))
  {
    hide At, OfSaid;
    GroupsAt(said);
    var b := OfSaid(said);
    if said.ids.Some? {
      TwoWords(b, IdsAt(said), said.ids.value.0, said.ids.value.1);
    }
    if said.times.Some? {
      TwoWords(b, TimesAt(said), said.times.value.0, said.times.value.1);
    }
  }

  lemma TwoWords(b: seq<byte>, i: nat, x: u32, y: u32)
    requires At(b, i, Be4(x) + Be4(y))
    ensures i + 8 <= |b| && Word(b, i) == x && Word(b, i + 4) == y
  {
    AtJoined(b, i, Be4(x), Be4(y));
    WordOf(b, i, x);
    WordOf(b, i + 4, y);
  }

  /** A name of a page: its length and itself, the same of the long form, then its attributes. */
  lemma NamedLaidOut(n: Named)
    requires n.Sendable()
    ensures var b := OfNamed(n); var long := 4 + |n.name|; var attrs := long + 4 + |n.longname|;
      && |b| >= attrs && Word(b, 0) == |n.name| && b[4..long] == n.name
      && Word(b, long) == |n.longname| && b[long + 4..attrs] == n.longname && b[attrs..] == OfSaid(n.said)
    ensures n.Kept().name == n.name && n.Kept().attrs == n.said.Kept()
  {
    hide Be4, OfSaid;
    var b := OfNamed(n);
    var long := 4 + |n.name|;
    WholeAt(b);
    AtJoined(b, 0, OfStr(n.name), OfStr(n.longname) + OfSaid(n.said));
    AtJoined(b, 0, Be4(|n.name|), n.name);
    AtJoined(b, long, OfStr(n.longname), OfSaid(n.said));
    AtJoined(b, long, Be4(|n.longname|), n.longname);
    WordOf(b, 0, |n.name|);
    WordOf(b, long, |n.longname|);
  }

  /** A page: how many names, and then they follow. */
  lemma PageLaidOut(page: seq<Named>)
    requires SendableAll(page) && |page| < U32_SPAN
    ensures var b := OfPage(page); |b| >= 4 && Word(b, 0) == |page| && b[4..] == OfAll(page)
    ensures page != [] ==> OfAll(page) == OfNamed(page[0]) + OfAll(page[1..])
  {
    hide Be4;
    var b := OfPage(page);
    assert b[0..4] == Be4(|page|);
    WordOf(b, 0, |page|);
  }

  /** A frame: the length of what follows, its kind, and its payload; of up to 64 MiB it is read back. */
  lemma FrameLaidOut(f: Frames.Frame)
    requires |f.payload| + 1 < 0x1_0000_0000
    ensures var b := Frames.OfFrame(f);
      |b| >= 5 && Word(b, 0) == |f.payload| + 1 && b[4] == f.kind && b[5..] == f.payload
    ensures var b := Frames.OfFrame(f);
      Frames.GetFrame(b, 0) ==
        if |f.payload| + 1 <= 67_108_864 then Ok(Frames.Framed(f, |b|)) else Err(Frames.BadLength(|f.payload| + 1))
  {
    hide Be4;
    var b := Frames.OfFrame(f);
    assert b[0..4] == Be4(|f.payload| + 1);
    WordOf(b, 0, |f.payload| + 1);
    WholeAt(b);
    Frames.FrameAt(b, 0, f);
  }

  /**
   The kind of a file, in the top four of the lower sixteen bits of its permissions: 4 is a directory and 10 a symlink,
   whatever the other bits; and without permissions it is neither.
   */
  lemma KindOfMode(attrs: Remotes.Attrs, above: nat, kind: nat, bits: nat)
    requires kind < 16 && bits < 0x1000
    ensures attrs.permissions.None? ==> !attrs.IsDir() && !attrs.IsSymlink()
    ensures attrs.permissions.Some? && attrs.permissions.value == above * 0x1_0000 + kind * 0x1000 + bits ==>
      (attrs.IsDir() <==> kind == 4) && (attrs.IsSymlink() <==> kind == 10)
  {
    var mode := above * 0x1_0000 + kind * 0x1000 + bits;
    assert mode / 0x1000 == above * 16 + kind;
    assert (above * 16 + kind) % 16 == kind;
  }
}
