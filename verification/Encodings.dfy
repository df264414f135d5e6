/** What a percent-escaped string stands for, and which bytes are UTF-8, said of what was written. */
module Encodings {
  import opened Common
  import opened Guard

  // ---- Escapes, written with digits of either case ----

  /** A byte as it stands, or its escape, each digit in upper case or not. */
  datatype Glyph = Plainly(b: byte) | Escape(b: byte, first: bool, second: bool)

  function Digit(n: nat, upper: bool): byte
    requires n < 16
  {
    if upper then Ascii("0123456789ABCDEF")[n] else Ascii("0123456789abcdef")[n]
  }

  predicate IsDigit(c: byte) { c in Ascii("0123456789abcdefABCDEF") }

  function Written(g: Glyph): Path
  {
    match g
    case Plainly(b) => [b]
    case Escape(b, first, second) => Ascii("%") + [Digit(b / 16, first), Digit(b % 16, second)]
  }

  /** A percent sign has to be escaped. */
  predicate ProperGlyph(g: Glyph) { g.Plainly? ==> g.b !in Ascii("%") }

  predicate Proper(gs: seq<Glyph>) { forall i :: 0 <= i < |gs| ==> ProperGlyph(gs[i]) }

  function Text(gs: seq<Glyph>): Path
  {
    if gs == [] then [] else Written(gs[0]) + Text(gs[1..])
  }

  function Bytes(gs: seq<Glyph>): (b: Path)
    ensures |b| == |gs| && forall i :: 0 <= i < |gs| ==> b[i] == gs[i].b
  {
    seq(|gs|, i requires 0 <= i < |gs| => gs[i].b)
  }

  lemma DigitIsHex(n: nat, upper: bool)
    requires n < 16
    ensures Hex(Digit(n, upper)) == Some(n) && Digit(n, upper) != PERCENT
  {
    var c := if upper then "0123456789ABCDEF"[n] else "0123456789abcdef"[n];
    assert n < 10 ==> c == ('0' as int + n) as char;
    assert n >= 10 ==> c == (if upper then ('A' as int + n - 10) as char else ('a' as int + n - 10) as char);
  }

  lemma HexIsDigit(c: byte) returns (upper: bool)
    ensures Hex(c).Some? <==> IsDigit(c)
    ensures Hex(c).Some? ==> Hex(c).value < 16 && Digit(Hex(c).value, upper) == c
  {
    hide Hex, Digit;
    DigitsAre(c);
    upper := c < 'a' as int;
    if Hex(c).Some? {
      DigitOfHex(c);
    }
  }

  lemma DigitsAre(c: byte)
    ensures Hex(c).Some? <==> IsDigit(c)
  {
    var s := "0123456789abcdefABCDEF";
    if Hex(c).Some? {
      var n := Hex(c).value;
      var k := if n >= 10 && c < 'a' as int then n + 6 else n;
      assert Ascii(s)[k] == s[k] as int == c;
    }
  }

  lemma DigitOfHex(c: byte)
    requires Hex(c).Some?
    ensures Hex(c).value < 16 && Digit(Hex(c).value, c < 'a' as int) == c
  {
    var n := Hex(c).value;
    assert "0123456789ABCDEF"[n] as int == (if n < 10 then '0' as int + n else 'A' as int + n - 10);
    assert "0123456789abcdef"[n] as int == (if n < 10 then '0' as int + n else 'a' as int + n - 10);
  }

  lemma WrittenReads(g: Glyph)
    requires ProperGlyph(g)
    ensures Unescape(Written(g)) == Some([g.b])
  {
    hide Hex, Digit;
    assert Ascii("%") == [PERCENT];
    var w := Written(g);
    assert [g.b] + [] == [g.b];
    match g
    case Plainly(b) => assert w[1..] == [];
    case Escape(b, first, second) =>
      DigitIsHex(b / 16, first);
      DigitIsHex(b % 16, second);
      assert w[3..] == [];
      assert OfHex(b / 16, b % 16) == b;
  }

  lemma BytesFrom(gs: seq<Glyph>)
    requires gs != []
    ensures Bytes(gs) == [gs[0].b] + Bytes(gs[1..])
  {
  }

  /** What has been written is read back, whatever is escaped and in whatever case. */
  lemma {:induction false} TextReads(gs: seq<Glyph>)
    requires Proper(gs)
    ensures Unescape(Text(gs)) == Some(Bytes(gs))
    decreases |gs|
  {
    if gs != [] {
      hide Unescape, Written, ProperGlyph, Bytes;
      WrittenReads(gs[0]);
      TextReads(gs[1..]);
      UnescapeJoins(Written(gs[0]), Text(gs[1..]));
      BytesFrom(gs);
    }
  }

  lemma EscapeAtFront(s: Path) returns (g: Glyph)
    requires |s| >= 3 && s[0] == PERCENT && Hex(s[1]).Some? && Hex(s[2]).Some?
    ensures g.Escape? && Written(g) == s[..3]
  {
    var first := HexIsDigit(s[1]);
    var second := HexIsDigit(s[2]);
    var hi, lo := Hex(s[1]).value, Hex(s[2]).value;
    g := Escape(hi * 16 + lo, first, second);
    assert g.b / 16 == hi && g.b % 16 == lo;
    assert Ascii("%") == [PERCENT];
  }

  /** Whatever can be read has been written so. */
  lemma {:induction false} ReadIsText(s: Path) returns (gs: seq<Glyph>)
    requires Unescape(s).Some?
    ensures Proper(gs) && Text(gs) == s
    decreases |s|
  {
    hide Hex, Digit;
    assert Ascii("%") == [PERCENT];
    gs := [];
    if s != [] {
      if s[0] != PERCENT {
        gs := ReadIsText(s[1..]);
        gs := [Plainly(s[0])] + gs;
      } else {
        gs := ReadIsText(s[3..]);
        var g := EscapeAtFront(s);
        assert s == s[..3] + s[3..];
        gs := [g] + gs;
      }
    }
  }

  /** A string stands for certain bytes exactly when it is a way of writing them. */
  lemma UnescapesIff(s: Path, v: Path)
    ensures Unescape(s) == Some(v) <==> exists gs :: Proper(gs) && Text(gs) == s && Bytes(gs) == v
  {
    if Unescape(s).Some? {
      var gs := ReadIsText(s);
      TextReads(gs);
    }
    forall gs | Proper(gs) && Text(gs) == s ensures Unescape(s) == Some(Bytes(gs)) {
      TextReads(gs);
    }
  }

  /** A percent sign without two hexadecimal digits behind it spoils the whole, whatever stands around it. */
  lemma CutShort(gs: seq<Glyph>, rest: Path)
    requires Proper(gs) && (|rest| < 2 || !IsDigit(rest[0]) || !IsDigit(rest[1]))
    ensures Unescape(Text(gs) + (Ascii("%") + rest)) == None
  {
    TextReads(gs);
    assert Ascii("%") == [PERCENT];
    var bad := Ascii("%") + rest;
    if |rest| >= 2 {
      var first := HexIsDigit(rest[0]);
      var second := HexIsDigit(rest[1]);
    }
    assert Unescape(bad) == None;
    UnescapeJoins(Text(gs), bad);
  }

  /** What an escaped name leaves as it is; RFC 3986 section 2.3. */
  predicate LeftAlone(b: byte)
  {
    || 'A' as int <= b <= 'Z' as int || 'a' as int <= b <= 'z' as int || '0' as int <= b <= '9' as int
    || b in Ascii("-_.~")
  }

  function Careful(b: byte): Glyph { if LeftAlone(b) then Plainly(b) else Escape(b, true, true) }

  function CarefulAll(s: Path): (gs: seq<Glyph>)
    ensures |gs| == |s| && forall i :: 0 <= i < |s| ==> gs[i] == Careful(s[i])
  {
    seq(|s|, i requires 0 <= i < |s| => Careful(s[i]))
  }

  lemma CarefulIs(b: byte)
    ensures EscapeByte(b) == Written(Careful(b))
  {
    assert Ascii("-_.~") == ['-' as int, '_' as int, '.' as int, '~' as int] && Ascii("%") == [PERCENT];
    UpperIs(b / 16);
    UpperIs(b % 16);
  }

  lemma UpperIs(n: nat)
    requires n < 16
    ensures UpperHex(n) == Digit(n, true)
  {
    var c := "0123456789ABCDEF"[n];
    assert c == if n < 10 then ('0' as int + n) as char else ('A' as int + n - 10) as char;
  }

  lemma {:induction false} TextGrows(gs: seq<Glyph>, g: Glyph)
    ensures Text(gs + [g]) == Text(gs) + Written(g)
    decreases |gs|
  {
    if gs == [] {
      assert [] + [g] == [g] && [g][1..] == [];
    } else {
      assert (gs + [g])[1..] == gs[1..] + [g];
      TextGrows(gs[1..], g);
    }
  }

  /** An escaped name is written with every byte but letters, digits and four signs escaped, in large digits. */
  lemma {:induction false} EscapedIs(s: Path)
    ensures Escaped(s) == Text(CarefulAll(s))
  {
    hide EscapeByte, Written, Careful;
    if s != [] {
      var init, last := s[..|s| - 1], s[|s| - 1];
      EscapedIs(init);
      CarefulIs(last);
      assert CarefulAll(s) == CarefulAll(init) + [Careful(last)];
      TextGrows(CarefulAll(init), Careful(last));
    }
  }

  // ---- UTF-8, by the code points encoded ----

  /** A Unicode scalar value. */
  predicate Scalar(c: nat) { c < 0xD800 || 0xE000 <= c < 0x11_0000 }

  /** The table of RFC 3629 section 3. */
  function Encoded(c: nat): Path
    requires Scalar(c)
  {
    if c < 0x80 then [c]
    else if c < 0x800 then [0xC0 + c / 0x40, 0x80 + c % 0x40]
    else if c < 0x1_0000 then [0xE0 + c / 0x1000, 0x80 + c / 0x40 % 0x40, 0x80 + c % 0x40]
    else [0xF0 + c / 0x4_0000, 0x80 + c / 0x1000 % 0x40, 0x80 + c / 0x40 % 0x40, 0x80 + c % 0x40]
  }

  predicate Scalars(cs: seq<nat>) { forall i :: 0 <= i < |cs| ==> Scalar(cs[i]) }

  function EncodedAll(cs: seq<nat>): Path
    requires Scalars(cs)
  {
    if cs == [] then [] else Encoded(cs[0]) + EncodedAll(cs[1..])
  }

  lemma EncodedLength(c: nat, rest: Path)
    requires Scalar(c)
    ensures CharLength(Encoded(c) + rest) == |Encoded(c)| > 0
  {
    var e := Encoded(c);
    assert forall i :: 0 <= i < |e| ==> (e + rest)[i] == e[i];
    if c >= 0x1_0000 {
      FourBytes(c);
    } else if c >= 0x800 {
      ThreeBytes(c);
    }
  }

  lemma ThreeBytes(c: nat)
    requires Scalar(c) && 0x800 <= c < 0x1_0000
    ensures c / 0x1000 == 0 ==> c / 0x40 % 0x40 >= 0x20
    ensures c / 0x1000 == 0xD ==> c / 0x40 % 0x40 < 0x20
    ensures c / 0x1000 < 0x10
  {
    assert c / 0x40 / 0x40 == c / 0x1000;
  }

  lemma FourBytes(c: nat)
    requires 0x1_0000 <= c < 0x11_0000
    ensures c / 0x4_0000 == 0 ==> c / 0x1000 % 0x40 >= 0x10
    ensures c / 0x4_0000 == 4 ==> c / 0x1000 % 0x40 < 0x10
    ensures c / 0x4_0000 < 5
  {
    assert c / 0x1000 / 0x40 == c / 0x4_0000;
  }

  /** The character at the front, if its length says there is one. */
  lemma Decoded(s: Path) returns (c: nat)
    requires CharLength(s) > 0
    ensures Scalar(c) && s[..CharLength(s)] == Encoded(c)
  {
    var n := CharLength(s);
    var lead: int := s[0];
    if n == 1 {
      c := lead;
    } else if n == 2 {
      var x: int := s[1];
      c := (lead - 0xC0) * 0x40 + (x - 0x80);
    } else if n == 3 {
      c := DecodedThree(s);
    } else {
      c := DecodedFour(s);
    }
  }

  lemma DecodedThree(s: Path) returns (c: nat)
    requires CharLength(s) == 3
    ensures Scalar(c) && s[..3] == Encoded(c)
  {
    var lead: int, x: int, y: int := s[0], s[1], s[2];
    c := (lead - 0xE0) * 0x1000 + (x - 0x80) * 0x40 + (y - 0x80);
    assert c / 0x40 == (lead - 0xE0) * 0x40 + (x - 0x80);
    assert c / 0x1000 == lead - 0xE0 && c / 0x40 % 0x40 == x - 0x80 && c % 0x40 == y - 0x80;
  }

  lemma DecodedFour(s: Path) returns (c: nat)
    requires CharLength(s) == 4
    ensures Scalar(c) && s[..4] == Encoded(c)
  {
    var lead: int, x: int, y: int, z: int := s[0], s[1], s[2], s[3];
    c := (lead - 0xF0) * 0x4_0000 + (x - 0x80) * 0x1000 + (y - 0x80) * 0x40 + (z - 0x80);
    assert c / 0x40 == (lead - 0xF0) * 0x1000 + (x - 0x80) * 0x40 + (y - 0x80);
    assert c / 0x1000 == (lead - 0xF0) * 0x40 + (x - 0x80);
    assert c / 0x4_0000 == lead - 0xF0 && c / 0x1000 % 0x40 == x - 0x80;
    assert c / 0x40 % 0x40 == y - 0x80 && c % 0x40 == z - 0x80;
  }

  lemma {:induction false} EncodedIsUtf8(cs: seq<nat>)
    requires Scalars(cs)
    ensures Utf8(EncodedAll(cs))
    decreases |cs|
  {
    if cs != [] {
      var e, rest := Encoded(cs[0]), EncodedAll(cs[1..]);
      EncodedIsUtf8(cs[1..]);
      EncodedLength(cs[0], rest);
      assert (e + rest)[|e|..] == rest;
    }
  }

  lemma {:induction false} Utf8IsEncoded(s: Path) returns (cs: seq<nat>)
    requires Utf8(s)
    ensures Scalars(cs) && EncodedAll(cs) == s
    decreases |s|
  {
    hide CharLength, Encoded, Scalar;
    cs := [];
    if s != [] {
      var n := CharLength(s);
      var c := Decoded(s);
      cs := Utf8IsEncoded(s[n..]);
      assert s == s[..n] + s[n..];
      cs := [c] + cs;
    }
  }

  /** Bytes are UTF-8 exactly when they encode some scalar values, each in the shortest way. */
  lemma Utf8Iff(s: Path)
    ensures Utf8(s) <==> exists cs :: Scalars(cs) && EncodedAll(cs) == s
  {
    if Utf8(s) {
      var cs := Utf8IsEncoded(s);
    }
    forall cs | Scalars(cs) && EncodedAll(cs) == s ensures Utf8(s) {
      EncodedIsUtf8(cs);
    }
  }
}
