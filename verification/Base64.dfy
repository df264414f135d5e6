/** Base64 as the browser flag takes it, tls/mod.rs:400-424 and RFC 4648 section 4. */
module Base64 {
  import opened Common

  type sextet = n: nat | n < 64

  /** A to Z, a to z, 0 to 9, plus and slash. */
  function Letter(v: sextet): char
  {
    if v < 26 then ('A' as int + v) as char
    else if v < 52 then ('a' as int + v - 26) as char
    else if v < 62 then ('0' as int + v - 52) as char
    else if v == 62 then '+' else '/'
  }

  function Value(c: char): Option<sextet>
  {
    if 'A' <= c <= 'Z' then Some(c as int - 'A' as int)
    else if 'a' <= c <= 'z' then Some(c as int - 'a' as int + 26)
    else if '0' <= c <= '9' then Some(c as int - '0' as int + 52)
    else if c == '+' then Some(62) else if c == '/' then Some(63) else None
  }

  lemma ValueOfLetter(v: sextet)
    ensures Value(Letter(v)) == Some(v) && Letter(v) != '='
  {
  }

  /** The letters in their order, RFC 4648 table 1. */
  lemma LettersAre(v: sextet)
    ensures v < 26 ==> Letter(v) == "ABCDEFGHIJKLMNOPQRSTUVWXYZ"[v]
    ensures 26 <= v < 52 ==> Letter(v) == "abcdefghijklmnopqrstuvwxyz"[v - 26]
    ensures v >= 52 ==> Letter(v) == "0123456789+/"[v - 52]
  {
  }

  lemma LetterOfValue(c: char)
    requires Value(c).Some?
    ensures Letter(Value(c).value) == c
  {
  }

  /** The bytes of a chunk side by side, zeros for those that are missing. */
  function Word(chunk: seq<byte>): (n: nat)
    requires 1 <= |chunk| <= 3
    ensures n < 0x100_0000
  {
    var b0: nat := chunk[0];
    b0 * 65536 + ByteAt(chunk, 1) * 256 + ByteAt(chunk, 2)
  }

  function ByteAt(chunk: seq<byte>, i: nat): nat { if i < |chunk| then chunk[i] else 0 }

  /** Four letters for three bytes; a missing byte is read as zero, and its letter is an equals sign. */
  function Quad(chunk: seq<byte>): (s: string)
    requires 1 <= |chunk| <= 3
    ensures |s| == 4
  {
    var n := Word(chunk);
    [Letter(n / 262144), Letter(n / 4096 % 64),
     if |chunk| > 1 then Letter(n / 64 % 64) else '=',
     if |chunk| > 2 then Letter(n % 64) else '=']
  }

  function Encode(bytes: seq<byte>): string
  {
    if bytes == [] then ""
    else if |bytes| <= 3 then Quad(bytes)
    else Quad(bytes[..3]) + Encode(bytes[3..])
  }

  method Base64(bytes: seq<byte>) returns (out: string)
    ensures out == Encode(bytes)
  {
    hide Quad;
    out := "";
    var i := 0;
    while i < |bytes|
      invariant 0 <= i <= |bytes|
      invariant out + Encode(bytes[i..]) == Encode(bytes)
      decreases |bytes| - i
    {
      var len := Min(3, |bytes| - i);
      EncodeNext(bytes[i..], len);
      assert bytes[i..][..len] == bytes[i..i + len] && bytes[i..][len..] == bytes[i + len..];
      out := out + Quad(bytes[i..i + len]);
      i := i + len;
    }
  }

  lemma EncodeNext(rest: seq<byte>, len: nat)
    requires rest != [] && len == Min(3, |rest|)
    ensures Encode(rest) == Quad(rest[..len]) + Encode(rest[len..])
  {
    if |rest| <= 3 {
      assert rest[..len] == rest && rest[len..] == [];
    }
  }

  // ---- Decoding, from the section's own account ----

  /** What four characters say, where they are well formed; padding only when they are the last. */
  function Unquad(s: string, last: bool): Option<seq<byte>>
    requires |s| == 4
  {
    var v0, v1, v2, v3 := Value(s[0]), Value(s[1]), Value(s[2]), Value(s[3]);
    if v0.None? || v1.None? then None
    else
      var b0 := v0.value * 4 + v1.value / 16;
      if last && s[2] == '=' && s[3] == '=' then
        if v1.value % 16 == 0 then Some([b0]) else None
      else if v2.None? then None
      else
        var b1 := v1.value % 16 * 16 + v2.value / 4;
        if last && s[3] == '=' then
          if v2.value % 4 == 0 then Some([b0, b1]) else None
        else if v3.None? then None
        else Some([b0, b1, v2.value % 4 * 64 + v3.value])
  }

  function Decode(s: string): Option<seq<byte>>
  {
    if s == "" then Some([])
    else if |s| < 4 then None
    else
      var first := Unquad(s[..4], |s| == 4);
      var rest := Decode(s[4..]);
      if first.Some? && rest.Some? then Some(first.value + rest.value) else None
  }

  lemma Sextets(b0: nat, b1: nat, b2: nat)
    requires b0 < 256 && b1 < 256 && b2 < 256
    ensures var n := b0 * 65536 + b1 * 256 + b2;
      && n / 262144 == b0 / 4 && n / 4096 % 64 == b0 % 4 * 16 + b1 / 16
      && n / 64 % 64 == b1 % 16 * 4 + b2 / 64 && n % 64 == b2 % 64
  {
    var a, b, c, d := b0 / 4, b0 % 4 * 16 + b1 / 16, b1 % 16 * 4 + b2 / 64, b2 % 64;
    assert b0 * 65536 + b1 * 256 + b2 == a * 262144 + b * 4096 + c * 64 + d;
    Digits(a, b, c, d);
  }

  lemma Digits(a: nat, b: nat, c: nat, d: nat)
    requires b < 64 && c < 64 && d < 64
    ensures var n := a * 262144 + b * 4096 + c * 64 + d;
      n / 262144 == a && n / 4096 % 64 == b && n / 64 % 64 == c && n % 64 == d
  {
    var n := a * 262144 + b * 4096 + c * 64 + d;
    assert n / 64 == a * 4096 + b * 64 + c;
    assert n / 4096 == a * 64 + b;
  }

  lemma QuadValues(chunk: seq<byte>)
    requires 1 <= |chunk| <= 3
    ensures var b0, b1, b2 := ByteAt(chunk, 0), ByteAt(chunk, 1), ByteAt(chunk, 2); var s := Quad(chunk);
      && Value(s[0]) == Some(b0 / 4) && Value(s[1]) == Some(b0 % 4 * 16 + b1 / 16)
      && (if |chunk| > 1 then Value(s[2]) == Some(b1 % 16 * 4 + b2 / 64) && s[2] != '=' else s[2] == '=')
      && (if |chunk| > 2 then Value(s[3]) == Some(b2 % 64) && s[3] != '=' else s[3] == '=')
  {
    var n := Word(chunk);
    Sextets(ByteAt(chunk, 0), ByteAt(chunk, 1), ByteAt(chunk, 2));
    ValueOfLetter(n / 262144);
    ValueOfLetter(n / 4096 % 64);
    ValueOfLetter(n / 64 % 64);
    ValueOfLetter(n % 64);
  }

  lemma UnquadOfQuad(chunk: seq<byte>, last: bool)
    requires 1 <= |chunk| <= 3 && (last || |chunk| == 3)
    ensures Unquad(Quad(chunk), last) == Some(chunk)
  {
    QuadValues(chunk);
    Joins(ByteAt(chunk, 0), ByteAt(chunk, 1), ByteAt(chunk, 2));
    if |chunk| == 1 {
      assert chunk == [chunk[0]];
    } else if |chunk| == 2 {
      assert chunk == [chunk[0], chunk[1]];
    } else {
      assert chunk == [chunk[0], chunk[1], chunk[2]];
    }
  }

  lemma Joins(b0: nat, b1: nat, b2: nat)
    requires b0 < 256 && b1 < 256 && b2 < 256
    ensures var v1, v2 := b0 % 4 * 16 + b1 / 16, b1 % 16 * 4 + b2 / 64;
      && b0 / 4 * 4 + v1 / 16 == b0 && v1 % 16 * 16 + v2 / 4 == b1 && v2 % 4 * 64 + b2 % 64 == b2
      && (b1 == 0 ==> v1 % 16 == 0) && (b2 == 0 ==> v2 % 4 == 0)
  {
    var v1, v2 := b0 % 4 * 16 + b1 / 16, b1 % 16 * 4 + b2 / 64;
    assert v1 / 16 == b0 % 4 && v1 % 16 == b1 / 16;
    assert v2 / 4 == b1 % 16 && v2 % 4 == b2 / 64;
  }

  /** Bytes put together out of sextets come apart into them. */
  lemma Bytes(v0: sextet, v1: sextet, v2: sextet, v3: sextet)
    ensures var b0, b1, b2 := v0 * 4 + v1 / 16, v1 % 16 * 16 + v2 / 4, v2 % 4 * 64 + v3;
      && b0 < 256 && b1 < 256 && b2 < 256
      && b0 / 4 == v0 && b0 % 4 * 16 + b1 / 16 == v1 && b1 % 16 * 4 + b2 / 64 == v2 && b2 % 64 == v3
  {
    var b0: nat, b1: nat, b2: nat := v0 * 4 + v1 / 16, v1 % 16 * 16 + v2 / 4, v2 % 4 * 64 + v3;
    assert b0 / 4 == v0 && b0 % 4 == v1 / 16;
    assert b1 / 16 == v1 % 16 && b1 % 16 == v2 / 4;
    assert b2 / 64 == v2 % 4 && b2 % 64 == v3;
  }

  lemma SameLetter(c: char, d: char)
    requires Value(c).Some? && Value(c) == Value(d)
    ensures c == d
  {
    LetterOfValue(c);
    LetterOfValue(d);
  }

  /** The sextets of a quad that decodes, with zeros for the padding. */
  lemma UnquadValues(s: string, last: bool) returns (v0: sextet, v1: sextet, v2: sextet, v3: sextet)
    requires |s| == 4 && Unquad(s, last).Some?
    ensures var chunk := Unquad(s, last).value;
      && 1 <= |chunk| <= 3 && (last || |chunk| == 3)
      && Value(s[0]) == Some(v0) && Value(s[1]) == Some(v1)
      && (if |chunk| > 1 then Value(s[2]) == Some(v2) else v2 == 0 && s[2] == '=')
      && (if |chunk| > 2 then Value(s[3]) == Some(v3) else v3 == 0 && s[3] == '=')
      && ByteAt(chunk, 0) == v0 * 4 + v1 / 16 && ByteAt(chunk, 1) == v1 % 16 * 16 + v2 / 4
      && ByteAt(chunk, 2) == v2 % 4 * 64 + v3
  {
    var chunk := Unquad(s, last).value;
    v0, v1 := Value(s[0]).value, Value(s[1]).value;
    v2 := if |chunk| > 1 then Value(s[2]).value else 0;
    v3 := if |chunk| > 2 then Value(s[3]).value else 0;
  }

  lemma QuadOfUnquad(s: string, last: bool)
    requires |s| == 4 && Unquad(s, last).Some?
    ensures var chunk := Unquad(s, last).value;
      1 <= |chunk| <= 3 && (last || |chunk| == 3) && Quad(chunk) == s
  {
    hide Unquad, Quad, Value, Letter;
    var chunk := Unquad(s, last).value;
    var v0, v1, v2, v3 := UnquadValues(s, last);
    Bytes(v0, v1, v2, v3);
    QuadValues(chunk);
    var t := Quad(chunk);
    SameLetter(s[0], t[0]);
    SameLetter(s[1], t[1]);
    if |chunk| > 1 {
      SameLetter(s[2], t[2]);
    }
    if |chunk| > 2 {
      SameLetter(s[3], t[3]);
    }
    assert s == [s[0], s[1], s[2], s[3]];
    assert t == [t[0], t[1], t[2], t[3]];
  }

  /** The encoding decodes to what was encoded, and nothing else encodes as it does. */
  lemma {:induction false} DecodeOfEncode(bytes: seq<byte>)
    ensures Decode(Encode(bytes)) == Some(bytes)
  {
    if bytes == [] {
    } else if |bytes| <= 3 {
      UnquadOfQuad(bytes, true);
      assert Quad(bytes)[..4] == Quad(bytes) && Quad(bytes)[4..] == "";
      assert bytes + [] == bytes;
    } else {
      var first, rest := bytes[..3], bytes[3..];
      DecodeOfEncode(rest);
      UnquadOfQuad(first, false);
      EncodeNotEmpty(rest);
      assert Encode(bytes)[..4] == Quad(first) && Encode(bytes)[4..] == Encode(rest);
      assert first + rest == bytes;
    }
  }

  lemma EncodeNotEmpty(bytes: seq<byte>)
    requires bytes != []
    ensures Encode(bytes) != ""
  {
  }

  lemma {:induction false} EncodeOfDecode(s: string)
    requires Decode(s).Some?
    ensures Encode(Decode(s).value) == s
  {
    if s != "" {
      var first := Unquad(s[..4], |s| == 4).value;
      var rest := Decode(s[4..]).value;
      QuadOfUnquad(s[..4], |s| == 4);
      EncodeOfDecode(s[4..]);
      if |s| == 4 {
        assert s[4..] == "" && s[..4] == s && first + rest == first;
      } else {
        assert rest != [];
        assert (first + rest)[..3] == first && (first + rest)[3..] == rest;
      }
    }
  }

  /** A text is the encoding of these bytes exactly when it decodes to them. */
  lemma EncodesIffDecodes(s: string, bytes: seq<byte>)
    ensures Decode(s) == Some(bytes) <==> s == Encode(bytes)
  {
    DecodeOfEncode(bytes);
    if Decode(s).Some? {
      EncodeOfDecode(s);
    }
  }

  lemma {:induction false} EncodedLength(bytes: seq<byte>)
    ensures |Encode(bytes)| == (|bytes| + 2) / 3 * 4
  {
    if |bytes| > 3 {
      EncodedLength(bytes[3..]);
    }
  }
}
