/** Types shared by every other module. */
module Common {
  datatype Option<+T> = None | Some(value: T)

  datatype Result<+T, +E> = Ok(value: T) | Err(error: E)

  /** One octet. Text that reaches the wire or the remote is a sequence of these. */
  type byte = b: int | 0 <= b < 256

  type Path = seq<byte>

  const U32_SPAN: nat := 0x1_0000_0000
  const U64_SPAN: nat := 0x1_0000_0000_0000_0000

  type u32 = n: nat | n < U32_SPAN

  type u64 = n: nat | n < U64_SPAN

  function Min(a: int, b: int): int { if a < b then a else b }

  function Max(a: int, b: int): int { if a < b then b else a }

  /** The bytes of plain text. */
  function Ascii(s: string): (b: Path)
    requires forall i :: 0 <= i < |s| ==> s[i] as int < 128
    ensures |b| == |s| && forall i :: 0 <= i < |s| ==> b[i] == s[i] as int
  {
    seq(|s|, i requires 0 <= i < |s| => s[i] as int)
  }

  /** The bytes x, there at i. */
  predicate At(b: seq<byte>, i: nat, x: seq<byte>) { i + |x| <= |b| && b[i..i + |x|] == x }

  lemma AtJoined(b: seq<byte>, i: nat, x: seq<byte>, y: seq<byte>)
    ensures At(b, i, x + y) <==> At(b, i, x) && At(b, i + |x|, y)
  {
    if At(b, i, x + y) {
      assert b[i..i + |x|] == (x + y)[..|x|];
      assert b[i + |x|..i + |x| + |y|] == (x + y)[|x|..];
    }
    if At(b, i, x) && At(b, i + |x|, y) {
      assert b[i..i + |x| + |y|] == b[i..i + |x|] + b[i + |x|..i + |x| + |y|];
    }
  }
}
