/** CRC-32 by table, extension/crc32.mjs:9-27, against the division one bit at a time. */
module Crc32 {
  const POLYNOMIAL: bv32 := 0xedb88320

  /** One bit of the reflected division: shift towards the low end, and subtract when a one falls out. */
  function Shift(c: bv32): bv32
  {
    if c & 1 == 1 then POLYNOMIAL ^ (c >> 1) else c >> 1
  }

  function Iterate<T>(f: T -> T, x: T, k: nat): T
  {
    if k == 0 then x else f(Iterate(f, x, k - 1))
  }

  /** What is linear once is linear k times over. */
  lemma {:induction false} IterateLinear<T(!new)>(f: T -> T, plus: (T, T) -> T, x: T, y: T, k: nat)
    requires forall a, b :: f(plus(a, b)) == plus(f(a), f(b))
    ensures Iterate(f, plus(x, y), k) == plus(Iterate(f, x, k), Iterate(f, y, k))
  {
    if k > 0 {
      IterateLinear(f, plus, x, y, k - 1);
    }
  }

  lemma {:induction false} IterateInjective<T(!new)>(f: T -> T, x: T, y: T, k: nat)
    requires forall a, b :: f(a) == f(b) ==> a == b
    requires Iterate(f, x, k) == Iterate(f, y, k)
    ensures x == y
  {
    if k > 0 {
      IterateInjective(f, x, y, k - 1);
    }
  }

  lemma {:induction false} IterateFromFront<T(!new)>(f: T -> T, x: T, k: nat)
    requires k > 0
    ensures Iterate(f, x, k) == Iterate(f, f(x), k - 1)
  {
    if k > 1 {
      IterateFromFront(f, x, k - 1);
    }
  }

  function Xor(a: bv32, b: bv32): bv32 { a ^ b }

  function Shifts(c: bv32, k: nat): bv32 { Iterate(Shift, c, k) }

  lemma Xors(a: bv32, b: bv32)
    ensures (a ^ b) >> 1 == (a >> 1) ^ (b >> 1)
    ensures (a ^ b) & 1 == (a & 1) ^ (b & 1)
    ensures a & 1 == 0 || a & 1 == 1
    ensures a ^ b == b ^ a
  {
  }

  lemma ShiftLinearOnes(a: bv32, b: bv32)
    requires a & 1 == 1 && b & 1 == 1
    ensures Shift(a ^ b) == Shift(a) ^ Shift(b)
  {
  }

  lemma ShiftLinearMixed(a: bv32, b: bv32)
    requires a & 1 == 0 && b & 1 == 1
    ensures Shift(a ^ b) == Shift(a) ^ Shift(b)
  {
  }

  lemma ShiftLinearZeros(a: bv32, b: bv32)
    requires a & 1 == 0 && b & 1 == 0
    ensures Shift(a ^ b) == Shift(a) ^ Shift(b)
  {
  }

  lemma ShiftLinear(a: bv32, b: bv32)
    ensures Shift(a ^ b) == Shift(a) ^ Shift(b)
  {
    Xors(a, b);
    Xors(b, a);
    Xors(Shift(a), Shift(b));
    if a & 1 == 1 {
      if b & 1 == 1 {
        ShiftLinearOnes(a, b);
      } else {
        ShiftLinearMixed(b, a);
      }
    } else {
      if b & 1 == 1 {
        ShiftLinearMixed(a, b);
      } else {
        ShiftLinearZeros(a, b);
      }
    }
  }

  lemma ShiftInjective(a: bv32, b: bv32)
    requires Shift(a) == Shift(b)
    ensures a == b
  {
  }

  lemma ShiftsLinear(a: bv32, b: bv32, k: nat)
    ensures Shifts(Xor(a, b), k) == Xor(Shifts(a, k), Shifts(b, k))
  {
    forall x, y ensures Shift(Xor(x, y)) == Xor(Shift(x), Shift(y)) {
      ShiftLinear(x, y);
    }
    IterateLinear(Shift, Xor, a, b, k);
  }

  lemma ShiftsInjective(a: bv32, b: bv32, k: nat)
    requires Shifts(a, k) == Shifts(b, k)
    ensures a == b
  {
    forall x, y | Shift(x) == Shift(y) ensures x == y {
      ShiftInjective(x, y);
    }
    IterateInjective(Shift, a, b, k);
  }

  // ---- The division, one bit of the message at a time ----

  /** k bits of b, lowest first. */
  function Feed(c: bv32, b: bv32, k: nat): bv32
    decreases k
  {
    if k == 0 then c else Feed(Shift(c ^ (b & 1)), b >> 1, k - 1)
  }

  function Divide(c: bv32, message: seq<bv8>): bv32
  {
    if message == [] then c
    else Feed(Divide(c, message[..|message| - 1]), message[|message| - 1] as bv32, 8)
  }

  const ONES: bv32 := 0xffffffff

  function Crc(message: seq<bv8>): bv32 { Divide(ONES, message) ^ ONES }

  function Half(b: bv32): bv32 { b >> 1 }

  lemma FeedOneAgainstOne(c: bv32, b: bv32)
    requires c & 1 == 1 && b & 1 == 1
    ensures Shift(c ^ 1) ^ (b >> 1) == Shift(c ^ b)
  {
  }

  lemma FeedOneAgainstZero(c: bv32, b: bv32)
    requires c & 1 == 0 && b & 1 == 1
    ensures Shift(c ^ 1) ^ (b >> 1) == Shift(c ^ b)
  {
  }

  /** A bit goes in now, or has been in since the start. */
  lemma FeedOne(c: bv32, b: bv32)
    ensures Xor(Shift(c ^ (b & 1)), Half(b)) == Shift(Xor(c, b))
  {
    Xors(b, c);
    Xors(c, b);
    if b & 1 == 0 {
      ShiftLinear(c, b);
    } else if c & 1 == 1 {
      FeedOneAgainstOne(c, b);
    } else {
      FeedOneAgainstZero(c, b);
    }
  }

  lemma ShiftsLater(c': bv32, b: bv32, x: bv32, k: nat)
    requires k > 0 && Xor(c', Half(b)) == Shift(x)
    ensures Shifts(Xor(c', Half(b)), k - 1) == Shifts(x, k)
  {
    IterateFromFront(Shift, x, k);
  }

  /** Adding the byte in first and shifting after comes to the same. */
  lemma {:induction false} FeedIsShifts(c: bv32, b: bv32, k: nat)
    ensures Xor(Feed(c, b, k), Iterate(Half, b, k)) == Shifts(Xor(c, b), k)
    decreases k
  {
    if k > 0 {
      var c' := Shift(c ^ (b & 1));
      FeedIsShifts(c', Half(b), k - 1);
      IterateFromFront(Half, b, k);
      FeedOne(c, b);
      ShiftsLater(c', b, Xor(c, b), k);
    }
  }

  // ---- The table ----

  lemma HalfOf(b: bv32)
    ensures Half(b) == b >> 1 && Half(b >> 1) == b >> 2 && Half(b >> 2) == b >> 3 && Half(b >> 3) == b >> 4
    ensures Half(b >> 4) == b >> 5 && Half(b >> 5) == b >> 6 && Half(b >> 6) == b >> 7 && Half(b >> 7) == b >> 8
  {
  }

  lemma IterateUpToEight<T(!new)>(f: T -> T, x: T, y: seq<T>)
    requires |y| == 9 && y[0] == x && forall i :: 0 <= i < 8 ==> y[i + 1] == f(y[i])
    ensures forall i :: 0 <= i <= 8 ==> Iterate(f, x, i) == y[i]
  {
    for i := 0 to 8
      invariant forall j :: 0 <= j <= i ==> Iterate(f, x, j) == y[j]
    {
      assert y[i + 1] == f(y[i]);
    }
  }

  lemma Halves(b: bv32) returns (y: seq<bv32>)
    ensures y == [b, b >> 1, b >> 2, b >> 3, b >> 4, b >> 5, b >> 6, b >> 7, b >> 8]
    ensures forall i :: 0 <= i <= 8 ==> Iterate(Half, b, i) == y[i]
  {
    y := [b, b >> 1, b >> 2, b >> 3, b >> 4, b >> 5, b >> 6, b >> 7, b >> 8];
    HalfOf(b);
    IterateUpToEight(Half, b, y);
  }

  /** A word whose k lowest bits are clear is only shifted. */
  lemma {:induction false} ClearBitsShift(x: bv32, k: nat)
    requires Clear(x, k)
    ensures Shifts(x, k) == Iterate(Half, x, k)
  {
    if k > 0 {
      ClearBitsShift(x, k - 1);
      ShiftOfEven(Iterate(Half, x, k - 1));
    }
  }

  predicate Clear(x: bv32, k: nat) { forall i :: 0 <= i < k ==> Iterate(Half, x, i) & 1 == 0 }

  lemma ShiftOfEven(x: bv32)
    requires x & 1 == 0
    ensures Shift(x) == Half(x)
  {
  }

  lemma LowBits(x: bv32)
    requires x & 0xff == 0
    ensures x & 1 == 0 && (x >> 1) & 1 == 0 && (x >> 2) & 1 == 0 && (x >> 3) & 1 == 0
    ensures (x >> 4) & 1 == 0 && (x >> 5) & 1 == 0 && (x >> 6) & 1 == 0 && (x >> 7) & 1 == 0
  {
  }

  lemma LowByteClear(x: bv32)
    requires x & 0xff == 0
    ensures Shifts(x, 8) == x >> 8
  {
    var y := Halves(x);
    LowBits(x);
    forall i | 0 <= i < 8 ensures Iterate(Half, x, i) & 1 == 0 {
      assert Iterate(Half, x, i) == y[i];
    }
    ClearBitsShift(x, 8);
  }

  lemma Halved(low: bv32)
    requires low & 0xff == low
    ensures Iterate(Half, low, 8) == 0
  {
    var _ := Halves(low);
    NothingAbove(low);
  }

  lemma NothingAbove(low: bv32)
    requires low & 0xff == low
    ensures low >> 8 == 0
  {
  }

  lemma SplitWord(x: bv32)
    ensures (x & 0xff) ^ (x & 0xffffff00) == x
    ensures (x & 0xffffff00) & 0xff == 0
    ensures (x & 0xffffff00) >> 8 == x >> 8
  {
  }

  lemma ByteFits(b: bv8)
    ensures (b as bv32) & 0xff == b as bv32 && (b as bv32) >> 8 == 0
  {
  }

  lemma XorAbove(c: bv32, b: bv32)
    requires b >> 8 == 0
    ensures (c ^ b) >> 8 == c >> 8
  {
  }

  lemma XorZero(a: bv32)
    ensures Xor(a, 0) == a
  {
  }

  lemma ShiftsOfWord(x: bv32)
    ensures Shifts(x, 8) == Xor(Shifts(x & 0xff, 8), x >> 8)
  {
    SplitWord(x);
    assert x == Xor(x & 0xff, x & 0xffffff00);
    ShiftsLinear(x & 0xff, x & 0xffffff00, 8);
    LowByteClear(x & 0xffffff00);
  }

  lemma FeedByte(c: bv32, byte: bv8)
    ensures Feed(c, byte as bv32, 8) == Shifts(Xor(c, byte as bv32), 8)
  {
    ByteFits(byte);
    FeedIsShifts(c, byte as bv32, 8);
    Halved(byte as bv32);
    XorZero(Feed(c, byte as bv32, 8));
  }

  /** The low byte of what is left, with a byte of the message added. */
  function Index(c: bv32, byte: bv8): bv32 { Xor(c, byte as bv32) & 0xff }

  /** One step by table is eight by bit: the table answers for the low byte, and the rest only moves down. */
  lemma TableStep(c: bv32, byte: bv8)
    ensures Feed(c, byte as bv32, 8) == Xor(Shifts(Index(c, byte), 8), c >> 8)
  {
    FeedByte(c, byte);
    ShiftsOfWord(Xor(c, byte as bv32));
    ByteFits(byte);
    XorAbove(c, byte as bv32);
  }

  lemma IndexBack(x: bv32)
    ensures 0 <= (x & 0xff) as int < 256 && ((x & 0xff) as int) as bv32 == x & 0xff
  {
    Masked(x);
    WordBack(x & 0xff);
    Bounded(x & 0xff);
  }

  lemma Masked(x: bv32)
    ensures x & 0xff <= 0xff
  {
  }

  lemma Bounded(x: bv32)
    requires x <= 0xff
    ensures x as int <= 0xff
  {
  }

  lemma WordBack(x: bv32)
    ensures (x as int) as bv32 == x
  {
  }

  function Entry(n: int): bv32
    requires 0 <= n < 256
  {
    Shifts(n as bv32, 8)
  }

  predicate IsTable(table: seq<bv32>)
  {
    |table| == 256 && forall n :: 0 <= n < 256 ==> table[n] == Entry(n)
  }

  method MakeTable() returns (table: array<bv32>)
    ensures fresh(table) && IsTable(table[..])
  {
    table := new bv32[256];
    for n := 0 to 256
      invariant forall i :: 0 <= i < n ==> table[i] == Entry(i)
    {
      var c := EightTimes(n as bv32);
      table[n] := c;
    }
  }

  /** The inner loop. */
  method EightTimes(n: bv32) returns (c: bv32)
    ensures c == Shifts(n, 8)
  {
    c := n;
    for k := 0 to 8
      invariant c == Shifts(n, k)
    {
      c := if c & 1 == 1 then POLYNOMIAL ^ (c >> 1) else c >> 1;
    }
  }

  /** The bits of a number read as signed or unsigned are the same bits, so `>>> 0` at the end changes none. */
  method Checksum(table: array<bv32>, buf: seq<bv8>) returns (crc: bv32)
    requires IsTable(table[..])
    ensures crc == Crc(buf)
  {
    var c := ONES;
    assert buf[..0] == [];
    for i := 0 to |buf|
      invariant c == Divide(ONES, buf[..i])
    {
      DivideNext(ONES, buf, i);
      c := ByTable(table, c, buf[i]);
    }
    assert buf[..|buf|] == buf;
    crc := c ^ ONES;
  }

  lemma DivideNext(c: bv32, buf: seq<bv8>, i: nat)
    requires i < |buf|
    ensures Divide(c, buf[..i + 1]) == Feed(Divide(c, buf[..i]), buf[i] as bv32, 8)
  {
    assert buf[..i + 1][..i] == buf[..i] && buf[..i + 1][i] == buf[i];
  }

  /** The body of the loop. */
  method ByTable(table: array<bv32>, c: bv32, byte: bv8) returns (r: bv32)
    requires IsTable(table[..])
    ensures r == Feed(c, byte as bv32, 8)
  {
    TableStep(c, byte);
    IndexBack(Xor(c, byte as bv32));
    var index := Index(c, byte) as int;
    assert table[..][index] == Entry(index);
    r := Xor(table[index], c >> 8);
  }

  // ---- What the checksum is for ----

  lemma FeedInjective(c: bv32, d: bv32, a: bv8, b: bv8)
    requires Feed(c, a as bv32, 8) == Feed(d, b as bv32, 8)
    ensures Xor(c, a as bv32) == Xor(d, b as bv32)
  {
    ByteFits(a);
    ByteFits(b);
    FeedIsShifts(c, a as bv32, 8);
    FeedIsShifts(d, b as bv32, 8);
    Halved(a as bv32);
    Halved(b as bv32);
    ShiftsInjective(Xor(c, a as bv32), Xor(d, b as bv32), 8);
  }

  lemma XorCancels(c: bv32, d: bv32, a: bv8, b: bv8)
    requires Xor(c, a as bv32) == Xor(d, b as bv32)
    ensures a == b ==> c == d
    ensures c == d ==> a == b
  {
  }

  lemma {:induction false} SameSuffix(c: bv32, d: bv32, suffix: seq<bv8>)
    requires Divide(c, suffix) == Divide(d, suffix)
    ensures c == d
  {
    if suffix != [] {
      var init, last := suffix[..|suffix| - 1], suffix[|suffix| - 1];
      FeedInjective(Divide(c, init), Divide(d, init), last, last);
      XorCancels(Divide(c, init), Divide(d, init), last, last);
      SameSuffix(c, d, init);
    }
  }

  lemma {:induction false} DivideJoined(c: bv32, front: seq<bv8>, back: seq<bv8>)
    ensures Divide(c, front + back) == Divide(Divide(c, front), back)
  {
    if back == [] {
      assert front + back == front;
    } else {
      var init := back[..|back| - 1];
      assert (front + back)[..|front + back| - 1] == front + init;
      DivideJoined(c, front, init);
    }
  }

  lemma DivideOne(c: bv32, b: bv8)
    ensures Divide(c, [b]) == Feed(c, b as bv32, 8)
  {
    assert [b][..0] == [];
    assert Divide(c, []) == c;
  }

  /** No change confined to one byte goes unnoticed. */
  lemma OneByteShows(front: seq<bv8>, a: bv8, b: bv8, back: seq<bv8>)
    requires a != b
    ensures Crc(front + [a] + back) != Crc(front + [b] + back)
  {
    var c := Divide(ONES, front);
    DivideJoined(ONES, front + [a], back);
    DivideJoined(ONES, front + [b], back);
    DivideJoined(ONES, front, [a]);
    DivideJoined(ONES, front, [b]);
    DivideOne(c, a);
    DivideOne(c, b);
    var x, y := Divide(Feed(c, a as bv32, 8), back), Divide(Feed(c, b as bv32, 8), back);
    if x == y {
      SameSuffix(Feed(c, a as bv32, 8), Feed(c, b as bv32, 8), back);
      FeedInjective(c, c, a, b);
      XorCancels(c, c, a, b);
      assert false;
    }
    FlipsDiffer(x, y);
  }

  lemma FlipsDiffer(x: bv32, y: bv32)
    requires x != y
    ensures x ^ ONES != y ^ ONES
  {
  }

  // ---- The check value ----

  function Eight(c: bv32): bv32 { Shift(Shift(Shift(Shift(Shift(Shift(Shift(Shift(c)))))))) }

  lemma EightShifts(c: bv32)
    ensures Shifts(c, 8) == Eight(c)
  {
    hide Shift;
    var one := Iterate(Shift, c, 1);
    assert Iterate(Shift, c, 0) == c;
    assert one == Shift(c);
    var two := Iterate(Shift, c, 2);
    assert two == Shift(one);
    var four := Iterate(Shift, c, 4);
    assert Iterate(Shift, c, 3) == Shift(two);
    assert four == Shift(Shift(two));
    var six := Iterate(Shift, c, 6);
    assert Iterate(Shift, c, 5) == Shift(four);
    assert six == Shift(Shift(four));
    assert Iterate(Shift, c, 7) == Shift(six);
  }

  lemma OneMore(message: seq<bv8>, b: bv8, before: bv32)
    requires Divide(ONES, message) == before
    ensures Divide(ONES, message + [b]) == Eight(Xor(before, b as bv32))
  {
    hide Shift;
    assert (message + [b])[..|message|] == message;
    FeedByte(before, b);
    EightShifts(Xor(before, b as bv32));
  }

  /** The published check value: the checksum of the nine digits "123456789". */
  lemma CheckValue()
    ensures Crc([0x31, 0x32, 0x33, 0x34, 0x35, 0x36, 0x37, 0x38, 0x39]) == 0xcbf43926
  {
    hide Divide, Eight;
    Nothing();
    var m: seq<bv8> := [];
    OneMore(m, 0x31, 0xffffffff);
    Step1();
    m := m + [0x31];
    OneMore(m, 0x32, 0x7c231048);
    Step2();
    m := m + [0x32];
    OneMore(m, 0x33, 0xb0acbb32);
    Step3();
    m := m + [0x33];
    OneMore(m, 0x34, 0x77b79c2d);
    Step4();
    m := m + [0x34];
    OneMore(m, 0x35, 0x641c1f5c);
    Step5();
    m := m + [0x35];
    OneMore(m, 0x36, 0x340ac5e3);
    Step6();
    m := m + [0x36];
    OneMore(m, 0x37, 0xf68d2c9e);
    Step7();
    m := m + [0x37];
    OneMore(m, 0x38, 0xaffc9660);
    Step8();
    m := m + [0x38];
    OneMore(m, 0x39, 0x651f2550);
    Step9();
    m := m + [0x39];
    assert m == [0x31, 0x32, 0x33, 0x34, 0x35, 0x36, 0x37, 0x38, 0x39];
  }

  lemma Nothing()
    ensures Divide(ONES, []) == 0xffffffff
  {
  }

  lemma Step1()
    ensures Eight(Xor(0xffffffff, 0x31)) == 0x7c231048
  {
  }

  lemma Step2()
    ensures Eight(Xor(0x7c231048, 0x32)) == 0xb0acbb32
  {
  }

  lemma Step3()
    ensures Eight(Xor(0xb0acbb32, 0x33)) == 0x77b79c2d
  {
  }

  lemma Step4()
    ensures Eight(Xor(0x77b79c2d, 0x34)) == 0x641c1f5c
  {
  }

  lemma Step5()
    ensures Eight(Xor(0x641c1f5c, 0x35)) == 0x340ac5e3
  {
  }

  lemma Step6()
    ensures Eight(Xor(0x340ac5e3, 0x36)) == 0xf68d2c9e
  {
  }

  lemma Step7()
    ensures Eight(Xor(0xf68d2c9e, 0x37)) == 0xaffc9660
  {
  }

  lemma Step8()
    ensures Eight(Xor(0xaffc9660, 0x38)) == 0x651f2550
  {
  }

  lemma Step9()
    ensures Eight(Xor(0x651f2550, 0x39)) == 0x340bc6d9
  {
  }
}
