/** What the stamp of a listing says, number by number; origin/mod.rs:3243-3249. */
module Stamps {
  import opened Common
  import opened Calendar
  import Ranges

  lemma {:induction false} PadReads(n: nat, w: nat)
    requires n < Limit(w)
    ensures forall i :: 0 <= i < w ==> Ranges.Digit(Pad(n, w)[i])
    ensures Ranges.Value(Pad(n, w)) == n
  {
    if w > 0 {
      PadReads(n / 10, w - 1);
      assert Pad(n, w)[..w - 1] == Pad(n / 10, w - 1);
    }
  }

  /** Digits that say n. */
  ghost predicate ReadsAs(s: string, n: int) { Ranges.Digits(s) && Ranges.Value(s) == n }

  lemma ColumnReads(c: Column)
    requires c.n < Limit(c.width) && c.width > 0
    ensures ReadsAs(Pad(c.n, c.width), c.n)
  {
    PadReads(c.n, c.width);
  }

  lemma LimitsAre()
    ensures Limit(2) == 100 && Limit(4) == 10_000
  {
    assert Limit(1) == 10 && Limit(3) == 1000;
  }

  /** A stamp reads as year, month and day of its day, and hour and minute within it. */
  lemma StampReads(secs: u32)
    ensures var s := UtcStamp(secs); var date := Counted(secs / 86_400);
      && |s| == 16 && s[4] == s[7] == '-' && s[10] == ' ' && s[13] == ':'
      && ReadsAs(s[..4], date.year) && ReadsAs(s[5..7], date.month) && ReadsAs(s[8..10], date.day)
      && ReadsAs(s[11..13], secs % 86_400 / 3600) && ReadsAs(s[14..], secs % 3600 / 60)
  {
    hide Pad, Limit, ReadsAs;
    MomentFits(secs);
    var m := MomentOf(secs);
    LimitsAre();
    MinuteOf(secs);
    var columns := Columns(m);
    forall i | 0 <= i < 5 ensures ReadsAs(Pad(columns[i].n, columns[i].width), columns[i].n) {
      ColumnReads(columns[i]);
    }
    FivePrinted(columns);
  }

  lemma MinuteOf(secs: u32)
    ensures secs % 86_400 % 3600 == secs % 3600
  {
    assert 86_400 == 24 * 3600;
  }

  lemma FivePrinted(c: seq<Column>)
    requires |c| == 5 && c[0].width == 4 && forall i :: 1 <= i < 5 ==> c[i].width == 2
    requires |c[0].after| == |c[1].after| == |c[2].after| == |c[3].after| == 1 && c[4].after == ""
    ensures var s := Printed(c);
      && |s| == 16 && [s[4]] == c[0].after && [s[7]] == c[1].after && [s[10]] == c[2].after && [s[13]] == c[3].after
      && s[..4] == Pad(c[0].n, 4) && s[5..7] == Pad(c[1].n, 2) && s[8..10] == Pad(c[2].n, 2)
      && s[11..13] == Pad(c[3].n, 2) && s[14..] == Pad(c[4].n, 2)
  {
    hide Pad;
    var d1, d2, d3, d4 := c[1..], c[2..], c[3..], c[4..];
    assert d1[1..] == d2 && d2[1..] == d3 && d3[1..] == d4 && d4[1..] == [];
    var t4 := Pad(c[4].n, 2);
    assert Printed(d4) == t4 + "" + "";
    assert Printed(d3) == Pad(c[3].n, 2) + c[3].after + Printed(d4);
    assert Printed(d2) == Pad(c[2].n, 2) + c[2].after + Printed(d3);
    assert Printed(d1) == Pad(c[1].n, 2) + c[1].after + Printed(d2);
    assert Printed(c) == Pad(c[0].n, 4) + c[0].after + Printed(d1);
  }
}
