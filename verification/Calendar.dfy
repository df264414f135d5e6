/**
 Dates: the two copies of civil_from_days, and the stamp a listing shows, origin/mod.rs:3243-3265 and
 tls/mod.rs:262-278.
 */
module Calendar {
  import opened Common

  datatype Date = Date(year: int, month: int, day: int)

  // ---- The proleptic Gregorian calendar, day by day ----

  predicate IsLeap(y: int) { y % 4 == 0 && (y % 100 != 0 || y % 400 == 0) }

  function DaysIn(y: int, m: int): int
  {
    if m == 2 then (if IsLeap(y) then 29 else 28)
    else if m == 4 || m == 6 || m == 9 || m == 11 then 30 else 31
  }

  predicate IsDate(d: Date) { 1 <= d.month <= 12 && 1 <= d.day <= DaysIn(d.year, d.month) }

  function Next(d: Date): Date
  {
    if d.day < DaysIn(d.year, d.month) then Date(d.year, d.month, d.day + 1)
    else if d.month < 12 then Date(d.year, d.month + 1, 1)
    else Date(d.year + 1, 1, 1)
  }

  function Previous(d: Date): Date
  {
    if d.day > 1 then Date(d.year, d.month, d.day - 1)
    else if d.month > 1 then Date(d.year, d.month - 1, DaysIn(d.year, d.month - 1))
    else Date(d.year - 1, 12, 31)
  }

  /** The date that many days after 1970-01-01, counted one at a time. */
  function Counted(z: int): Date
    decreases if z < 0 then -z else z
  {
    if z == 0 then Date(1970, 1, 1)
    else if z > 0 then Next(Counted(z - 1))
    else Previous(Counted(z + 1))
  }

  // ---- The two copies ----

  const EPOCH: int := 719_468
  const CYCLE: int := 146_097

  /** Rust's `/` on signed integers, for a positive divisor. */
  function TruncDiv(a: int, b: int): int
    requires b > 0
  {
    if a >= 0 then a / b else -((-a) / b)
  }

  function YearOfEra(doe: int): int { (doe - doe / 1460 + doe / 36_524 - doe / 146_096) / 365 }

  /** Days of an era before its year y, which starts on the first of March. */
  function YearStart(y: int): int { 365 * y + y / 4 - y / 100 }

  /** From a day of an era to a date, as both copies have it. */
  function InEra(era: int, doe: int): Date
  {
    var yoe := YearOfEra(doe);
    InYear(yoe + era * 400, doe - YearStart(yoe))
  }

  /** A day of the year y that starts on the first of March. */
  function InYear(y: int, doy: int): Date
  {
    var mp := (5 * doy + 2) / 153;
    var d := doy - (153 * mp + 2) / 5 + 1;
    var m := if mp < 10 then mp + 3 else mp - 9;
    Date(if m <= 2 then y + 1 else y, m, d)
  }

  /** The listing's copy: `div_euclid` on an operand already adjusted for a division that truncates. */
  function ListingCivil(days: int): Date
  {
    var z := days + EPOCH;
    var era := (if z >= 0 then z else z - 146_096) / CYCLE;
    InEra(era, z - era * CYCLE)
  }

  const I32_MAX: int := 0x7fff_ffff

  /** The certificate's copy, which truncates; a year that does not fit an i32 reads 1970. */
  function CertificateCivil(days: int): Date
  {
    var z := days + EPOCH;
    var era := TruncDiv(if z >= 0 then z else z - 146_096, CYCLE);
    var d := InEra(era, z - era * CYCLE);
    if -I32_MAX - 1 <= d.year <= I32_MAX then d else d.(year := 1970)
  }

  // ---- Years and months of an era ----

  predicate InYearOfEra(doe: int, y: int)
  {
    0 <= y < 400 && YearStart(y) <= doe && (doe < YearStart(y + 1) || (y == 399 && doe == YearStart(400)))
  }

  /** A day of an era by centuries, spans of four years, and days of those. */
  lemma YearByParts(b: int, q: int, r: int)
    requires 0 <= b <= 3 && 0 <= q <= 24 && 0 <= r <= 1460 && (q == 24 ==> r < 1460)
    ensures var doe := 36_524 * b + 1461 * q + r; var t := if r == 1460 then 3 else r / 365;
      YearOfEra(doe) == 100 * b + 4 * q + t && InYearOfEra(doe, YearOfEra(doe))
  {
    var doe := 36_524 * b + 1461 * q + r;
    var e := if 24 * b + q + r >= 1460 then 1 else 0;
    assert doe / 1460 == 25 * b + q + e;
    assert doe / 36_524 == b;
    assert doe / 146_096 == 0;
    assert YearOfEra(doe) == (365 * (100 * b + 4 * q) + r - e) / 365;
    var t := if r == 1460 then 3 else r / 365;
    assert YearOfEra(doe) == 100 * b + 4 * q + t;
    SpanStart(b, q, t);
  }

  lemma SpanStart(b: int, q: int, t: int)
    requires 0 <= b <= 3 && 0 <= q <= 24 && 0 <= t <= 3
    ensures YearStart(100 * b + 4 * q + t) == 36_524 * b + 1461 * q + 365 * t
    ensures YearStart(100 * b + 4 * q + t + 1) >=
      36_524 * b + 1461 * q + 365 * t + (if t == 3 && q != 24 then 366 else 365)
  {
    var y := 100 * b + 4 * q + t;
    assert y / 4 == 25 * b + q && y / 100 == b;
    assert (y + 1) / 4 == 25 * b + q + (if t == 3 then 1 else 0);
    assert (y + 1) / 100 == b + (if t == 3 && q == 24 then 1 else 0);
  }

  lemma YearFound(doe: int)
    requires 0 <= doe < CYCLE
    ensures InYearOfEra(doe, YearOfEra(doe))
  {
    if doe < CYCLE - 1 {
      var c := doe % 36_524;
      YearByParts(doe / 36_524, c / 1461, c % 1461);
    }
  }

  lemma YearLength(y: int)
    requires 0 <= y < 400
    ensures YearStart(y + 1) - YearStart(y) == if y == 399 then 365 else LastDay(y) + 1
    ensures LastDay(399) == 365
  {
  }

  lemma {:induction false} YearStartsGrow(y: int, y': int)
    requires 0 <= y <= y' <= 400
    ensures YearStart(y) <= YearStart(y')
    decreases y' - y
  {
    if y < y' {
      YearLength(y);
      YearStartsGrow(y + 1, y');
    }
  }

  lemma YearIsOnly(doe: int, y: int, y': int)
    requires InYearOfEra(doe, y) && InYearOfEra(doe, y')
    ensures y == y'
  {
    if y < y' {
      YearStartsGrow(y + 1, y');
      YearLength(y');
    } else if y' < y {
      YearStartsGrow(y' + 1, y);
      YearLength(y);
    }
  }

  /** The last day of the year that starts on the first of March of y. */
  function LastDay(y: int): int { if IsLeap(y + 1) then 365 else 364 }

  lemma InYearNext(y: int, doy: int)
    requires 0 <= doy < LastDay(y)
    ensures InYear(y, doy + 1) == Next(InYear(y, doy))
  {
    var mp, next := (5 * doy + 2) / 153, (5 * (doy + 1) + 2) / 153;
    assert 0 <= mp <= 11 && mp <= next <= mp + 1;
  }

  lemma InYearLast(y: int)
    ensures InYear(y + 1, 0) == Next(InYear(y, LastDay(y)))
  {
  }

  lemma InYearDate(y: int, doy: int)
    requires 0 <= doy <= LastDay(y)
    ensures IsDate(InYear(y, doy))
  {
  }

  lemma LeapCycle(y: int, era: int)
    ensures IsLeap(y + era * 400) == IsLeap(y)
  {
    hide IsLeap;
    assert (y + era * 400) % 400 == y % 400;
    LeapModCycle(y);
    LeapModCycle(y + era * 400);
  }

  lemma ByFours(k: int, r: int)
    ensures (4 * k + r) % 4 == r % 4
  {
  }

  lemma ByHundreds(k: int, r: int)
    ensures (100 * k + r) % 100 == r % 100
  {
  }

  lemma LeapModCycle(y: int)
    ensures IsLeap(y) == IsLeap(y % 400)
  {
    var k, r := y / 400, y % 400;
    assert y == 400 * k + r;
    ByFours(100 * k, r);
    ByHundreds(4 * k, r);
  }

  /** A day of an era is a day of one of its years. */
  lemma InEraDate(era: int, doe: int)
    requires 0 <= doe < CYCLE
    ensures var y := YearOfEra(doe);
      && InYearOfEra(doe, y) && 0 <= doe - YearStart(y) <= LastDay(y + era * 400)
      && LastDay(y + era * 400) == LastDay(y) && IsDate(InEra(era, doe))
  {
    hide YearOfEra, YearStart, InYear, IsDate, IsLeap;
    var y := YearOfEra(doe);
    YearFound(doe);
    YearLength(y);
    LeapCycle(y + 1, era);
    InYearDate(y + era * 400, doe - YearStart(y));
  }

  lemma StaysInYear(doe: int, y: int)
    requires 0 <= doe < CYCLE - 1 && InYearOfEra(doe, y) && doe - YearStart(y) < LastDay(y)
    ensures YearOfEra(doe + 1) == y
  {
    hide YearOfEra;
    YearLength(y);
    assert InYearOfEra(doe + 1, y);
    YearFound(doe + 1);
    YearIsOnly(doe + 1, y, YearOfEra(doe + 1));
  }

  lemma EntersYear(doe: int, y: int)
    requires 0 <= doe < CYCLE - 1 && InYearOfEra(doe, y) && doe - YearStart(y) >= LastDay(y)
    ensures YearOfEra(doe + 1) == y + 1 && YearStart(y + 1) == doe + 1
  {
    hide YearOfEra;
    YearLength(y);
    if y < 399 {
      YearLength(y + 1);
      assert InYearOfEra(doe + 1, y + 1);
      YearFound(doe + 1);
      YearIsOnly(doe + 1, y + 1, YearOfEra(doe + 1));
    }
  }

  lemma EndsOfEra(era: int)
    ensures YearOfEra(CYCLE - 1) == 399 && YearStart(399) + 365 == CYCLE - 1 && LastDay(399 + era * 400) == 365
    ensures YearOfEra(0) == 0 && YearStart(0) == 0
  {
    LeapCycle(400, era);
  }

  /** The day after it is the next date. */
  lemma InEraNext(era: int, doe: int)
    requires 0 <= doe < CYCLE
    ensures (if doe + 1 < CYCLE then InEra(era, doe + 1) else InEra(era + 1, 0)) == Next(InEra(era, doe))
  {
    hide YearOfEra, YearStart, LastDay, InYear, Next, InYearOfEra, IsDate;
    var y := YearOfEra(doe);
    InEraDate(era, doe);
    if doe == CYCLE - 1 {
      EndsOfEra(era);
      InYearLast(399 + era * 400);
      assert (era + 1) * 400 == 399 + era * 400 + 1;
    } else if doe - YearStart(y) < LastDay(y) {
      StaysInYear(doe, y);
      InYearNext(y + era * 400, doe - YearStart(y));
    } else {
      EntersYear(doe, y);
      InYearLast(y + era * 400);
    }
  }

  // ---- Both copies against the calendar ----

  function EraOf(days: int): int { (days + EPOCH) / CYCLE }

  function DayOfEra(days: int): int { (days + EPOCH) % CYCLE }

  function Civil(days: int): Date { InEra(EraOf(days), DayOfEra(days)) }

  lemma EraOfNext(days: int)
    ensures 0 <= DayOfEra(days) < CYCLE
    ensures if DayOfEra(days) + 1 < CYCLE
      then EraOf(days + 1) == EraOf(days) && DayOfEra(days + 1) == DayOfEra(days) + 1
      else EraOf(days + 1) == EraOf(days) + 1 && DayOfEra(days + 1) == 0
  {
    var z := days + EPOCH;
    assert z == CYCLE * (z / CYCLE) + z % CYCLE;
  }

  lemma CivilNext(days: int)
    ensures Civil(days + 1) == Next(Civil(days)) && IsDate(Civil(days))
  {
    hide InEra, Next, IsDate;
    EraOfNext(days);
    var era, doe := EraOf(days), DayOfEra(days);
    InEraNext(era, doe);
    InEraDate(era, doe);
    if doe + 1 < CYCLE {
      assert Civil(days + 1) == InEra(era, doe + 1);
    } else {
      assert Civil(days + 1) == InEra(era + 1, 0);
    }
  }

  lemma PreviousOfNext(d: Date)
    requires IsDate(d)
    ensures Previous(Next(d)) == d
  {
  }

  lemma {:induction false} CivilIsCounted(days: int)
    ensures Civil(days) == Counted(days)
    decreases if days < 0 then -days else days
  {
    hide Civil, Next, Previous, IsDate;
    if days == 0 {
      CivilOfEpoch();
    } else if days > 0 {
      CivilIsCounted(days - 1);
      CivilNext(days - 1);
    } else {
      CivilIsCounted(days + 1);
      CivilNext(days);
      PreviousOfNext(Civil(days));
    }
  }

  lemma CivilOfEpoch()
    ensures Civil(0) == Date(1970, 1, 1)
  {
  }

  /** The certificate's copy is right on both sides of the epoch, as far as an i32 holds the year. */
  lemma CertificateIsCounted(days: int)
    ensures CertificateCivil(days) ==
      if -I32_MAX - 1 <= Counted(days).year <= I32_MAX then Counted(days) else Counted(days).(year := 1970)
  {
    hide Counted, InEra;
    CivilIsCounted(days);
    assert TruncDiv(if days + EPOCH >= 0 then days + EPOCH else days + EPOCH - 146_096, CYCLE) == EraOf(days);
  }

  lemma ListingIsCounted(days: int)
    requires days >= -EPOCH
    ensures ListingCivil(days) == Counted(days)
  {
    hide Counted, InEra;
    CivilIsCounted(days);
  }

  /** The day after; but a February that is over goes on for a day that does not exist. */
  function Late(d: Date): Date
  {
    if d.month == 2 then d.(day := d.day + 1) else Next(d)
  }

  lemma LateInYear(y: int, doy: int)
    requires 0 <= doy <= LastDay(y)
    ensures InYear(y, doy + 1) == Late(InYear(y, doy))
  {
  }

  lemma LateByParts(b: int, q: int, r: int)
    requires 0 <= b <= 3 && 0 <= q <= 24 && 0 <= r <= 1460 && (q == 24 ==> r < 1460)
    ensures var t := if r == 1460 then 3 else r / 365;
      YearOfEra(36_524 * b + 1461 * q + r + CYCLE) == 400 + 100 * b + 4 * q + t
  {
    var doe := 36_524 * b + 1461 * q + r;
    var e := if 24 * b + q + r >= 1363 then 1 else 0;
    var f := if q == 24 && r == 1459 then 1 else 0;
    var g := if b == 3 && f == 1 then 1 else 0;
    assert (doe + CYCLE) / 1460 == 100 + 25 * b + q + e;
    assert (doe + CYCLE) / 36_524 == 4 + b + f;
    assert (doe + CYCLE) / 146_096 == 1 + g;
    assert YearOfEra(doe + CYCLE) == (365 * (400 + 100 * b + 4 * q) + r - e + f - g) / 365;
  }

  lemma YearStartCycle(y: int)
    requires 0 <= y < 400
    ensures YearStart(400 + y) == CYCLE - 1 + YearStart(y)
  {
  }

  /** An era too early, a day of it reads as one day late. */
  lemma EraTooEarly(era: int, doe: int)
    requires 0 <= doe < CYCLE - 1
    ensures InEra(era - 1, doe + CYCLE) == Late(InEra(era, doe))
  {
    hide YearOfEra, YearStart, InYear, Late, IsLeap, IsDate;
    var y := YearOfEra(doe);
    LateYear(doe);
    InEraDate(era, doe);
    YearStartCycle(y);
    LateInYear(y + era * 400, doe - YearStart(y));
    assert 400 + y + (era - 1) * 400 == y + era * 400;
  }

  lemma LateYear(doe: int)
    requires 0 <= doe < CYCLE - 1
    ensures YearOfEra(doe + CYCLE) == 400 + YearOfEra(doe)
  {
    hide YearOfEra, InYearOfEra;
    var c := doe % 36_524;
    LateByParts(doe / 36_524, c / 1461, c % 1461);
    YearByParts(doe / 36_524, c / 1461, c % 1461);
  }

  /** Before the first of March of year 0 the listing's copy is a day late, but for one day in each cycle. */
  lemma ListingIsLate(days: int)
    requires days < -EPOCH
    ensures ListingCivil(days) == if DayOfEra(days) == CYCLE - 1 then Counted(days) else Late(Counted(days))
  {
    CivilIsCounted(days);
    if DayOfEra(days) < CYCLE - 1 {
      EraTooEarly(EraOf(days), DayOfEra(days));
      assert (days + EPOCH - 146_096) / CYCLE == EraOf(days) - 1;
    } else {
      assert (days + EPOCH - 146_096) / CYCLE == EraOf(days);
    }
  }

  /** Exactly when the listing's copy names the day. */
  lemma ListingRightIff(days: int)
    ensures ListingCivil(days) == Counted(days) <==> days >= -EPOCH || DayOfEra(days) == CYCLE - 1
  {
    if days >= -EPOCH {
      ListingIsCounted(days);
    } else {
      ListingIsLate(days);
    }
  }

  /** The two copies agree on every day the listing can show, and on every certificate's. */
  lemma CopiesAgree(days: int)
    requires days >= -EPOCH && Counted(days).year <= I32_MAX
    ensures ListingCivil(days) == CertificateCivil(days)
  {
    ListingIsCounted(days);
    CertificateIsCounted(days);
    YearFrom(days);
  }

  lemma YearFrom(days: int)
    requires days >= -EPOCH
    ensures Counted(days).year >= 0
  {
    CivilIsCounted(days);
    InEraDate(EraOf(days), DayOfEra(days));
  }

  // ---- The stamp of a listing ----

  /** A number in w decimal digits, zeros in front. */
  function Pad(n: nat, w: nat): (s: string)
    ensures |s| == w
  {
    if w == 0 then "" else Pad(n / 10, w - 1) + [('0' as int + n % 10) as char]
  }

  function Limit(w: nat): nat { if w == 0 then 1 else 10 * Limit(w - 1) }

  /** A column of a stamp: a number, how wide it is, and what follows it. */
  datatype Column = Column(n: nat, width: nat, after: string)

  function Printed(columns: seq<Column>): string
  {
    if columns == [] then ""
    else Pad(columns[0].n, columns[0].width) + columns[0].after + Printed(columns[1..])
  }

  /** Year, month, day, hour and minute, in UTC. */
  datatype Moment = Moment(date: Date, hour: nat, minute: nat)

  function MomentOf(secs: u32): Moment
  {
    var rest := secs % 86_400;
    Moment(ListingCivil(secs / 86_400), rest / 3600, rest % 3600 / 60)
  }

  predicate Fits(m: Moment)
  {
    0 <= m.date.year < 10_000 && 0 <= m.date.month < 100 && 0 <= m.date.day < 100 && m.hour < 100 && m.minute < 100
  }

  function Columns(m: Moment): seq<Column>
    requires Fits(m)
  {
    [Column(m.date.year, 4, "-"), Column(m.date.month, 2, "-"), Column(m.date.day, 2, " "),
     Column(m.hour, 2, ":"), Column(m.minute, 2, "")]
  }

  function UtcStamp(secs: u32): string
  {
    MomentFits(secs);
    Printed(Columns(MomentOf(secs)))
  }

  predicate Before(a: string, b: string)
  {
    b != "" && (a == "" || a[0] < b[0] || (a[0] == b[0] && Before(a[1..], b[1..])))
  }

  lemma {:induction false} BeforeItself(a: string)
    ensures !Before(a, a)
  {
    if a != "" {
      BeforeItself(a[1..]);
    }
  }

  lemma {:induction false} BeforeJoined(a: string, b: string, c: string, d: string)
    requires |a| == |b|
    ensures Before(a + c, b + d) <==> Before(a, b) || (a == b && Before(c, d))
  {
    if a == "" {
      assert a + c == c && b + d == d;
    } else {
      assert (a + c)[1..] == a[1..] + c && (b + d)[1..] == b[1..] + d;
      BeforeJoined(a[1..], b[1..], c, d);
      assert a == [a[0]] + a[1..] && b == [b[0]] + b[1..];
    }
  }

  lemma {:induction false} PadBefore(m: nat, n: nat, w: nat)
    requires m < Limit(w) && n < Limit(w)
    ensures Before(Pad(m, w), Pad(n, w)) <==> m < n
    ensures Pad(m, w) == Pad(n, w) <==> m == n
  {
    if w > 0 {
      PadBefore(m / 10, n / 10, w - 1);
      var a, b := [('0' as int + m % 10) as char], [('0' as int + n % 10) as char];
      BeforeJoined(Pad(m / 10, w - 1), Pad(n / 10, w - 1), a, b);
      assert Pad(m, w)[..w - 1] == Pad(m / 10, w - 1) && Pad(m, w)[w - 1] == a[0];
      assert Pad(n, w)[..w - 1] == Pad(n / 10, w - 1) && Pad(n, w)[w - 1] == b[0];
      assert Before(a, b) <==> a[0] < b[0];
    }
  }

  predicate Alike(a: seq<Column>, b: seq<Column>)
  {
    && |a| == |b|
    && forall i :: 0 <= i < |a| ==>
      a[i].width == b[i].width && a[i].after == b[i].after && a[i].n < Limit(a[i].width) && b[i].n < Limit(a[i].width)
  }

  /** The first column that differs decides. */
  predicate Lower(a: seq<Column>, b: seq<Column>)
    requires |a| == |b|
  {
    a != [] && (a[0].n < b[0].n || (a[0].n == b[0].n && Lower(a[1..], b[1..])))
  }

  lemma {:induction false} PrintedBefore(a: seq<Column>, b: seq<Column>)
    requires Alike(a, b)
    ensures Before(Printed(a), Printed(b)) <==> Lower(a, b)
  {
    if a != [] {
      var after := a[0].after;
      PrintedBefore(a[1..], b[1..]);
      PadBefore(a[0].n, b[0].n, a[0].width);
      BeforeJoined(Pad(a[0].n, a[0].width) + after, Pad(b[0].n, b[0].width) + after, Printed(a[1..]), Printed(b[1..]));
      BeforeJoined(Pad(a[0].n, a[0].width), Pad(b[0].n, b[0].width), after, after);
      BeforeItself(after);
      assert (Pad(a[0].n, a[0].width) + after)[..a[0].width] == Pad(a[0].n, a[0].width);
      assert (Pad(b[0].n, b[0].width) + after)[..a[0].width] == Pad(b[0].n, b[0].width);
    }
  }

  predicate Earlier(a: Date, b: Date)
  {
    a.year < b.year || (a.year == b.year && (a.month < b.month || (a.month == b.month && a.day < b.day)))
  }

  predicate Sooner(a: Moment, b: Moment)
  {
    Earlier(a.date, b.date)
    || (a.date == b.date && (a.hour < b.hour || (a.hour == b.hour && a.minute < b.minute)))
  }

  lemma NextIsLater(d: Date)
    requires IsDate(d)
    ensures Earlier(d, Next(d))
  {
  }

  lemma {:induction false} CountedGrows(days: int, later: int)
    requires days < later
    ensures Earlier(Counted(days), Counted(later))
    decreases later - days
  {
    CountedNext(later - 1);
    if days < later - 1 {
      CountedGrows(days, later - 1);
    }
  }

  lemma CountedNext(days: int)
    ensures IsDate(Counted(days)) && Earlier(Counted(days), Counted(days + 1))
  {
    CivilIsCounted(days);
    CivilIsCounted(days + 1);
    CivilNext(days);
    NextIsLater(Civil(days));
  }

  lemma MomentFits(secs: u32)
    ensures Fits(MomentOf(secs)) && MomentOf(secs).date == Counted(secs / 86_400)
  {
    ListingIsCounted(secs / 86_400);
    CountedNext(secs / 86_400);
    YearOfStamp(secs / 86_400);
  }

  lemma YearOfStamp(days: nat)
    requires days < 50_000
    ensures 0 < Counted(days).year < 10_000
  {
    CivilIsCounted(days);
    InEraDate(EraOf(days), DayOfEra(days));
  }

  lemma MomentsGrow(a: u32, b: u32)
    requires a / 60 < b / 60
    ensures Sooner(MomentOf(a), MomentOf(b))
  {
    MomentFits(a);
    MomentFits(b);
    if a / 86_400 < b / 86_400 {
      CountedGrows(a / 86_400, b / 86_400);
    } else {
      InOneDay(a, b);
    }
  }

  lemma InOneDay(a: nat, b: nat)
    requires a / 60 < b / 60 && a / 86_400 >= b / 86_400
    ensures a / 86_400 == b / 86_400
    ensures var x, y := a % 86_400, b % 86_400;
      x / 3600 < y / 3600 || (x / 3600 == y / 3600 && x % 3600 / 60 < y % 3600 / 60)
  {
    ByMinute(a);
    ByMinute(b);
  }

  /** Everything a stamp shows of the time is decided by the minute. */
  lemma ByMinute(a: nat)
    ensures var m := a / 60; var x := a % 86_400;
      a / 86_400 == m / 1440 && x / 3600 == m % 1440 / 60 && x % 3600 / 60 == m % 60
  {
    var m := a / 60;
    var d, h, k, t := m / 1440, m % 1440 / 60, m % 60, a % 60;
    assert m == d * 1440 + (h * 60 + k);
    assert a == (d * 1440 + (h * 60 + k)) * 60 + t;
    OfDay(d, h * 60 + k, t);
    OfHour(h, k, t);
  }

  lemma OfDay(d: nat, r: nat, s: nat)
    requires r < 1440 && s < 60
    ensures var a := (d * 1440 + r) * 60 + s; a / 86_400 == d && a % 86_400 == r * 60 + s
  {
  }

  lemma ByHours(h: nat, r: nat)
    requires r < 3600
    ensures (3600 * h + r) / 3600 == h && (3600 * h + r) % 3600 == r
  {
  }

  lemma OfHour(h: nat, k: nat, s: nat)
    requires k < 60 && s < 60
    ensures var x := (h * 60 + k) * 60 + s; x / 3600 == h && x % 3600 / 60 == k
  {
    assert (h * 60 + k) * 60 + s == 3600 * h + (60 * k + s);
    ByHours(h, 60 * k + s);
    assert (60 * k + s) / 60 == k;
  }

  lemma OneMinute(a: nat, b: nat)
    requires a / 60 == b / 60
    ensures a / 86_400 == b / 86_400
    ensures var x, y := a % 86_400, b % 86_400;
      x / 3600 == y / 3600 && x % 3600 / 60 == y % 3600 / 60
  {
    ByMinute(a);
    ByMinute(b);
  }

  lemma ColumnsAlike(a: Moment, b: Moment)
    requires Fits(a) && Fits(b)
    ensures Alike(Columns(a), Columns(b))
  {
    assert Limit(2) == 100 && Limit(4) == 10_000 by {
      assert Limit(1) == 10;
      assert Limit(3) == 1000;
    }
  }

  lemma NothingLower(x: seq<Column>, y: seq<Column>)
    requires |x| == |y|
    ensures !Lower(x[|x|..], y[|x|..])
  {
    assert x[|x|..] == [];
  }

  lemma ColumnsLower(a: Moment, b: Moment)
    requires Fits(a) && Fits(b)
    ensures Alike(Columns(a), Columns(b)) && (Lower(Columns(a), Columns(b)) <==> Sooner(a, b))
  {
    hide Lower, Alike, Limit;
    ColumnsAlike(a, b);
    var x, y := Columns(a), Columns(b);
    NothingLower(x, y);
    LowerFrom(x, y, 4);
    LowerFrom(x, y, 3);
    LowerFrom(x, y, 2);
    LowerFrom(x, y, 1);
    LowerFrom(x, y, 0);
    assert x[0..] == x && y[0..] == y;
  }

  lemma LowerFrom(x: seq<Column>, y: seq<Column>, i: nat)
    requires i < |x| == |y|
    ensures Lower(x[i..], y[i..]) <==> x[i].n < y[i].n || (x[i].n == y[i].n && Lower(x[i + 1..], y[i + 1..]))
  {
    assert x[i..][1..] == x[i + 1..] && y[i..][1..] == y[i + 1..];
  }

  lemma PrintedSooner(a: Moment, b: Moment)
    requires Fits(a) && Fits(b)
    ensures Before(Printed(Columns(a)), Printed(Columns(b))) <==> Sooner(a, b)
  {
    ColumnsLower(a, b);
    PrintedBefore(Columns(a), Columns(b));
  }

  /** Stamps sort as text the way their minutes sort as time. */
  lemma StampsSortByMinute(a: u32, b: u32)
    ensures Before(UtcStamp(a), UtcStamp(b)) <==> a / 60 < b / 60
    ensures UtcStamp(a) == UtcStamp(b) <==> a / 60 == b / 60
  {
    MomentFits(a);
    MomentFits(b);
    PrintedSooner(MomentOf(a), MomentOf(b));
    BeforeItself(UtcStamp(a));
    if a / 60 < b / 60 {
      MomentsGrow(a, b);
    } else if b / 60 < a / 60 {
      MomentsGrow(b, a);
      PrintedSooner(MomentOf(b), MomentOf(a));
    } else {
      OneMinute(a, b);
    }
  }
}
