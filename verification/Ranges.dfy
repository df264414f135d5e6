/** Range headers, origin/range.rs. */
module Ranges {
  import opened Common

  datatype Resolved = Whole | Part(start: nat, end: nat) | Unsatisfiable

  predicate Space(c: char) { c == ' ' || '\t' <= c <= '\r' }

  function TrimLeft(s: string): string
  {
    if s != "" && Space(s[0]) then TrimLeft(s[1..]) else s
  }

  function TrimRight(s: string): string
  {
    if s != "" && Space(s[|s| - 1]) then TrimRight(s[..|s| - 1]) else s
  }

  function Trim(s: string): string { TrimRight(TrimLeft(s)) }

  predicate Digit(c: char) { '0' <= c <= '9' }

  predicate Digits(s: string) { s != "" && forall i :: 0 <= i < |s| ==> Digit(s[i]) }

  function DigitValue(c: char): nat
    requires Digit(c)
  {
    c as int - '0' as int
  }

  function Value(s: string): nat
    requires forall i :: 0 <= i < |s| ==> Digit(s[i])
  {
    if s == "" then 0 else 10 * Value(s[..|s| - 1]) + DigitValue(s[|s| - 1])
  }

  /** `str::parse::<u64>`: an optional plus sign, then digits that fit. */
  function ParseU64(s: string): Option<u64>
  {
    var digits := if |s| > 1 && s[0] == '+' then s[1..] else s;
    if Digits(digits) && Value(digits) < U64_SPAN then Some(Value(digits)) else None
  }

  /** Where the first `-` is, or the length. */
  function Dash(s: string): (n: nat)
    ensures n <= |s| && '-' !in s[..n] && (n < |s| ==> s[n] == '-')
  {
    if s == "" || s[0] == '-' then 0
    else
      var n := 1 + Dash(s[1..]);
      assert s[..n] == [s[0]] + s[1..][..n - 1];
      n
  }

  const UNIT := "bytes="

  /** origin/range.rs:28-96. */
  function Resolve(header: string, ifRange: Option<string>, size: u64): (r: Resolved)
    ensures r.Part? ==> r.start <= r.end < size
    ensures ifRange.Some? ==> r == Whole
  {
    var h := Trim(header);
    if ifRange.Some? || !(UNIT <= h) then Whole
    else
      var spec := h[|UNIT|..];
      if ',' in spec || '-' !in spec then Whole
      else
        Decide(Trim(spec[..Dash(spec)]), Trim(spec[Min(Dash(spec) + 1, |spec|)..]), size)
  }

  /** The two sides of the dash, against a size. */
  function Decide(first: string, last: string, size: u64): (r: Resolved)
    ensures r.Part? ==> r.start <= r.end < size
  {
    if size == 0 then Unsatisfiable
    else if first == "" && last == "" then Whole
    else if first == "" then
      match ParseU64(last)
      case None => Whole
      case Some(n) => if n == 0 then Unsatisfiable else Part(Max(size - n, 0), size - 1)
    else if last == "" then
      match ParseU64(first)
      case None => Whole
      case Some(a) => if a > size - 1 then Unsatisfiable else Part(a, size - 1)
    else if ParseU64(first).None? || ParseU64(last).None? then Whole
    else
      var a, b := ParseU64(first).value, ParseU64(last).value;
      if a > b || a > size - 1 then Unsatisfiable else Part(a, Min(b, size - 1))
  }

  // ---- RFC 9110 section 14.1.2 ----

  datatype Spec = FromTo(first: u64, last: u64) | From(first: u64) | Suffix(n: u64)

  /** Does a range-spec name byte i of a representation of this size? */
  predicate Selects(spec: Spec, size: nat, i: int)
  {
    && 0 <= i < size
    && match spec
       case FromTo(a, b) => a <= i <= b
       case From(a) => a <= i
       case Suffix(n) => size - n <= i
  }

  function Decimal(n: nat): (s: string)
    ensures Digits(s) && Value(s) == n
  {
    if n < 10 then [('0' as int + n) as char]
    else
      var s := Decimal(n / 10) + [('0' as int + n % 10) as char];
      assert s[..|s| - 1] == Decimal(n / 10);
      s
  }

  function Print(spec: Spec): string
  {
    match spec
    case FromTo(a, b) => UNIT + Decimal(a) + "-" + Decimal(b)
    case From(a) => UNIT + Decimal(a) + "-"
    case Suffix(n) => UNIT + "-" + Decimal(n)
  }

  lemma {:induction false} TrimTight(s: string)
    requires s != "" ==> !Space(s[0]) && !Space(s[|s| - 1])
    ensures Trim(s) == s
  {
  }

  lemma DecimalParses(n: u64)
    ensures ParseU64(Decimal(n)) == Some(n)
    ensures Trim(Decimal(n)) == Decimal(n)
    ensures '-' !in Decimal(n) && ',' !in Decimal(n)
  {
    assert Digit(Decimal(n)[0]) && Digit(Decimal(n)[|Decimal(n)| - 1]);
    TrimTight(Decimal(n));
  }

  lemma {:induction false} DashAfter(a: string, b: string)
    requires '-' !in a
    ensures Dash(a + "-" + b) == |a|
  {
    if a == "" {
      assert (a + "-" + b)[0] == '-';
    } else {
      assert (a + "-" + b)[1..] == a[1..] + "-" + b;
      DashAfter(a[1..], b);
    }
  }

  /** Where a header of the form `bytes=a-b` is cut. */
  lemma Cut(a: string, b: string)
    requires '-' !in a && ',' !in a && ',' !in b && (b != "" ==> Digit(b[|b| - 1]))
    ensures var h := UNIT + (a + "-" + b); var spec := a + "-" + b;
      && Trim(h) == h && UNIT <= h && h[|UNIT|..] == spec
      && ',' !in spec && '-' in spec
      && spec[..Dash(spec)] == a && spec[Min(Dash(spec) + 1, |spec|)..] == b
  {
    var spec := a + "-" + b;
    DashAfter(a, b);
    assert spec[|a|] == '-';
    TrimTight(UNIT + spec);
  }

  function Body(spec: Spec): (string, string)
  {
    match spec
    case FromTo(a, b) => (Decimal(a), Decimal(b))
    case From(a) => (Decimal(a), "")
    case Suffix(n) => ("", Decimal(n))
  }

  /** A decision that is exactly what the range-spec selects. */
  ghost predicate Exact(r: Resolved, spec: Spec, size: nat)
  {
    && !r.Whole?
    && (r.Part? ==> forall i :: r.start <= i <= r.end <==> Selects(spec, size, i))
    && (r.Unsatisfiable? <==> forall i :: !Selects(spec, size, i))
  }

  lemma DecidesExactly(spec: Spec, size: u64)
    ensures Exact(Decide(Body(spec).0, Body(spec).1, size), spec, size)
  {
    var r := Decide(Body(spec).0, Body(spec).1, size);
    match spec {
      case FromTo(x, y) => DecimalParses(x); DecimalParses(y);
      case From(x) => DecimalParses(x);
      case Suffix(n) => DecimalParses(n);
    }
    if r.Part? {
      assert Selects(spec, size, r.start);
    }
  }

  /** The two sides of a printed range-spec. */
  predicate Side(s: string) { '-' !in s && ',' !in s && Trim(s) == s && (s != "" ==> Digit(s[|s| - 1])) }

  lemma BodySides(spec: Spec)
    ensures Side(Body(spec).0) && Side(Body(spec).1)
    ensures Print(spec) == UNIT + (Body(spec).0 + "-" + Body(spec).1)
  {
    hide Decimal, Side;
    NoSide();
    match spec {
      case FromTo(x, y) => DecimalSide(x); DecimalSide(y);
      case From(x) => DecimalSide(x);
      case Suffix(n) => DecimalSide(n);
    }
    assert Body(spec).0 + "-" + Body(spec).1 == Body(spec).0 + ("-" + Body(spec).1);
  }

  lemma DecimalSide(n: u64)
    ensures Side(Decimal(n))
  {
    DecimalParses(n);
    assert Digit(Decimal(n)[|Decimal(n)| - 1]);
  }

  lemma NoSide()
    ensures Side("")
  {
  }

  lemma ResolvesSides(a: string, b: string, size: u64)
    requires Side(a) && Side(b)
    ensures Resolve(UNIT + (a + "-" + b), None, size) == Decide(a, b, size)
  {
    Cut(a, b);
  }

  /**
   A printed range-spec resolves to exactly the bytes it selects: a part holding them all and
   nothing else, or unsatisfiable when it selects none.
   */
  lemma PrintedResolves(spec: Spec, size: u64)
    ensures Exact(Resolve(Print(spec), None, size), spec, size)
  {
    BodySides(spec);
    ResolvesSides(Body(spec).0, Body(spec).1, size);
    DecidesExactly(spec, size);
  }

  // ---- Every header there is ----

  lemma SpacesAre(c: char)
    ensures Space(c) <==> c in {' ', '\t', '\n', 11 as char, 12 as char, '\r'}
  {
  }

  predicate AllSpace(s: string) { forall i :: 0 <= i < |s| ==> Space(s[i]) }

  predicate Tight(s: string) { s != "" ==> !Space(s[0]) && !Space(s[|s| - 1]) }

  lemma {:induction false} TrimLeftUndoes(a: string, s: string)
    requires AllSpace(a) && (s != "" ==> !Space(s[0]))
    ensures TrimLeft(a + s) == s
  {
    if a == "" {
      assert a + s == s;
    } else {
      assert (a + s)[1..] == a[1..] + s;
      TrimLeftUndoes(a[1..], s);
    }
  }

  lemma {:induction false} TrimRightUndoes(s: string, b: string)
    requires AllSpace(b) && (s != "" ==> !Space(s[|s| - 1]))
    ensures TrimRight(s + b) == s
  {
    if b == "" {
      assert s + b == s;
    } else {
      assert (s + b)[..|s + b| - 1] == s + b[..|b| - 1];
      TrimRightUndoes(s, b[..|b| - 1]);
    }
  }

  lemma TrimUndoes(a: string, s: string, b: string)
    requires AllSpace(a) && AllSpace(b) && Tight(s)
    ensures Trim(a + s + b) == s
  {
    if s == "" {
      assert a + s + b == (a + b) + "";
      TrimLeftUndoes(a + b, "");
      assert TrimRight("") == "";
    } else {
      assert a + s + b == a + (s + b);
      TrimLeftUndoes(a, s + b);
      TrimRightUndoes(s, b);
    }
  }

  lemma {:induction false} LeftOf(s: string) returns (a: string)
    ensures s == a + TrimLeft(s) && AllSpace(a) && (TrimLeft(s) != "" ==> !Space(TrimLeft(s)[0]))
  {
    a := "";
    if s != "" && Space(s[0]) {
      a := LeftOf(s[1..]);
      a := [s[0]] + a;
      assert s == [s[0]] + s[1..];
    }
  }

  lemma {:induction false} RightOf(s: string) returns (b: string)
    ensures s == TrimRight(s) + b && AllSpace(b)
    ensures TrimRight(s) != "" ==> !Space(TrimRight(s)[|TrimRight(s)| - 1]) && TrimRight(s)[0] == s[0]
  {
    b := "";
    if s != "" && Space(s[|s| - 1]) {
      b := RightOf(s[..|s| - 1]);
      b := b + [s[|s| - 1]];
      assert s == s[..|s| - 1] + [s[|s| - 1]];
    }
  }

  lemma TrimMeans(s: string) returns (a: string, b: string)
    ensures s == a + Trim(s) + b && AllSpace(a) && AllSpace(b) && Tight(Trim(s))
  {
    a := LeftOf(s);
    b := RightOf(TrimLeft(s));
  }

  /** A number as it may be written: digits, with a plus sign in front or not, and leading zeros or not. */
  ghost predicate Numeral(s: string, n: nat)
  {
    n < U64_SPAN && exists digits :: Digits(digits) && Value(digits) == n && s in {digits, "+" + digits}
  }

  lemma ParsesIff(s: string, n: nat)
    ensures ParseU64(s) == Some(n) <==> Numeral(s, n)
  {
    if ParseU64(s) == Some(n) {
      var digits := if |s| > 1 && s[0] == '+' then s[1..] else s;
      assert s == digits || s == "+" + digits;
    }
    forall digits | Digits(digits) && Value(digits) == n && s in {digits, "+" + digits}
      ensures n < U64_SPAN ==> ParseU64(s) == Some(n)
    {
      assert Digit(digits[0]);
      assert s != digits ==> s[1..] == digits;
    }
  }

  /** The header asks for bytes from one side of a dash to the other, with white space anywhere between the parts. */
  ghost predicate Asks(header: string, first: string, last: string)
  {
    && ',' !in header && '-' !in first && Tight(first) && Tight(last)
    && exists a, b, c, d, e ::
      && AllSpace(a) && AllSpace(b) && AllSpace(c) && AllSpace(d) && AllSpace(e)
      && IsHeader(header, a, b, first, c, d, last, e)
  }

  predicate IsHeader(
    header: string, a: string, b: string, first: string, c: string, d: string, last: string, e: string)
  {
    header == a + ("bytes=" + ((b + first + c) + "-" + (d + last + e)))
  }

  /** What the two sides say. */
  ghost predicate ReadsAs(first: string, last: string, spec: Spec)
  {
    match spec
    case FromTo(a, b) => Numeral(first, a) && Numeral(last, b)
    case From(a) => Numeral(first, a) && last == ""
    case Suffix(n) => first == "" && Numeral(last, n)
  }

  lemma WithoutEnd(a: string, body: string, last: string, d: string, e: string) returns (y: string)
    requires AllSpace(a) && AllSpace(d) && AllSpace(e) && Tight(last) && Tight(body) && body != ""
    ensures Trim(a + (body + (d + last + e))) == body + y && Trim(y) == last
    ensures y == if last == "" then "" else d + last
  {
    hide Trim;
    if last == "" {
      y := "";
      assert a + (body + (d + last + e)) == a + body + (d + e);
      TrimUndoes(a, body, d + e);
      TrimTight("");
      assert body + "" == body;
    } else {
      y := d + last;
      assert a + (body + (d + last + e)) == a + (body + y) + e;
      TrimUndoes(a, body + y, e);
      assert d + last + "" == y;
      TrimUndoes(d, last, "");
    }
  }

  /** A header that is these two parts without the space around it. */
  lemma ResolvesParts(header: string, x: string, y: string, size: u64)
    requires Trim(header) == UNIT + (x + "-" + y) && '-' !in x && ',' !in x + "-" + y
    ensures Resolve(header, None, size) == Decide(Trim(x), Trim(y), size)
  {
    hide Trim, Decide, Dash;
    var spec := x + "-" + y;
    DashAfter(x, y);
    assert Trim(header)[|UNIT|..] == spec;
    assert spec[..|x|] == x && spec[|x|] == '-' && spec[|x| + 1..] == y;
  }

  /** The two sides asked for are the two decided on. */
  lemma AskedIsDecided(header: string, first: string, last: string, size: u64)
    requires Asks(header, first, last)
    ensures Resolve(header, None, size) == Decide(first, last, size)
  {
    hide Trim, Decide, Resolve, AllSpace, Tight, IsHeader;
    var a, b, c, d, e :| AllSpace(a) && AllSpace(b) && AllSpace(c) && AllSpace(d) && AllSpace(e)
      && IsHeader(header, a, b, first, c, d, last, e);
    NoDashIn(b, first, c);
    TrimUndoes(b, first, c);
    IsHeaderMeans(header, a, b, first, c, d, last, e);
    SidesTrimmed(header, a, b + first + c, d, last, e, size);
  }

  lemma IsHeaderMeans(
    header: string, a: string, b: string, first: string, c: string, d: string, last: string, e: string)
    requires IsHeader(header, a, b, first, c, d, last, e)
    ensures header == a + ("bytes=" + ((b + first + c) + "-" + (d + last + e)))
  {
  }

  lemma SidesTrimmed(header: string, a: string, x: string, d: string, last: string, e: string, size: u64)
    requires AllSpace(a) && AllSpace(d) && AllSpace(e) && Tight(last) && '-' !in x && ',' !in header
    requires header == a + ("bytes=" + (x + "-" + (d + last + e)))
    ensures Resolve(header, None, size) == Decide(Trim(x), last, size)
  {
    hide Trim, Decide, Resolve, AllSpace, Tight;
    var body := UNIT + (x + "-");
    Regrouped(header, a, x, body, d + last + e);
    TightUnit(x);
    var y := WithoutEnd(a, body, last, d, e);
    NoCommaInside(header, a, x, y, d, last, e);
    PutBack(x, y);
    ResolvesParts(header, x, y, size);
  }

  lemma PutBack(x: string, y: string)
    ensures UNIT + (x + "-") + y == UNIT + (x + "-" + y)
  {
  }

  lemma Regrouped(header: string, a: string, x: string, body: string, end: string)
    requires header == a + ("bytes=" + (x + "-" + end)) && body == UNIT + (x + "-")
    ensures header == a + (body + end)
  {
    assert body + end == "bytes=" + (x + "-" + end);
  }

  lemma TightUnit(x: string)
    ensures Tight(UNIT + (x + "-"))
  {
    var s := UNIT + (x + "-");
    assert s[|s| - 1] == '-' && s[0] == 'b';
  }

  lemma NoCommaInside(header: string, a: string, x: string, y: string, d: string, last: string, e: string)
    requires ',' !in header && header == a + (UNIT + (x + "-") + (d + last + e))
    requires y == if last == "" then "" else d + last
    ensures ',' !in x + "-" + y
  {
    var part := x + "-" + y;
    forall i | 0 <= i < |part| ensures part[i] != ',' {
      assert header[|a| + |UNIT| + i] == part[i] && header[|a| + |UNIT| + i] in header;
    }
  }

  lemma NoDashIn(b: string, first: string, c: string)
    requires AllSpace(b) && AllSpace(c) && '-' !in first
    ensures '-' !in b + first + c
  {
  }

  /** Nothing else is decided on. */
  lemma DecidedIsAsked(header: string, size: u64) returns (first: string, last: string)
    requires Resolve(header, None, size) != Whole
    ensures Asks(header, first, last)
  {
    hide Decide, Trim, Resolve;
    var x, y := PartsOf(header, size);
    var a, e := TrimMeans(header);
    var b, c := TrimMeans(x);
    var d, e' := TrimMeans(y);
    first, last := Trim(x), Trim(y);
    Assembled(header, a, x, y, e, b, first, c, d, last, e');
    NoCommaOut(header, a, x + "-" + y, e);
    FirstHasNoDash(x, b, first, c);
  }

  lemma PartsOf(header: string, size: u64) returns (x: string, y: string)
    requires Resolve(header, None, size) != Whole
    ensures Trim(header) == UNIT + (x + "-" + y) && '-' !in x && ',' !in x + "-" + y
  {
    hide Decide, Trim, Dash;
    var h := Trim(header);
    var spec := h[|UNIT|..];
    DashFound(spec);
    x, y := spec[..Dash(spec)], spec[Dash(spec) + 1..];
    assert spec == x + "-" + y && h == UNIT + spec;
  }

  lemma Assembled(
    header: string, a: string, x: string, y: string, e: string,
    b: string, first: string, c: string, d: string, last: string, e': string)
    requires header == a + (UNIT + (x + "-" + y)) + e && x == b + first + c && y == d + last + e'
    ensures IsHeader(header, a, b, first, c, d, last, e' + e)
  {
    assert d + last + (e' + e) == y + e;
    assert header == a + ("bytes=" + (x + "-" + (y + e)));
  }

  lemma DashFound(spec: string)
    requires '-' in spec
    ensures Dash(spec) < |spec|
  {
    assert spec[..|spec|] == spec;
  }

  lemma NoCommaOut(header: string, a: string, spec: string, e: string)
    requires AllSpace(a) && AllSpace(e) && ',' !in spec && header == a + (UNIT + spec) + e
    ensures ',' !in header
  {
    assert forall i :: 0 <= i < |UNIT| ==> UNIT[i] != ',';
    assert ',' !in UNIT;
  }

  lemma FirstHasNoDash(x: string, b: string, first: string, c: string)
    requires '-' !in x && x == b + first + c
    ensures '-' !in first
  {
    forall i | 0 <= i < |first| ensures first[i] != '-' {
      assert x[|b| + i] == first[i] && x[|b| + i] in x;
    }
  }

  lemma DecideMeans(first: string, last: string, size: u64)
    requires size > 0
    ensures forall spec :: ReadsAs(first, last, spec) ==> Exact(Decide(first, last, size), spec, size)
    ensures Decide(first, last, size) != Whole ==> exists spec :: ReadsAs(first, last, spec)
  {
    hide ParseU64, Numeral;
    forall spec | ReadsAs(first, last, spec) ensures Exact(Decide(first, last, size), spec, size) {
      ReadIsExact(first, last, spec, size);
    }
    var r := Decide(first, last, size);
    if r != Whole {
      var a, b := ParseU64(first), ParseU64(last);
      ParsesIff(first, if a.Some? then a.value else 0);
      ParsesIff(last, if b.Some? then b.value else 0);
      var spec :=
        if first == "" then Suffix(b.value) else if last == "" then From(a.value) else FromTo(a.value, b.value);
      assert ReadsAs(first, last, spec);
    }
  }

  lemma NumeralIsText(s: string, n: nat)
    ensures Numeral(s, n) ==> s != "" && n < U64_SPAN
  {
  }

  lemma ReadIsExact(first: string, last: string, spec: Spec, size: u64)
    requires size > 0 && ReadsAs(first, last, spec)
    ensures Exact(Decide(first, last, size), spec, size)
  {
    hide ParseU64, Numeral;
    match spec {
      case FromTo(x, y) => ParsesIff(first, x); ParsesIff(last, y); NumeralIsText(first, x); NumeralIsText(last, y);
      case From(x) => ParsesIff(first, x); NumeralIsText(first, x);
      case Suffix(n) => ParsesIff(last, n); NumeralIsText(last, n);
    }
    var r := Decide(first, last, size);
    if r.Part? {
      assert Selects(spec, size, r.start);
    }
  }

  /**
   What any header comes to. One that asks for what two sides of a dash say, if they say anything, gets exactly that,
   and any other the whole; but of nothing at all no range can be had, not even one that says nothing.
   */
  lemma ResolvesAny(header: string, size: u64)
    ensures size > 0 ==> forall first, last, spec :: Asks(header, first, last) && ReadsAs(first, last, spec) ==>
      Exact(Resolve(header, None, size), spec, size)
    ensures size > 0 ==> (Resolve(header, None, size) != Whole <==>
      exists first, last, spec :: Asks(header, first, last) && ReadsAs(first, last, spec))
    ensures size == 0 ==>
      Resolve(header, None, size) == if exists first, last :: Asks(header, first, last) then Unsatisfiable else Whole
  {
    hide Asks, ReadsAs, Resolve;
    forall first, last | Asks(header, first, last) ensures Resolve(header, None, size) == Decide(first, last, size) {
      AskedIsDecided(header, first, last, size);
    }
    if size > 0 {
      forall first, last, spec | Asks(header, first, last) && ReadsAs(first, last, spec)
        ensures Exact(Resolve(header, None, size), spec, size)
      {
        DecideMeans(first, last, size);
      }
    }
    if Resolve(header, None, size) != Whole {
      var first, last := DecidedIsAsked(header, size);
      if size > 0 {
        DecideMeans(first, last, size);
      }
    }
  }
}
