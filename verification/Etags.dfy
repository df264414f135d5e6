/** Weak validators, cache/mod.rs:212-235. */
module Etags {
  import opened Common
  import opened Ranges

  function HexDigit(n: nat): char
    requires n < 16
  {
    if n < 10 then ('0' as int + n) as char else ('a' as int + n - 10) as char
  }

  predicate IsHex(c: char) { '0' <= c <= '9' || 'a' <= c <= 'f' }

  predicate AllHex(s: string) { s != "" && forall i :: 0 <= i < |s| ==> IsHex(s[i]) }

  /** Lower-case hexadecimal without padding. */
  function Hex(n: nat): (s: string)
    ensures AllHex(s)
  {
    if n < 16 then [HexDigit(n)] else Hex(n / 16) + [HexDigit(n % 16)]
  }

  lemma {:induction false} HexInjective(a: nat, b: nat)
    requires Hex(a) == Hex(b)
    ensures a == b
  {
    assert (a < 16 <==> |Hex(a)| == 1) && (b < 16 <==> |Hex(b)| == 1);
    if a >= 16 {
      var x, y := Hex(a / 16), Hex(b / 16);
      assert Hex(a)[..|x|] == x && Hex(b)[..|y|] == y;
      assert Hex(a)[|x|] == HexDigit(a % 16) && Hex(b)[|y|] == HexDigit(b % 16);
      HexInjective(a / 16, b / 16);
    }
  }

  datatype Version = Version(mtime: u32, size: u64)

  function Tag(v: Version): string
  {
    "W/\"" + Hex(v.mtime) + "-" + Hex(v.size) + "\""
  }

  function TrimWeak(s: string): string
    decreases |s|
  {
    if "W/" <= s then TrimWeak(s[2..]) else s
  }

  function TrimQuotesLeft(s: string): string
  {
    if s != "" && s[0] == '"' then TrimQuotesLeft(s[1..]) else s
  }

  function TrimQuotesRight(s: string): string
  {
    if s != "" && s[|s| - 1] == '"' then TrimQuotesRight(s[..|s| - 1]) else s
  }

  function Normalise(tag: string): string { TrimQuotesRight(TrimQuotesLeft(TrimWeak(Trim(tag)))) }

  function Candidates(header: string): (r: seq<string>)
    ensures r != []
  {
    if header == "" then [""]
    else
      var rest := Candidates(header[..|header| - 1]);
      var c := header[|header| - 1];
      if c == ',' then rest + [""] else rest[..|rest| - 1] + [rest[|rest| - 1] + [c]]
  }

  /** One candidate of a header meets a tag. */
  predicate Accepts(candidate: string, tag: string)
  {
    Trim(candidate) == "*" || Normalise(candidate) == Normalise(tag)
  }

  predicate Matches(header: string, tag: string)
  {
    exists i :: 0 <= i < |Candidates(header)| && Accepts(Candidates(header)[i], tag)
  }

  lemma {:induction false} OneCandidate(header: string)
    requires ',' !in header
    ensures Candidates(header) == [header]
  {
    if header != "" {
      var init := header[..|header| - 1];
      OneCandidate(init);
      assert header[|header| - 1] in header;
      assert init + [header[|header| - 1]] == header;
    }
  }

  /** What is left of a tag once its weakness marker and quotes are off. */
  function Core(v: Version): string { Hex(v.mtime) + "-" + Hex(v.size) }

  /** The same tag without the marker that says it is weak. */
  function StrongTag(v: Version): string { "\"" + Core(v) + "\"" }

  lemma TagNormalises(v: Version)
    ensures Normalise(Tag(v)) == Core(v) && Trim(Tag(v)) == Tag(v)
    ensures Normalise(StrongTag(v)) == Core(v) && Trim(StrongTag(v)) == StrongTag(v)
  {
    hide TrimQuotesLeft, TrimQuotesRight;
    var t, quoted := Tag(v), StrongTag(v);
    assert t == "W/" + quoted && t[2..] == quoted;
    assert t[0] == 'W' && t[|t| - 1] == '"' && quoted[0] == '"' && quoted[|quoted| - 1] == '"';
    TrimTight(t);
    TrimTight(quoted);
    assert TrimWeak(quoted) == quoted && TrimWeak(t) == quoted;
    QuotesTrimmed(v);
  }

  lemma QuotesTrimmed(v: Version)
    ensures TrimQuotesRight(TrimQuotesLeft(StrongTag(v))) == Core(v)
  {
    var core, quoted := Core(v), StrongTag(v);
    assert quoted[1..] == core + "\"";
    assert IsHex(core[0]) && IsHex(core[|core| - 1]);
    assert TrimQuotesLeft(quoted) == core + "\"";
    assert (core + "\"")[..|core|] == core;
    assert core[|core| - 1] != '"';
    assert TrimQuotesRight(core) == core;
    assert TrimQuotesRight(core + "\"") == core;
  }

  lemma {:induction false} CoreInjective(v: Version, w: Version)
    requires Core(v) == Core(w)
    ensures v == w
  {
    var a, b := Hex(v.mtime), Hex(w.mtime);
    DashAfter(a, Hex(v.size));
    DashAfter(b, Hex(w.size));
    assert Core(v)[..|a|] == a && Core(w)[..|b|] == b;
    assert Core(v)[|a| + 1..] == Hex(v.size) && Core(w)[|b| + 1..] == Hex(w.size);
    HexInjective(v.mtime, w.mtime);
    HexInjective(v.size, w.size);
  }

  /** A browser that sends a tag back is told "not modified" exactly when the version is the one it holds. */
  lemma TagsMatchSameVersion(held: Version, current: Version)
    ensures Matches(Tag(held), Tag(current)) <==> held == current
  {
    TagNormalises(held);
    TagNormalises(current);
    assert ',' !in Tag(held);
    OneCandidate(Tag(held));
    assert Candidates(Tag(held))[0] == Tag(held);
    if Core(held) == Core(current) {
      CoreInjective(held, current);
    }
    assert Tag(held)[0] != '*';
  }

  // ---- A list of tags ----

  /** What If-None-Match may list: anything at all, or the tag of a version held, with or without its weak marker. */
  datatype Listed = Anything | Holding(version: Version, weak: bool)

  function Printed(l: Listed): string
  {
    if l.Anything? then "*" else if l.weak then Tag(l.version) else StrongTag(l.version)
  }

  predicate Covers(l: Listed, current: Version) { l.Anything? || l.version == current }

  function HeaderOf(list: seq<Listed>): string
  {
    if list == [] then ""
    else if |list| == 1 then Printed(list[0])
    else HeaderOf(list[..|list| - 1]) + ", " + Printed(list[|list| - 1])
  }

  lemma {:induction false} CandidatesJoin(a: string, b: string)
    requires ',' !in b
    ensures Candidates(a + "," + b) == Candidates(a) + [b]
  {
    var s := a + "," + b;
    var init := s[..|s| - 1];
    if b == "" {
      assert init == a;
    } else {
      var c := b[|b| - 1];
      assert init == a + "," + b[..|b| - 1] && c in b;
      CandidatesJoin(a, b[..|b| - 1]);
      assert b[..|b| - 1] + [c] == b;
    }
  }

  lemma NoComma(v: Version)
    ensures ',' !in Tag(v) && ',' !in StrongTag(v)
  {
    assert forall i :: 0 <= i < |Hex(v.mtime)| ==> IsHex(Hex(v.mtime)[i]);
    assert forall i :: 0 <= i < |Hex(v.size)| ==> IsHex(Hex(v.size)[i]);
  }

  lemma SpaceFirst(s: string)
    ensures Trim(" " + s) == Trim(s)
  {
    hide TrimRight;
    assert (" " + s)[1..] == s;
  }

  lemma PrintedPlain(l: Listed)
    ensures ',' !in Printed(l) && Trim(Printed(l)) == Printed(l) && Trim(" " + Printed(l)) == Printed(l)
  {
    hide Trim, Tag, StrongTag;
    SpaceFirst(Printed(l));
    if l.Anything? {
      TrimTight("*");
    } else {
      TagNormalises(l.version);
      NoComma(l.version);
    }
  }

  lemma PrintedAccepts(l: Listed, candidate: string, current: Version)
    requires Trim(candidate) == Printed(l)
    ensures Accepts(candidate, Tag(current)) <==> Covers(l, current)
  {
    PrintedPlain(l);
    TagNormalises(current);
    if l.Holding? {
      TagNormalises(l.version);
      assert Normalise(candidate) == Normalise(Printed(l));
      assert Printed(l)[0] != '*';
      if Core(l.version) == Core(current) {
        CoreInjective(l.version, current);
      }
    }
  }

  /** The candidates are the elements of the list, one by one. */
  lemma {:induction false} CandidatesOf(list: seq<Listed>)
    requires list != []
    ensures |Candidates(HeaderOf(list))| == |list|
    ensures forall i :: 0 <= i < |list| ==> Trim(Candidates(HeaderOf(list))[i]) == Printed(list[i])
  {
    hide Trim, Printed, Candidates;
    var last := list[|list| - 1];
    PrintedPlain(last);
    if |list| == 1 {
      OneCandidate(Printed(last));
    } else {
      var init := list[..|list| - 1];
      CandidatesOf(init);
      assert HeaderOf(list) == HeaderOf(init) + "," + (" " + Printed(last));
      CandidatesJoin(HeaderOf(init), " " + Printed(last));
      assert forall i :: 0 <= i < |init| ==> list[i] == init[i];
    }
  }

  /** A list is told "not modified" exactly when it asks for anything at all or holds the current version. */
  lemma ListMatchesIff(list: seq<Listed>, current: Version)
    ensures Matches(HeaderOf(list), Tag(current)) <==>
      exists i :: 0 <= i < |list| && Covers(list[i], current)
  {
    hide Candidates, Normalise, Trim, Tag, Printed, HeaderOf;
    var header, tag := HeaderOf(list), Tag(current);
    if list == [] {
      NothingListed(current);
    } else {
      CandidatesOf(list);
      forall i | 0 <= i < |list|
        ensures Accepts(Candidates(header)[i], tag) <==> Covers(list[i], current)
      {
        PrintedAccepts(list[i], Candidates(header)[i], current);
      }
    }
  }

  lemma NothingListed(current: Version)
    ensures !Matches(HeaderOf([]), Tag(current))
  {
    TagNormalises(current);
    TrimTight("");
    assert Candidates("") == [""];
  }
}
