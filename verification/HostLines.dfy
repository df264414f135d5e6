/**
 What an ssh_config says, line by line: which lines name hosts, and which names they name, however it is spaced, quoted
 and capitalised; ssh_config/mod.rs:76-137 and 217-264.
 */
module HostLines {
  import opened Common
  import opened SshConfig
  import Hosts
  import Ranges

  // ---- A text and its lines ----

  /** A line and how it ends. */
  datatype Ended = Ended(line: string, crlf: bool)

  predicate OneLine(e: Ended)
  {
    '\n' !in e.line && (e.line != "" && !e.crlf ==> e.line[|e.line| - 1] != '\r')
  }

  function TextOf(es: seq<Ended>, last: string): string
  {
    if es == [] then last else es[0].line + (if es[0].crlf then "\r\n" else "\n") + TextOf(es[1..], last)
  }

  function LinesOf(es: seq<Ended>, last: string): seq<string>
  {
    if es == [] then (if last == "" then [] else [last]) else [es[0].line] + LinesOf(es[1..], last)
  }

  lemma UntilBreak(s: string, at: nat)
    requires at < |s| && s[at] == '\n' && forall i :: 0 <= i < at ==> s[i] != '\n'
    ensures Until(s, 0, EndsLine) == at
  {
  }

  /** However its lines end, a text has the lines that were written; the last may not end at all. */
  lemma {:induction false} LinesWritten(es: seq<Ended>, last: string)
    requires (forall k :: 0 <= k < |es| ==> OneLine(es[k])) && '\n' !in last
    ensures Lines(TextOf(es, last)) == LinesOf(es, last)
    decreases |es|
  {
    hide Lines, OneLine;
    if es == [] {
      LastLine(last);
    } else {
      LineFirst(es[0], TextOf(es[1..], last));
      LinesWritten(es[1..], last);
    }
  }

  lemma LastLine(last: string)
    requires '\n' !in last
    ensures Lines(last) == if last == "" then [] else [last]
  {
    assert last != "" ==> Until(last, 0, EndsLine) == |last|;
  }

  lemma LineFirst(e: Ended, rest: string)
    requires OneLine(e)
    ensures Lines(e.line + (if e.crlf then "\r\n" else "\n") + rest) == [e.line] + Lines(rest)
  {
    var text := e.line + (if e.crlf then "\r\n" else "\n") + rest;
    var at := if e.crlf then |e.line| + 1 else |e.line|;
    assert text[at] == '\n' && text[at + 1..] == rest;
    assert e.crlf ==> text[|e.line|] == '\r';
    assert forall i :: 0 <= i < |e.line| ==> text[i] == e.line[i];
    UntilBreak(text, at);
    assert text[..|e.line|] == e.line;
  }

  lemma {:induction false} LinesHaveNoBreak(text: string)
    ensures forall k :: 0 <= k < |Lines(text)| ==> '\n' !in Lines(text)[k]
    decreases |text|
  {
    if text != "" {
      var end := Until(text, 0, EndsLine);
      if end < |text| {
        LinesHaveNoBreak(text[end + 1..]);
      }
    }
  }

  // ---- A line and its keyword ----

  predicate InSeparator(c: char) { c in {'=', ' ', '\t'} }

  predicate AllSeparator(s: string) { forall i :: 0 <= i < |s| ==> InSeparator(s[i]) }

  /** No space in it, no equals sign, and no hash in front. */
  predicate IsKeyword(s: string)
  {
    s != "" && s[0] != '#' && forall i :: 0 <= i < |s| ==> !Ranges.Space(s[i]) && s[i] != '='
  }

  predicate IsArgument(s: string) { Ranges.Tight(s) && (s != "" ==> !InSeparator(s[0])) }

  /** A setting: a keyword, what parts it from its argument, and space around the whole. */
  predicate IsSetting(line: string, before: string, keyword: string, separator: string, argument: string, after: string)
  {
    && Ranges.AllSpace(before) && IsKeyword(keyword) && AllSeparator(separator) && IsArgument(argument)
    && Ranges.AllSpace(after) && (argument != "" ==> separator != "")
    && line == before + (keyword + (separator + argument)) + after
  }

  lemma BlanksAreSpaces(c: char)
    ensures Blank(c) ==> Ranges.Space(c)
    ensures Blank(c) <==> c in {' ', '\t', '\n', '\r', 12 as char}
  {
  }

  /** The keyword and the argument of a setting, when its argument ends it. */
  lemma SettingTrimmed(keyword: string, separator: string, argument: string)
    requires IsKeyword(keyword) && AllSeparator(separator) && IsArgument(argument) && argument != "" && separator != ""
    ensures var line := keyword + (separator + argument);
      Ranges.Tight(line) && Until(line, 0, EndsKeyword) == |keyword|
      && Until(separator + argument, 0, NotSeparator) == |separator|
  {
    var line := keyword + (separator + argument);
    assert line[0] == keyword[0] && line[|line| - 1] == argument[|argument| - 1];
    forall i | 0 <= i < |keyword| ensures !EndsKeyword(line[i]) {
      assert line[i] == keyword[i];
      BlanksAreSpaces(keyword[i]);
    }
    assert line[|keyword|] == separator[0];
    UntilIs(line, |keyword|, EndsKeyword);
    var rest := separator + argument;
    assert forall i :: 0 <= i < |separator| ==> rest[i] == separator[i];
    assert rest[|separator|] == argument[0];
    UntilIs(rest, |separator|, NotSeparator);
  }

  lemma UntilIs(s: string, at: nat, p: char -> bool)
    requires at <= |s| && (at < |s| ==> p(s[at])) && forall i :: 0 <= i < at ==> !p(s[i])
    ensures Until(s, 0, p) == at
  {
  }

  lemma SettingReads(line: string, before: string, keyword: string, separator: string, argument: string, after: string)
    requires IsSetting(line, before, keyword, separator, argument, after)
    ensures KeywordAndRest(line) == Some((keyword, argument))
  {
    hide Ranges.Trim, Ranges.AllSpace, Ranges.Tight, Until, AllSeparator;
    if argument != "" {
      var trimmed := keyword + (separator + argument);
      SettingTrimmed(keyword, separator, argument);
      Ranges.TrimUndoes(before, trimmed, after);
      assert trimmed[..|keyword|] == keyword && trimmed[|keyword|..] == separator + argument;
      assert (separator + argument)[|separator|..] == argument;
      assert "" + argument + "" == argument;
      NoSpace();
      Ranges.TrimUndoes("", argument, "");
      assert trimmed[0] == keyword[0];
    } else {
      NoArgument(line, before, keyword, separator, after);
    }
  }

  lemma NoSpace()
    ensures Ranges.AllSpace("") && Ranges.Tight("") && Ranges.Trim("") == ""
  {
    Ranges.TrimTight("");
  }

  /** A separator that nothing follows: equals signs stay, the space behind them does not. */
  lemma {:induction false} SeparatorEnds(separator: string) returns (kept: string, space: string)
    requires AllSeparator(separator)
    ensures separator == kept + space && Ranges.AllSpace(space) && AllSeparator(kept)
    ensures kept != "" ==> !Ranges.Space(kept[|kept| - 1])
  {
    kept, space := separator, "";
    if separator != "" && Ranges.Space(separator[|separator| - 1]) {
      kept, space := SeparatorEnds(separator[..|separator| - 1]);
      space := space + [separator[|separator| - 1]];
    }
  }

  lemma NoArgument(line: string, before: string, keyword: string, separator: string, after: string)
    requires IsSetting(line, before, keyword, separator, "", after)
    ensures KeywordAndRest(line) == Some((keyword, ""))
  {
    hide Ranges.Trim, Until;
    var kept, space := SeparatorEnds(separator);
    var trimmed := keyword + kept;
    assert line == before + trimmed + (space + after);
    assert trimmed[0] == keyword[0];
    assert trimmed[|trimmed| - 1] == if kept == "" then keyword[|keyword| - 1] else kept[|kept| - 1];
    Ranges.TrimUndoes(before, trimmed, space + after);
    forall i | 0 <= i < |keyword| ensures !EndsKeyword(trimmed[i]) {
      assert trimmed[i] == keyword[i];
      BlanksAreSpaces(keyword[i]);
    }
    assert kept != "" ==> trimmed[|keyword|] == kept[0];
    UntilIs(trimmed, |keyword|, EndsKeyword);
    assert trimmed[..|keyword|] == keyword && trimmed[|keyword|..] == kept;
    UntilIs(kept, |kept|, NotSeparator);
    assert kept[|kept|..] == "";
    NoSpace();
  }

  /** A line that is blank, or starts with a hash, says nothing. */
  lemma NothingSaid(before: string, text: string, after: string)
    requires Ranges.AllSpace(before) && Ranges.AllSpace(after) && Ranges.Tight(text) && (text == "" || text[0] == '#')
    ensures KeywordAndRest(before + text + after) == None
  {
    hide Ranges.Trim;
    Ranges.TrimUndoes(before, text, after);
  }

  // ---- Keywords in whatever case ----

  predicate Spells(s: string, word: string)
    requires forall i :: 0 <= i < |word| ==> 'a' <= word[i] <= 'z'
  {
    |s| == |word| &&
    forall i :: 0 <= i < |s| ==> s[i] in {word[i], (word[i] as int - 'a' as int + 'A' as int) as char}
  }

  lemma LowerSpells(s: string, word: string)
    requires forall i :: 0 <= i < |word| ==> 'a' <= word[i] <= 'z'
    ensures Spells(s, word) <==> Lower(s) == word
  {
    var low := Lower(s);
    if low == word {
      forall i | 0 <= i < |s| ensures s[i] in {word[i], (word[i] as int - 'a' as int + 'A' as int) as char} {
        assert low[i] == LowerChar(s[i]);
      }
    }
    if Spells(s, word) {
      forall i | 0 <= i < |s| ensures low[i] == word[i] {
        assert s[i] in {word[i], (word[i] as int - 'a' as int + 'A' as int) as char};
      }
    }
  }

  /** A setting is an include exactly when its keyword says so, and names hosts exactly when it says that. */
  lemma SettingMeans(line: string, before: string, keyword: string, separator: string, argument: string, after: string)
    requires IsSetting(line, before, keyword, separator, argument, after)
    ensures IncludeTarget(line) == if Spells(keyword, "include") then Some(argument) else None
    ensures ArgumentOf(line, "host") == if Spells(keyword, "host") then Some(argument) else None
  {
    hide KeywordAndRest, Spells, Lower, IsSetting;
    SettingReads(line, before, keyword, separator, argument, after);
    LowerSpells(keyword, "include");
    LowerSpells(keyword, "host");
  }

  // ---- The names of a host line ----

  /** A name in an argument, with quotes around it or not. */
  datatype Quoted = Quoted(before: nat, name: string, after: nat)

  function Quotes(n: nat): (s: string)
    ensures |s| == n && forall i :: 0 <= i < n ==> s[i] == '"'
  {
    seq(n, _ => '"')
  }

  function Written(q: Quoted): string { Quotes(q.before) + (q.name + Quotes(q.after)) }

  predicate IsQuoted(q: Quoted)
  {
    && (q.name != "" ==> q.name[0] != '"' && q.name[|q.name| - 1] != '"')
    && (q.name == "" ==> q.after == 0) && Written(q) != "" && forall i :: 0 <= i < |q.name| ==> !Blank(q.name[i])
  }

  lemma {:induction false} UnquotedIs(q: Quoted)
    requires q.name != "" ==> q.name[0] != '"' && q.name[|q.name| - 1] != '"'
    requires q.name == "" ==> q.after == 0
    ensures Unquoted(Written(q)) == q.name
    decreases q.before + q.after
  {
    hide Written, Quotes;
    if q.before > 0 {
      OneLessBefore(q);
      UnquotedIs(q.(before := q.before - 1));
    } else if q.after > 0 {
      OneLessAfter(q);
      UnquotedIs(q.(after := q.after - 1));
    } else {
      NoQuotes(q);
    }
  }

  lemma OneLessBefore(q: Quoted)
    requires q.before > 0
    ensures var s := Written(q); s != "" && s[0] == '"' && s[1..] == Written(q.(before := q.before - 1))
  {
    assert Quotes(q.before)[1..] == Quotes(q.before - 1);
  }

  lemma OneLessAfter(q: Quoted)
    requires q.before == 0 && q.after > 0 && q.name != ""
    ensures var s := Written(q);
      s != "" && s[0] == q.name[0] && s[|s| - 1] == '"' && s[..|s| - 1] == Written(q.(after := q.after - 1))
  {
    assert Quotes(q.after)[..q.after - 1] == Quotes(q.after - 1);
  }

  lemma NoQuotes(q: Quoted)
    requires q.before == 0 && q.after == 0
    ensures Written(q) == q.name
  {
  }

  predicate AllBlank(s: string) { forall i :: 0 <= i < |s| ==> s[i] in {' ', '\t', '\n', '\r', 12 as char} }

  /** Words with blanks between any two: one gap more than words. */
  function Spaced(qs: seq<Quoted>, gaps: seq<string>): string
    requires |gaps| == |qs| + 1
  {
    if qs == [] then gaps[0] else gaps[0] + Written(qs[0]) + Spaced(qs[1..], gaps[1..])
  }

  predicate WellSpaced(qs: seq<Quoted>, gaps: seq<string>)
  {
    && |gaps| == |qs| + 1 && (forall i :: 0 <= i < |qs| ==> IsQuoted(qs[i]))
    && (forall i :: 0 <= i < |gaps| ==> AllBlank(gaps[i])) && forall i :: 0 < i < |qs| ==> gaps[i] != ""
  }

  /** A name that can be connected to: not empty, no pattern, not negated. */
  predicate IsName(name: string) { name != "" && name[0] != '!' && forall i :: 0 <= i < |name| ==> name[i] !in "*?" }

  function NamesOf(qs: seq<Quoted>): seq<string>
  {
    if qs == [] then [] else (if IsName(qs[0].name) then [qs[0].name] else []) + NamesOf(qs[1..])
  }

  lemma WrittenHasNoBlank(q: Quoted)
    requires IsQuoted(q)
    ensures forall i :: 0 <= i < |Written(q)| ==> !Blank(Written(q)[i])
  {
  }

  lemma GapThenWord(gap: string, word: string, more: string)
    requires AllBlank(gap) && word != "" && (forall i :: 0 <= i < |word| ==> !Blank(word[i]))
    requires more != "" ==> Blank(more[0])
    ensures Words(gap + word + more) == [word] + Words(more)
  {
    var s := gap + word + more;
    var start, end := |gap|, |gap| + |word|;
    assert s[start] == word[0];
    forall i | 0 <= i < start ensures !NotBlank(s[i]) {
      assert s[i] == gap[i];
    }
    UntilIs(s, start, NotBlank);
    forall i | start <= i < end ensures !Blank(s[i]) {
      assert s[i] == word[i - start];
    }
    assert end < |s| ==> s[end] == more[0];
    assert Until(s, start, Blank) == end;
    assert s[start..end] == word && s[end..] == more;
  }

  lemma NoWords(gap: string)
    requires AllBlank(gap)
    ensures Words(gap) == []
  {
    UntilIs(gap, |gap|, NotBlank);
  }

  lemma SpacedStarts(qs: seq<Quoted>, gaps: seq<string>)
    requires WellSpaced(qs, gaps) && (qs != [] ==> gaps[0] != "")
    ensures Spaced(qs, gaps) != "" ==> Blank(Spaced(qs, gaps)[0])
  {
    if qs != [] {
      assert Spaced(qs, gaps)[0] == gaps[0][0];
    }
  }

  lemma {:induction false} WordsNamed(qs: seq<Quoted>, gaps: seq<string>)
    requires WellSpaced(qs, gaps)
    ensures ConcreteOf(Words(Spaced(qs, gaps))) == NamesOf(qs)
    decreases |qs|
  {
    hide Words, Blank, Unquoted, Written, IsQuoted, AllBlank;
    if qs == [] {
      NoWords(gaps[0]);
    } else {
      var word, more := Written(qs[0]), Spaced(qs[1..], gaps[1..]);
      SpacedNext(qs, gaps);
      SpacedStarts(qs[1..], gaps[1..]);
      WrittenHasNoBlank(qs[0]);
      WordIs(qs[0]);
      GapThenWord(gaps[0], word, more);
      var words := [word] + Words(more);
      assert words[1..] == Words(more);
      WordsNamed(qs[1..], gaps[1..]);
      assert Concrete(qs[0].name) <==> IsName(qs[0].name);
    }
  }

  lemma WordIs(q: Quoted)
    requires IsQuoted(q)
    ensures Unquoted(Written(q)) == q.name && Written(q) != ""
  {
    UnquotedIs(q);
  }

  lemma SpacedNext(qs: seq<Quoted>, gaps: seq<string>)
    requires WellSpaced(qs, gaps) && qs != []
    ensures WellSpaced(qs[1..], gaps[1..]) && (qs[1..] != [] ==> gaps[1..][0] != "")
    ensures IsQuoted(qs[0]) && AllBlank(gaps[0])
  {
    hide IsQuoted, AllBlank;
    assert forall i :: 0 <= i < |gaps[1..]| ==> gaps[1..][i] == gaps[i + 1];
    assert forall i :: 0 <= i < |qs[1..]| ==> qs[1..][i] == qs[i + 1];
  }

  // ---- A whole configuration ----

  /** A line that says nothing, a setting, or a setting whose argument is names. */
  datatype Said =
    | Nothing(before: string, text: string, after: string)
    | Setting(before: string, keyword: string, separator: string, argument: string, after: string)
    | Host(before: string, keyword: string, separator: string, names: seq<Quoted>, gaps: seq<string>, after: string)

  function LineOf(s: Said): string
    requires s.Host? ==> |s.gaps| == |s.names| + 1
  {
    match s
    case Nothing(before, text, after) => before + text + after
    case Setting(before, keyword, separator, argument, after) => before + (keyword + (separator + argument)) + after
    case Host(before, keyword, separator, names, gaps, after) =>
      before + (keyword + (separator + Spaced(names, gaps))) + after
  }

  predicate IsSaid(s: Said)
  {
    match s
    case Nothing(before, text, after) =>
      Ranges.AllSpace(before) && Ranges.AllSpace(after) && Ranges.Tight(text) && (text == "" || text[0] == '#')
    case Setting(before, keyword, separator, argument, after) =>
      IsSetting(LineOf(s), before, keyword, separator, argument, after) && !Spells(keyword, "host")
    case Host(before, keyword, separator, names, gaps, after) =>
      && WellSpaced(names, gaps) && Spells(keyword, "host")
      && IsSetting(LineOf(s), before, keyword, separator, Spaced(names, gaps), after)
  }

  function NamedIn(said: seq<Said>): seq<string>
  {
    if said == [] then [] else (if said[0].Host? then NamesOf(said[0].names) else []) + NamedIn(said[1..])
  }

  predicate AllSaid(said: seq<Said>) { forall k :: 0 <= k < |said| ==> IsSaid(said[k]) }

  function LinesSaid(said: seq<Said>): (lines: seq<string>)
    requires AllSaid(said)
    ensures |lines| == |said| && forall k :: 0 <= k < |said| ==> lines[k] == LineOf(said[k])
  {
    seq(|said|, k requires 0 <= k < |said| => LineOf(said[k]))
  }

  lemma LineNames(s: Said)
    requires IsSaid(s)
    ensures NamesIn(LineOf(s)) == if s.Host? then NamesOf(s.names) else []
  {
    hide KeywordAndRest, Spells, IsSetting, Words, ArgumentOf;
    match s
    case Nothing(before, text, after) => SaysNoHost(before, text, after);
    case Setting(before, keyword, separator, argument, after) =>
      SettingMeans(LineOf(s), before, keyword, separator, argument, after);
    case Host(before, keyword, separator, names, gaps, after) =>
      SettingMeans(LineOf(s), before, keyword, separator, Spaced(names, gaps), after);
      WordsNamed(names, gaps);
  }

  lemma SaysNoHost(before: string, text: string, after: string)
    requires Ranges.AllSpace(before) && Ranges.AllSpace(after) && Ranges.Tight(text) && (text == "" || text[0] == '#')
    ensures ArgumentOf(before + text + after, "host") == None
  {
    hide KeywordAndRest;
    NothingSaid(before, text, after);
  }

  /** The names of a configuration are those its host lines name, in the order they stand in. */
  lemma {:induction false} NamesSaid(said: seq<Said>)
    requires AllSaid(said)
    ensures Names(LinesSaid(said)) == NamedIn(said)
    decreases |said|
  {
    hide NamesIn, LineOf, IsSaid;
    if said != [] {
      LineNames(said[0]);
      assert LinesSaid(said)[1..] == LinesSaid(said[1..]);
      NamesSaid(said[1..]);
    }
  }

  // ---- Which of them can be served ----

  predicate Ascending(at: seq<nat>) { forall i, j :: 0 <= i < j < |at| ==> at[i] < at[j] }

  /** The positions of the names whose alias is a label, or is none. */
  ghost predicate Positions(kept: seq<string>, at: seq<nat>, usable: bool)
  {
    && Ascending(at)
    && forall i: nat :: i in at <==> i < |kept| && (Hosts.LabelText(Lower(kept[i])) <==> usable)
  }

  /** The hosts are the names whose alias is a label, the unusable ones the others, both in order. */
  lemma {:induction false} SortedMeans(kept: seq<string>) returns (usable: seq<nat>, others: seq<nat>)
    ensures Positions(kept, usable, true) && Positions(kept, others, false)
    ensures var found := Sorted(kept);
      && |found.hosts| == |usable| && |found.unusable| == |others|
      && (forall m :: 0 <= m < |usable| ==>
        usable[m] < |kept| && found.hosts[m] == SshConfig.Host(kept[usable[m]], Lower(kept[usable[m]])))
      && forall m :: 0 <= m < |others| ==> others[m] < |kept| && found.unusable[m] == kept[others[m]]
  {
    hide Hosts.IsLabel, Hosts.LabelText, Lower, Positions;
    usable, others := [], [];
    if kept == [] {
      NoPositions();
    } else {
      var init, last := kept[..|kept| - 1], kept[|kept| - 1];
      usable, others := SortedMeans(init);
      Hosts.LabelIs(Lower(last));
      PositionsGrow(kept, usable, true);
      PositionsGrow(kept, others, false);
      if Hosts.IsLabel(Lower(last)) {
        usable := usable + [|init|];
      } else {
        others := others + [|init|];
      }
    }
  }

  lemma NoPositions()
    ensures Positions([], [], true) && Positions([], [], false)
  {
  }

  lemma PositionsGrow(kept: seq<string>, at: seq<nat>, usable: bool)
    requires kept != [] && Positions(kept[..|kept| - 1], at, usable)
    ensures var last := kept[|kept| - 1];
      Positions(kept, if Hosts.LabelText(Lower(last)) <==> usable then at + [|kept| - 1] else at, usable)
  {
    hide Hosts.LabelText, Lower;
    var init, last := kept[..|kept| - 1], kept[|kept| - 1];
    forall m | 0 <= m < |at| ensures at[m] < |init| {
      assert at[m] in at;
    }
    var more := if Hosts.LabelText(Lower(last)) <==> usable then at + [|init|] else at;
    forall i: nat
      ensures i in more <==> i < |kept| && (Hosts.LabelText(Lower(kept[i])) <==> usable)
    {
      assert i in more <==> i in at || (i == |init| && (Hosts.LabelText(Lower(last)) <==> usable));
      if i < |init| {
        assert init[i] == kept[i];
      }
    }
  }

  lemma LowerIs(c: char)
    ensures LowerChar(c) == if 'A' <= c <= 'Z' then (c as int - 'A' as int + 'a' as int) as char else c
  {
  }

  // ---- From the files to the hosts ----

  /** Every line with a line feed behind it. */
  function Joined(lines: seq<string>): string
  {
    if lines == [] then "" else Joined(lines[..|lines| - 1]) + lines[|lines| - 1] + "\n"
  }

  function Unbroken(lines: seq<string>): (es: seq<Ended>)
    ensures |es| == |lines|
    ensures forall k :: 0 <= k < |lines| ==> es[k] == EndedAs(lines[k])
  {
    seq(|lines|, k requires 0 <= k < |lines| => EndedAs(lines[k]))
  }

  /** A carriage return at the end of a line counts to its end from now on. */
  function EndedAs(line: string): Ended
  {
    if line != "" && line[|line| - 1] == '\r' then Ended(line[..|line| - 1], true) else Ended(line, false)
  }

  lemma {:induction false} JoinedIsText(lines: seq<string>)
    ensures Joined(lines) == TextOf(Unbroken(lines), "")
  {
    if lines != [] {
      var init, last := lines[..|lines| - 1], lines[|lines| - 1];
      JoinedIsText(init);
      assert Unbroken(lines) == Unbroken(init) + [EndedAs(last)];
      TextGrows(Unbroken(init), EndedAs(last));
      var e := EndedAs(last);
      assert last + "\n" == e.line + if e.crlf then "\r\n" else "\n";
    }
  }

  lemma {:induction false} TextGrows(es: seq<Ended>, e: Ended)
    ensures TextOf(es + [e], "") == TextOf(es, "") + (e.line + if e.crlf then "\r\n" else "\n")
  {
    if es == [] {
      assert [] + [e] == [e] && [e][1..] == [];
    } else {
      assert (es + [e])[1..] == es[1..] + [e];
      TextGrows(es[1..], e);
    }
  }

  lemma TrimmedAlike(line: string)
    ensures Ranges.Trim(EndedAs(line).line) == Ranges.Trim(line)
  {
    hide Ranges.Trim;
    var e := EndedAs(line).line;
    var a, b := Ranges.TrimMeans(e);
    if e != line {
      assert Ranges.AllSpace(b + "\r") && line == a + Ranges.Trim(e) + (b + "\r");
      Ranges.TrimUndoes(a, Ranges.Trim(e), b + "\r");
    }
  }

  lemma {:induction false} NamesUnbroken(lines: seq<string>)
    ensures Names(LinesOf(Unbroken(lines), "")) == Names(lines)
    decreases |lines|
  {
    hide Words, Ranges.Trim;
    if lines != [] {
      TrimmedAlike(lines[0]);
      assert Unbroken(lines)[1..] == Unbroken(lines[1..]);
      NamesUnbroken(lines[1..]);
    }
  }

  lemma EndedIsOne(line: string)
    requires '\n' !in line
    ensures OneLine(EndedAs(line))
  {
  }

  /** Joined and taken apart again, lines name what they did. */
  lemma JoinedNames(lines: seq<string>)
    requires forall k :: 0 <= k < |lines| ==> '\n' !in lines[k]
    ensures Names(Lines(Joined(lines))) == Names(lines)
  {
    hide Names, Lines, TextOf, LinesOf, Joined, EndedAs;
    JoinedIsText(lines);
    var es := Unbroken(lines);
    forall k | 0 <= k < |es| ensures OneLine(es[k]) {
      EndedIsOne(lines[k]);
    }
    LinesWritten(es, "");
    NamesUnbroken(lines);
  }
}
