/**
 Reading ssh_config: includes followed to a fixed depth, and the hosts that are named, ssh_config/mod.rs:64-137 and
 217-264.
 */
module SshConfig {
  import opened Common
  import Hosts
  import Ranges

  type File = string

  /** `depth > 16` is refused, so there is room for seventeen files, one inside the other. */
  const LEVELS: nat := 17

  // ---- Lines ----

  predicate Blank(c: char) { c == ' ' || c == '\t' || c == '\n' || c == '\r' || c == 12 as char }

  function LowerChar(c: char): char { if 'A' <= c <= 'Z' then (c as int + 32) as char else c }

  function Lower(s: string): (r: string)
    ensures |r| == |s| && forall i :: 0 <= i < |s| ==> r[i] == LowerChar(s[i])
  {
    seq(|s|, i requires 0 <= i < |s| => LowerChar(s[i]))
  }

  /** The first place from `from` on where p holds, or the end. */
  function Until(s: string, from: nat, p: char -> bool): (end: nat)
    requires from <= |s|
    ensures from <= end <= |s| && (end < |s| ==> p(s[end]))
    ensures forall i :: from <= i < end ==> !p(s[i])
    decreases |s| - from
  {
    if from == |s| || p(s[from]) then from else Until(s, from + 1, p)
  }

  predicate EndsLine(c: char) { c == '\n' }

  /** `str::lines`: a carriage return in front of a line feed goes with it. */
  function Lines(text: string): seq<string>
    decreases |text|
  {
    if text == "" then []
    else
      var end := Until(text, 0, EndsLine);
      if end == |text| then [text]
      else
        var line := if end > 0 && text[end - 1] == '\r' then text[..end - 1] else text[..end];
        [line] + Lines(text[end + 1..])
  }

  predicate EndsKeyword(c: char) { Blank(c) || c == '=' }

  predicate NotSeparator(c: char) { c != '=' && c != ' ' && c != '\t' }

  /** A line's keyword and the rest, however the two are separated; nothing for a comment or a blank line. */
  function KeywordAndRest(raw: string): Option<(string, string)>
  {
    var line := Ranges.Trim(raw);
    if line == "" || line[0] == '#' then None
    else
      var end := Until(line, 0, EndsKeyword);
      var rest := line[end..];
      Some((line[..end], Ranges.Trim(rest[Until(rest, 0, NotSeparator)..])))
  }

  function ArgumentOf(line: string, keyword: string): Option<string>
  {
    var parts := KeywordAndRest(line);
    if parts.Some? && Lower(parts.value.0) == keyword then Some(parts.value.1) else None
  }

  function IncludeTarget(line: string): Option<string> { ArgumentOf(line, "include") }

  // ---- Includes ----

  /** The files there are, and what an include's argument names of them, in the order it names them. */
  datatype World = World(texts: map<File, string>, isFile: File -> bool, expand: string -> seq<File>)

  datatype Failure = TooDeep(path: File) | Unreadable(path: File)

  type Gathered = Result<seq<string>, Failure>

  function Then(first: Gathered, second: Gathered): Gathered
  {
    if first.Err? then first else if second.Err? then second else Ok(first.value + second.value)
  }

  function GatherFile(w: World, path: File, room: nat): Gathered
    decreases room, 2, 0
  {
    if room == 0 then Err(TooDeep(path))
    else if path !in w.texts then Err(Unreadable(path))
    else GatherLines(w, Lines(w.texts[path]), room)
  }

  function GatherLines(w: World, lines: seq<string>, room: nat): Gathered
    requires room > 0
    decreases room, 1, |lines|
  {
    if lines == [] then Ok([])
    else
      var target := IncludeTarget(lines[0]);
      var first := if target.Some? then GatherAll(w, w.expand(target.value), room - 1) else Ok([lines[0]]);
      Then(first, GatherLines(w, lines[1..], room))
  }

  /** An include that does not exist contributes nothing. */
  function GatherAll(w: World, files: seq<File>, room: nat): Gathered
    decreases room, 3, |files|
  {
    if files == [] then Ok([])
    else Then(if w.isFile(files[0]) then GatherFile(w, files[0], room) else Ok([]), GatherAll(w, files[1..], room))
  }

  lemma ThenAgain(out: seq<string>, first: Gathered, second: Gathered)
    requires first.Ok?
    ensures Then(Ok(out), Then(first, second)) == Then(Ok(out + first.value), second)
  {
    if second.Ok? {
      assert out + (first.value + second.value) == (out + first.value) + second.value;
    }
  }

  lemma ThenNothing(first: Gathered)
    ensures Then(first, Ok([])) == first && Then(Ok([]), first) == first
  {
    if first.Ok? {
      assert first.value + [] == first.value && [] + first.value == first.value;
    }
  }

  /** `gather`, with the buffer it appends to passed through. */
  method Gather(w: World, path: File, depth: nat, before: seq<string>) returns (out: Gathered)
    requires depth <= LEVELS
    ensures out == Then(Ok(before), GatherFile(w, path, LEVELS - depth))
    decreases LEVELS - depth, 0
  {
    if depth >= LEVELS {
      return Err(TooDeep(path));
    }
    if path !in w.texts {
      return Err(Unreadable(path));
    }
    var lines := Lines(w.texts[path]);
    var got := before;
    ghost var room := LEVELS - depth;
    assert lines[0..] == lines;
    for i := 0 to |lines|
      invariant Then(Ok(got), GatherLines(w, lines[i..], room)) == Then(Ok(before), GatherLines(w, lines, room))
    {
      assert lines[i..][1..] == lines[i + 1..];
      var target := IncludeTarget(lines[i]);
      if target.Some? {
        var files := w.expand(target.value);
        ghost var rest := GatherLines(w, lines[i + 1..], room);
        ghost var all := GatherAll(w, files, room - 1);
        var included := GatherEach(w, files, depth + 1, got);
        if included.Err? {
          return included;
        }
        ThenAgain(got, all, rest);
        got := included.value;
      } else {
        ThenAgain(got, Ok([lines[i]]), GatherLines(w, lines[i + 1..], room));
        got := got + [lines[i]];
      }
    }
    assert lines[|lines|..] == [];
    ThenNothing(Ok(got));
    out := Ok(got);
  }

  method GatherEach(w: World, files: seq<File>, depth: nat, before: seq<string>) returns (out: Gathered)
    requires depth <= LEVELS
    ensures out == Then(Ok(before), GatherAll(w, files, LEVELS - depth))
    decreases LEVELS - depth, 1
  {
    var got := before;
    ghost var room := LEVELS - depth;
    assert files[0..] == files;
    for j := 0 to |files|
      invariant Then(Ok(got), GatherAll(w, files[j..], room)) == Then(Ok(before), GatherAll(w, files, room))
    {
      assert files[j..][1..] == files[j + 1..];
      if w.isFile(files[j]) {
        var included := Gather(w, files[j], depth, got);
        if included.Err? {
          return included;
        }
        ThenAgain(got, GatherFile(w, files[j], room), GatherAll(w, files[j + 1..], room));
        got := included.value;
      } else {
        ThenNothing(GatherAll(w, files[j + 1..], room));
      }
    }
    assert files[|files|..] == [];
    ThenNothing(Ok(got));
    out := Ok(got);
  }

  // ---- What the depth limit does ----

  /** This file names that one in an include. */
  predicate Includes(w: World, path: File, file: File)
  {
    path in w.texts && w.isFile(file) && IncludedBy(w, Lines(w.texts[path]), file)
  }

  predicate IncludedBy(w: World, lines: seq<string>, file: File)
  {
    exists i :: 0 <= i < |lines| && IncludeTarget(lines[i]).Some? && file in w.expand(IncludeTarget(lines[i]).value)
  }

  /** More room changes nothing for a configuration that is read at all: the limit never cuts one short. */
  lemma {:induction false} RoomToSpare(w: World, path: File, room: nat)
    requires GatherFile(w, path, room).Ok?
    ensures GatherFile(w, path, room + 1) == GatherFile(w, path, room)
    decreases room, 2, 0
  {
    LinesToSpare(w, Lines(w.texts[path]), room);
  }

  lemma {:induction false} LinesToSpare(w: World, lines: seq<string>, room: nat)
    requires room > 0 && GatherLines(w, lines, room).Ok?
    ensures GatherLines(w, lines, room + 1) == GatherLines(w, lines, room)
    decreases room, 1, |lines|
  {
    if lines != [] {
      LinesToSpare(w, lines[1..], room);
      var target := IncludeTarget(lines[0]);
      if target.Some? {
        FilesToSpare(w, w.expand(target.value), room - 1);
      }
    }
  }

  lemma {:induction false} FilesToSpare(w: World, files: seq<File>, room: nat)
    requires GatherAll(w, files, room).Ok?
    ensures GatherAll(w, files, room + 1) == GatherAll(w, files, room)
    decreases room, 3, |files|
  {
    if files != [] {
      FilesToSpare(w, files[1..], room);
      if w.isFile(files[0]) {
        RoomToSpare(w, files[0], room);
      }
    }
  }

  /** Some chain of includes from here runs out of room, or comes to a file that cannot be read. */
  ghost predicate Blocked(w: World, path: File, room: nat)
    decreases room
  {
    room == 0 || path !in w.texts || exists file :: Includes(w, path, file) && Blocked(w, file, room - 1)
  }

  /** Reading fails exactly when some chain of includes is blocked; how many there are does not matter. */
  lemma {:induction false} FailsIffBlocked(w: World, path: File, room: nat)
    ensures GatherFile(w, path, room).Err? <==> Blocked(w, path, room)
    decreases room, 2, 0
  {
    if room > 0 && path in w.texts {
      LinesFailIff(w, Lines(w.texts[path]), room);
      forall file | IncludedBy(w, Lines(w.texts[path]), file) && w.isFile(file) ensures Includes(w, path, file) {
      }
    }
  }

  ghost predicate AnyBlocked(w: World, lines: seq<string>, room: nat)
  {
    exists file :: IncludedBy(w, lines, file) && w.isFile(file) && Blocked(w, file, room)
  }

  lemma {:induction false} LinesFailIff(w: World, lines: seq<string>, room: nat)
    requires room > 0
    ensures GatherLines(w, lines, room).Err? <==> AnyBlocked(w, lines, room - 1)
    decreases room, 1, |lines|
  {
    if lines != [] {
      LinesFailIff(w, lines[1..], room);
      FirstOrRest(w, lines);
      var target := IncludeTarget(lines[0]);
      if target.Some? {
        FilesFailIff(w, w.expand(target.value), room - 1);
      }
    }
  }

  lemma FirstOrRest(w: World, lines: seq<string>)
    requires lines != []
    ensures forall file :: IncludedBy(w, lines, file) <==>
      IncludedBy(w, lines[1..], file)
      || (IncludeTarget(lines[0]).Some? && file in w.expand(IncludeTarget(lines[0]).value))
  {
    var rest := lines[1..];
    forall file | IncludedBy(w, rest, file) ensures IncludedBy(w, lines, file) {
      var i :| 0 <= i < |rest| && IncludeTarget(rest[i]).Some? && file in w.expand(IncludeTarget(rest[i]).value);
      assert lines[i + 1] == rest[i];
    }
    forall file | IncludedBy(w, lines, file)
      ensures IncludedBy(w, rest, file)
        || (IncludeTarget(lines[0]).Some? && file in w.expand(IncludeTarget(lines[0]).value))
    {
      var i :| 0 <= i < |lines| && IncludeTarget(lines[i]).Some? && file in w.expand(IncludeTarget(lines[i]).value);
      if i > 0 {
        assert rest[i - 1] == lines[i];
      }
    }
  }

  lemma {:induction false} FilesFailIff(w: World, files: seq<File>, room: nat)
    ensures GatherAll(w, files, room).Err? <==> exists file :: file in files && w.isFile(file) && Blocked(w, file, room)
    decreases room, 3, |files|
  {
    if files != [] {
      FilesFailIff(w, files[1..], room);
      FailsIffBlocked(w, files[0], room);
      assert forall file :: file in files <==> file == files[0] || file in files[1..];
    }
  }

  /** Each file of the loop includes the one that comes after it. */
  predicate IsLoop(w: World, after: map<File, File>)
  {
    forall f :: f in after ==> after[f] in after && Includes(w, f, after[f])
  }

  /** Files that include one another round and round are refused, with whatever room there is. */
  lemma LoopsAreRefused(w: World, after: map<File, File>, path: File, room: nat)
    requires path in after && IsLoop(w, after)
    ensures GatherFile(w, path, room).Err?
  {
    LoopBlocked(w, after, path, room);
    FailsIffBlocked(w, path, room);
  }

  lemma {:induction false} LoopBlocked(w: World, after: map<File, File>, path: File, room: nat)
    requires path in after && IsLoop(w, after)
    ensures Blocked(w, path, room)
    decreases room
  {
    hide Includes;
    if room > 0 {
      LoopBlocked(w, after, after[path], room - 1);
      assert Includes(w, path, after[path]);
    }
  }

  // ---- The hosts a configuration names ----

  predicate NotBlank(c: char) { !Blank(c) }

  /** `split_ascii_whitespace` */
  function Words(s: string): seq<string>
    decreases |s|
  {
    var start := Until(s, 0, NotBlank);
    if start == |s| then []
    else
      var end := Until(s, start, Blank);
      [s[start..end]] + Words(s[end..])
  }

  function Unquoted(s: string): string
    decreases |s|
  {
    if s == "" then s
    else if s[0] == '"' then Unquoted(s[1..])
    else if s[|s| - 1] == '"' then Unquoted(s[..|s| - 1])
    else s
  }

  /** A name to serve: not empty, without wildcards, not negated. */
  predicate Concrete(name: string) { name != "" && '*' !in name && '?' !in name && name[0] != '!' }

  function ConcreteOf(words: seq<string>): seq<string>
  {
    if words == [] then []
    else
      var name := Unquoted(words[0]);
      (if Concrete(name) then [name] else []) + ConcreteOf(words[1..])
  }

  function NamesIn(line: string): seq<string>
  {
    match ArgumentOf(line, "host")
    case Some(rest) => ConcreteOf(Words(rest))
    case None => []
  }

  /** Every concrete name, in the order of the file. */
  function Names(lines: seq<string>): seq<string>
  {
    if lines == [] then [] else NamesIn(lines[0]) + Names(lines[1..])
  }

  predicate Known(seen: seq<string>, name: string) { exists i :: 0 <= i < |seen| && Lower(seen[i]) == Lower(name) }

  /** The first spelling of each, after those seen already. */
  function Kept(seen: seq<string>, names: seq<string>): seq<string>
    decreases |names|
  {
    if names == [] then seen
    else Kept(if Known(seen, names[0]) then seen else seen + [names[0]], names[1..])
  }

  /** The first name of its alias in the file. */
  predicate FirstSpelling(names: seq<string>, i: nat)
  {
    i < |names| && forall j :: 0 <= j < i ==> Lower(names[j]) != Lower(names[i])
  }

  predicate OneEach(kept: seq<string>) { forall i, j :: 0 <= i < j < |kept| ==> Lower(kept[i]) != Lower(kept[j]) }

  /** The positions below k at which an alias is spelled for the first time, in the order of the file. */
  function FirstPositions(names: seq<string>, k: nat): (at: seq<nat>)
    requires k <= |names|
    ensures forall i :: 0 <= i < |at| ==> at[i] < k
  {
    if k == 0 then []
    else FirstPositions(names, k - 1) + if FirstSpelling(names, k - 1) then [k - 1] else []
  }

  function Picked(names: seq<string>, at: seq<nat>): (picked: seq<string>)
    requires forall i :: 0 <= i < |at| ==> at[i] < |names|
    ensures |picked| == |at| && forall i :: 0 <= i < |at| ==> picked[i] == names[at[i]]
  {
    seq(|at|, i requires 0 <= i < |at| => names[at[i]])
  }

  predicate Ascending(at: seq<nat>) { forall i, j :: 0 <= i < j < |at| ==> at[i] < at[j] }

  lemma {:induction false} PositionsMean(names: seq<string>, k: nat)
    requires k <= |names|
    ensures Ascending(FirstPositions(names, k))
    ensures forall i: nat :: i in FirstPositions(names, k) <==> i < k && FirstSpelling(names, i)
  {
    hide FirstSpelling;
    if k > 0 {
      PositionsMean(names, k - 1);
    }
  }

  /** The first spelling of the alias that name k spells. */
  lemma {:induction false} FirstOf(names: seq<string>, k: nat) returns (i: nat)
    requires k < |names|
    ensures i <= k && FirstSpelling(names, i) && Lower(names[i]) == Lower(names[k])
  {
    i := k;
    if !FirstSpelling(names, k) {
      var j :| 0 <= j < k && Lower(names[j]) == Lower(names[k]);
      i := FirstOf(names, j);
    }
  }

  /** With the first spellings before it seen, a name is known exactly when it is not a first spelling itself. */
  lemma KnownUnlessFirst(names: seq<string>, k: nat)
    requires k < |names|
    ensures Known(Picked(names, FirstPositions(names, k)), names[k]) <==> !FirstSpelling(names, k)
  {
    var at := FirstPositions(names, k);
    var seen := Picked(names, at);
    PositionsMean(names, k);
    if Known(seen, names[k]) {
      var m :| 0 <= m < |seen| && Lower(seen[m]) == Lower(names[k]);
      assert at[m] < k && Lower(names[at[m]]) == Lower(names[k]);
    }
    if !FirstSpelling(names, k) {
      var i := FirstOf(names, k);
      assert i in at;
      var m :| 0 <= m < |at| && at[m] == i;
      assert Lower(seen[m]) == Lower(names[k]);
    }
  }

  lemma {:induction false} KeptFrom(names: seq<string>, k: nat)
    requires k <= |names|
    ensures Kept(Picked(names, FirstPositions(names, k)), names[k..]) == Picked(names, FirstPositions(names, |names|))
    decreases |names| - k
  {
    hide Known, FirstSpelling;
    if k < |names| {
      var at := FirstPositions(names, k);
      KnownUnlessFirst(names, k);
      if FirstSpelling(names, k) {
        assert Picked(names, at + [k]) == Picked(names, at) + [names[k]];
      } else {
        assert at + [] == at;
      }
      assert names[k..][0] == names[k] && names[k..][1..] == names[k + 1..];
      KeptFrom(names, k + 1);
    } else {
      assert names[k..] == [];
    }
  }

  /** What is kept is the first spelling of every alias, and nothing else, in the order of the file. */
  lemma KeptAreFirstSpellings(names: seq<string>) returns (at: seq<nat>)
    ensures Ascending(at) && forall i: nat :: i in at <==> FirstSpelling(names, i)
    ensures |Kept([], names)| == |at| &&
      forall m :: 0 <= m < |at| ==> at[m] < |names| && Kept([], names)[m] == names[at[m]]
    ensures OneEach(Kept([], names))
    ensures forall i :: 0 <= i < |names| ==> Known(Kept([], names), names[i])
  {
    at := FirstPositions(names, |names|);
    PositionsMean(names, |names|);
    assert names[0..] == names && Picked(names, []) == [];
    KeptFrom(names, 0);
    var kept := Kept([], names);
    forall m, k | 0 <= m < k < |kept| ensures Lower(kept[m]) != Lower(kept[k]) {
      assert at[k] in at && FirstSpelling(names, at[k]);
    }
    forall k | 0 <= k < |names| ensures Known(kept, names[k]) {
      var i := FirstOf(names, k);
      var m :| 0 <= m < |at| && at[m] == i;
      assert kept[m] == names[i];
    }
  }

  /** A host under its alias: the name it goes by here. */
  datatype Host = Host(host: string, alias: string)

  datatype Found = Found(hosts: seq<Host>, unusable: seq<string>)

  function Sorted(kept: seq<string>): Found
  {
    if kept == [] then Found([], [])
    else
      var before := Sorted(kept[..|kept| - 1]);
      var name := kept[|kept| - 1];
      if Hosts.IsLabel(Lower(name)) then Found(before.hosts + [Host(name, Lower(name))], before.unusable)
      else Found(before.hosts, before.unusable + [name])
  }

  lemma KeptJoined(seen: seq<string>, a: seq<string>, b: seq<string>)
    ensures Kept(seen, a + b) == Kept(Kept(seen, a), b)
    decreases |a|
  {
    if a == [] {
      assert a + b == b;
    } else {
      assert (a + b)[1..] == a[1..] + b;
      KeptJoined(if Known(seen, a[0]) then seen else seen + [a[0]], a[1..], b);
    }
  }

  lemma SortedNext(seen: seq<string>, name: string)
    ensures Sorted(seen + [name]) ==
      if Hosts.IsLabel(Lower(name)) then Found(Sorted(seen).hosts + [Host(name, Lower(name))], Sorted(seen).unusable)
      else Found(Sorted(seen).hosts, Sorted(seen).unusable + [name])
  {
    assert (seen + [name])[..|seen|] == seen;
  }

  method Parse(text: string) returns (found: Found)
    ensures found == Sorted(Kept([], Names(Lines(text))))
  {
    var lines := Lines(text);
    var seen: seq<string> := [];
    found := Found([], []);
    assert lines[0..] == lines;
    for i := 0 to |lines|
      invariant found == Sorted(seen) && Kept(seen, Names(lines[i..])) == Kept([], Names(lines))
    {
      assert lines[i..][1..] == lines[i + 1..];
      KeptJoined(seen, NamesIn(lines[i]), Names(lines[i + 1..]));
      seen, found := ParseLine(lines[i], seen, found);
    }
    assert lines[|lines|..] == [];
  }

  method ParseLine(line: string, before: seq<string>, foundBefore: Found) returns (seen: seq<string>, found: Found)
    requires foundBefore == Sorted(before)
    ensures seen == Kept(before, NamesIn(line)) && found == Sorted(seen)
  {
    seen, found := before, foundBefore;
    var rest := ArgumentOf(line, "host");
    if rest.None? {
      return;
    }
    var words := Words(rest.value);
    assert words[0..] == words;
    for j := 0 to |words|
      invariant found == Sorted(seen) && Kept(seen, ConcreteOf(words[j..])) == Kept(before, ConcreteOf(words))
    {
      assert words[j..][1..] == words[j + 1..];
      var name := Unquoted(words[j]);
      KeptJoined(seen, if Concrete(name) then [name] else [], ConcreteOf(words[j + 1..]));
      if Concrete(name) {
        KeptOne(seen, name);
        if !Known(seen, name) {
          SortedNext(seen, name);
          found := if Hosts.IsLabel(Lower(name)) then Found(found.hosts + [Host(name, Lower(name))], found.unusable)
            else Found(found.hosts, found.unusable + [name]);
          seen := seen + [name];
        }
      }
    }
    assert words[|words|..] == [];
  }

  lemma KeptOne(seen: seq<string>, name: string)
    ensures Kept(seen, [name]) == if Known(seen, name) then seen else seen + [name]
  {
    assert [name][1..] == [];
  }
}
