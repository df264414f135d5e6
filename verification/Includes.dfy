/** Which lines of which files an ssh_config comes to, and in what order; ssh_config/mod.rs:89-117. */
module Includes {
  import opened Common
  import opened SshConfig
  import HostLines

  /**
   Where a line stands, from a file on: the number of the line; and if that is an include, the number of the file among
   those it names, and where the line stands from there.
   */
  type Address = seq<nat>

  /** The address of a line that is read, one that is no include itself. */
  predicate Leads(w: World, path: File, a: Address)
    decreases |a|
  {
    && path in w.texts && a != [] && a[0] < |Lines(w.texts[path])|
    && var target := IncludeTarget(Lines(w.texts[path])[a[0]]);
    if |a| == 1 then target.None?
    else
      && |a| > 2 && target.Some? && a[1] < |w.expand(target.value)| && w.isFile(w.expand(target.value)[a[1]])
      && Leads(w, w.expand(target.value)[a[1]], a[2..])
  }

  function LineAt(w: World, path: File, a: Address): string
    requires Leads(w, path, a)
    decreases |a|
  {
    var line := Lines(w.texts[path])[a[0]];
    if |a| == 1 then line else LineAt(w, w.expand(IncludeTarget(line).value)[a[1]], a[2..])
  }

  /** Addresses in the order of a book: the first number that differs decides. */
  predicate Before(a: Address, b: Address)
    decreases |a|
  {
    a != [] && b != [] && (a[0] < b[0] || (a[0] == b[0] && Before(a[1..], b[1..])))
  }

  predicate InOrder(at: seq<Address>) { forall i, j :: 0 <= i < j < |at| ==> Before(at[i], at[j]) }

  /** These are all the addresses from a file on, in order, and these the lines there. */
  ghost predicate Tells(w: World, path: File, at: seq<Address>, lines: seq<string>)
  {
    && InOrder(at) && (forall a :: a in at <==> Leads(w, path, a))
    && |lines| == |at| && forall i :: 0 <= i < |at| ==> lines[i] == LineAt(w, path, at[i])
  }

  // ---- From one line on, and from one file of an include on ----

  /** The same from line `from` on. */
  ghost predicate TellsFrom(w: World, path: File, from: nat, at: seq<Address>, lines: seq<string>)
  {
    && InOrder(at) && (forall a :: a in at <==> Leads(w, path, a) && a[0] >= from)
    && |lines| == |at| && forall i :: 0 <= i < |at| ==> lines[i] == LineAt(w, path, at[i])
  }

  /** An address below one of the files an include names. */
  predicate LeadsAmong(w: World, files: seq<File>, a: Address)
  {
    |a| > 1 && a[0] < |files| && w.isFile(files[a[0]]) && Leads(w, files[a[0]], a[1..])
  }

  function LineAmong(w: World, files: seq<File>, a: Address): string
    requires LeadsAmong(w, files, a)
  {
    LineAt(w, files[a[0]], a[1..])
  }

  /** The same for the files an include names, from number `from` on. */
  ghost predicate TellsAmong(w: World, files: seq<File>, from: nat, at: seq<Address>, lines: seq<string>)
  {
    && InOrder(at) && (forall a :: a in at <==> LeadsAmong(w, files, a) && a[0] >= from)
    && |lines| == |at| && forall i :: 0 <= i < |at| ==> lines[i] == LineAmong(w, files, at[i])
  }

  /** Each address one step further down. */
  function Under(k: nat, at: seq<Address>): (below: seq<Address>)
    ensures |below| == |at| && forall i :: 0 <= i < |at| ==> below[i] == [k] + at[i]
  {
    seq(|at|, i requires 0 <= i < |at| => [k] + at[i])
  }

  lemma UnderInOrder(k: nat, at: seq<Address>)
    requires InOrder(at)
    ensures InOrder(Under(k, at))
  {
    forall i, j | 0 <= i < j < |at| ensures Before([k] + at[i], [k] + at[j]) {
      assert ([k] + at[i])[1..] == at[i] && ([k] + at[j])[1..] == at[j];
    }
  }

  lemma UnderHas(k: nat, at: seq<Address>, a: Address)
    ensures a in Under(k, at) <==> a != [] && a[0] == k && a[1..] in at
  {
    if a in Under(k, at) {
      var i :| 0 <= i < |at| && a == [k] + at[i];
      assert a[1..] == at[i];
    }
    if a != [] && a[0] == k && a[1..] in at {
      var i :| 0 <= i < |at| && at[i] == a[1..];
      assert a == [k] + at[i] == Under(k, at)[i];
    }
  }

  lemma InOrderJoined(first: seq<Address>, later: seq<Address>)
    requires InOrder(first) && InOrder(later)
    requires forall a, b :: a in first && b in later ==> Before(a, b)
    ensures InOrder(first + later)
  {
  }

  // ---- What is gathered ----

  /** All of a file: its lines in order, and in the place of each include the lines of the files it names. */
  lemma {:induction false} FileTells(w: World, path: File, room: nat) returns (at: seq<Address>)
    requires GatherFile(w, path, room).Ok?
    ensures Tells(w, path, at, GatherFile(w, path, room).value)
    decreases room, 2, 0
  {
    var lines := Lines(w.texts[path]);
    assert lines[0..] == lines;
    at := LinesTell(w, path, 0, room);
  }

  lemma {:induction false} LinesTell(w: World, path: File, from: nat, room: nat) returns (at: seq<Address>)
    requires room > 0 && path in w.texts && from <= |Lines(w.texts[path])|
    requires GatherLines(w, Lines(w.texts[path])[from..], room).Ok?
    ensures TellsFrom(w, path, from, at, GatherLines(w, Lines(w.texts[path])[from..], room).value)
    decreases room, 1, |Lines(w.texts[path])| - from
  {
    hide Leads, LineAt, Lines, IncludeTarget, InOrder;
    var lines := Lines(w.texts[path]);
    if from == |lines| {
      at := [];
      NoneFrom(w, path);
    } else {
      assert lines[from..][0] == lines[from] && lines[from..][1..] == lines[from + 1..];
      var later := LinesTell(w, path, from + 1, room);
      var rest := GatherLines(w, lines[from + 1..], room).value;
      var target := IncludeTarget(lines[from]);
      if target.Some? {
        var files := w.expand(target.value);
        assert files[0..] == files;
        var among := FilesTell(w, files, 0, room - 1);
        at := Under(from, among) + later;
        IncludeTells(w, path, from, files, among, GatherAll(w, files, room - 1).value, later, rest);
      } else {
        at := [[from]] + later;
        OwnTells(w, path, from, later, rest);
      }
    }
  }

  lemma NoneFrom(w: World, path: File)
    requires path in w.texts
    ensures TellsFrom(w, path, |Lines(w.texts[path])|, [], [])
  {
  }

  lemma OwnTells(w: World, path: File, from: nat, later: seq<Address>, rest: seq<string>)
    requires path in w.texts && from < |Lines(w.texts[path])| && IncludeTarget(Lines(w.texts[path])[from]).None?
    requires TellsFrom(w, path, from + 1, later, rest)
    ensures TellsFrom(w, path, from, [[from]] + later, [Lines(w.texts[path])[from]] + rest)
  {
    hide Lines, IncludeTarget;
    var at := [[from]] + later;
    InOrderJoined([[from]], later);
    forall a ensures a in at <==> Leads(w, path, a) && a[0] >= from {
      if Leads(w, path, a) && a[0] == from {
        assert a == [from];
      }
    }
  }

  lemma IncludeTells(
    w: World, path: File, from: nat, files: seq<File>, among: seq<Address>, included: seq<string>,
    later: seq<Address>, rest: seq<string>)
    requires path in w.texts && from < |Lines(w.texts[path])|
    requires IncludeTarget(Lines(w.texts[path])[from]).Some?
    requires files == w.expand(IncludeTarget(Lines(w.texts[path])[from]).value)
    requires TellsAmong(w, files, 0, among, included) && TellsFrom(w, path, from + 1, later, rest)
    ensures TellsFrom(w, path, from, Under(from, among) + later, included + rest)
  {
    hide Lines, IncludeTarget, InOrder;
    var at := Under(from, among) + later;
    UnderInOrder(from, among);
    assert forall a, b :: a in Under(from, among) && b in later ==> Before(a, b);
    InOrderJoined(Under(from, among), later);
    forall a ensures a in at <==> Leads(w, path, a) && a[0] >= from {
      UnderHas(from, among, a);
      Downwards(w, path, from, files, a);
    }
    forall i | 0 <= i < |at| ensures (included + rest)[i] == LineAt(w, path, at[i]) {
      if i < |among| {
        Downwards(w, path, from, files, at[i]);
        assert at[i][1..] == among[i];
      }
    }
  }

  /** Below an include line an address goes on below one of its files. */
  lemma Downwards(w: World, path: File, from: nat, files: seq<File>, a: Address)
    requires path in w.texts && from < |Lines(w.texts[path])|
    requires IncludeTarget(Lines(w.texts[path])[from]).Some?
    requires files == w.expand(IncludeTarget(Lines(w.texts[path])[from]).value)
    ensures a != [] && a[0] == from ==> (Leads(w, path, a) <==> LeadsAmong(w, files, a[1..]))
    ensures Leads(w, path, a) && a[0] == from ==> LineAt(w, path, a) == LineAmong(w, files, a[1..])
  {
    hide Lines, IncludeTarget;
    if |a| > 1 {
      assert a[1..][0] == a[1] && a[1..][1..] == a[2..];
    }
  }

  lemma {:induction false} FilesTell(w: World, files: seq<File>, from: nat, room: nat) returns (at: seq<Address>)
    requires from <= |files| && GatherAll(w, files[from..], room).Ok?
    ensures TellsAmong(w, files, from, at, GatherAll(w, files[from..], room).value)
    decreases room, 3, |files| - from
  {
    hide Leads, LineAt, InOrder, GatherFile;
    if from == |files| {
      at := [];
      NoneAmong(w, files);
    } else {
      assert files[from..][0] == files[from] && files[from..][1..] == files[from + 1..];
      var later := FilesTell(w, files, from + 1, room);
      var rest := GatherAll(w, files[from + 1..], room).value;
      if w.isFile(files[from]) {
        var below := FileTells(w, files[from], room);
        at := Under(from, below) + later;
        FileAmong(w, files, from, below, GatherFile(w, files[from], room).value, later, rest);
      } else {
        at := later;
        NoFileAmong(w, files, from, later, rest);
        assert [] + rest == rest;
      }
    }
  }

  lemma NoneAmong(w: World, files: seq<File>)
    ensures TellsAmong(w, files, |files|, [], [])
  {
  }

  lemma NoFileAmong(w: World, files: seq<File>, from: nat, later: seq<Address>, rest: seq<string>)
    requires from < |files| && !w.isFile(files[from]) && TellsAmong(w, files, from + 1, later, rest)
    ensures TellsAmong(w, files, from, later, rest)
  {
    hide Leads, LineAt, InOrder;
  }

  lemma FileAmong(
    w: World, files: seq<File>, from: nat, below: seq<Address>, lines: seq<string>, later: seq<Address>,
    rest: seq<string>)
    requires from < |files| && w.isFile(files[from]) && Tells(w, files[from], below, lines)
    requires TellsAmong(w, files, from + 1, later, rest)
    ensures TellsAmong(w, files, from, Under(from, below) + later, lines + rest)
  {
    hide Leads, LineAt, InOrder;
    var at := Under(from, below) + later;
    UnderInOrder(from, below);
    assert forall a, b :: a in Under(from, below) && b in later ==> Before(a, b);
    InOrderJoined(Under(from, below), later);
    forall a ensures a in at <==> LeadsAmong(w, files, a) && a[0] >= from {
      UnderHas(from, below, a);
      LongerThanOne(w, files[from], a);
    }
    forall i | 0 <= i < |at| ensures (lines + rest)[i] == LineAmong(w, files, at[i]) {
      if i < |below| {
        assert at[i][1..] == below[i];
      }
    }
  }

  lemma LongerThanOne(w: World, path: File, a: Address)
    ensures a != [] && Leads(w, path, a[1..]) ==> |a| > 1
  {
  }

  /** A file without an include line gathers to its own lines. */
  lemma PlainFile(w: World, path: File, room: nat)
    requires room > 0 && path in w.texts
    requires forall i :: 0 <= i < |Lines(w.texts[path])| ==> IncludeTarget(Lines(w.texts[path])[i]).None?
    ensures GatherFile(w, path, room) == Ok(Lines(w.texts[path]))
  {
    PlainLines(w, Lines(w.texts[path]), room);
  }

  lemma {:induction false} PlainLines(w: World, lines: seq<string>, room: nat)
    requires room > 0 && forall i :: 0 <= i < |lines| ==> IncludeTarget(lines[i]).None?
    ensures GatherLines(w, lines, room) == Ok(lines)
    decreases |lines|
  {
    hide IncludeTarget;
    if lines != [] {
      PlainLines(w, lines[1..], room);
      assert [lines[0]] + lines[1..] == lines;
    }
  }

  // ---- From the files to the hosts ----

  lemma {:induction false} NoBreakAt(w: World, path: File, a: Address)
    requires Leads(w, path, a)
    ensures '\n' !in LineAt(w, path, a)
    decreases |a|
  {
    hide IncludeTarget, Lines;
    HostLines.LinesHaveNoBreak(w.texts[path]);
    if |a| > 1 {
      NoBreakAt(w, w.expand(IncludeTarget(Lines(w.texts[path])[a[0]]).value)[a[1]], a[2..]);
    }
  }

  lemma GatheredUnbroken(w: World, path: File, room: nat)
    requires GatherFile(w, path, room).Ok?
    ensures forall k :: 0 <= k < |GatherFile(w, path, room).value| ==> '\n' !in GatherFile(w, path, room).value[k]
  {
    hide GatherFile, Leads, LineAt, InOrder;
    var at := FileTells(w, path, room);
    forall k | 0 <= k < |at| ensures '\n' !in GatherFile(w, path, room).value[k] {
      assert at[k] in at;
      NoBreakAt(w, path, at[k]);
    }
  }

  /**
   `read_from`: no file is no hosts; a chain of includes that is blocked is a failure; otherwise the hosts are those
   that the lines gathered name, each alias once, as it is spelled first.
   */
  method ReadFrom(w: World, path: File, there: bool) returns (found: Result<Found, Failure>)
    ensures !there ==> found == Ok(Found([], []))
    ensures there ==> match GatherFile(w, path, 17)
      case Err(failure) => found == Err(failure)
      case Ok(lines) => found == Ok(Sorted(Kept([], Names(lines))))
  {
    hide GatherFile, Names, Kept, Sorted, Lines;
    if !there {
      return Ok(Found([], []));
    }
    var got := Gather(w, path, 0, []);
    ThenNothing(GatherFile(w, path, LEVELS));
    if got.Err? {
      return Err(got.error);
    }
    GatheredUnbroken(w, path, LEVELS);
    HostLines.JoinedNames(got.value);
    var parsed := Parse(HostLines.Joined(got.value));
    found := Ok(parsed);
  }
}
