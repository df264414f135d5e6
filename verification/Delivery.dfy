/**
 What an answer carries, said of the file itself: its bytes, the bytes a range names, and when it is left out
 because the browser has it; origin/mod.rs:1142-1260.
 */
module Delivery {
  import opened Common
  import opened Remotes
  import opened Guard
  import opened Answers
  import opened Trees
  import Etags
  import Ranges
  import SftpFiles

  /** The names asked for: those of the path, and the index page where it ends in a slash. */
  function Asked(req: Request): seq<Path>
    requires Segments(req.path).Some?
  {
    var names := Segments(req.path).value;
    if req.path != [] && [req.path[|req.path| - 1]] == Ascii("/") then names + [Ascii("index.html")] else names
  }

  predicate NoDotNames(names: seq<Path>) { forall i :: 0 <= i < |names| ==> !(Ascii(".") <= names[i]) }

  /** The request is for this file, listed so: reached through real directories, by no name that starts with a dot. */
  predicate LeadsTo(root: map<Path, Node>, req: Request, attrs: Attrs, f: Remotes.File)
  {
    && Segments(req.path).Some? && NoDotNames(Asked(req)) && Reach(root, Asked(req)) == AtFile(attrs, f)
    && !(req.wantsList && Asked(req) != Segments(req.path).value)
  }

  function ListedSize(attrs: Attrs): nat { if attrs.size.Some? then attrs.size.value else 0 }

  lemma AskedIs(req: Request)
    requires Segments(req.path).Some?
    ensures Asked(req) == FileSegments(req, Segments(req.path).value)
    ensures req.WantsDir() <==> Asked(req) != Segments(req.path).value
    ensures NoDotNames(Asked(req)) <==> !AnyHidden(Asked(req))
  {
    hide Segments;
    assert Ascii("index.html") == INDEX_HTML && Ascii("/") == [SLASH] && Ascii(".") == [DOT];
    var names := Asked(req);
    forall i | 0 <= i < |names| ensures Hidden(names[i]) <==> Ascii(".") <= names[i] {
    }
    assert |Asked(req)| == |Segments(req.path).value| + if req.WantsDir() then 1 else 0;
  }

  /** A request for a file is answered with something about that file. */
  lemma IsAnswered(remote: Remote, base: Path, root: map<Path, Node>, req: Request, attrs: Attrs, f: Remotes.File)
    requires ShowsFor(remote, TrimEnd(base), root, req) && LeadsTo(root, req, attrs, f)
    ensures Answer(remote, base, req) == FileAnswer(f, Joined(TrimEnd(base), Asked(req)), attrs, req.cond)
  {
    hide Segments, FileAnswer, Joined, ShowsFor, AnyHidden, Answer;
    AskedIs(req);
    AnswerFollowsTree(remote, base, root, req);
    LookReaches(root, Asked(req));
  }

  // ---- The whole file ----

  /** What can be read of a file, with the size it is listed with: a positive size that is too small is believed. */
  predicate Reads(f: Remotes.File, size: nat, body: seq<byte>)
  {
    match f
    case Readable(all) => if 0 < size < |all| then |body| == size && body <= all else body == all
    case Unreadable(status) => status == 1 && body == []
    case NotOpened(_) => false
  }

  predicate CanBeRead(f: Remotes.File) { f.Readable? || (f.Unreadable? && f.status == 1) }

  lemma FetchedReads(f: Remotes.File, size: nat)
    ensures CanBeRead(f) <==> SftpFiles.Fetched(f, size).Ok?
    ensures CanBeRead(f) ==> Reads(f, size, SftpFiles.Fetched(f, size).value)
  {
  }

  /** A plain request is answered with the file's bytes, or as not found if they cannot be read. */
  lemma WholeIsSent(remote: Remote, base: Path, root: map<Path, Node>, req: Request, attrs: Attrs, f: Remotes.File)
    requires ShowsFor(remote, TrimEnd(base), root, req) && LeadsTo(root, req, attrs, f)
    requires req.cond == Conditions(None, None, None)
    ensures var resp := Answer(remote, base, req);
      if CanBeRead(f) then
        && resp.Served? && Reads(f, ListedSize(attrs), resp.body) && resp.file == Joined(TrimEnd(base), Asked(req))
        && (resp.tag.Some? <==> attrs.mtime.Some? && attrs.size.Some?)
      else resp == NotFound
  {
    hide Segments, Reach, ShowsFor, Answer, Asked, Joined;
    IsAnswered(remote, base, root, req, attrs, f);
    FetchedReads(f, ListedSize(attrs));
  }

  // ---- A range of it ----

  /** Of a body, the bytes a range-spec names, as far as there are any. */
  predicate IsSelected(part: seq<byte>, body: seq<byte>, start: nat, end: nat)
  {
    && |part| == Max(0, Min(end + 1, |body|) - start)
    && forall k :: 0 <= k < |part| ==> part[k] == body[start + k]
  }

  /** The bytes a part of a file has: as they are in it, whatever its listed size. */
  predicate ReadsPart(f: Remotes.File, start: nat, end: nat, part: seq<byte>)
  {
    match f
    case Readable(all) => IsSelected(part, all, start, end)
    case _ => part == []
  }

  lemma ClampSelects(f: Remotes.File, size: nat, start: nat, end: nat)
    requires start <= end < size && CanBeRead(f)
    ensures SftpFiles.Fetched(f, size).Ok?
    ensures ReadsPart(f, start, end, Clamp(SftpFiles.Fetched(f, size).value, start, end + 1))
  {
  }

  /**
   A range is answered with exactly the bytes it names, or as unsatisfiable if it names none; which bytes those are
   goes by the listed size.
   */
  lemma RangeIsSent(
    remote: Remote, base: Path, root: map<Path, Node>, req: Request, attrs: Attrs, f: Remotes.File, spec: Ranges.Spec)
    requires ShowsFor(remote, TrimEnd(base), root, req) && LeadsTo(root, req, attrs, f)
    requires req.cond == Conditions(None, Some(Ranges.Print(spec)), None)
    ensures var resp := Answer(remote, base, req); var size := ListedSize(attrs);
      if forall i :: !Ranges.Selects(spec, size, i) then resp == RangeNotSatisfiable(size)
      else if CanBeRead(f) then
        && resp.Partial? && resp.size == size && resp.file == Joined(TrimEnd(base), Asked(req))
        && (forall i :: resp.start <= i <= resp.end <==> Ranges.Selects(spec, size, i))
        && ReadsPart(f, resp.start, resp.end, resp.body)
        && (resp.tag.Some? <==> attrs.mtime.Some? && attrs.size.Some?)
      else resp == NotFound
  {
    hide Segments, Reach, ShowsFor, Answer, Asked, Joined, Ranges.Selects, ReadsPart, FileAnswer, CanBeRead;
    IsAnswered(remote, base, root, req, attrs, f);
    RangeAnswered(f, Joined(TrimEnd(base), Asked(req)), attrs, req.cond, spec);
  }

  lemma RangeAnswered(f: Remotes.File, file: Path, attrs: Attrs, cond: Conditions, spec: Ranges.Spec)
    requires cond == Conditions(None, Some(Ranges.Print(spec)), None)
    ensures var resp := FileAnswer(f, file, attrs, cond); var size := ListedSize(attrs);
      if forall i :: !Ranges.Selects(spec, size, i) then resp == RangeNotSatisfiable(size)
      else if CanBeRead(f) then
        && resp.Partial? && resp.size == size && resp.file == file
        && (forall i :: resp.start <= i <= resp.end <==> Ranges.Selects(spec, size, i))
        && ReadsPart(f, resp.start, resp.end, resp.body)
        && (resp.tag.Some? <==> attrs.mtime.Some? && attrs.size.Some?)
      else resp == NotFound
  {
    hide Ranges.Resolve, Ranges.Selects, Ranges.Print, ReadsPart, Reads, Clamp;
    Ranges.PrintedResolves(spec, SizeOf(attrs));
    var r := Wanted(attrs, cond);
    if r.Part? {
      assert Ranges.Selects(spec, SizeOf(attrs), r.start);
      FetchedReads(f, SizeOf(attrs));
      if CanBeRead(f) {
        ClampSelects(f, SizeOf(attrs), r.start, r.end);
      }
    }
  }

  /** With an If-Range there is no range. */
  lemma IfRangeIsWhole(remote: Remote, base: Path, req: Request)
    requires req.cond.ifRange.Some?
    ensures Answer(remote, base, req) ==
      Answer(remote, base, req.(cond := Conditions(req.cond.ifNoneMatch, None, None)))
  {
    hide Segments, Joined, Chain, FirstRefused, AnySymlink, Walk, BodyAnswer;
  }

  // ---- What the browser has already ----

  /** The version of a file, where its directory lists both a time and a size. */
  predicate IsVersion(attrs: Attrs, v: Etags.Version)
  {
    attrs.mtime == Some(v.mtime) && attrs.size == Some(v.size)
  }

  /** The browser has it: its list holds the current version, or takes anything, and there is a version. */
  predicate Has(list: seq<Etags.Listed>, attrs: Attrs)
  {
    && attrs.mtime.Some? && attrs.size.Some?
    && exists i :: 0 <= i < |list| && (list[i].Anything? || IsVersion(attrs, list[i].version))
  }

  lemma HasMeans(list: seq<Etags.Listed>, attrs: Attrs)
    requires attrs.mtime.Some? && attrs.size.Some?
    ensures var current := Etags.Version(attrs.mtime.value, attrs.size.value);
      Has(list, attrs) <==> exists i :: 0 <= i < |list| && Etags.Covers(list[i], current)
  {
  }

  lemma SameFile(root: map<Path, Node>, req: Request, other: Request, attrs: Attrs, f: Remotes.File)
    requires LeadsTo(root, req, attrs, f) && other.path == req.path && other.wantsList == req.wantsList
    ensures LeadsTo(root, other, attrs, f) && Asked(other) == Asked(req)
  {
    hide Segments, Reach;
  }

  lemma HasNeedsVersion(list: seq<Etags.Listed>, attrs: Attrs)
    ensures Has(list, attrs) ==> attrs.mtime.Some? && attrs.size.Some?
  {
  }

  /** A file the browser has is not sent, whatever range is asked for; another is answered as if it had named none. */
  lemma NotSentIffHeld(
    remote: Remote, base: Path, root: map<Path, Node>, req: Request, attrs: Attrs, f: Remotes.File,
    list: seq<Etags.Listed>)
    requires ShowsFor(remote, TrimEnd(base), root, req) && LeadsTo(root, req, attrs, f)
    requires req.cond.ifNoneMatch == Some(Etags.HeaderOf(list))
    ensures Answer(remote, base, req).NotModified? <==> Has(list, attrs)
    ensures !Has(list, attrs) ==>
      Answer(remote, base, req) == Answer(remote, base, req.(cond := req.cond.(ifNoneMatch := None)))
  {
    hide Segments, Reach, Answer, Asked, Joined, Etags.HeaderOf, Etags.Matches, LeadsTo, Has;
    var plain := req.(cond := req.cond.(ifNoneMatch := None));
    SameFile(root, req, plain, attrs, f);
    IsAnswered(remote, base, root, req, attrs, f);
    IsAnswered(remote, base, root, plain, attrs, f);
    HasNeedsVersion(list, attrs);
    if attrs.mtime.Some? && attrs.size.Some? {
      HasMeans(list, attrs);
      Etags.ListMatchesIff(list, Etags.Version(attrs.mtime.value, attrs.size.value));
    }
  }

  /**
   The tag a file was sent with, sent back: later, however the file is listed then, it is not sent again if and only
   if it is listed with the same time and size.
   */
  lemma TagComesBack(
    remote: Remote, base: Path, root: map<Path, Node>, req: Request, attrs: Attrs, f: Remotes.File,
    later: Remote, root': map<Path, Node>, again: Request, attrs': Attrs, f': Remotes.File)
    requires ShowsFor(remote, TrimEnd(base), root, req) && LeadsTo(root, req, attrs, f)
    requires ShowsFor(later, TrimEnd(base), root', again) && LeadsTo(root', again, attrs', f')
    requires req.cond == Conditions(None, None, None)
    requires Answer(remote, base, req).Served? && Answer(remote, base, req).tag.Some?
    requires again.cond.ifNoneMatch == Answer(remote, base, req).tag
    ensures Answer(later, base, again).NotModified? <==> attrs'.mtime == attrs.mtime && attrs'.size == attrs.size
  {
    hide Segments, Reach, Answer, Asked, Joined, ShowsFor, Etags.Matches, Etags.Tag;
    IsAnswered(remote, base, root, req, attrs, f);
    IsAnswered(later, base, root', again, attrs', f');
    FetchedReads(f, SizeOf(attrs));
    if attrs'.mtime.Some? && attrs'.size.Some? {
      Etags.TagsMatchSameVersion(
        Etags.Version(attrs.mtime.value, attrs.size.value), Etags.Version(attrs'.mtime.value, attrs'.size.value));
    }
  }
}
