/**
 What a request is answered with when nothing is ever cached: the specification the caching handler
 of origin/mod.rs:1029-1261 is held to.
 */
module Answers {
  import opened Common
  import opened Remotes
  import opened Guard
  import opened Caching
  import Ranges
  import Etags
  import SftpFiles

  /** Above this a range is read directly rather than cut from the whole body, origin/mod.rs:55. */
  const CACHE_WHOLE_MAX: nat := 8 * 1024 * 1024

  /** "index.html" */
  const INDEX_HTML: Path := [105, 110, 100, 101, 120, 46, 104, 116, 109, 108]

  datatype Conditions = Conditions(ifNoneMatch: Option<string>, range: Option<string>, ifRange: Option<string>)

  datatype Request = Request(path: Path, wantsList: bool, cond: Conditions)
  {
    predicate WantsDir() { path != [] && path[|path| - 1] == SLASH }
  }

  /** Index stands for the listing page of a directory, whose content is not modelled. */
  datatype Response =
    | Forbidden
    | NotFound
    | BadGateway(dir: Path)
    | Redirect(to: Path)
    | Index(dir: Path)
    | NotModified(validator: string)
    | RangeNotSatisfiable(size: nat)
    | Served(file: Path, body: seq<byte>, tag: Option<string>)
    | Partial(file: Path, body: seq<byte>, tag: Option<string>, start: nat, end: nat, size: nat)

  predicate Hidden(name: Path) { name != [] && name[0] == DOT }

  predicate AnyHidden(names: seq<Path>) { exists i :: 0 <= i < |names| && Hidden(names[i]) }

  /** One entry's attributes, as the remote lists them now. */
  function Lookup(remote: Remote, dir: Path, name: Path): Option<Attrs>
  {
    match Contents(remote.dirs(dir))
    case Ok(es) => Find(es, name)
    case Err(_) => None
  }

  /** A directory the remote will not list, for a reason other than there being none. */
  predicate RefusedDir(remote: Remote, dir: Path)
  {
    var c := Contents(remote.dirs(dir));
    c.Err? && !IsAbsent(c.error)
  }

  function FirstRefused(remote: Remote, dirs: seq<Path>): Option<Path>
  {
    if dirs == [] then None
    else
      var before := FirstRefused(remote, dirs[..|dirs| - 1]);
      var last := dirs[|dirs| - 1];
      if before.Some? then before else if RefusedDir(remote, last) then Some(last) else None
  }

  function DirsOf(chain: seq<Step>): (dirs: seq<Path>)
    ensures |dirs| == |chain|
    ensures forall i :: 0 <= i < |chain| ==> dirs[i] == chain[i].dir
  {
    seq(|chain|, i requires 0 <= i < |chain| => chain[i].dir)
  }

  predicate SymlinkAt(remote: Remote, s: Step)
  {
    var a := Lookup(remote, s.dir, s.name);
    a.Some? && a.value.IsSymlink()
  }

  predicate AnySymlink(remote: Remote, chain: seq<Step>)
  {
    exists i :: 0 <= i < |chain| && SymlinkAt(remote, chain[i])
  }

  datatype Verdict = Missing | MissingLast | Found(attrs: Attrs)

  /** Every step but the last has to be a directory; the last only has to be there. */
  function Walk(remote: Remote, chain: seq<Step>): Verdict
    requires chain != []
  {
    match Lookup(remote, chain[0].dir, chain[0].name)
    case None => if |chain| == 1 then MissingLast else Missing
    case Some(a) =>
      if |chain| == 1 then Found(a) else if !a.IsDir() then Missing else Walk(remote, chain[1..])
  }

  function TagOf(attrs: Attrs): Option<string>
  {
    if attrs.mtime.Some? && attrs.size.Some?
    then Some(Etags.Tag(Etags.Version(attrs.mtime.value, attrs.size.value))) else None
  }

  function SizeOf(attrs: Attrs): u64
  {
    match attrs.size
    case Some(n) => n
    case None => 0
  }

  predicate Unchanged(attrs: Attrs, cond: Conditions)
  {
    TagOf(attrs).Some? && cond.ifNoneMatch.Some? && Etags.Matches(cond.ifNoneMatch.value, TagOf(attrs).value)
  }

  function Wanted(attrs: Attrs, cond: Conditions): Ranges.Resolved
  {
    match cond.range
    case Some(header) => Ranges.Resolve(header, cond.ifRange, SizeOf(attrs))
    case None => Ranges.Whole
  }

  /** The bytes of a body that a resolved range names; all of them when there is none. */
  function Sent(file: Path, attrs: Attrs, body: seq<byte>, wanted: Ranges.Resolved): Response
  {
    match wanted
    case Part(start, end) => Partial(file, Clamp(body, start, end + 1), TagOf(attrs), start, end, SizeOf(attrs))
    case _ => Served(file, body, TagOf(attrs))
  }

  function FileAnswer(f: File, file: Path, attrs: Attrs, cond: Conditions): Response
  {
    if Unchanged(attrs, cond) then NotModified(TagOf(attrs).value)
    else if Wanted(attrs, cond).Unsatisfiable? then RangeNotSatisfiable(SizeOf(attrs))
    else BodyAnswer(f, file, attrs, Wanted(attrs, cond))
  }

  function BodyAnswer(f: File, file: Path, attrs: Attrs, wanted: Ranges.Resolved): Response
  {
    match SftpFiles.Fetched(f, SizeOf(attrs))
    case Ok(body) => Sent(file, attrs, body, wanted)
    case Err(_) => NotFound
  }

  /** The segments of the file a request is about. */
  function FileSegments(req: Request, segs: seq<Path>): seq<Path>
  {
    if req.WantsDir() then segs + [INDEX_HTML] else segs
  }

  function WalkAnswer(remote: Remote, base: Path, req: Request, segs: seq<Path>): Response
  {
    var chain := Chain(base, FileSegments(req, segs));
    if chain == [] then Index(Joined(base, segs))
    else if FirstRefused(remote, DirsOf(chain)).Some? then BadGateway(FirstRefused(remote, DirsOf(chain)).value)
    else if AnySymlink(remote, chain) then Forbidden
    else
      match Walk(remote, chain)
      case Missing => NotFound
      case MissingLast => if req.WantsDir() then Index(Joined(base, segs)) else NotFound
      case Found(attrs) =>
        if !attrs.IsDir() then
          var file := Joined(base, FileSegments(req, segs));
          FileAnswer(remote.files(file), file, attrs, req.cond)
        else if req.WantsDir() then Index(Joined(base, segs))
        else Redirect(req.path + [SLASH])
  }

  function Answer(remote: Remote, base: Path, req: Request): Response
  {
    match Segments(req.path)
    case None => Forbidden
    case Some(segs) =>
      if req.WantsDir() && req.wantsList then Index(Joined(TrimEnd(base), segs))
      else if AnyHidden(FileSegments(req, segs)) then Forbidden
      else WalkAnswer(remote, TrimEnd(base), req, segs)
  }
}
