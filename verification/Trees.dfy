/** The path walk decides what a remote file tree says. */
module Trees {
  import opened Common
  import opened Remotes
  import opened Guard
  import opened Caching
  import opened Answers
  import Ranges
  import SftpFiles

  datatype Node = Node(attrs: Attrs, kind: Kind)

  /** A closed directory is there and is not listed, as one without read permission. */
  datatype Kind = Dir(children: map<Path, Node>) | File(file: Remotes.File) | Link | Closed

  /** Attributes that say what the node is. */
  predicate Labelled(n: Node)
  {
    (n.attrs.IsDir() <==> n.kind.Dir? || n.kind.Closed?) && (n.attrs.IsSymlink() <==> n.kind.Link?)
  }

  /** What a path without symlinks leads to; a file with what its directory lists of it. */
  datatype Place =
    | InDir(children: map<Path, Node>)
    | AtFile(attrs: Attrs, file: Remotes.File)
    | AtClosed
    | BehindClosed
    | BehindLink
    | Nowhere

  function Reach(children: map<Path, Node>, segs: seq<Path>): Place
    decreases |segs|
  {
    if segs == [] then InDir(children)
    else if segs[0] !in children then Nowhere
    else
      match children[segs[0]].kind
      case Link => BehindLink
      case Closed => if |segs| == 1 then AtClosed else BehindClosed
      case File(f) => if |segs| == 1 then AtFile(children[segs[0]].attrs, f) else Nowhere
      case Dir(c) => Reach(c, segs[1..])
  }

  /** A listing that names exactly the children, with their attributes. */
  ghost predicate ListsExactly(d: Remotes.Dir, children: map<Path, Node>)
  {
    && Contents(d).Ok?
    && forall name :: Find(Contents(d).value, name) == if name in children then Some(children[name].attrs) else None
  }

  /**
   The remote shows this tree under the base: real directories list their children, real files open
   as they are, what is not there is refused as absent, a closed directory is refused for another
   reason, what lies behind one may be anything at all, and what lies behind a symlink anything that
   is not refused for another reason.
   */
  ghost predicate Shows(remote: Remote, base: Path, root: map<Path, Node>)
  {
    forall segs :: Plain(segs) ==> ShowsAt(remote, base, root, segs)
  }

  ghost predicate ShowsAt(remote: Remote, base: Path, root: map<Path, Node>, segs: seq<Path>)
  {
    var p := Joined(base, segs);
    match Reach(root, segs)
    case InDir(children) => ListsExactly(remote.dirs(p), children) &&
      forall n :: n in children ==> Labelled(children[n])
    case AtFile(_, f) => remote.dirs(p) == NotListed(STATUS_NO_SUCH_FILE) && remote.files(p) == f
    case AtClosed => RefusedDir(remote, p)
    case BehindClosed => true
    case BehindLink => !RefusedDir(remote, p)
    case Nowhere => remote.dirs(p) == NotListed(STATUS_NO_SUCH_FILE)
  }

  /** The remote shows this much of the tree: what lies along one path. */
  ghost predicate ShowsAlong(remote: Remote, base: Path, root: map<Path, Node>, names: seq<Path>)
  {
    forall k :: 0 <= k <= |names| ==> ShowsAt(remote, base, root, names[..k])
  }

  /** As much of the tree as a request has to do with. */
  ghost predicate ShowsFor(remote: Remote, base: Path, root: map<Path, Node>, req: Request)
  {
    match Segments(req.path)
    case Some(segs) => ShowsAlong(remote, base, root, FileSegments(req, segs))
    case None => true
  }

  lemma ShowsEveryRequest(remote: Remote, base: Path, root: map<Path, Node>, req: Request)
    requires Shows(remote, base, root)
    ensures ShowsFor(remote, base, root, req)
  {
    if Segments(req.path).Some? {
      ResolvedIsPlain(req.path);
      var names := FileSegments(req, Segments(req.path).value);
      assert Plain(names);
      forall k | 0 <= k <= |names| ensures ShowsAt(remote, base, root, names[..k]) {
        assert Plain(names[..k]);
      }
    }
  }

  // ---- There is such a remote for every tree ----

  const STATUS_PERMISSION_DENIED: nat := 3

  /** The segments a path under the base has. */
  function SegsTo(base: Path, p: Path): Option<seq<Path>>
  {
    var segs := NonEmpty(Split(Below(base, p)));
    if Plain(segs) && Joined(TrimEnd(base), segs) == p then Some(segs) else None
  }

  function PlaceAt(base: Path, root: map<Path, Node>, p: Path): Place
  {
    match SegsTo(base, p)
    case Some(segs) => Reach(root, segs)
    case None => Nowhere
  }

  ghost function ListingOf(children: map<Path, Node>): (es: seq<Entry>)
    ensures forall name :: Find(es, name) == if name in children then Some(children[name].attrs) else None
    decreases |children|
  {
    if children == map[] then []
    else
      var name :| name in children;
      [Entry(name, children[name].attrs)] + ListingOf(children - {name})
  }

  ghost function ListedAt(place: Place): Remotes.Dir
  {
    match place
    case InDir(children) => Listed([ListingOf(children)], STATUS_EOF)
    case AtClosed => NotListed(STATUS_PERMISSION_DENIED)
    case _ => NotListed(STATUS_NO_SUCH_FILE)
  }

  ghost function RemoteOf(base: Path, root: map<Path, Node>): Remote
  {
    Remote(
      p => match PlaceAt(base, root, p) case AtFile(_, f) => f case _ => NotOpened(STATUS_NO_SUCH_FILE),
      p => ListedAt(PlaceAt(base, root, p)))
  }

  ghost predicate AllLabelled(root: map<Path, Node>)
  {
    forall segs, name :: Reach(root, segs).InDir? && name in Reach(root, segs).children ==>
      Labelled(Reach(root, segs).children[name])
  }

  lemma SegsToJoined(base: Path, segs: seq<Path>)
    requires Plain(segs)
    ensures SegsTo(base, Joined(TrimEnd(base), segs)) == Some(segs)
  {
    StepsOf(base, segs);
  }

  lemma ListedLists(children: map<Path, Node>)
    ensures ListsExactly(ListedAt(InDir(children)), children)
  {
    var es := ListingOf(children);
    assert [es][..0] == [] && [] + es == es;
    assert Flatten([es]) == es;
  }

  lemma ShownThere(base: Path, root: map<Path, Node>, segs: seq<Path>)
    requires AllLabelled(root) && Plain(segs)
    ensures ShowsAt(RemoteOf(base, root), TrimEnd(base), root, segs)
  {
    hide SegsTo, Plain, TrimEnd, Joined, ListingOf;
    SegsToJoined(base, segs);
    var place := Reach(root, segs);
    assert PlaceAt(base, root, Joined(TrimEnd(base), segs)) == place;
    if place.InDir? {
      ListedLists(place.children);
      assert forall name :: name in place.children ==> Labelled(Reach(root, segs).children[name]);
    }
  }

  lemma EveryTreeIsShown(base: Path, root: map<Path, Node>)
    requires AllLabelled(root)
    ensures Shows(RemoteOf(base, root), TrimEnd(base), root)
  {
    forall segs | Plain(segs) ensures ShowsAt(RemoteOf(base, root), TrimEnd(base), root, segs) {
      ShownThere(base, root, segs);
    }
  }

  // ---- The recursive specification ----

  /** A closed directory found on the way is told by how many names lead to it. */
  datatype Finding =
    | Blocked
    | ClosedAt(depth: nat)
    | Nothing
    | NothingLast
    | FileAt(attrs: Attrs, file: Remotes.File)
    | DirAt

  function Look(children: map<Path, Node>, segs: seq<Path>): (found: Finding)
    requires segs != []
    ensures found.ClosedAt? ==> found.depth < |segs|
    decreases |segs|
  {
    if segs[0] !in children then (if |segs| == 1 then NothingLast else Nothing)
    else
      var n := children[segs[0]];
      match n.kind
      case Link => Blocked
      case File(f) => if |segs| == 1 then FileAt(n.attrs, f) else Nothing
      case Closed => if |segs| == 1 then DirAt else ClosedAt(1)
      case Dir(c) => if |segs| == 1 then DirAt else Deeper(Look(c, segs[1..]))
  }

  function Deeper(found: Finding): Finding
  {
    if found.ClosedAt? then ClosedAt(found.depth + 1) else found
  }

  function TreeAnswer(root: map<Path, Node>, base: Path, req: Request, segs: seq<Path>): Response
  {
    var names := FileSegments(req, segs);
    if names == [] then Index(Joined(base, segs))
    else
      match Look(root, names)
      case Blocked => Forbidden
      case ClosedAt(depth) => BadGateway(Joined(base, names[..depth]))
      case Nothing => NotFound
      case NothingLast => if req.WantsDir() then Index(Joined(base, segs)) else NotFound
      case DirAt => if req.WantsDir() then Index(Joined(base, segs)) else Redirect(req.path + [SLASH])
      case FileAt(attrs, f) => FileAnswer(f, Joined(base, names), attrs, req.cond)
  }

  // ---- The walk follows the tree ----

  lemma {:induction false} ReachOn(root: map<Path, Node>, pre: seq<Path>, children: map<Path, Node>, rest: seq<Path>)
    requires Reach(root, pre) == InDir(children)
    ensures Reach(root, pre + rest) == Reach(children, rest)
    decreases |pre|
  {
    if pre == [] {
      assert pre + rest == rest;
    } else {
      assert (pre + rest)[1..] == pre[1..] + rest;
      match root[pre[0]].kind
      case Dir(c) => ReachOn(c, pre[1..], children, rest);
      case _ =>
    }
  }

  /** Where the first closed directory is, if there is one before the last name. */
  lemma {:induction false} LookCloses(root: map<Path, Node>, names: seq<Path>, i: nat)
    requires i < |names|
    ensures var found := Look(root, names);
      && (Reach(root, names[..i]).AtClosed? <==> found == ClosedAt(i))
      && (Reach(root, names[..i]).BehindClosed? <==> found.ClosedAt? && found.depth < i)
    decreases |names|
  {
    if i > 0 && names[0] in root {
      assert names[..i][1..] == names[1..][..i - 1];
      match root[names[0]].kind
      case Dir(c) => LookCloses(c, names[1..], i - 1);
      case _ =>
    } else if |names| > 1 && names[0] in root && root[names[0]].kind.Dir? {
      LookCloses(root[names[0]].kind.children, names[1..], 0);
    }
  }

  /** What is refused along the chain is the first closed directory. */
  lemma RefusedIfClosed(remote: Remote, base: Path, root: map<Path, Node>, names: seq<Path>)
    requires ShowsAlong(remote, base, root, names) && Plain(names) && names != []
    ensures var found := Look(root, names);
      && FirstRefused(remote, DirsOf(Chain(base, names))) ==
         if found.ClosedAt? then Some(Joined(base, names[..found.depth])) else None
  {
    hide Joined, Plain;
    var found := Look(root, names);
    var dirs := DirsOf(Chain(base, names));
    ChainAt(base, names, 0);
    LookCloses(root, names, 0);
    var clear := if found.ClosedAt? then found.depth else |names|;
    forall i | 0 <= i < |names|
      ensures dirs[i] == Joined(base, names[..i])
      ensures i < clear ==> !RefusedDir(remote, dirs[i])
      ensures found == ClosedAt(i) ==> RefusedDir(remote, dirs[i])
    {
      ChainAt(base, names, i);
      LookCloses(root, names, i);
      assert ShowsAt(remote, base, root, names[..i]);
    }
    FirstRefusedIs(remote, dirs, clear);
  }

  /** The first refusal of a list is the one with none before it. */
  lemma {:induction false} FirstRefusedIs(remote: Remote, dirs: seq<Path>, k: nat)
    requires k <= |dirs| && forall i :: 0 <= i < k ==> !RefusedDir(remote, dirs[i])
    requires k < |dirs| ==> RefusedDir(remote, dirs[k])
    ensures FirstRefused(remote, dirs) == if k < |dirs| then Some(dirs[k]) else None
  {
    if dirs != [] {
      FirstRefusedIs(remote, dirs[..|dirs| - 1], if k < |dirs| then k else k - 1);
    }
  }

  /** What looking up a name finds at a place in the tree. */
  predicate FoundAt(place: Place, name: Path, found: Option<Attrs>)
  {
    match place
    case InDir(c) => if name in c then found == Some(c[name].attrs) && Labelled(c[name]) else found == None
    case BehindLink => true
    case BehindClosed => true
    case _ => found == None
  }

  /** What a lookup at step i of the chain finds. */
  lemma LookupAt(remote: Remote, base: Path, root: map<Path, Node>, names: seq<Path>, i: nat)
    requires ShowsAlong(remote, base, root, names) && Plain(names) && i < |names|
    ensures var s := Chain(base, names)[i];
      s.name == names[i] && FoundAt(Reach(root, names[..i]), s.name, Lookup(remote, s.dir, s.name))
  {
    ChainAt(base, names, i);
    assert ShowsAt(remote, base, root, names[..i]);
  }

  /** Beyond a name that is missing or a file there are no symlinks. */
  lemma NothingBeyond(
    remote: Remote, base: Path, root: map<Path, Node>, names: seq<Path>, i: nat, children: map<Path, Node>)
    requires ShowsAlong(remote, base, root, names) && Plain(names) && i < |names|
    requires Reach(root, names[..i]) == InDir(children)
    requires names[i] in children && i + 1 < |names| ==> children[names[i]].kind.File?
    ensures forall j :: i < j < |names| ==> !SymlinkAt(remote, Chain(base, names)[j])
  {
    hide Plain, ShowsAlong, Joined;
    forall j | i < j < |names| ensures !SymlinkAt(remote, Chain(base, names)[j]) {
      LookupAt(remote, base, root, names, j);
      assert names[..j] == names[..i] + names[i..j];
      ReachOn(root, names[..i], children, names[i..j]);
      assert names[i..j][0] == names[i];
    }
  }

  /** The walk from step i on, in a real directory of the tree. */
  lemma {:induction false} WalkFollows(
    remote: Remote, base: Path, root: map<Path, Node>, names: seq<Path>, i: nat, children: map<Path, Node>)
    requires ShowsAlong(remote, base, root, names) && Plain(names) && i < |names|
    requires Reach(root, names[..i]) == InDir(children) && !Look(children, names[i..]).ClosedAt?
    ensures var chain := Chain(base, names)[i..]; var found := Look(children, names[i..]);
      && (AnySymlink(remote, chain) <==> found == Blocked)
      && (found != Blocked ==> Agrees(Walk(remote, chain), found))
    decreases |names| - i
  {
    hide Plain, ShowsAlong, Joined, AnySymlink, Chain;
    var chain := Chain(base, names);
    var rest := names[i..];
    LookupAt(remote, base, root, names, i);
    assert chain[i..][0] == chain[i] && chain[i..][1..] == chain[i + 1..] && rest[1..] == names[i + 1..];
    assert names[..i + 1] == names[..i] + [names[i]];
    ReachOn(root, names[..i], children, [names[i]]);
    if names[i] in children && children[names[i]].kind.Dir? {
      var c := children[names[i]].kind.children;
      var one := [names[i]];
      assert one[1..] == [];
      assert Reach(root, names[..i + 1]) == InDir(c);
      assert !SymlinkAt(remote, chain[i]);
      if i + 1 < |names| {
        WalkFollows(remote, base, root, names, i + 1, c);
        SymlinkLater(remote, chain, i);
      } else {
        SymlinkOnlyFrom(remote, chain, i);
      }
    } else if names[i] in children && children[names[i]].kind.Link? {
      SymlinkAtOnce(remote, chain[i..]);
    } else {
      NothingBeyond(remote, base, root, names, i, children);
      SymlinkOnlyFrom(remote, chain, i);
    }
  }

  predicate Agrees(v: Verdict, found: Finding)
  {
    match found
    case Nothing => v == Missing
    case NothingLast => v == MissingLast
    case FileAt(attrs, _) => v == Found(attrs) && !attrs.IsDir()
    case DirAt => v.Found? && v.attrs.IsDir()
    case _ => true
  }

  lemma SymlinkAtOnce(remote: Remote, chain: seq<Step>)
    requires chain != [] && SymlinkAt(remote, chain[0])
    ensures AnySymlink(remote, chain)
  {
    assert SymlinkAt(remote, chain[0]);
  }

  lemma SymlinkLater(remote: Remote, chain: seq<Step>, i: nat)
    requires i < |chain| && !SymlinkAt(remote, chain[i])
    ensures AnySymlink(remote, chain[i..]) <==> AnySymlink(remote, chain[i + 1..])
  {
    assert forall j :: i <= j < |chain| ==> chain[i..][j - i] == chain[j];
    assert forall j :: i < j < |chain| ==> chain[i + 1..][j - i - 1] == chain[j];
  }

  lemma SymlinkOnlyFrom(remote: Remote, chain: seq<Step>, i: nat)
    requires i < |chain| && forall j :: i < j < |chain| ==> !SymlinkAt(remote, chain[j])
    ensures AnySymlink(remote, chain[i..]) <==> SymlinkAt(remote, chain[i])
  {
    assert forall j :: i <= j < |chain| ==> chain[i..][j - i] == chain[j];
  }

  /** The answer a tree gives to a request: refusals of the path itself first, then what the walk finds. */
  function Decision(root: map<Path, Node>, base: Path, req: Request): Response
  {
    match Segments(req.path)
    case None => Forbidden
    case Some(segs) =>
      if req.WantsDir() && req.wantsList then Index(Joined(TrimEnd(base), segs))
      else if AnyHidden(FileSegments(req, segs)) then Forbidden
      else TreeAnswer(root, TrimEnd(base), req, segs)
  }

  lemma {:induction false} LookReaches(children: map<Path, Node>, segs: seq<Path>)
    requires segs != []
    ensures var found := Look(children, segs);
      found.FileAt? ==> Reach(children, segs) == AtFile(found.attrs, found.file)
    ensures Reach(children, segs).AtFile? ==> Look(children, segs).FileAt?
    decreases |segs|
  {
    if segs[0] in children && children[segs[0]].kind.Dir? {
      var c := children[segs[0]].kind.children;
      if |segs| == 1 {
        assert segs[1..] == [];
        assert Reach(c, segs[1..]) == InDir(c);
      } else {
        LookReaches(c, segs[1..]);
      }
    }
  }

  /** The walk from the base on decides as the tree does. */
  lemma WalkAgrees(remote: Remote, base: Path, root: map<Path, Node>, names: seq<Path>)
    requires ShowsAlong(remote, base, root, names) && Plain(names) && names != []
    ensures var chain := Chain(base, names); var found := Look(root, names);
      && chain != []
      && (!found.ClosedAt? ==> (AnySymlink(remote, chain) <==> found == Blocked))
      && (!found.ClosedAt? && found != Blocked ==> Agrees(Walk(remote, chain), found))
      && (found.FileAt? ==> remote.files(Joined(base, names)) == found.file)
  {
    ChainAt(base, names, 0);
    assert names[..0] == [] && names[0..] == names && Chain(base, names)[0..] == Chain(base, names);
    if !Look(root, names).ClosedAt? {
      WalkFollows(remote, base, root, names, 0, root);
    }
    LookReaches(root, names);
    assert names[..|names|] == names && ShowsAt(remote, base, root, names[..|names|]);
  }

  lemma WalkAnswerFollows(remote: Remote, base: Path, root: map<Path, Node>, req: Request, segs: seq<Path>)
    requires ShowsAlong(remote, base, root, FileSegments(req, segs)) && Plain(FileSegments(req, segs))
    ensures WalkAnswer(remote, base, req, segs) == TreeAnswer(root, base, req, segs)
  {
    var names := FileSegments(req, segs);
    if names == [] {
      assert Chain(base, names) == [];
    } else {
      RefusedIfClosed(remote, base, root, names);
      WalkAgrees(remote, base, root, names);
    }
  }

  /** Every request is answered as the tree along its path decides, whatever lies behind symlinks or elsewhere. */
  lemma AnswerFollowsTree(remote: Remote, base: Path, root: map<Path, Node>, req: Request)
    requires ShowsFor(remote, TrimEnd(base), root, req)
    ensures Answer(remote, base, req) == Decision(root, base, req)
  {
    if Segments(req.path).Some? {
      ResolvedIsPlain(req.path);
      assert Plain(FileSegments(req, Segments(req.path).value));
      WalkAnswerFollows(remote, TrimEnd(base), root, req, Segments(req.path).value);
    }
  }

  /** A file-shaped request with no conditions on it. */
  predicate PlainGet(req: Request)
  {
    !req.WantsDir() && req.cond == Conditions(None, None, None)
  }

  lemma FileServed(f: Remotes.File, file: Path, attrs: Attrs)
    ensures FileAnswer(f, file, attrs, Conditions(None, None, None)).Served? <==> Whole(f).Ok?
  {
    assert Wanted(attrs, Conditions(None, None, None)) == Ranges.Whole;
  }

  /**
   Content is served exactly for paths that stay inside the base, have no dot-name in them, and lead
   through real directories only to a file that can be read.
   */
  lemma ServedIffReadable(remote: Remote, base: Path, root: map<Path, Node>, req: Request)
    requires ShowsFor(remote, TrimEnd(base), root, req) && PlainGet(req)
    ensures Answer(remote, base, req).Served? <==>
      && Segments(req.path).Some?
      && var segs := Segments(req.path).value;
      && !AnyHidden(segs)
      && Reach(root, segs).AtFile? && Whole(Reach(root, segs).file).Ok?
  {
    AnswerFollowsTree(remote, base, root, req);
    if Segments(req.path).Some? {
      var segs := Segments(req.path).value;
      assert FileSegments(req, segs) == segs;
      ServedFromTree(root, TrimEnd(base), req, segs);
    }
  }

  lemma ServedFromTree(root: map<Path, Node>, base: Path, req: Request, segs: seq<Path>)
    requires PlainGet(req)
    ensures TreeAnswer(root, base, req, segs).Served? <==>
      Reach(root, segs).AtFile? && Whole(Reach(root, segs).file).Ok?
  {
    if segs != [] {
      LookReaches(root, segs);
      var found := Look(root, segs);
      if found.FileAt? {
        FileServed(found.file, Joined(base, segs), found.attrs);
      }
    }
  }
}
