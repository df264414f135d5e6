/** The request handler with its caches and its prefetcher, origin/mod.rs. */
module Origins {
  import opened Common
  import opened Remotes
  import opened Guard
  import opened Caching
  import opened Answers
  import Ranges
  import SftpFiles
  import Prefetch
  import opened Links

  type Held = map<Path, seq<Entry>>

  /** One entry's attributes, out of the listings a request is holding. */
  function AttrsIn(held: Held, dir: Path, name: Path): Option<Attrs>
  {
    if dir in held then Find(held[dir], name) else None
  }

  /** A held listing says what the remote says. */
  ghost predicate HeldRight(held: Held, remote: Remote, dir: Path)
  {
    forall name :: AttrsIn(held, dir, name) == Lookup(remote, dir, name)
  }

  /** So does every one of them. */
  ghost predicate AllRight(held: Held, remote: Remote)
  {
    forall d :: d in held ==> Contents(remote.dirs(d)).Ok? && HeldRight(held, remote, d)
  }

  /** Everything a chain needs is held, or on the list of what is missing. */
  predicate Accounted(held: Held, missing: seq<Path>, dirs: seq<Path>)
  {
    forall i :: 0 <= i < |dirs| ==> dirs[i] in held || dirs[i] in missing
  }

  /** Every listing the remote gives is coherent. */
  ghost predicate CoherentRemote(remote: Remote)
  {
    forall d :: Contents(remote.dirs(d)).Ok? ==> Coherent(Contents(remote.dirs(d)).value)
  }

  /** Each of these directories either lists or is absent. */
  ghost predicate NoRefusals(remote: Remote, dirs: seq<Path>)
  {
    forall d :: d in dirs ==> !RefusedDir(remote, d)
  }

  /** The answer asked for, or a failure because the session ended under the request. */
  predicate AnsweredAs(got: Response, want: Response, alive: bool)
  {
    got == want || (!alive && (got.BadGateway? || got.NotFound?))
  }

  /** Cut short by its session: a file that had been asked for is not found, and before that the gateway is bad. */
  predicate AnsweredOrCut(got: Response, want: Response, alive: bool, asked: bool)
  {
    got == want || (!alive && if asked then got.NotFound? else got.BadGateway?)
  }

  /** `res.status().is_server_error()` */
  predicate ServerError(resp: Response) { resp.BadGateway? }

  /** A directory the daemon may list on a page's word: known, step by step from the base, to be no symlink. */
  predicate Trusted(remote: Remote, base: Path, dir: Path)
  {
    || TrimEnd(dir) == TrimEnd(base)
    || forall s :: s in Chain(TrimEnd(base), NonEmpty(Split(Below(base, dir)))) ==> RealDirAt(remote, s)
  }

  predicate RealDirAt(remote: Remote, s: Step)
  {
    var a := Lookup(remote, s.dir, s.name);
    a.Some? && a.value.IsDir() && !a.value.IsSymlink()
  }

  /** A file the prefetcher may read: a listed file, no part of whose path is hidden or a symlink. */
  predicate Approved(remote: Remote, base: Path, file: Path)
  {
    var chain := Chain(TrimEnd(base), NonEmpty(Split(Below(base, file))));
    && chain != []
    && (forall s :: s in chain ==> !Hidden(s.name) && !SymlinkAt(remote, s) && Trusted(remote, base, s.dir))
    && (var a := Lookup(remote, chain[|chain| - 1].dir, chain[|chain| - 1].name); a.Some? && !a.value.IsDir())
  }

  predicate AnyHiddenStep(chain: seq<Step>) { exists i :: 0 <= i < |chain| && Hidden(chain[i].name) }

  predicate AnySymlinkIn(held: Held, chain: seq<Step>)
  {
    exists i :: 0 <= i < |chain| &&
      var a := AttrsIn(held, chain[i].dir, chain[i].name); a.Some? && a.value.IsSymlink()
  }

  /** Reading a range directly sends the bytes that cutting it from the whole would. */
  lemma DirectPart(f: File, size: u64, start: nat, end: nat)
    requires start <= end < size
    ensures match SftpFiles.Fetched(f, size)
      case Ok(body) => Part(f, start, end - start + 1) == Ok(Clamp(body, start, end + 1))
      case Err(_) => Part(f, start, end - start + 1).Err?
  {
    match f
    case Readable(body) =>
      if start < |body| {
        var m, t := Min(size, |body|), Min(end + 1, |body|);
        assert body[..m][start..t] == body[start..t];
        assert Clamp(body[..m], start, end + 1) == Clamp(body, start, end + 1);
        assert body[..|body|] == body;
      }
    case _ =>
  }

  lemma ChainOfFile(base: Path, req: Request)
    requires Segments(req.path).Some?
    ensures var segs := Segments(req.path).value; var b := TrimEnd(base);
      && NonEmpty(Split(Below(base, Joined(b, FileSegments(req, segs))))) == FileSegments(req, segs)
      && (req.WantsDir() ==> Joined(b, FileSegments(req, segs)) == Joined(b, segs) + [SLASH] + INDEX_HTML)
  {
    var segs := Segments(req.path).value;
    ResolvedIsPlain(req.path);
    assert Plain(FileSegments(req, segs));
    StepsOf(base, FileSegments(req, segs));
    ChainGrows(TrimEnd(base), segs, INDEX_HTML);
  }

  lemma {:induction false} HiddenNames(base: Path, names: seq<Path>)
    ensures AnyHiddenStep(Chain(base, names)) <==> AnyHidden(names)
  {
    forall i | 0 <= i < |names| ensures Chain(base, names)[i].name == names[i] {
      ChainAt(base, names, i);
    }
    if AnyHidden(names) {
      var i :| 0 <= i < |names| && Hidden(names[i]);
      assert Hidden(Chain(base, names)[i].name);
    }
  }

  /** A reference resolved, and a file the prefetcher has decided to read. */
  datatype Target = Target(path: Path, chain: seq<Step>)

  datatype ToRead = ToRead(path: Path, attrs: Attrs, size: u64)

  ghost predicate Reachable(remote: Remote, base: Path, t: Target)
  {
    && t.chain != [] && t.chain == Chain(TrimEnd(base), NonEmpty(Split(Below(base, t.path))))
    && !AnyHiddenStep(t.chain)
    && forall s :: s in t.chain ==> Trusted(remote, base, s.dir)
  }

  function PathsOf(toRead: seq<ToRead>): (ps: seq<Path>)
    ensures |ps| == |toRead| && forall i :: 0 <= i < |toRead| ==> ps[i] == toRead[i].path
  {
    seq(|toRead|, i requires 0 <= i < |toRead| => toRead[i].path)
  }

  /** Every step to every target, target by target. */
  function StepsTo(wanted: seq<Target>): seq<Step>
  {
    if wanted == [] then [] else StepsTo(wanted[..|wanted| - 1]) + wanted[|wanted| - 1].chain
  }

  lemma {:induction false} StepsToMeans(wanted: seq<Target>, s: Step) returns (t: Target)
    requires s in StepsTo(wanted)
    ensures t in wanted && s in t.chain
  {
    t := wanted[|wanted| - 1];
    if s !in t.chain {
      t := StepsToMeans(wanted[..|wanted| - 1], s);
    }
  }

  lemma {:induction false} StepsToHas(wanted: seq<Target>, t: Target, s: Step)
    requires t in wanted && s in t.chain
    ensures s in StepsTo(wanted)
  {
    if t != wanted[|wanted| - 1] {
      StepsToHas(wanted[..|wanted| - 1], t, s);
    }
  }

  ghost predicate HeldFor(held: Held, remote: Remote, chain: seq<Step>)
  {
    forall s :: s in chain ==> HeldRight(held, remote, s.dir)
  }

  /** The references the prefetcher takes from a page. */
  function RefsOf(html: seq<byte>): seq<Path>
  {
    Prefetch.ScanFrom(Prefetch.HTML, html, 0, [], Prefetch.MAX_SUBRESOURCES)
  }

  /** What the held listings let through is what the remote as it stands lets through. */
  lemma TargetApproved(remote: Remote, base: Path, held: Held, t: Target)
    requires Reachable(remote, base, t) && HeldFor(held, remote, t.chain)
    requires !AnySymlinkIn(held, t.chain)
    requires var last := t.chain[|t.chain| - 1]; var a := AttrsIn(held, last.dir, last.name);
      a.Some? && !a.value.IsDir()
    ensures Approved(remote, base, t.path)
  {
    forall s | s in t.chain ensures !Hidden(s.name) && !SymlinkAt(remote, s) {
      var k :| 0 <= k < |t.chain| && t.chain[k] == s;
      assert !Hidden(t.chain[k].name);
      assert AttrsIn(held, s.dir, s.name) == Lookup(remote, s.dir, s.name);
    }
    assert t.chain[|t.chain| - 1] in t.chain;
  }

  /** What a request finds: the answer held, its listings fresh, a page to fetch, and where the counters stand. */
  datatype Before = Before(
    held: bool, listed: bool, fetches: bool, alive: bool, rounds: nat,
    listings: map<Path, Listing>, now: nat, evicted: int)

  ghost const NOTHING: Before := Before(false, false, false, false, 0, map[], 0, 0)

  /** No time has passed, no listing has gone, and every one cached is as it was or fetched now. */
  predicate RenewedFrom(listings: map<Path, Listing>, now: nat, was: map<Path, Listing>, since: nat)
  {
    && now == since && was.Keys <= listings.Keys
    && forall d :: d in listings && listings[d].fetched != now ==> d in was && was[d] == listings[d]
  }

  /** Another task's step between two of this request's own. */
  datatype Other =
    | Tick(seconds: nat)
    | Lists(dir: Path)
    | Reads(path: Path, attrs: Attrs)
    | Forgets(dir: Path)
    | SessionEnds(noticed: bool)

  lemma FirstRefusedGrows(remote: Remote, dirs: seq<Path>, d: Path)
    ensures FirstRefused(remote, dirs + [d]) ==
      if FirstRefused(remote, dirs).Some? then FirstRefused(remote, dirs)
      else if RefusedDir(remote, d) then Some(d) else None
  {
    assert (dirs + [d])[..|dirs|] == dirs;
  }

  lemma {:induction false} FirstRefusedMeans(remote: Remote, dirs: seq<Path>)
    ensures FirstRefused(remote, dirs).None? <==> forall d :: d in dirs ==> !RefusedDir(remote, d)
    ensures FirstRefused(remote, dirs).Some? ==> RefusedDir(remote, FirstRefused(remote, dirs).value)
  {
    if dirs != [] {
      var init := dirs[..|dirs| - 1];
      FirstRefusedMeans(remote, init);
      assert dirs == init + [dirs[|dirs| - 1]];
    }
  }

  /** The first refusal met among the missing directories is the first there is. */
  lemma {:induction false} FirstRefusedAt(remote: Remote, dirs: seq<Path>, j: nat)
    requires j < |dirs| && RefusedDir(remote, dirs[j])
    requires forall i :: 0 <= i < j ==> !RefusedDir(remote, dirs[i])
    ensures FirstRefused(remote, dirs) == Some(dirs[j])
  {
    var init := dirs[..|dirs| - 1];
    if j < |init| {
      FirstRefusedAt(remote, init, j);
    } else {
      FirstRefusedMeans(remote, init);
    }
  }

  /** Holding one more right listing. */
  lemma HoldsRight(remote: Remote, held: Held, dir: Path, got: seq<Entry>)
    requires AllRight(held, remote) && Contents(remote.dirs(dir)).Ok?
    requires forall name :: Find(got, name) == Find(Contents(remote.dirs(dir)).value, name)
    ensures AllRight(held[dir := got], remote)
    ensures forall d :: HeldRight(held, remote, d) ==> HeldRight(held[dir := got], remote, d)
  {
    var more := held[dir := got];
    forall d | d == dir || HeldRight(held, remote, d) ensures HeldRight(more, remote, d) {
      forall name ensures AttrsIn(more, d, name) == Lookup(remote, d, name) {
        if d != dir {
          assert AttrsIn(held, d, name) == Lookup(remote, d, name);
        }
      }
    }
  }

  /** Every directory along a chain is held right, or was missing and has been listed. */
  lemma AllHeldRight(remote: Remote, before: Held, held: Held, missing: seq<Path>, chain: seq<Step>)
    requires AllRight(held, remote) && before.Keys <= held.Keys && Accounted(before, missing, DirsOf(chain))
    requires forall d :: d in missing ==> HeldRight(held, remote, d)
    ensures forall s :: s in chain ==> HeldRight(held, remote, s.dir)
  {
    forall s | s in chain ensures HeldRight(held, remote, s.dir) {
      var k :| 0 <= k < |chain| && chain[k] == s;
      assert DirsOf(chain)[k] in held || DirsOf(chain)[k] in missing;
    }
  }

  /** Where the walk finds something, every directory along the way lists. */
  lemma {:induction false} FoundListed(remote: Remote, chain: seq<Step>)
    requires chain != [] && Walk(remote, chain).Found?
    ensures forall s :: s in chain ==> Contents(remote.dirs(s.dir)).Ok?
    ensures FirstRefused(remote, DirsOf(chain)).None?
    decreases |chain|
  {
    if |chain| > 1 {
      FoundListed(remote, chain[1..]);
      assert chain == [chain[0]] + chain[1..];
    }
    FirstRefusedMeans(remote, DirsOf(chain));
  }

  /** What the walk finds is what its last step is listed as. */
  lemma {:induction false} WalkEnds(remote: Remote, chain: seq<Step>)
    requires chain != [] && Walk(remote, chain).Found?
    ensures var last := chain[|chain| - 1]; Lookup(remote, last.dir, last.name) == Some(Walk(remote, chain).attrs)
    decreases |chain|
  {
    if |chain| > 1 {
      WalkEnds(remote, chain[1..]);
    }
  }

  /** A walk that finds something has passed a directory at every step before the last. */
  lemma {:induction false} WalkPasses(remote: Remote, chain: seq<Step>, j: nat)
    requires j < |chain| - 1 && Walk(remote, chain).Found?
    ensures Lookup(remote, chain[j].dir, chain[j].name).Some? &&
      Lookup(remote, chain[j].dir, chain[j].name).value.IsDir()
  {
    if j > 0 {
      WalkPasses(remote, chain[1..], j - 1);
    }
  }

  lemma HeldNotRefused(held: Held, remote: Remote, dir: Path)
    requires AllRight(held, remote) && dir in held
    ensures !RefusedDir(remote, dir)
  {
  }

  lemma NothingHeld(remote: Remote)
    ensures AllRight(map[], remote)
  {
  }

  /** A listing taken out of the cache answers as the remote's own does. */
  lemma CachedIsRight(remote: Remote, dir: Path, got: seq<Entry>, cached: map<Path, Attrs>)
    requires CoherentRemote(remote) && Contents(remote.dirs(dir)).Ok?
    requires cached == AsMap(Contents(remote.dirs(dir)).value)
    requires forall name :: Find(got, name) == Get(cached, name)
    ensures forall name :: Find(got, name) == Find(Contents(remote.dirs(dir)).value, name)
  {
    CachedLookupAgrees(Contents(remote.dirs(dir)).value);
  }

  /** With nothing refused, a directory that is not held is one that is not there. */
  lemma NotHeldIsAbsent(remote: Remote, held: Held, dir: Path)
    requires AllRight(held, remote) && !RefusedDir(remote, dir)
    requires dir !in held ==> Contents(remote.dirs(dir)).Err?
    ensures HeldRight(held, remote, dir)
  {
  }

  class Origin {
    const fs: SftpFiles.SftpFs
    const cache: Cache
    const base: Path
    /** Which files are pages: any predicate. */
    const isPage: Path -> bool
    /** Whether this daemon has no other task to run, as the costs of a revisit and of a whole page suppose. */
    const alone: bool

    constructor (fs: SftpFiles.SftpFs, base: Path, isPage: Path -> bool, alone: bool, ttl: nat, cap: nat)
      ensures this.fs == fs && this.base == base && this.isPage == isPage && this.alone == alone
      ensures fresh(cache) && fresh(cache.bodies) && Sound()
    {
      this.fs, this.base, this.isPage, this.alone := fs, base, isPage, alone;
      cache := new Cache(ttl, cap);
    }

    /** Whatever is cached is what the remote would say if asked. */
    ghost predicate Sound()
      reads cache, cache.bodies
    {
      && cache.bodies.Valid()
      && (forall d :: d in cache.listings ==>
        Contents(fs.remote.dirs(d)).Ok? && cache.listings[d].entries == AsMap(Contents(fs.remote.dirs(d)).value))
      && (forall k :: k in cache.bodies.bodies ==>
        SftpFiles.Fetched(fs.remote.files(k.path), k.size) == Ok(cache.bodies.bodies[k]))
    }

    /** Whatever files have been opened since `was` had been are approved. */
    ghost predicate FilesOnly(was: set<Path>)
      reads fs
    {
      forall p :: p in fs.filesOpened ==> p in was || Approved(fs.remote, base, p)
    }

    /** Whatever directories have been opened since `was` had been lie along the chain, or are trusted. */
    ghost predicate DirsOnly(was: set<Path>, chain: seq<Step>)
      reads fs
    {
      forall d :: d in fs.dirsOpened ==> d in was || d in DirsOf(chain) || Trusted(fs.remote, base, d)
    }

    /** Any number of steps of other tasks, time passing, and the session ending, in any order. */
    method OthersRun()
      requires Sound()
      modifies cache, cache.bodies, fs`alive, fs`deaf
      ensures Sound() && (fs.alive ==> old(fs.alive))
      ensures alone ==>
        unchanged(cache) && unchanged(cache.bodies) && fs.alive == old(fs.alive) && fs.deaf == old(fs.deaf)
      ensures fs.IsAlive() ==> old(fs.IsAlive())
    {
      if alone {
        return;
      }
      var steps: seq<Other> := *;
      for i := 0 to |steps|
        invariant fs.IsAlive() ==> old(fs.IsAlive())
        invariant Sound() && (fs.alive ==> old(fs.alive))
      {
        match steps[i] {
          case Tick(seconds) => cache.now := cache.now + seconds;
          case Lists(dir) =>
            var c := Contents(fs.remote.dirs(dir));
            if c.Ok? {
              cache.PutListing(dir, c.value);
            }
          case Reads(path, attrs) =>
            var f := SftpFiles.Fetched(fs.remote.files(path), SizeOf(attrs));
            if f.Ok? {
              cache.PutBody(path, attrs, f.value);
            }
          case Forgets(dir) => cache.ForgetListing(dir);
          case SessionEnds(noticed) => fs.alive, fs.deaf := false, fs.IsAlive() && !noticed;
        }
      }
    }

    /** A fresh listing says of every name what the remote says. */
    method FreshEntries(dir: Path) returns (cached: Option<seq<Entry>>)
      requires Sound() && CoherentRemote(fs.remote)
      modifies cache, cache.bodies, fs`alive, fs`deaf
      ensures Sound() && (fs.alive ==> old(fs.alive))
      ensures cached.Some? ==> Contents(fs.remote.dirs(dir)).Ok?
      ensures cached.Some? ==>
        forall name :: Find(cached.value, name) == Find(Contents(fs.remote.dirs(dir)).value, name)
      ensures alone ==>
        unchanged(cache) && unchanged(cache.bodies) && fs.alive == old(fs.alive) && fs.deaf == old(fs.deaf)
      ensures alone ==> (cached.Some? <==> cache.Fresh(dir))
    {
      OthersRun();
      cached := cache.ListingEntries(dir);
      if cached.Some? {
        CachedIsRight(fs.remote, dir, cached.value, cache.listings[dir].entries);
      }
    }

    /** The listings of a chain that are in the cache now, and the directories that are not. */
    method HeldOrMissing(chain: seq<Step>) returns (held: Held, missing: seq<Path>)
      requires Sound() && CoherentRemote(fs.remote)
      modifies cache, cache.bodies, fs`alive, fs`deaf
      ensures Sound() && (fs.alive ==> old(fs.alive))
      ensures AllRight(held, fs.remote)
      ensures Accounted(held, missing, DirsOf(chain))
      ensures forall d :: d in missing ==> d in DirsOf(chain)
      ensures FirstRefused(fs.remote, missing) == FirstRefused(fs.remote, DirsOf(chain))
      ensures alone ==>
        unchanged(cache) && unchanged(cache.bodies) && fs.alive == old(fs.alive) && fs.deaf == old(fs.deaf)
      ensures alone ==> forall s :: s in chain ==> s.dir in missing || cache.Fresh(s.dir)
      ensures alone && old(AllFresh(chain)) ==> missing == []
    {
      hide AllRight, FirstRefused, Sound;
      held, missing := map[], [];
      ghost var dirs := DirsOf(chain);
      NothingHeld(fs.remote);
      assert dirs[..0] == [];
      for i := 0 to |chain|
        invariant Sound() && (fs.alive ==> old(fs.alive))
        invariant AllRight(held, fs.remote)
        invariant Accounted(held, missing, dirs[..i])
        invariant forall d :: d in missing ==> d in dirs
        invariant FirstRefused(fs.remote, missing) == FirstRefused(fs.remote, dirs[..i])
        invariant alone ==>
          unchanged(cache) && unchanged(cache.bodies) && fs.alive == old(fs.alive) && fs.deaf == old(fs.deaf)
        invariant alone ==> forall j :: 0 <= j < i ==> chain[j].dir in missing || cache.Fresh(chain[j].dir)
        invariant alone ==> forall d :: d in held ==> cache.Fresh(d)
        invariant alone && old(AllFresh(chain)) ==> missing == []
      {
        var dir := chain[i].dir;
        assert dirs[i] == dir && chain[i] in chain;
        assert dirs[..i + 1] == dirs[..i] + [dir];
        FirstRefusedGrows(fs.remote, dirs[..i], dir);
        if dir !in held {
          var cached := FreshEntries(dir);
          if cached.Some? {
            HoldsRight(fs.remote, held, dir, cached.value);
            held := held[dir := cached.value];
          } else if dir !in missing {
            FirstRefusedGrows(fs.remote, missing, dir);
            missing := missing + [dir];
          } else {
            FirstRefusedMeans(fs.remote, missing);
          }
        } else {
          HeldNotRefused(held, fs.remote, dir);
        }
      }
      assert dirs[..|chain|] == dirs;
    }

    predicate Renewed(was: map<Path, Listing>, since: nat)
      reads cache
    {
      RenewedFrom(cache.listings, cache.now, was, since)
    }

    predicate AllFresh(chain: seq<Step>)
      reads cache
    {
      forall s :: s in chain ==> cache.Fresh(s.dir)
    }

    /** The rounds one batch for every directory along a chain takes: those of the longest of them. */
    function ListingCost(chain: seq<Step>): nat { 1 + SftpFiles.ListRounds(fs.remote, DirsOf(chain)) }

    /** A chain's listings: the fresh ones from the cache, the others in one batch, origin/mod.rs:2475-2515. */
    method ListingsAlong(chain: seq<Step>) returns (held: Held, refused: Option<Path>)
      requires Sound() && CoherentRemote(fs.remote)
      modifies cache, cache.bodies, fs
      ensures Sound() && (fs.alive ==> old(fs.alive))
      ensures refused.None? ==>
        FirstRefused(fs.remote, DirsOf(chain)).None? && forall s :: s in chain ==> HeldRight(held, fs.remote, s.dir)
      ensures refused.Some? && fs.alive ==> refused == FirstRefused(fs.remote, DirsOf(chain))
      ensures fs.rounds <= old(fs.rounds) + ListingCost(chain)
      ensures fs.filesOpened == old(fs.filesOpened) && fs.opens == old(fs.opens)
      ensures forall d :: d in fs.dirsOpened ==> d in old(fs.dirsOpened) || d in DirsOf(chain)
      ensures alone ==> unchanged(cache.bodies) && cache.now == old(cache.now)
      ensures alone && old(AllFresh(chain)) ==> unchanged(cache) && unchanged(fs) && refused.None?
      ensures alone && cache.ttl > 0 && fs.alive && refused.None? ==>
        forall s :: s in chain && Contents(fs.remote.dirs(s.dir)).Ok? ==> cache.Fresh(s.dir)
      ensures alone ==> Renewed(old(cache.listings), old(cache.now))
      ensures refused.Some? && !old(fs.alive) ==> !fs.IsAlive()
      ensures alone && old(fs.EndsNext()) && !old(AllFresh(chain)) ==> refused.Some? && !fs.alive && fs.deaf
    {
      var missing: seq<Path>;
      held, missing := HeldOrMissing(chain);
      refused := None;
      ghost var before := held;
      if missing != [] {
        held, refused := FetchMissing(missing, held);
        SftpFiles.ListRoundsWithin(fs.remote, missing, DirsOf(chain));
      }
      assert forall s :: s in chain ==> s.dir in DirsOf(chain);
      if refused.None? {
        AllHeldRight(fs.remote, before, held, missing, chain);
      }
    }

    /** The batch: every missing directory listed at once. */
    method FetchMissing(missing: seq<Path>, before: Held) returns (held: Held, refused: Option<Path>)
      requires Sound() && AllRight(before, fs.remote)
      modifies cache, cache.bodies, fs
      ensures Sound() && (fs.alive ==> old(fs.alive))
      ensures AllRight(held, fs.remote) && before.Keys <= held.Keys
      ensures refused.None? ==>
        FirstRefused(fs.remote, missing).None? && forall d :: d in missing ==> HeldRight(held, fs.remote, d)
      ensures refused.Some? && fs.alive ==> refused == FirstRefused(fs.remote, missing)
      ensures fs.rounds <= old(fs.rounds) + 1 + SftpFiles.ListRounds(fs.remote, missing)
      ensures alone ==> unchanged(cache.bodies) && cache.now == old(cache.now)
      ensures alone && cache.ttl > 0 ==> forall d :: old(cache.Fresh(d)) ==> cache.Fresh(d)
      ensures alone && cache.ttl > 0 && fs.alive && refused.None? ==>
        forall d :: d in missing && Contents(fs.remote.dirs(d)).Ok? ==> cache.Fresh(d)
      ensures alone ==> Renewed(old(cache.listings), old(cache.now))
      ensures fs.filesOpened == old(fs.filesOpened) && fs.opens == old(fs.opens)
      ensures forall d :: d in fs.dirsOpened ==> d in old(fs.dirsOpened) || d in missing
      ensures !old(fs.alive) && missing != [] ==> !fs.IsAlive()
      ensures alone && missing != [] && old(fs.EndsNext()) ==> refused.Some? && !fs.alive && fs.deaf
    {
      var results := fs.ListDirs(missing);
      held, refused := Store(missing, results, before);
    }

    /** Put fetched listings in the cache and hold them, up to the first refusal. */
    method Store(missing: seq<Path>, results: seq<Result<seq<Entry>, Error>>, before: Held)
      returns (held: Held, refused: Option<Path>)
      requires Sound() && AllRight(before, fs.remote) && |results| == |missing|
      requires forall i :: 0 <= i < |results| ==> Delivered(results[i], Contents(fs.remote.dirs(missing[i])), fs.alive)
      modifies cache, cache.bodies, fs`alive, fs`deaf
      ensures Sound() && (fs.alive ==> old(fs.alive))
      ensures AllRight(held, fs.remote) && before.Keys <= held.Keys
      ensures refused.None? ==>
        FirstRefused(fs.remote, missing).None? && forall d :: d in missing ==> HeldRight(held, fs.remote, d)
      ensures refused.Some? && fs.alive ==> refused == FirstRefused(fs.remote, missing)
      ensures alone ==>
        unchanged(cache.bodies) && cache.now == old(cache.now) && fs.alive == old(fs.alive) && fs.deaf == old(fs.deaf)
      ensures alone && cache.ttl > 0 ==> forall d :: old(cache.Fresh(d)) ==> cache.Fresh(d)
      ensures alone && cache.ttl > 0 && fs.alive && refused.None? ==>
        forall d :: d in missing && Contents(fs.remote.dirs(d)).Ok? ==> cache.Fresh(d)
      ensures alone ==> Renewed(old(cache.listings), old(cache.now))
      ensures fs.IsAlive() ==> old(fs.IsAlive())
      ensures missing != [] && results[0] == Err(SessionGone) ==> refused.Some?
    {
      hide AllRight, HeldRight, RefusedDir, Sound;
      held, refused := before, None;
      for j := 0 to |missing|
        invariant fs.IsAlive() ==> old(fs.IsAlive())
        invariant j > 0 ==> results[0] != Err(SessionGone)
        invariant Sound() && (fs.alive ==> old(fs.alive))
        invariant AllRight(held, fs.remote) && before.Keys <= held.Keys
        invariant forall i :: 0 <= i < j ==>
          !RefusedDir(fs.remote, missing[i]) && HeldRight(held, fs.remote, missing[i])
        invariant alone ==>
          unchanged(cache.bodies) && cache.now == old(cache.now) && fs.alive == old(fs.alive) && fs.deaf == old(fs.deaf)
        invariant alone && cache.ttl > 0 ==> forall d :: old(cache.Fresh(d)) ==> cache.Fresh(d)
        invariant alone && cache.ttl > 0 && fs.alive ==>
          forall i :: 0 <= i < j && Contents(fs.remote.dirs(missing[i])).Ok? ==> cache.Fresh(missing[i])
        invariant alone ==> Renewed(old(cache.listings), old(cache.now))
      {
        var gone: bool;
        held, gone := StoreOne(missing[j], results[j], held);
        if gone {
          if fs.alive {
            FirstRefusedAt(fs.remote, missing, j);
          }
          return held, Some(missing[j]);
        }
      }
      FirstRefusedMeans(fs.remote, missing);
    }

    /** A listing that came back is put in the cache, fetched now. */
    method KeepListing(dir: Path, entries: seq<Entry>)
      requires Sound() && Contents(fs.remote.dirs(dir)) == Ok(entries)
      modifies cache
      ensures Sound() && cache.now == old(cache.now) && Renewed(old(cache.listings), old(cache.now))
      ensures cache.ttl > 0 ==> forall d :: old(cache.Fresh(d)) || d == dir ==> cache.Fresh(d)
    {
      cache.PutListing(dir, entries);
    }

    method StoreOne(dir: Path, result: Result<seq<Entry>, Error>, before: Held) returns (held: Held, refused: bool)
      requires Sound() && AllRight(before, fs.remote)
      requires Delivered(result, Contents(fs.remote.dirs(dir)), fs.alive)
      modifies cache, cache.bodies, fs`alive, fs`deaf
      ensures Sound() && (fs.alive ==> old(fs.alive))
      ensures AllRight(held, fs.remote) && before.Keys <= held.Keys
      ensures forall d :: HeldRight(before, fs.remote, d) ==> HeldRight(held, fs.remote, d)
      ensures !refused ==> !RefusedDir(fs.remote, dir) && HeldRight(held, fs.remote, dir)
      ensures refused && fs.alive ==> RefusedDir(fs.remote, dir)
      ensures alone ==>
        unchanged(cache.bodies) && cache.now == old(cache.now) && fs.alive == old(fs.alive) && fs.deaf == old(fs.deaf)
      ensures alone && cache.ttl > 0 ==> forall d :: old(cache.Fresh(d)) || (result.Ok? && d == dir) ==> cache.Fresh(d)
      ensures alone ==> Renewed(old(cache.listings), old(cache.now))
      ensures fs.IsAlive() ==> old(fs.IsAlive())
      ensures result == Err(SessionGone) ==> refused
    {
      OthersRun();
      held, refused := before, false;
      match result {
        case Ok(entries) =>
          KeepListing(dir, entries);
          HoldsRight(fs.remote, held, dir, entries);
          held := held[dir := entries];
        case Err(e) =>
          if IsAbsent(e) {
            NotHeldIsAbsent(fs.remote, held, dir);
          } else {
            refused := true;
          }
      }
    }

    // ---- Where a file-shaped request leads ----

    function NamesOf(req: Request): seq<Path>
    {
      if Segments(req.path).Some? then FileSegments(req, Segments(req.path).value) else []
    }

    function ChainOf(req: Request): seq<Step> { Chain(TrimEnd(base), NamesOf(req)) }

    function FileOf(req: Request): Path { Joined(TrimEnd(base), NamesOf(req)) }

    /** The walk finds a file there, by no symlink. */
    predicate Leads(chain: seq<Step>)
    {
      && chain != [] && Walk(fs.remote, chain).Found? && !Walk(fs.remote, chain).attrs.IsDir()
      && !AnySymlink(fs.remote, chain)
    }

    /** What there is of an answer before it is asked for. */
    ghost function Seen(chain: seq<Step>, file: Path, cond: Conditions): Before
      requires Leads(chain)
      reads fs, cache, cache.bodies
    {
      Before(HeldThere(chain, file, cond), AllFresh(chain), FetchesThere(chain, file, cond),
             fs.alive, fs.rounds, cache.listings, cache.now, cache.bodies.Evicted())
    }

    /**
     What a request with nothing else going on leaves behind. An answer that was held cost no more than a batch
     of listings; a file that is kept has its answer held, its listings fresh; a page that was fetched has what
     it refers to warmed; and with a session that had ended, a file that had to be read was not found.
     */
    ghost predicate Aftermath(was: Before, chain: seq<Step>, file: Path, req: Request, resp: Response)
      requires Leads(chain)
      reads fs, cache, cache.bodies
    {
      && (fs.alive && was.held ==> fs.rounds <= was.rounds + ListingCost(chain))
      && (fs.alive && cache.ttl > 0 && KeptThere(chain, file, req.cond) ==>
          AllFresh(chain) && Renewed(was.listings, was.now) && StillHeld(was.evicted, chain, file, req.cond))
      && (fs.alive && was.fetches ==> WarmedThere(req.path, chain, file, was.evicted))
      && (!was.alive && was.listed && !was.held ==> resp.NotFound?)
    }

    /** The answer is held, unless it is a page and some body has been evicted since. */
    ghost predicate StillHeld(was: int, chain: seq<Step>, file: Path, cond: Conditions)
      requires Leads(chain)
      reads cache, cache.bodies
    {
      HeldThere(chain, file, cond) || (isPage(file) && !NoneEvicted(was))
    }

    /** The same of the walk alone, once the listings are held. */
    ghost predicate AfterWalk(was: Before, chain: seq<Step>, file: Path, req: Request, resp: Response)
      requires Leads(chain)
      reads fs, cache, cache.bodies
    {
      && (was.held ==> fs.rounds == was.rounds)
      && (fs.alive && KeptThere(chain, file, req.cond) ==>
          Renewed(was.listings, was.now) && StillHeld(was.evicted, chain, file, req.cond))
      && (fs.alive && was.fetches && was.listed ==> WarmedThere(req.path, chain, file, was.evicted))
      && (!was.alive && !was.held ==> resp.NotFound?)
    }

    /** What listing along a chain changes of what there is. */
    predicate ListedFrom(was: Before, now: Before, chain: seq<Step>)
    {
      && now.held == was.held && now.fetches == was.fetches && now.evicted == was.evicted && (now.alive ==> was.alive)
      && now.rounds <= was.rounds + ListingCost(chain)
      && RenewedFrom(now.listings, now.now, was.listings, was.now)
      && (was.listed ==> now == was) && (now.alive && cache.ttl > 0 ==> now.listed)
    }

    lemma ListedThenWalked(was: Before, mid: Before, chain: seq<Step>, file: Path, req: Request, resp: Response)
      requires Leads(chain) && ListedFrom(was, mid, chain) && AfterWalk(mid, chain, file, req, resp)
      requires (fs.alive ==> mid.alive) && (was.fetches ==> cache.ttl > 0)
      requires mid.listed && Renewed(mid.listings, mid.now) && cache.ttl > 0 ==> AllFresh(chain)
      ensures Aftermath(was, chain, file, req, resp)
    {
      hide Leads, KeptThere, StillHeld, WarmedThere, AllFresh, ListingCost;
    }

    predicate KeptThere(chain: seq<Step>, file: Path, cond: Conditions)
      requires Leads(chain)
    {
      var attrs := Walk(fs.remote, chain).attrs;
      Keeps(file, attrs, Wanted(attrs, cond))
    }

    predicate HeldThere(chain: seq<Step>, file: Path, cond: Conditions)
      requires Leads(chain)
      reads cache, cache.bodies
    {
      AnswerHeld(file, Walk(fs.remote, chain).attrs, cond)
    }

    predicate FetchesThere(chain: seq<Step>, file: Path, cond: Conditions)
      requires Leads(chain)
      reads cache, cache.bodies
    {
      FetchesPage(file, Walk(fs.remote, chain).attrs, cond)
    }

    ghost predicate WarmedThere(docPath: Path, chain: seq<Step>, file: Path, was: int)
      requires Leads(chain)
      reads cache, cache.bodies
    {
      Warmed(docPath, file, Walk(fs.remote, chain).attrs, chain, was)
    }

    predicate IsFile(req: Request)
    {
      && Segments(req.path).Some? && !(req.WantsDir() && req.wantsList) && !AnyHidden(NamesOf(req))
      && Leads(ChainOf(req))
    }

    function AttrsOf(req: Request): Attrs
      requires IsFile(req)
    {
      Walk(fs.remote, ChainOf(req)).attrs
    }

    // ---- What a request may cost, in rounds ----

    /** Warming a page: one batch for the trusted directories along its references, one for the files. */
    function WarmCost(docPath: Path, html: seq<byte>): nat
    {
      if RefsOf(html) == [] then 0 else 3 + SftpFiles.ListRounds(fs.remote, RefDirs(docPath, RefsOf(html)))
    }

    /** The trusted directories along these references: all that warming them may list. */
    function RefDirs(docPath: Path, refs: seq<Path>): seq<Path>
    {
      if refs == [] then []
      else RefDirs(docPath, refs[..|refs| - 1]) + OnlyTrusted(DirsTo(UrlOf(docPath, refs[|refs| - 1])))
    }

    function DirsTo(url: Path): seq<Path>
    {
      if Segments(url).Some? then DirsOf(TargetOf(url).chain) else []
    }

    function OnlyTrusted(dirs: seq<Path>): seq<Path>
    {
      if dirs == [] then []
      else
        var last := dirs[|dirs| - 1];
        OnlyTrusted(dirs[..|dirs| - 1]) + if Trusted(fs.remote, base, last) then [last] else []
    }

    lemma {:induction false} OnlyTrustedMeans(dirs: seq<Path>, d: Path)
      ensures d in OnlyTrusted(dirs) <==> d in dirs && Trusted(fs.remote, base, d)
    {
      hide Trusted;
      if dirs != [] {
        OnlyTrustedMeans(dirs[..|dirs| - 1], d);
        assert dirs == dirs[..|dirs| - 1] + [dirs[|dirs| - 1]];
      }
    }

    /** Exactly the directories that lie along some reference and are trusted. */
    lemma {:induction false} RefDirsMeans(docPath: Path, refs: seq<Path>, d: Path)
      ensures d in RefDirs(docPath, refs) <==>
        Trusted(fs.remote, base, d) && exists r :: r in refs && d in DirsTo(UrlOf(docPath, r))
    {
      hide Trusted, DirsTo, UrlOf, OnlyTrusted;
      if refs != [] {
        var init, last := refs[..|refs| - 1], refs[|refs| - 1];
        RefDirsMeans(docPath, init, d);
        OnlyTrustedMeans(DirsTo(UrlOf(docPath, last)), d);
        assert refs == init + [last];
      }
    }

    /** A file: nothing if it need not be read, two rounds for part of a large one, else all of it and what it names. */
    function FileCost(docPath: Path, file: Path, attrs: Attrs, cond: Conditions): nat
    {
      if Unchanged(attrs, cond) || Wanted(attrs, cond).Unsatisfiable? then 0
      else if Wanted(attrs, cond).Part? && SizeOf(attrs) > CACHE_WHOLE_MAX then 2
      else WholeCost(docPath, file, attrs)
    }

    /** A part of a file larger than 8 MiB costs two rounds, however large it is and whatever kind of file. */
    lemma PartOfLargeCost(docPath: Path, file: Path, attrs: Attrs, cond: Conditions)
      requires Wanted(attrs, cond).Part? && !Unchanged(attrs, cond)
      ensures SizeOf(attrs) > 8_388_608 ==> FileCost(docPath, file, attrs, cond) == 2
      ensures SizeOf(attrs) <= 8_388_608 ==>
        FileCost(docPath, file, attrs, cond) == FileCost(docPath, file, attrs, Conditions(None, None, None))
    {
      hide Unchanged, WholeCost;
      NoConditions(attrs);
    }

    lemma NoConditions(attrs: Attrs)
      ensures var plain := Conditions(None, None, None);
        !Unchanged(attrs, plain) && Wanted(attrs, plain) == Ranges.Whole
    {
    }

    function WholeCost(docPath: Path, file: Path, attrs: Attrs): nat
    {
      var f := fs.remote.files(file);
      SftpFiles.FetchRounds(f, SizeOf(attrs)) +
      match SftpFiles.Fetched(f, SizeOf(attrs))
      case Ok(html) => if isPage(file) then WarmCost(docPath, html) else 0
      case Err(_) => 0
    }

    function ChainCost(docPath: Path, chain: seq<Step>, file: Path, cond: Conditions): nat
    {
      ListingCost(chain) + if Leads(chain) then FileCost(docPath, file, Walk(fs.remote, chain).attrs, cond) else 0
    }

    function RequestCost(req: Request): nat
    {
      if Segments(req.path).None? || (req.WantsDir() && req.wantsList) || AnyHidden(NamesOf(req)) ||
        ChainOf(req) == [] then 0
      else ChainCost(req.path, ChainOf(req), FileOf(req), req.cond)
    }

    /** A listed size that is neither missing, zero nor too large. */
    predicate HonestSize(req: Request)
      requires IsFile(req)
    {
      match fs.remote.files(FileOf(req))
      case Readable(body) => 0 < SizeOf(AttrsOf(req)) <= |body|
      case _ => false
    }

    lemma ComponentsOf(req: Request, file: Path, chain: seq<Step>)
      requires Segments(req.path).Some?
      requires var resolved := Joined(TrimEnd(base), Segments(req.path).value);
        file == if req.WantsDir() then resolved + [SLASH] + INDEX_HTML else resolved
      requires chain == Chain(TrimEnd(base), NonEmpty(Split(Below(base, file))))
      ensures chain == ChainOf(req) && file == FileOf(req)
      ensures AnyHiddenStep(chain) <==> AnyHidden(NamesOf(req))
    {
      ChainOfFile(base, req);
      HiddenNames(TrimEnd(base), NamesOf(req));
    }

    lemma AnswerBelow(req: Request)
      requires Segments(req.path).Some? && !(req.WantsDir() && req.wantsList)
      ensures var segs := Segments(req.path).value; var b := TrimEnd(base);
        Answer(fs.remote, base, req) ==
          if AnyHidden(NamesOf(req)) then Forbidden
          else if ChainOf(req) == [] then Index(Joined(b, segs)) else WalkAnswer(fs.remote, b, req, segs)
    {
    }

    /** One attempt at serving, origin/mod.rs:1029-1261. */
    method ServeAlias(req: Request) returns (resp: Response)
      requires Sound() && CoherentRemote(fs.remote)
      modifies cache, cache.bodies, fs
      ensures Sound() && (fs.alive ==> old(fs.alive))
      ensures AnsweredOrCut(resp, Answer(fs.remote, base, req), fs.alive, fs.opens > old(fs.opens))
      ensures old(fs.opens) <= fs.opens
      ensures fs.alive ==> fs.rounds <= old(fs.rounds) + RequestCost(req)
      ensures alone && IsFile(req) ==>
        Aftermath(old(Seen(ChainOf(req), FileOf(req), req.cond)), ChainOf(req), FileOf(req), req, resp)
      ensures alone && IsFile(req) && old(HeldThere(ChainOf(req), FileOf(req), req.cond) && AllFresh(ChainOf(req))) ==>
        unchanged(cache) && unchanged(cache.bodies) && unchanged(fs)
      ensures alone ==> old(cache.bodies.Evicted()) <= cache.bodies.Evicted()
      ensures FilesOnly(old(fs.filesOpened)) && DirsOnly(old(fs.dirsOpened), ChainOf(req))
      ensures resp.BadGateway? && !old(fs.alive) ==> !fs.IsAlive()
      ensures alone && IsFile(req) && old(fs.EndsNext()) && !old(AllFresh(ChainOf(req))) ==>
        resp.BadGateway? && !fs.alive && fs.deaf
    {
      hide Sound, Seen, Aftermath, HeldThere, AllFresh, Approved, Trusted, Answer, WalkAnswer, RequestCost, ChainCost,
        IsFile, Leads, Segments, FileSegments, Joined, Chain, TrimEnd, CoherentRemote, AnyHiddenStep;
      var early, resolved, file, chain := Acceptable(req);
      if early.Some? {
        return early.value;
      }
      resp := ServeChain(req, resolved, file, chain);
    }

    /** Is the path acceptable, origin/mod.rs:1029-1062? Its answer if it is not, and where it leads if it is. */
    method Acceptable(req: Request) returns (early: Option<Response>, resolved: Path, file: Path, chain: seq<Step>)
      ensures early.Some? ==> early.value == Answer(fs.remote, base, req) && !IsFile(req)
      ensures early.None? ==> Segments(req.path).Some? && resolved == Joined(TrimEnd(base), Segments(req.path).value)
      ensures early.None? ==> file == FileOf(req) && chain == ChainOf(req) && chain != [] && !AnyHiddenStep(chain)
      ensures early.None? ==>
        Answer(fs.remote, base, req) == WalkAnswer(fs.remote, TrimEnd(base), req, Segments(req.path).value)
      ensures early.None? ==>
        RequestCost(req) == ChainCost(req.path, chain, file, req.cond) && (IsFile(req) <==> Leads(chain))
      ensures early.Some? ==> !early.value.BadGateway?
    {
      hide WalkAnswer, ChainCost;
      var target := Resolve(base, req.path);
      if target.None? {
        return Some(Forbidden), [], [], [];
      }
      resolved := target.value;
      if req.WantsDir() && req.wantsList {
        return Some(Index(resolved)), resolved, [], [];
      }
      file := if req.WantsDir() then resolved + [SLASH] + INDEX_HTML else resolved;
      chain := Components(base, file);
      ComponentsOf(req, file, chain);
      AnswerBelow(req);
      if chain == [] {
        early := Some(Index(resolved));
      } else if AnyHiddenStep(chain) {
        early := Some(Forbidden);
      } else {
        early := None;
      }
    }

    /** The walk over the held listings, once the path itself is acceptable. */
    method ServeChain(req: Request, resolved: Path, file: Path, chain: seq<Step>) returns (resp: Response)
      requires Sound() && CoherentRemote(fs.remote)
      requires Segments(req.path).Some? && chain != []
      requires var names := FileSegments(req, Segments(req.path).value);
        && resolved == Joined(TrimEnd(base), Segments(req.path).value)
        && file == Joined(TrimEnd(base), names) && chain == Chain(TrimEnd(base), names)
      requires !AnyHiddenStep(chain)
      modifies cache, cache.bodies, fs
      ensures Sound() && (fs.alive ==> old(fs.alive))
      ensures AnsweredOrCut(resp, WalkAnswer(fs.remote, TrimEnd(base), req, Segments(req.path).value), fs.alive,
        fs.opens > old(fs.opens))
      ensures old(fs.opens) <= fs.opens
      ensures fs.alive ==> fs.rounds <= old(fs.rounds) + ChainCost(req.path, chain, file, req.cond)
      ensures alone && Leads(chain) ==> Aftermath(old(Seen(chain, file, req.cond)), chain, file, req, resp)
      ensures alone && Leads(chain) && old(HeldThere(chain, file, req.cond) && AllFresh(chain)) ==>
        unchanged(cache) && unchanged(cache.bodies) && unchanged(fs)
      ensures alone ==> old(cache.bodies.Evicted()) <= cache.bodies.Evicted()
      ensures FilesOnly(old(fs.filesOpened)) && DirsOnly(old(fs.dirsOpened), chain)
      ensures resp.BadGateway? && !old(fs.alive) ==> !fs.IsAlive()
      ensures alone && old(fs.EndsNext()) && !old(AllFresh(chain)) ==> resp.BadGateway? && !fs.alive && fs.deaf
    {
      hide Sound, Approved, Trusted, AfterWalk, HeldRight, Segments, FileSegments, Joined, Chain, TrimEnd,
        CoherentRemote, AnyHiddenStep, Walk, Unchanged, Wanted;
      ghost var leads, was := Leads(chain), if Leads(chain) then Seen(chain, file, req.cond) else NOTHING;
      if leads {
        FoundListed(fs.remote, chain);
      }
      var held, refused := ListingsAlong(chain);
      if refused.Some? {
        return BadGateway(refused.value);
      }
      ghost var mid := if leads then Seen(chain, file, req.cond) else NOTHING;
      assert alone && leads ==> ListedFrom(was, mid, chain);
      resp := ServeWalk(req, resolved, file, chain, held);
      if alone && leads {
        ListedThenWalked(was, mid, chain, file, req, resp);
      }
    }

    /** Symlinks before anything else, and then what the walk comes to. */
    method ServeWalk(req: Request, resolved: Path, file: Path, chain: seq<Step>, held: Held) returns (resp: Response)
      requires Sound() && CoherentRemote(fs.remote)
      requires Segments(req.path).Some? && chain != []
      requires var names := FileSegments(req, Segments(req.path).value);
        && resolved == Joined(TrimEnd(base), Segments(req.path).value)
        && file == Joined(TrimEnd(base), names) && chain == Chain(TrimEnd(base), names)
      requires FirstRefused(fs.remote, DirsOf(chain)).None? &&
        forall s :: s in chain ==> HeldRight(held, fs.remote, s.dir)
      requires !AnyHiddenStep(chain)
      modifies cache, cache.bodies, fs
      ensures Sound() && (fs.alive ==> old(fs.alive))
      ensures AnsweredOrCut(resp, WalkAnswer(fs.remote, TrimEnd(base), req, Segments(req.path).value), fs.alive,
        fs.opens > old(fs.opens))
      ensures old(fs.opens) <= fs.opens
      ensures fs.alive ==>
        fs.rounds <= old(fs.rounds) + if Leads(chain)
          then FileCost(req.path, file, Walk(fs.remote, chain).attrs, req.cond) else 0
      ensures alone && Leads(chain) && old(HeldThere(chain, file, req.cond)) ==>
        unchanged(cache) && unchanged(cache.bodies) && unchanged(fs)
      ensures alone && Leads(chain) ==> AfterWalk(old(Seen(chain, file, req.cond)), chain, file, req, resp)
      ensures alone ==> old(cache.bodies.Evicted()) <= cache.bodies.Evicted()
      ensures FilesOnly(old(fs.filesOpened)) && DirsOnly(old(fs.dirsOpened), [])
      ensures !resp.BadGateway?
    {
      hide Sound, Approved, Trusted, Joined, Chain, TrimEnd, Segments, AfterWalk, FileAnswer, FileCost, Seen, HeldThere;
      HeldAnswersSymlinks(fs.remote, held, chain);
      if AnySymlinkIn(held, chain) {
        return Forbidden;
      }
      var verdict := WalkHeld(held, chain);
      match verdict {
        case Missing => return NotFound;
        case MissingLast => return if req.WantsDir() then Index(resolved) else NotFound;
        case Found(attrs) =>
          if attrs.IsDir() {
            return if req.WantsDir() then Index(resolved) else Redirect(req.path + [SLASH]);
          }
          FileIsApproved(req, file, chain);
          resp := ServeFound(req, file, chain);
      }
    }

    /** A file the walk has found. */
    method ServeFound(req: Request, file: Path, chain: seq<Step>) returns (resp: Response)
      requires Sound() && CoherentRemote(fs.remote) && Leads(chain) && Approved(fs.remote, base, file)
      modifies cache, cache.bodies, fs
      ensures Sound() && (fs.alive ==> old(fs.alive)) && old(fs.opens) <= fs.opens
      ensures AnsweredOrCut(resp, FileAnswer(fs.remote.files(file), file, Walk(fs.remote, chain).attrs, req.cond),
        fs.alive, fs.opens > old(fs.opens))
      ensures fs.alive ==>
        fs.rounds <= old(fs.rounds) + FileCost(req.path, file, Walk(fs.remote, chain).attrs, req.cond)
      ensures alone && old(HeldThere(chain, file, req.cond)) ==>
        unchanged(cache) && unchanged(cache.bodies) && unchanged(fs)
      ensures alone ==> AfterWalk(old(Seen(chain, file, req.cond)), chain, file, req, resp)
      ensures alone ==> old(cache.bodies.Evicted()) <= cache.bodies.Evicted()
      ensures FilesOnly(old(fs.filesOpened)) && DirsOnly(old(fs.dirsOpened), [])
      ensures !resp.BadGateway?
    {
      hide Sound, Approved, Trusted, Warmed, Walk, FileAnswer, FileCost;
      resp := ServeFile(req, file, chain[|chain| - 1].dir, Walk(fs.remote, chain).attrs, chain);
    }

    /** A file reached by no hidden name and no symlink may be read. */
    lemma FoundIsApproved(names: seq<Path>)
      requires Plain(names) && Leads(Chain(TrimEnd(base), names)) && !AnyHiddenStep(Chain(TrimEnd(base), names))
      ensures Approved(fs.remote, base, Joined(TrimEnd(base), names))
    {
      var b := TrimEnd(base);
      var chain := Chain(b, names);
      StepsOf(base, names);
      WalkEnds(fs.remote, chain);
      forall s | s in chain ensures !Hidden(s.name) && !SymlinkAt(fs.remote, s) && Trusted(fs.remote, base, s.dir) {
        var k :| 0 <= k < |chain| && chain[k] == s;
        assert !Hidden(chain[k].name);
        ChainAt(b, names, k);
        FoundIsTrusted(names, k);
      }
    }

    lemma FileIsApproved(req: Request, file: Path, chain: seq<Step>)
      requires Segments(req.path).Some?
      requires var names := FileSegments(req, Segments(req.path).value);
        file == Joined(TrimEnd(base), names) && chain == Chain(TrimEnd(base), names)
      requires Leads(chain) && !AnyHiddenStep(chain)
      ensures Approved(fs.remote, base, file)
    {
      hide Leads, Approved, AnyHiddenStep;
      ResolvedIsPlain(req.path);
      FoundIsApproved(FileSegments(req, Segments(req.path).value));
    }

    /** So may the directories on the way be listed. */
    lemma FoundIsTrusted(names: seq<Path>, k: nat)
      requires Plain(names) && Leads(Chain(TrimEnd(base), names)) && k < |names|
      ensures Trusted(fs.remote, base, Joined(TrimEnd(base), names[..k]))
    {
      hide Leads, RealDirAt, Chain, Joined, TrimEnd, Split, NonEmpty, Below;
      var b := TrimEnd(base);
      var steps := Chain(b, names[..k]);
      assert names[..k] == NonEmpty(Split(Below(base, Joined(b, names[..k])))) by {
        StepsOf(base, names[..k]);
      }
      forall s | s in steps ensures RealDirAt(fs.remote, s) {
        var j :| 0 <= j < |steps| && steps[j] == s;
        ChainAt(b, names[..k], j);
        ChainAt(b, names, j);
        assert names[..k][..j] == names[..j];
        LeadsByRealDirs(Chain(b, names), j);
      }
    }

    lemma LeadsByRealDirs(chain: seq<Step>, j: nat)
      requires Leads(chain) && j < |chain| - 1
      ensures RealDirAt(fs.remote, chain[j])
    {
      WalkPasses(fs.remote, chain, j);
      assert !SymlinkAt(fs.remote, chain[j]);
    }

    /** The loop of origin/mod.rs:1105-1127. */
    method WalkHeld(held: Held, chain: seq<Step>) returns (verdict: Verdict)
      requires chain != [] && forall s :: s in chain ==> HeldRight(held, fs.remote, s.dir)
      ensures verdict == Walk(fs.remote, chain)
    {
      assert chain[0..] == chain;
      for i := 0 to |chain|
        invariant i < |chain| && Walk(fs.remote, chain[i..]) == Walk(fs.remote, chain)
      {
        assert chain[i] in chain && chain[i..][1..] == chain[i + 1..];
        var attrs := AttrsIn(held, chain[i].dir, chain[i].name);
        if attrs.None? {
          return if i == |chain| - 1 then MissingLast else Missing;
        }
        if i == |chain| - 1 {
          return Found(attrs.value);
        }
        if !attrs.value.IsDir() {
          return Missing;
        }
      }
    }

    /** What can be answered about a file without reading it. */
    predicate AnswerHeld(file: Path, attrs: Attrs, cond: Conditions)
      reads cache, cache.bodies
    {
      Unchanged(attrs, cond) || Wanted(attrs, cond).Unsatisfiable? || cache.Body(file, attrs).Some?
    }

    /** A file whose body is kept once it has been read. */
    predicate Keeps(file: Path, attrs: Attrs, wanted: Ranges.Resolved)
    {
      && !(wanted.Part? && SizeOf(attrs) > CACHE_WHOLE_MAX) && KeyOf(file, attrs).Some?
      && match SftpFiles.Fetched(fs.remote.files(file), SizeOf(attrs))
         case Ok(body) => |body| <= cache.bodies.cap
         case Err(_) => false
    }

    /** A page that is not held and will be fetched whole. */
    predicate FetchesPage(file: Path, attrs: Attrs, cond: Conditions)
      reads cache, cache.bodies
    {
      && isPage(file) && !AnswerHeld(file, attrs, cond) && cache.ttl > 0
      && !(Wanted(attrs, cond).Part? && SizeOf(attrs) > CACHE_WHOLE_MAX)
    }

    /** A warmable reference whose directory lies along the chain, or one level below it. */
    predicate Beside(chain: seq<Step>, url: Path)
    {
      && Warmable(url) && !AnyHidden(Segments(url).value)
      && var c := TargetOf(url).chain; forall i :: 0 <= i < |c| - 1 ==> c[i].dir in DirsOf(chain)
    }

    /** Unless some body has been evicted since, every reference beside the page has all it needs held. */
    ghost predicate Warmed(docPath: Path, file: Path, attrs: Attrs, chain: seq<Step>, was: int)
      reads cache, cache.bodies
    {
      match SftpFiles.Fetched(fs.remote.files(file), SizeOf(attrs))
      case Err(_) => true
      case Ok(html) => NoneEvicted(was) && NoRefusals(fs.remote, RefDirs(docPath, RefsOf(html))) ==>
        forall r :: r in RefsOf(html) && Beside(chain, UrlOf(docPath, r)) ==> Ready(UrlOf(docPath, r))
    }

    /** The answer about a file that is there, origin/mod.rs:1142-1260. */
    method ServeFile(req: Request, file: Path, dir: Path, attrs: Attrs, ghost chain: seq<Step>) returns (resp: Response)
      requires Sound() && CoherentRemote(fs.remote)
      requires Approved(fs.remote, base, file)
      modifies cache, cache.bodies, fs
      ensures Sound() && (fs.alive ==> old(fs.alive))
      ensures AnsweredOrCut(resp, FileAnswer(fs.remote.files(file), file, attrs, req.cond), fs.alive,
        fs.opens > old(fs.opens))
      ensures old(fs.opens) <= fs.opens
      ensures fs.alive ==> fs.rounds <= old(fs.rounds) + FileCost(req.path, file, attrs, req.cond)
      ensures alone && old(AnswerHeld(file, attrs, req.cond)) ==>
        unchanged(cache) && unchanged(cache.bodies) && unchanged(fs)
      ensures alone && fs.alive && Keeps(file, attrs, Wanted(attrs, req.cond)) ==>
        Renewed(old(cache.listings), old(cache.now))
      ensures alone && fs.alive && Keeps(file, attrs, Wanted(attrs, req.cond)) ==>
        AnswerHeld(file, attrs, req.cond) || (isPage(file) && !NoneEvicted(old(cache.bodies.Evicted())))
      ensures alone && fs.alive && old(FetchesPage(file, attrs, req.cond) && AllFresh(chain)) ==>
        Warmed(req.path, file, attrs, chain, old(cache.bodies.Evicted()))
      ensures alone ==> old(cache.bodies.Evicted()) <= cache.bodies.Evicted()
      ensures FilesOnly(old(fs.filesOpened)) && DirsOnly(old(fs.dirsOpened), [])
      ensures alone && !old(fs.alive) && !old(AnswerHeld(file, attrs, req.cond)) ==> resp.NotFound?
      ensures !resp.BadGateway?
    {
      hide Sound, Approved, Trusted, Ready, Beside, RefsOf;
      if Unchanged(attrs, req.cond) {
        return NotModified(TagOf(attrs).value);
      }
      var size := SizeOf(attrs);
      var wanted := Wanted(attrs, req.cond);
      if wanted.Unsatisfiable? {
        return RangeNotSatisfiable(size);
      }
      OthersRun();
      var body := cache.Body(file, attrs);
      if body.Some? {
        return Sent(file, attrs, body.value, wanted);
      }
      if wanted.Part? && size > CACHE_WHOLE_MAX {
        resp := ServeDirectly(file, dir, attrs, wanted);
      } else {
        resp := ServeWhole(req, file, dir, attrs, wanted, chain);
      }
    }

    /** What could not be read may be listed wrongly: the listing goes. */
    method Forget(dir: Path)
      requires Sound()
      modifies cache
      ensures Sound()
    {
      cache.ForgetListing(dir);
    }

    /** A part of a file that would not be kept is read by itself, in two rounds. */
    method ServeDirectly(file: Path, dir: Path, attrs: Attrs, wanted: Ranges.Resolved) returns (resp: Response)
      requires Sound() && wanted.Part? && wanted.start <= wanted.end < SizeOf(attrs)
      modifies cache, fs
      ensures Sound() && (fs.alive ==> old(fs.alive))
      ensures AnsweredOrCut(resp, BodyAnswer(fs.remote.files(file), file, attrs, wanted), fs.alive, true)
      ensures old(fs.opens) < fs.opens
      ensures fs.rounds <= old(fs.rounds) + 2
      ensures fs.filesOpened == old(fs.filesOpened) + {file} && fs.dirsOpened == old(fs.dirsOpened)
      ensures !old(fs.alive) ==> resp.NotFound?
      ensures !resp.BadGateway?
    {
      hide Sound, Clamp;
      var start, end := wanted.start, wanted.end;
      DirectPart(fs.remote.files(file), SizeOf(attrs), start, end);
      var r := SftpFiles.RangeReq(file, start, end - start + 1);
      var parts := fs.ReadRanges([r]);
      assert Delivered(parts[0], Part(fs.remote.files([r][0].path), [r][0].offset, [r][0].Span()), fs.alive);
      match parts[0] {
        case Ok(part) => resp := Partial(file, part, TagOf(attrs), start, end, SizeOf(attrs));
        case Err(_) =>
          Forget(dir);
          resp := NotFound;
      }
    }

    /** Fetch the whole file, keep it, and warm what it refers to if it is a page. */
    method ServeWhole(req: Request, file: Path, dir: Path, attrs: Attrs, wanted: Ranges.Resolved,
                      ghost chain: seq<Step>) returns (resp: Response)
      requires Sound() && CoherentRemote(fs.remote)
      requires Approved(fs.remote, base, file)
      modifies cache, cache.bodies, fs
      ensures Sound() && (fs.alive ==> old(fs.alive))
      ensures AnsweredOrCut(resp, BodyAnswer(fs.remote.files(file), file, attrs, wanted), fs.alive,
        fs.opens > old(fs.opens))
      ensures old(fs.opens) <= fs.opens
      ensures fs.alive ==> fs.rounds <= old(fs.rounds) + WholeCost(req.path, file, attrs)
      ensures alone && fs.alive && Keeps(file, attrs, wanted) ==> Renewed(old(cache.listings), old(cache.now))
      ensures alone && fs.alive && Keeps(file, attrs, wanted) ==>
        cache.Body(file, attrs).Some? || (isPage(file) && !NoneEvicted(old(cache.bodies.Evicted())))
      ensures alone && fs.alive && isPage(file) && cache.ttl > 0 && old(AllFresh(chain)) ==>
        Warmed(req.path, file, attrs, chain, old(cache.bodies.Evicted()))
      ensures alone ==> old(cache.bodies.Evicted()) <= cache.bodies.Evicted()
      ensures FilesOnly(old(fs.filesOpened)) && DirsOnly(old(fs.dirsOpened), [])
      ensures !old(fs.alive) ==> resp.NotFound?
      ensures !resp.BadGateway?
    {
      hide Sound;
      var got := fs.FetchWhole(file, SizeOf(attrs));
      match got {
        case Ok(content) =>
          KeepAndWarm(req.path, file, attrs, content, chain);
          resp := Sent(file, attrs, content, wanted);
        case Err(_) =>
          Forget(dir);
          resp := NotFound;
      }
    }

    /** Keep a fetched file, and warm what it refers to if it is a page. */
    method KeepAndWarm(docPath: Path, file: Path, attrs: Attrs, content: seq<byte>, ghost chain: seq<Step>)
      requires Sound() && CoherentRemote(fs.remote)
      requires SftpFiles.Fetched(fs.remote.files(file), SizeOf(attrs)) == Ok(content)
      modifies cache, cache.bodies, fs
      ensures Sound() && (fs.alive ==> old(fs.alive))
      ensures fs.rounds <= old(fs.rounds) + if isPage(file) then WarmCost(docPath, content) else 0
      ensures alone ==> Renewed(old(cache.listings), old(cache.now))
      ensures alone && KeyOf(file, attrs).Some? && |content| <= cache.bodies.cap ==>
        cache.Body(file, attrs).Some? || (isPage(file) && !NoneEvicted(old(cache.bodies.Evicted())))
      ensures alone && fs.alive && isPage(file) && cache.ttl > 0 && old(AllFresh(chain)) ==>
        Warmed(docPath, file, attrs, chain, old(cache.bodies.Evicted()))
      ensures alone ==> old(cache.bodies.Evicted()) <= cache.bodies.Evicted()
      ensures FilesOnly(old(fs.filesOpened)) && DirsOnly(old(fs.dirsOpened), [])
      ensures old(fs.opens) <= fs.opens
    {
      hide Sound, Ready, Beside;
      KeepBody(file, attrs, content);
      if isPage(file) {
        WarmBeside(docPath, file, attrs, content, chain);
      }
    }

    method KeepBody(file: Path, attrs: Attrs, content: seq<byte>)
      requires Sound() && SftpFiles.Fetched(fs.remote.files(file), SizeOf(attrs)) == Ok(content)
      modifies cache, cache.bodies, fs`alive, fs`deaf
      ensures Sound() && (fs.alive ==> old(fs.alive))
      ensures alone ==> unchanged(cache)
      ensures KeyOf(file, attrs).Some? && |content| <= cache.bodies.cap ==> cache.Body(file, attrs).Some?
      ensures alone ==> old(cache.bodies.Evicted()) <= cache.bodies.Evicted()
    {
      OthersRun();
      cache.PutBody(file, attrs, content);
    }

    /** Warming with the page's own listings fresh reaches every reference beside it. */
    method WarmBeside(docPath: Path, file: Path, attrs: Attrs, html: seq<byte>, ghost chain: seq<Step>)
      requires Sound() && CoherentRemote(fs.remote)
      requires SftpFiles.Fetched(fs.remote.files(file), SizeOf(attrs)) == Ok(html)
      modifies cache, cache.bodies, fs
      ensures Sound() && (fs.alive ==> old(fs.alive))
      ensures fs.rounds <= old(fs.rounds) + WarmCost(docPath, html)
      ensures alone && fs.alive && cache.ttl > 0 && old(AllFresh(chain)) ==>
        Warmed(docPath, file, attrs, chain, old(cache.bodies.Evicted()))
      ensures alone ==> old(cache.bodies.Evicted()) <= cache.bodies.Evicted()
      ensures FilesOnly(old(fs.filesOpened)) && DirsOnly(old(fs.dirsOpened), [])
      ensures old(fs.opens) <= fs.opens
      ensures alone ==> Renewed(old(cache.listings), old(cache.now))
      ensures alone && NoneEvicted(old(cache.bodies.Evicted())) ==>
        forall k :: k in old(cache.bodies.bodies) ==> k in cache.bodies.bodies
    {
      hide Sound, WantedNow, Ready, Warmable;
      BesideIsWanted(chain, html, docPath);
      WarmSubresources(docPath, html);
    }

    /** A reference to a file that is there, by no symlink, of a size to hold that its listing does not overstate. */
    predicate Warmable(url: Path)
    {
      && Segments(url).Some? && Leads(TargetOf(url).chain)
      && var attrs := Walk(fs.remote, TargetOf(url).chain).attrs;
      && attrs.size.Some? && 0 < attrs.size.value <= CACHE_WHOLE_MAX
      && Arrives(ToRead(TargetOf(url).path, attrs, attrs.size.value))
    }

    /** Everything a request for the reference would need is held. */
    predicate Ready(url: Path)
      requires Warmable(url)
      reads cache, cache.bodies
    {
      AllFresh(TargetOf(url).chain) && cache.Body(TargetOf(url).path, Walk(fs.remote, TargetOf(url).chain).attrs).Some?
    }

    /** What a wanted reference leads to is held already, or is worth reading and so is read. */
    lemma WantedIsRead(url: Path, held: Held)
      requires Warmable(url) && HeldAndFresh(held, TargetOf(url))
      ensures AllFresh(TargetOf(url).chain)
      ensures var t := TargetOf(url); var attrs := Walk(fs.remote, t.chain).attrs;
        cache.Body(t.path, attrs).None? ==>
          Worth(held, t) && ReadFor(held, t) == ToRead(t.path, attrs, attrs.size.value)
    {
      var t := TargetOf(url);
      FoundListed(fs.remote, t.chain);
      WalkEnds(fs.remote, t.chain);
      HeldAnswersSymlinks(fs.remote, held, t.chain);
      var last := t.chain[|t.chain| - 1];
      assert last in t.chain;
      assert AttrsIn(held, last.dir, last.name) == Lookup(fs.remote, last.dir, last.name);
    }

    lemma BesideIsWanted(chain: seq<Step>, html: seq<byte>, docPath: Path)
      requires Sound() && CoherentRemote(fs.remote)
      ensures AllFresh(chain) ==>
        forall r :: r in RefsOf(html) && Beside(chain, UrlOf(docPath, r)) ==> WantedNow(UrlOf(docPath, r))
    {
      hide Warmable, WantedNow, Sound;
      if AllFresh(chain) {
        forall r | r in RefsOf(html) && Beside(chain, UrlOf(docPath, r)) ensures WantedNow(UrlOf(docPath, r)) {
          BesideIsFresh(chain, UrlOf(docPath, r));
          KnownIsWanted(UrlOf(docPath, r));
        }
      }
    }

    lemma BesideIsFresh(chain: seq<Step>, url: Path)
      requires AllFresh(chain) && Beside(chain, url)
      ensures var c := TargetOf(url).chain; AllFresh(c[..|c| - 1])
    {
      var c := TargetOf(url).chain;
      forall s | s in c[..|c| - 1] ensures cache.Fresh(s.dir) {
        var i :| 0 <= i < |c| - 1 && c[i] == s;
        var j :| 0 <= j < |chain| && DirsOf(chain)[j] == s.dir;
        assert chain[j] in chain;
      }
    }

    /** Reading ahead what a page refers to, origin/mod.rs:2328-2456. */
    method WarmSubresources(docPath: Path, html: seq<byte>)
      requires Sound() && CoherentRemote(fs.remote)
      modifies cache, cache.bodies, fs
      ensures Sound() && (fs.alive ==> old(fs.alive))
      ensures fs.rounds <= old(fs.rounds) + WarmCost(docPath, html)
      ensures FilesOnly(old(fs.filesOpened)) && DirsOnly(old(fs.dirsOpened), [])
      ensures alone ==> old(cache.bodies.Evicted()) <= cache.bodies.Evicted()
      ensures alone && cache.ttl > 0 && fs.alive && NoneEvicted(old(cache.bodies.Evicted())) ==>
        NoRefusals(fs.remote, RefDirs(docPath, RefsOf(html))) ==>
        forall r :: r in RefsOf(html) && old(WantedNow(UrlOf(docPath, r))) && Warmable(UrlOf(docPath, r)) ==>
          Ready(UrlOf(docPath, r))
      ensures old(fs.opens) <= fs.opens
      ensures alone ==> Renewed(old(cache.listings), old(cache.now))
      ensures alone && NoneEvicted(old(cache.bodies.Evicted())) ==>
        forall k :: k in old(cache.bodies.bodies) ==> k in cache.bodies.bodies
    {
      var refs := Prefetch.Scan(Prefetch.HTML, html, Prefetch.MAX_SUBRESOURCES);
      if refs == [] {
        return;
      }
      var wanted := WantedFiles(docPath, refs);
      var held := HoldFor(wanted);
      WantedDirs(docPath, refs, wanted);
      WarmWanted(wanted, held);
    }

    /** What the wanted references need listed is trusted, and lies along the page's references. */
    lemma WantedDirs(docPath: Path, refs: seq<Path>, wanted: seq<Target>)
      requires forall t :: t in wanted ==> Reachable(fs.remote, base, t) && FromRefs(t, docPath, refs)
      ensures forall d :: d in DirsOf(StepsTo(wanted)) ==> d in RefDirs(docPath, refs)
      ensures SftpFiles.ListRounds(fs.remote, DirsOf(StepsTo(wanted))) <=
        SftpFiles.ListRounds(fs.remote, RefDirs(docPath, refs))
    {
      var dirs := DirsOf(StepsTo(wanted));
      forall d | d in dirs ensures d in RefDirs(docPath, refs) {
        var k :| 0 <= k < |dirs| && dirs[k] == d;
        var t := StepsToMeans(wanted, StepsTo(wanted)[k]);
        WantedDir(docPath, refs, t, StepsTo(wanted)[k]);
      }
      SftpFiles.ListRoundsWithin(fs.remote, dirs, RefDirs(docPath, refs));
    }

    lemma WantedDir(docPath: Path, refs: seq<Path>, t: Target, s: Step)
      requires Reachable(fs.remote, base, t) && FromRefs(t, docPath, refs) && s in t.chain
      ensures s.dir in RefDirs(docPath, refs)
    {
      hide Trusted, RefDirs;
      var r :| r in refs && Segments(UrlOf(docPath, r)).Some? && t == TargetOf(UrlOf(docPath, r));
      var k :| 0 <= k < |t.chain| && t.chain[k] == s;
      assert DirsTo(UrlOf(docPath, r))[k] == s.dir;
      RefDirsMeans(docPath, refs, s.dir);
    }

    /** Read what of the wanted references is worth it. */
    method WarmWanted(wanted: seq<Target>, held: Held)
      requires Sound()
      requires forall t :: t in wanted ==> Reachable(fs.remote, base, t)
      requires held == map[] || forall t :: t in wanted ==> HeldFor(held, fs.remote, t.chain)
      modifies cache, cache.bodies, fs
      ensures Sound() && (fs.alive ==> old(fs.alive))
      ensures fs.rounds <= old(fs.rounds) + 2
      ensures FilesOnly(old(fs.filesOpened)) && fs.dirsOpened == old(fs.dirsOpened)
      ensures alone ==> old(cache.bodies.Evicted()) <= cache.bodies.Evicted()
      ensures alone && fs.alive && NoneEvicted(old(cache.bodies.Evicted())) ==>
        forall url :: Warmable(url) && TargetOf(url) in wanted && old(HeldAndFresh(held, TargetOf(url))) ==> Ready(url)
      ensures old(fs.opens) <= fs.opens
      ensures alone ==> unchanged(cache)
      ensures alone && NoneEvicted(old(cache.bodies.Evicted())) ==>
        forall k :: k in old(cache.bodies.bodies) ==> k in cache.bodies.bodies
    {
      var toRead := FilesToRead(wanted, held);
      forall p | p in PathsOf(toRead) ensures Approved(fs.remote, base, p) {
        var i :| 0 <= i < |toRead| && PathsOf(toRead)[i] == p;
        assert toRead[i] in toRead;
      }
      forall url | Warmable(url) && TargetOf(url) in wanted && HeldAndFresh(held, TargetOf(url))
        ensures AllFresh(TargetOf(url).chain)
        ensures var attrs := Walk(fs.remote, TargetOf(url).chain).attrs;
          cache.Body(TargetOf(url).path, attrs).Some? || ToRead(TargetOf(url).path, attrs, attrs.size.value) in toRead
      {
        WantedIsRead(url, held);
      }
      if toRead != [] {
        ReadAhead(toRead);
      }
    }

    /** One batch of listings for every chain; nothing is held if any of them was refused. */
    method HoldFor(wanted: seq<Target>) returns (held: Held)
      requires Sound() && CoherentRemote(fs.remote)
      requires forall t :: t in wanted ==> Reachable(fs.remote, base, t)
      modifies cache, cache.bodies, fs
      ensures Sound() && (fs.alive ==> old(fs.alive))
      ensures fs.rounds <= old(fs.rounds) + ListingCost(StepsTo(wanted))
      ensures held == map[] || forall t :: t in wanted ==> HeldFor(held, fs.remote, t.chain)
      ensures fs.filesOpened == old(fs.filesOpened) && fs.opens == old(fs.opens) && DirsOnly(old(fs.dirsOpened), [])
      ensures alone ==> unchanged(cache.bodies)
      ensures alone && fs.alive && cache.ttl > 0 && NoRefusals(fs.remote, DirsOf(StepsTo(wanted))) ==>
        forall t :: t in wanted ==> HeldAndFresh(held, t)
      ensures alone ==> Renewed(old(cache.listings), old(cache.now))
    {
      var all: seq<Step> := [];
      assert wanted[..0] == [];
      for i := 0 to |wanted|
        invariant all == StepsTo(wanted[..i])
      {
        assert wanted[..i + 1][..i] == wanted[..i];
        all := all + wanted[i].chain;
      }
      assert wanted[..|wanted|] == wanted;
      forall t, s | t in wanted && s in t.chain ensures s in all {
        StepsToHas(wanted, t, s);
      }
      forall d | d in DirsOf(all) ensures Trusted(fs.remote, base, d) {
        var k :| 0 <= k < |all| && DirsOf(all)[k] == d;
        var _ := StepsToMeans(wanted, all[k]);
      }
      var refused;
      held, refused := ListingsAlong(all);
      if refused.Some? {
        FirstRefusedMeans(fs.remote, DirsOf(all));
        held := map[];
      }
    }

    /** What a target's chain needs is held, and of that what lists is in the cache, fresh. */
    ghost predicate HeldAndFresh(held: Held, t: Target)
      reads cache
    {
      && HeldFor(held, fs.remote, t.chain)
      && forall s :: s in t.chain && Contents(fs.remote.dirs(s.dir)).Ok? ==> cache.Fresh(s.dir)
    }

    /** What a reference resolves to. */
    function TargetOf(url: Path): Target
      requires Segments(url).Some?
    {
      Target(Joined(TrimEnd(base), Segments(url).value), Chain(TrimEnd(base), Segments(url).value))
    }

    /** A reference that may be looked at: inside the base, nothing hidden, nothing behind a symlink, all listable. */
    predicate WantedNow(url: Path)
      reads cache
    {
      Segments(url).Some? &&
      var chain := TargetOf(url).chain;
      && chain != [] && !AnyHiddenStep(chain) && !AnySymlinkCached(chain)
      && forall s :: s in chain ==> ListableNow(s.dir)
    }

    method WantedFiles(docPath: Path, refs: seq<Path>) returns (wanted: seq<Target>)
      requires Sound() && CoherentRemote(fs.remote)
      modifies cache, cache.bodies, fs`alive, fs`deaf
      ensures Sound() && (fs.alive ==> old(fs.alive))
      ensures forall t :: t in wanted ==> Reachable(fs.remote, base, t)
      ensures alone ==>
        unchanged(cache) && unchanged(cache.bodies) && fs.alive == old(fs.alive) && fs.deaf == old(fs.deaf)
      ensures alone ==> Covers(wanted, docPath, refs)
      ensures forall t :: t in wanted ==> FromRefs(t, docPath, refs)
    {
      wanted := [];
      for i := 0 to |refs|
        invariant Sound() && (fs.alive ==> old(fs.alive))
        invariant forall t :: t in wanted ==> Reachable(fs.remote, base, t)
        invariant alone ==>
          unchanged(cache) && unchanged(cache.bodies) && fs.alive == old(fs.alive) && fs.deaf == old(fs.deaf)
        invariant alone ==> Covers(wanted, docPath, refs[..i])
        invariant forall t :: t in wanted ==> FromRefs(t, docPath, refs)
      {
        var target := Consider(UrlOf(docPath, refs[i]));
        if alone { CoversMore(wanted, docPath, refs, i, target); }
        if target.Some? {
          wanted := wanted + [target.value];
        }
      }
      assert refs[..|refs|] == refs;
    }

    /** A target that one of these references resolves to. */
    predicate FromRefs(t: Target, docPath: Path, refs: seq<Path>)
    {
      exists r :: r in refs && Segments(UrlOf(docPath, r)).Some? && t == TargetOf(UrlOf(docPath, r))
    }

    /** Every reference that may be looked at has its target among the wanted ones. */
    predicate Covers(wanted: seq<Target>, docPath: Path, refs: seq<Path>)
      reads cache
    {
      forall r :: r in refs && WantedNow(UrlOf(docPath, r)) ==> TargetOf(UrlOf(docPath, r)) in wanted
    }

    lemma CoversMore(wanted: seq<Target>, docPath: Path, refs: seq<Path>, i: nat, target: Option<Target>)
      requires i < |refs| && Covers(wanted, docPath, refs[..i])
      requires WantedNow(UrlOf(docPath, refs[i])) ==> target == Some(TargetOf(UrlOf(docPath, refs[i])))
      ensures Covers(wanted + if target.Some? then [target.value] else [], docPath, refs[..i + 1])
    {
      hide WantedNow;
      assert refs[..i + 1] == refs[..i] + [refs[i]];
    }

    /** One reference: what it resolves to, if it may be looked at. */
    method Consider(url: Path) returns (target: Option<Target>)
      requires Sound() && CoherentRemote(fs.remote)
      modifies cache, cache.bodies, fs`alive, fs`deaf
      ensures Sound() && (fs.alive ==> old(fs.alive))
      ensures target.Some? ==> Reachable(fs.remote, base, target.value)
      ensures alone ==>
        unchanged(cache) && unchanged(cache.bodies) && fs.alive == old(fs.alive) && fs.deaf == old(fs.deaf)
      ensures alone && WantedNow(url) ==> target == Some(TargetOf(url))
      ensures target.Some? ==> Segments(url).Some? && target.value == TargetOf(url)
    {
      var resolved := Resolve(base, url);
      if resolved.None? {
        return None;
      }
      var chain := Components(base, resolved.value);
      ResolvedIsPlain(url);
      StepsOf(base, Segments(url).value);
      if chain == [] || AnyHiddenStep(chain) {
        return None;
      }
      OthersRun();
      if AnySymlinkCached(chain) {
        return None;
      }
      var ok := AllListable(chain);
      target := if ok then Some(Target(resolved.value, chain)) else None;
    }

    predicate AnySymlinkCached(chain: seq<Step>)
      reads cache
    {
      exists i :: 0 <= i < |chain| &&
        var a := cache.AttrsOf(chain[i].dir, chain[i].name); a.Some? && a.value.IsSymlink()
    }

    method AllListable(chain: seq<Step>) returns (ok: bool)
      requires Sound() && CoherentRemote(fs.remote)
      modifies cache, cache.bodies, fs`alive, fs`deaf
      ensures Sound() && (fs.alive ==> old(fs.alive))
      ensures ok ==> forall s :: s in chain ==> Trusted(fs.remote, base, s.dir)
      ensures alone ==>
        unchanged(cache) && unchanged(cache.bodies) && fs.alive == old(fs.alive) && fs.deaf == old(fs.deaf)
      ensures alone && (forall s :: s in chain ==> ListableNow(s.dir)) ==> ok
    {
      ok := true;
      for i := 0 to |chain|
        invariant Sound() && (fs.alive ==> old(fs.alive))
        invariant ok ==> forall s :: s in chain[..i] ==> Trusted(fs.remote, base, s.dir)
        invariant alone ==>
          unchanged(cache) && unchanged(cache.bodies) && fs.alive == old(fs.alive) && fs.deaf == old(fs.deaf)
        invariant alone && (forall s :: s in chain ==> ListableNow(s.dir)) ==> ok
      {
        assert chain[..i + 1] == chain[..i] + [chain[i]] && chain[i] in chain;
        if ok {
          OthersRun();
          ok := Listable(chain[i].dir);
        }
      }
      assert chain[..|chain|] == chain;
    }

    /** What the cache knows of a name is what the remote would list for it. */
    lemma CachedAttrsRight(dir: Path, name: Path)
      requires Sound() && CoherentRemote(fs.remote)
      ensures cache.AttrsOf(dir, name).Some? ==> cache.AttrsOf(dir, name) == Lookup(fs.remote, dir, name)
    {
      if cache.Fresh(dir) {
        var es := Contents(fs.remote.dirs(dir)).value;
        CachedLookupAgrees(es);
        assert Get(AsMap(es), name) == Find(es, name);
      }
    }

    predicate KnownRealDir(s: Step)
      reads cache
    {
      var a := cache.AttrsOf(s.dir, s.name);
      a.Some? && a.value.IsDir() && !a.value.IsSymlink()
    }

    predicate AllKnownRealDirs(steps: seq<Step>)
      reads cache
    {
      forall s :: s in steps ==> KnownRealDir(s)
    }

    /** The base, or a directory every step to which is cached as a real directory. */
    predicate ListableNow(dir: Path)
      reads cache
    {
      TrimEnd(dir) == TrimEnd(base) || AllKnownRealDirs(Chain(TrimEnd(base), NonEmpty(Split(Below(base, dir)))))
    }

    /** origin/mod.rs:2525-2534. */
    method Listable(dir: Path) returns (ok: bool)
      requires Sound() && CoherentRemote(fs.remote)
      ensures ok ==> Trusted(fs.remote, base, dir)
      ensures ok <==> ListableNow(dir)
    {
      hide Sound, CoherentRemote;
      if TrimEnd(dir) == TrimEnd(base) {
        return true;
      }
      var steps := Components(base, dir);
      for i := 0 to |steps|
        invariant forall s :: s in steps[..i] ==> RealDirAt(fs.remote, s) && KnownRealDir(s)
      {
        assert steps[..i + 1] == steps[..i] + [steps[i]] && steps[i] in steps;
        CachedAttrsRight(steps[i].dir, steps[i].name);
        var a := cache.AttrsOf(steps[i].dir, steps[i].name);
        if a.None? || !a.value.IsDir() || a.value.IsSymlink() {
          assert !KnownRealDir(steps[i]);
          return false;
        }
      }
      assert steps[..|steps|] == steps;
      ok := true;
    }

    /** A file worth reading ahead: listed, known not to be a directory or behind a symlink, small enough, not held. */
    predicate Worth(held: Held, t: Target)
      reads cache, cache.bodies
    {
      t.chain != [] && !AnySymlinkIn(held, t.chain) &&
      var last := t.chain[|t.chain| - 1];
      var attrs := AttrsIn(held, last.dir, last.name);
      && attrs.Some? && !attrs.value.IsDir() && attrs.value.size.Some?
      && 0 < attrs.value.size.value <= CACHE_WHOLE_MAX && cache.Body(t.path, attrs.value).None?
    }

    function ReadFor(held: Held, t: Target): (r: ToRead)
      requires Worth(held, t)
      reads cache, cache.bodies
      ensures r.path == t.path && r.attrs.size == Some(r.size) && r.size > 0
    {
      var last := t.chain[|t.chain| - 1];
      var attrs := AttrsIn(held, last.dir, last.name).value;
      ToRead(t.path, attrs, attrs.size.value)
    }

    lemma WorthIsApproved(held: Held, t: Target)
      requires Reachable(fs.remote, base, t) && (held == map[] || HeldFor(held, fs.remote, t.chain)) && Worth(held, t)
      ensures Approved(fs.remote, base, t.path)
    {
      TargetApproved(fs.remote, base, held, t);
    }

    /** What of a read is checked before it is kept: an approved path, and its listed size. */
    ghost predicate MayRead(r: ToRead)
    {
      Approved(fs.remote, base, r.path) && r.attrs.size == Some(r.size) && r.size > 0
    }

    method FilesToRead(wanted: seq<Target>, held: Held) returns (toRead: seq<ToRead>)
      requires forall t :: t in wanted ==> Reachable(fs.remote, base, t)
      requires held == map[] || forall t :: t in wanted ==> HeldFor(held, fs.remote, t.chain)
      ensures forall r :: r in toRead ==> MayRead(r)
      ensures forall t :: t in wanted && Worth(held, t) ==> ReadFor(held, t) in toRead
    {
      toRead := [];
      for i := 0 to |wanted|
        invariant forall r :: r in toRead ==> MayRead(r)
        invariant forall j :: 0 <= j < i && Worth(held, wanted[j]) ==> ReadFor(held, wanted[j]) in toRead
      {
        var t := wanted[i];
        assert t in wanted;
        if Worth(held, t) {
          WorthIsApproved(held, t);
          toRead := toRead + [ReadFor(held, t)];
        }
      }
    }

    /** No body has been evicted since `was` of them had been. */
    ghost predicate NoneEvicted(was: int)
      reads cache.bodies
    {
      cache.bodies.Evicted() == was
    }

    /** A read that comes back at its listed length, of a file the cache has room for. */
    predicate Arrives(r: ToRead)
    {
      && r.attrs.mtime.Some? && r.size <= cache.bodies.cap
      && match fs.remote.files(r.path)
         case Readable(body) => r.size <= |body|
         case _ => false
    }

    /** Read every file in one batch of ranges, and keep those that came back at their listed length. */
    method ReadAhead(toRead: seq<ToRead>)
      requires Sound() && forall r :: r in toRead ==> r.attrs.size == Some(r.size) && r.size > 0
      modifies cache, cache.bodies, fs
      ensures Sound() && (fs.alive ==> old(fs.alive))
      ensures fs.rounds <= old(fs.rounds) + 2
      ensures alone ==> unchanged(cache)
      ensures alone ==> old(cache.bodies.Evicted()) <= cache.bodies.Evicted()
      ensures alone && NoneEvicted(old(cache.bodies.Evicted())) ==>
        forall k :: k in old(cache.bodies.bodies) ==> k in cache.bodies.bodies
      ensures alone && NoneEvicted(old(cache.bodies.Evicted())) && fs.alive ==>
        forall r :: r in toRead && Arrives(r) ==> cache.Body(r.path, r.attrs).Some?
      ensures fs.dirsOpened == old(fs.dirsOpened)
      ensures forall p :: p in fs.filesOpened ==> p in old(fs.filesOpened) || p in PathsOf(toRead)
      ensures old(fs.opens) <= fs.opens
    {
      var reqs := seq(|toRead|, i requires 0 <= i < |toRead| => SftpFiles.RangeReq(toRead[i].path, 0, toRead[i].size));
      var got := fs.ReadRanges(reqs);
      forall j | 0 <= j < |toRead|
        ensures Delivered(got[j], Part(fs.remote.files(toRead[j].path), 0, toRead[j].size), fs.alive)
      {
        assert reqs[j] == SftpFiles.RangeReq(toRead[j].path, 0, toRead[j].size);
      }
      assert SftpFiles.PathsIn(reqs) == PathsOf(toRead);
      KeepWhole(toRead, got);
    }

    /** Keep every read that came back at its listed length. */
    method KeepWhole(toRead: seq<ToRead>, got: seq<Bytes>)
      requires Sound() && forall r :: r in toRead ==> r.attrs.size == Some(r.size) && r.size > 0
      requires |got| == |toRead|
      requires forall j :: 0 <= j < |toRead| ==>
        Delivered(got[j], Part(fs.remote.files(toRead[j].path), 0, toRead[j].size), fs.alive)
      modifies cache, cache.bodies, fs`alive, fs`deaf
      ensures Sound() && (fs.alive ==> old(fs.alive))
      ensures alone ==> unchanged(cache)
      ensures alone ==> old(cache.bodies.Evicted()) <= cache.bodies.Evicted()
      ensures alone && NoneEvicted(old(cache.bodies.Evicted())) ==>
        forall k :: k in old(cache.bodies.bodies) ==> k in cache.bodies.bodies
      ensures alone && NoneEvicted(old(cache.bodies.Evicted())) && fs.alive ==>
        forall r :: r in toRead && Arrives(r) ==> cache.Body(r.path, r.attrs).Some?
    {
      hide Sound, Arrives;
      for i := 0 to |toRead|
        invariant Sound() && (fs.alive ==> old(fs.alive))
        invariant alone ==> unchanged(cache)
        invariant alone ==> old(cache.bodies.Evicted()) <= cache.bodies.Evicted()
        invariant alone && NoneEvicted(old(cache.bodies.Evicted())) ==>
          forall k :: k in old(cache.bodies.bodies) ==> k in cache.bodies.bodies
        invariant alone && NoneEvicted(old(cache.bodies.Evicted())) && fs.alive ==>
          forall j :: 0 <= j < i && Arrives(toRead[j]) ==> cache.Body(toRead[j].path, toRead[j].attrs).Some?
      {
        assert toRead[i] in toRead;
        KeepIfWhole(toRead[i], got[i]);
      }
    }

    method KeepIfWhole(r: ToRead, got: Bytes)
      requires Sound() && r.attrs.size == Some(r.size) && r.size > 0
      requires Delivered(got, Part(fs.remote.files(r.path), 0, r.size), fs.alive)
      modifies cache, cache.bodies, fs`alive, fs`deaf
      ensures Sound() && (fs.alive ==> old(fs.alive))
      ensures fs.alive && Arrives(r) ==> cache.Body(r.path, r.attrs).Some?
      ensures alone ==> unchanged(cache) && fs.alive == old(fs.alive) && fs.deaf == old(fs.deaf)
      ensures alone ==> old(cache.bodies.Evicted()) <= cache.bodies.Evicted()
      ensures alone && NoneEvicted(old(cache.bodies.Evicted())) ==>
        forall k :: k in old(cache.bodies.bodies) ==> k in cache.bodies.bodies
    {
      OthersRun();
      if got.Ok? && |got.value| == r.size {
        SftpFiles.RangedIsFetched(fs.remote.files(r.path), r.size);
        cache.PutBody(r.path, r.attrs, got.value);
      }
    }

    /**
     The first pass of the retry loop, origin/mod.rs:1006-1011: served, and to be tried again or not. A request
     cut short by its session is tried again if and only if no file had been asked for yet, so that what failed
     was a listing, and the writer has returned, which is all `is_alive` asks. Over a session whose stream had
     ended before, it has. But a stream that ends under the listings may leave it waiting for more to send: then
     the bad gateway stands. So does a file not found because its session ended before it was read.
     */
    method Attempt(req: Request) returns (resp: Response, again: bool)
      requires Sound() && CoherentRemote(fs.remote)
      modifies cache, cache.bodies, fs
      ensures Sound() && (fs.alive ==> old(fs.alive))
      ensures again <==> ServerError(resp) && !fs.IsAlive()
      ensures resp != Answer(fs.remote, base, req) ==>
        !fs.alive && (again <==> fs.opens == old(fs.opens) && !fs.IsAlive())
      ensures resp != Answer(fs.remote, base, req) && fs.opens == old(fs.opens) && !old(fs.alive) ==> again
      ensures alone && IsFile(req) && old(fs.EndsNext()) && !old(AllFresh(ChainOf(req))) ==>
        resp != Answer(fs.remote, base, req) && resp.BadGateway? && !again
      ensures alone && IsFile(req) && !old(fs.alive) ==>
        old(AllFresh(ChainOf(req)) && !HeldThere(ChainOf(req), FileOf(req), req.cond)) ==>
        resp.NotFound? && !again
    {
      FileIsAnswered(req);
      resp := ServeAlias(req);
      OthersRun();
      again := ServerError(resp) && !fs.IsAlive();
    }

    /** A file that is there is never a bad gateway. */
    lemma FileIsAnswered(req: Request)
      ensures IsFile(req) ==> !Answer(fs.remote, base, req).BadGateway?
    {
      hide Answer, Segments, Chain, TrimEnd, Joined, FileSegments, FirstRefused, AnySymlink;
      if IsFile(req) {
        AnswerBelow(req);
        FoundListed(fs.remote, ChainOf(req));
      }
    }

    /** Whatever the request asks for is there, and all it takes to answer it is held. */
    predicate AnswerThere(req: Request)
      reads cache, cache.bodies
    {
      IsFile(req) && AllFresh(ChainOf(req)) && HeldThere(ChainOf(req), FileOf(req), req.cond)
    }

    predicate AllHeld(reqs: seq<Request>)
      reads cache, cache.bodies
    {
      forall req :: req in reqs ==> AnswerThere(req)
    }

    /** One request of a run, other tasks first. */
    method ServeNext(req: Request) returns (resp: Response)
      requires Sound() && CoherentRemote(fs.remote)
      modifies cache, cache.bodies, fs
      ensures Sound() && (fs.alive ==> old(fs.alive))
      ensures AnsweredAs(resp, Answer(fs.remote, base, req), fs.alive)
      ensures alone && old(AnswerThere(req)) ==> unchanged(cache) && unchanged(cache.bodies) && unchanged(fs)
      ensures alone ==> old(cache.bodies.Evicted()) <= cache.bodies.Evicted()
      ensures FilesOnly(old(fs.filesOpened))
    {
      hide Sound, Answer, Approved, Trusted, IsFile, RequestCost, Seen, Aftermath, DirsOnly;
      OthersRun();
      resp := ServeAlias(req);
    }

    /**
     A whole run: whatever was cached by earlier requests, prefetches and other tasks, whatever has
     expired or been evicted since, every request is answered as if nothing had ever been cached.
     */
    method ServeRun(reqs: seq<Request>) returns (resps: seq<Response>, ghost up: seq<bool>)
      requires Sound() && CoherentRemote(fs.remote)
      modifies cache, cache.bodies, fs
      ensures Sound() && (fs.alive ==> old(fs.alive)) && |resps| == |reqs|
      ensures |up| == |reqs| && (fs.alive ==> forall i :: 0 <= i < |up| ==> up[i])
      ensures forall i, j :: 0 <= i <= j < |up| && up[j] ==> up[i]
      ensures forall i :: 0 <= i < |reqs| ==> AnsweredAs(resps[i], Answer(fs.remote, base, reqs[i]), up[i])
      ensures alone && old(AllHeld(reqs)) ==> unchanged(cache) && unchanged(cache.bodies) && unchanged(fs)
      ensures alone ==> old(cache.bodies.Evicted()) <= cache.bodies.Evicted()
      ensures FilesOnly(old(fs.filesOpened))
    {
      hide Sound, Answer, AnswerThere;
      resps, up := [], [];
      for i := 0 to |reqs|
        invariant Sound() && |resps| == i && (fs.alive ==> old(fs.alive))
        invariant |up| == i && (fs.alive ==> forall j :: 0 <= j < i ==> up[j])
        invariant forall j, k :: 0 <= j <= k < i && up[k] ==> up[j]
        invariant forall j :: 0 <= j < i ==> AnsweredAs(resps[j], Answer(fs.remote, base, reqs[j]), up[j])
        invariant alone && old(AllHeld(reqs)) ==> unchanged(cache) && unchanged(cache.bodies) && unchanged(fs)
        invariant alone ==> old(cache.bodies.Evicted()) <= cache.bodies.Evicted()
        invariant FilesOnly(old(fs.filesOpened))
      {
        assert reqs[i] in reqs;
        var resp := ServeNext(reqs[i]);
        resps, up := resps + [resp], up + [fs.alive];
      }
    }

    /** Every listing along the chain that is fresh now, and every one fetched now, is still fresh `pause` later. */
    predicate StaysFresh(chain: seq<Step>, pause: nat)
      reads cache
    {
      && pause < cache.ttl
      && forall s :: s in chain && cache.Fresh(s.dir) ==> cache.now + pause - cache.listings[s.dir].fetched < cache.ttl
    }

    method Pause(seconds: nat)
      requires Sound()
      modifies cache
      ensures Sound() && cache.now == old(cache.now) + seconds && cache.listings == old(cache.listings)
    {
      cache.now := cache.now + seconds;
    }

    /**
     A revisit, with nothing else going on and `pause` in between. A file that is kept is answered the
     same again; as long as its listings stay fresh the first request's rounds are all there are, and
     otherwise there is no more than a batch of listings besides. The one exception is a page that its own
     prefetch drove out of the cache.
     */
    method Revisit(req: Request, pause: nat)
      returns (first: Response, second: Response)
      requires Sound() && CoherentRemote(fs.remote) && alone && cache.ttl > 0
      requires IsFile(req) && Keeps(FileOf(req), AttrsOf(req), Wanted(AttrsOf(req), req.cond))
      modifies cache, cache.bodies, fs
      ensures Sound() && (fs.alive ==> old(fs.alive))
      ensures fs.alive ==> first == second == Answer(fs.remote, base, req)
      ensures fs.alive && (isPage(FileOf(req)) ==> NoneEvicted(old(cache.bodies.Evicted()))) ==>
        fs.rounds <= old(fs.rounds) + RequestCost(req) +
          (if old(StaysFresh(ChainOf(req), pause)) then 0 else ListingCost(ChainOf(req)))
    {
      hide Sound, Answer, Segments, RequestCost, Trusted, Approved;
      first := ServeAlias(req);
      ghost var chain, was := ChainOf(req), old(cache.bodies.Evicted());
      ghost var mid := cache.bodies.Evicted();
      ghost var kept := fs.alive;
      assert kept ==>
        AllFresh(chain) && Renewed(old(cache.listings), old(cache.now)) && StillHeld(was, chain, FileOf(req), req.cond);
      Pause(pause);
      assert kept && old(StaysFresh(chain, pause)) ==> AllFresh(chain);
      assert kept && (isPage(FileOf(req)) ==> mid == was) ==> HeldThere(chain, FileOf(req), req.cond);
      second := ServeAlias(req);
    }

    /** With every directory above its own freshly listed, a file by no hidden name and no symlink may be looked at. */
    lemma KnownIsWanted(url: Path)
      requires Sound() && CoherentRemote(fs.remote) && Warmable(url) && !AnyHidden(Segments(url).value)
      requires var chain := TargetOf(url).chain; AllFresh(chain[..|chain| - 1])
      ensures WantedNow(url)
    {
      var names, b := Segments(url).value, TrimEnd(base);
      var chain := TargetOf(url).chain;
      HiddenNames(b, names);
      ResolvedIsPlain(url);
      forall i | 0 <= i < |chain|
        ensures cache.AttrsOf(chain[i].dir, chain[i].name).Some? ==>
          !cache.AttrsOf(chain[i].dir, chain[i].name).value.IsSymlink()
      {
        CachedAttrsRight(chain[i].dir, chain[i].name);
        assert !SymlinkAt(fs.remote, chain[i]);
      }
      forall s | s in chain ensures ListableNow(s.dir) {
        var k :| 0 <= k < |chain| && chain[k] == s;
        ChainAt(b, names, k);
        KnownAbove(names, k);
      }
    }

    /** Each directory on the way down is listable on what is known of those above it. */
    lemma KnownAbove(names: seq<Path>, k: nat)
      requires Sound() && CoherentRemote(fs.remote) && Plain(names) && Leads(Chain(TrimEnd(base), names))
      requires k < |names| && AllFresh(Chain(TrimEnd(base), names)[..|names| - 1])
      ensures ListableNow(Joined(TrimEnd(base), names[..k]))
    {
      hide Sound, CoherentRemote, Leads, AllFresh, KnownRealDir, Chain, Joined, TrimEnd, Split, NonEmpty, Below;
      var b := TrimEnd(base);
      var steps := Chain(b, names[..k]);
      assert names[..k] == NonEmpty(Split(Below(base, Joined(b, names[..k])))) by {
        StepsOf(base, names[..k]);
      }
      forall s | s in steps ensures KnownRealDir(s) {
        var j :| 0 <= j < |steps| && steps[j] == s;
        ChainAt(b, names[..k], j);
        ChainAt(b, names, j);
        assert names[..k][..j] == names[..j];
        KnownInner(Chain(b, names), j);
      }
    }

    lemma KnownInner(chain: seq<Step>, j: nat)
      requires Sound() && CoherentRemote(fs.remote) && Leads(chain) && j < |chain| - 1 && AllFresh(chain[..|chain| - 1])
      ensures KnownRealDir(chain[j])
    {
      WalkPasses(fs.remote, chain, j);
      assert chain[..|chain| - 1][j] in chain[..|chain| - 1];
      assert cache.Fresh(chain[j].dir) && !SymlinkAt(fs.remote, chain[j]);
      var es := Contents(fs.remote.dirs(chain[j].dir)).value;
      CachedLookupAgrees(es);
      assert Get(AsMap(es), chain[j].name) == Find(es, chain[j].name);
    }

    /** A request for what a reference beside a page leads to finds the file and all it needs. */
    lemma ReadyIsHeld(chain: seq<Step>, req: Request)
      requires Beside(chain, req.path) && !req.WantsDir()
      ensures Ready(req.path) ==> AnswerThere(req)
    {
    }

    /** A request that leads where something the page refers to does, beside it. */
    predicate AsksFor(first: Request, html: seq<byte>, req: Request)
    {
      && !req.WantsDir() && Beside(ChainOf(first), req.path)
      && exists r :: r in RefsOf(html) && Segments(req.path) == Segments(UrlOf(first.path, r))
    }

    /** A request for the page once more, if it is one that is kept. */
    predicate AsksAgain(first: Request, req: Request)
      requires IsFile(first)
    {
      && req.path == first.path && !(req.WantsDir() && req.wantsList)
      && KeptThere(ChainOf(first), FileOf(first), first.cond)
    }

    /** With an honest size a file costs six rounds and the pages listed, whatever its depth, size and references. */
    lemma HonestCost(req: Request, html: seq<byte>)
      requires IsFile(req) && HonestSize(req)
      requires SftpFiles.Fetched(fs.remote.files(FileOf(req)), SizeOf(AttrsOf(req))) == Ok(html)
      ensures RequestCost(req) <= 6 + SftpFiles.ListRounds(fs.remote, DirsOf(ChainOf(req))) +
        SftpFiles.ListRounds(fs.remote, RefDirs(req.path, RefsOf(html)))
    {
      hide Chain, TrimEnd, Joined, Walk, RefDirs, RefsOf, AnySymlink, Unchanged, Wanted, AnyHidden, FileSegments,
        Segments;
    }

    /**
     A page fetched and then any number of requests for what it refers to, or for the page itself again, with
     whatever conditions and ranges: every answer is the cacheless one, and unless some body was driven out of the
     cache meanwhile the page's own rounds are all there are.
     */
    method ServePage(first: Request, html: seq<byte>, reqs: seq<Request>)
      returns (page: Response, resps: seq<Response>)
      requires Sound() && CoherentRemote(fs.remote) && alone
      requires NoRefusals(fs.remote, RefDirs(first.path, RefsOf(html)))
      requires IsFile(first) && FetchesThere(ChainOf(first), FileOf(first), first.cond)
      requires SftpFiles.Fetched(fs.remote.files(FileOf(first)), SizeOf(AttrsOf(first))) == Ok(html)
      requires forall req :: req in reqs ==> AsksFor(first, html, req) || AsksAgain(first, req)
      modifies cache, cache.bodies, fs
      ensures Sound() && (fs.alive ==> old(fs.alive)) && |resps| == |reqs|
      ensures fs.alive ==> page == Answer(fs.remote, base, first)
      ensures fs.alive ==> forall i :: 0 <= i < |reqs| ==> resps[i] == Answer(fs.remote, base, reqs[i])
      ensures fs.alive && NoneEvicted(old(cache.bodies.Evicted())) ==>
        fs.rounds <= old(fs.rounds) + RequestCost(first)
      ensures fs.alive && NoneEvicted(old(cache.bodies.Evicted())) && HonestSize(first) ==>
        fs.rounds <= old(fs.rounds) + 6 + SftpFiles.ListRounds(fs.remote, DirsOf(ChainOf(first))) +
          SftpFiles.ListRounds(fs.remote, RefDirs(first.path, RefsOf(html)))
    {
      hide Sound, Answer, AllHeld, WarmedThere, AsksFor, AsksAgain, Leads, FetchesPage, RequestCost, HonestSize,
        MustBeRead;
      if HonestSize(first) {
        HonestCost(first, html);
      }
      FetchedMustBeRead(first);
      page := ServeAlias(first);
      if fs.alive && NoneEvicted(old(cache.bodies.Evicted())) {
        WarmedIsHeld(first, html, reqs, cache.bodies.Evicted());
      }
      ghost var up;
      resps, up := ServeRun(reqs);
    }

    /** Its conditions and range leave the file to be read. */
    predicate MustBeRead(req: Request)
      requires IsFile(req)
    {
      !Unchanged(AttrsOf(req), req.cond) && !Wanted(AttrsOf(req), req.cond).Unsatisfiable?
    }

    lemma FetchedMustBeRead(req: Request)
      requires IsFile(req) && FetchesThere(ChainOf(req), FileOf(req), req.cond)
      ensures MustBeRead(req) && cache.ttl > 0
    {
      hide Leads, AnyHidden, Chain, TrimEnd, Segments;
    }

    /** A page that is held is held for every request for it. */
    lemma AgainIsHeld(first: Request, req: Request)
      requires IsFile(first) && AsksAgain(first, req) && AllFresh(ChainOf(first)) && MustBeRead(first)
      requires HeldThere(ChainOf(first), FileOf(first), first.cond)
      ensures AnswerThere(req)
    {
      hide Leads, AnyHidden, Chain, TrimEnd, Segments, Joined, AllFresh;
    }

    /** Paths that lead to the same place are ready together. */
    lemma SamePlace(chain: seq<Step>, url: Path, other: Path)
      requires Beside(chain, url) && Segments(url) == Segments(other)
      ensures Beside(chain, other) && (Ready(other) ==> Ready(url))
    {
    }

    lemma AskedIsReady(first: Request, html: seq<byte>, req: Request, was: int)
      requires IsFile(first) && WarmedThere(first.path, ChainOf(first), FileOf(first), was)
      requires SftpFiles.Fetched(fs.remote.files(FileOf(first)), SizeOf(AttrsOf(first))) == Ok(html)
      requires NoneEvicted(was) && NoRefusals(fs.remote, RefDirs(first.path, RefsOf(html)))
      requires AsksFor(first, html, req)
      ensures Ready(req.path)
    {
      hide Ready, Beside, Leads, AllFresh, Segments, Walk, UrlOf, RefsOf, RefDirs;
      var r :| r in RefsOf(html) && Segments(req.path) == Segments(UrlOf(first.path, r));
      SamePlace(ChainOf(first), req.path, UrlOf(first.path, r));
    }

    /** Once a page's references are warmed, the answers to all requests for them are held. */
    lemma WarmedIsHeld(first: Request, html: seq<byte>, reqs: seq<Request>, was: int)
      requires IsFile(first) && WarmedThere(first.path, ChainOf(first), FileOf(first), was)
      requires SftpFiles.Fetched(fs.remote.files(FileOf(first)), SizeOf(AttrsOf(first))) == Ok(html)
      requires NoneEvicted(was) && NoRefusals(fs.remote, RefDirs(first.path, RefsOf(html)))
      requires KeptThere(ChainOf(first), FileOf(first), first.cond) ==>
        AllFresh(ChainOf(first)) && MustBeRead(first) && HeldThere(ChainOf(first), FileOf(first), first.cond)
      requires forall req :: req in reqs ==> AsksFor(first, html, req) || AsksAgain(first, req)
      ensures AllHeld(reqs)
    {
      hide Ready, Leads, AllFresh, HeldThere, Segments, Walk, KeptThere, WarmedThere, RefDirs, RefsOf, UrlOf;
      forall req | req in reqs ensures AnswerThere(req) {
        if AsksFor(first, html, req) {
          AskedIsReady(first, html, req, was);
          ReadyIsHeld(ChainOf(first), req);
        } else {
          AgainIsHeld(first, req);
        }
      }
    }
  }

  lemma HeldAnswersSymlinks(remote: Remote, held: Held, chain: seq<Step>)
    requires forall s :: s in chain ==> HeldRight(held, remote, s.dir)
    ensures AnySymlinkIn(held, chain) <==> AnySymlink(remote, chain)
  {
    forall i | 0 <= i < |chain|
      ensures AttrsIn(held, chain[i].dir, chain[i].name) == Lookup(remote, chain[i].dir, chain[i].name)
    {
      assert chain[i] in chain;
    }
    if AnySymlink(remote, chain) {
      var i :| 0 <= i < |chain| && SymlinkAt(remote, chain[i]);
      assert AttrsIn(held, chain[i].dir, chain[i].name).Some?;
    }
  }
}
