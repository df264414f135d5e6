/** Batched access to one remote over one pipelined stream, fs/sftp.rs. */
module SftpFiles {
  import opened Common
  import opened Remotes

  const READ_CHUNK: nat := 32 * 1024

  datatype RangeReq = RangeReq(path: Path, offset: u64, len: u64)
  {
    /** Where the range ends, with the saturating addition of fs/sftp.rs:300. */
    function End(): u64 { Min(offset + len, U64_SPAN - 1) }

    /** The length actually asked for; shorter than len only past the last 64-bit offset. */
    function Span(): nat { End() - offset }
  }

  /** One READ of read_ranges. */
  datatype Piece = Piece(req: nat, offset: nat, len: nat)

  // ---- read_batch: polling in chunks ----

  /** How many chunk rounds a file needs: its chunks, the last of them short. */
  function ChunkRounds(f: File): nat
  {
    match f
    case NotOpened(_) => 0
    case Readable(body) => |body| / READ_CHUNK + 1
    case Unreadable(_) => 1
  }

  /** A round for every whole 32 KiB, and one that comes back short. */
  lemma ChunksCounted(body: seq<byte>, k: nat)
    requires k * 32_768 <= |body| < (k + 1) * 32_768
    ensures ChunkRounds(Readable(body)) == k + 1
  {
  }

  /** The rounds of the file that needs most. */
  function PollRounds(remote: Remote, paths: seq<Path>): nat
  {
    if paths == [] then 0
    else Max(PollRounds(remote, paths[..|paths| - 1]), ChunkRounds(remote.files(paths[|paths| - 1])))
  }

  lemma {:induction false} PollRoundsIsMax(remote: Remote, paths: seq<Path>)
    ensures forall i :: 0 <= i < |paths| ==> ChunkRounds(remote.files(paths[i])) <= PollRounds(remote, paths)
    ensures PollRounds(remote, paths) > 0 ==>
      exists i :: 0 <= i < |paths| && ChunkRounds(remote.files(paths[i])) == PollRounds(remote, paths)
  {
    if paths != [] {
      var init := paths[..|paths| - 1];
      PollRoundsIsMax(remote, init);
      forall i | 0 <= i < |paths| ensures ChunkRounds(remote.files(paths[i])) <= PollRounds(remote, paths) {
        if i < |init| {
          assert paths[i] == init[i];
        }
      }
      if PollRounds(remote, init) == PollRounds(remote, paths) && PollRounds(remote, paths) > 0 {
        var i :| 0 <= i < |init| && ChunkRounds(remote.files(init[i])) == PollRounds(remote, init);
        assert paths[i] == init[i];
      }
    }
  }

  /** A file that has answered k full chunks so far. */
  predicate InProgress(got: Bytes, f: File, k: nat)
  {
    && got.Ok?
    && match f
       case NotOpened(_) => false
       case Readable(body) => k * READ_CHUNK <= |body| && got.value == body[..k * READ_CHUNK]
       case Unreadable(_) => k == 0 && got.value == []
  }

  /** What one READ reply does to one file: its new state, and whether to keep polling it. */
  function Absorb(got: Bytes, reply: Reply): (r: (Bytes, bool))
  {
    match reply
    case Data(data) => (if got.Ok? then Ok(got.value + data) else got, |data| == READ_CHUNK)
    case Status(code) => (if code == STATUS_EOF then got else Err(ReadFailed(code)), false)
    case NoReply => (Err(SessionGone), false)
    case _ => (Err(ReadFailed(0)), false)
  }

  lemma AbsorbChunk(remote: Remote, path: Path, got: Bytes, k: nat)
    requires InProgress(got, remote.files(path), k)
    ensures var f := remote.files(path);
      var r := Absorb(got, ReplyTo(remote, Read(path, |got.value|, READ_CHUNK)));
      && (r.1 <==> ChunkRounds(f) > k + 1)
      && (r.1 ==> InProgress(r.0, f, k + 1))
      && (!r.1 ==> r.0 == Whole(f))
      && ChunkRounds(f) > k
  {
    var f := remote.files(path);
    if f.Readable? {
      var n := |f.body|;
      assert |got.value| == k * READ_CHUNK;
      if k * READ_CHUNK < n {
        assert got.value + f.body[k * READ_CHUNK..Min(k * READ_CHUNK + READ_CHUNK, n)]
            == f.body[..Min(k * READ_CHUNK + READ_CHUNK, n)];
      } else {
        assert got.value == f.body;
      }
      assert f.body[..n] == f.body;
    }
  }

  /** Where chunk round k leaves one file that was in progress before it. */
  predicate Absorbed(got: Bytes, f: File, k: nat, stays: bool, alive: bool)
  {
    && ChunkRounds(f) > k
    && (if stays then InProgress(got, f, k + 1) else Delivered(got, Whole(f), alive))
    && (alive ==> (stays <==> ChunkRounds(f) > k + 1))
  }

  /** A reply to the next chunk of a file, or to nothing if the session has ended. */
  predicate Reads(remote: Remote, path: Path, got: Bytes, reply: Reply, alive: bool)
  {
    got.Ok? && (reply == ReplyTo(remote, Read(path, |got.value|, READ_CHUNK)) || (!alive && reply == NoReply))
  }

  lemma AbsorbReply(remote: Remote, path: Path, got: Bytes, k: nat, reply: Reply, alive: bool)
    requires InProgress(got, remote.files(path), k)
    requires Reads(remote, path, got, reply, alive)
    ensures var r := Absorb(got, reply); Absorbed(r.0, remote.files(path), k, r.1, alive)
  {
    AbsorbChunk(remote, path, got, k);
  }

  predicate Ascending(s: seq<nat>, n: nat)
  {
    (forall a, b :: 0 <= a < b < |s| ==> s[a] < s[b]) && (forall a :: 0 <= a < |s| ==> s[a] < n)
  }

  /** What opening one file came to: a handle and nothing read yet, or the reason there is none. */
  predicate OpenedAs(handle: Option<Path>, got: Bytes, remote: Remote, path: Path, alive: bool)
  {
    var f := remote.files(path);
    match handle
    case Some(h) => h == path && !f.NotOpened? && got == Ok([])
    case None => if f.NotOpened? then Delivered(got, Whole(f), alive) else !alive && got == Err(SessionGone)
  }

  // ---- list_dirs: one page of every directory per round ----

  function PageRounds(d: Dir): nat
  {
    match d
    case NotListed(_) => 0
    case Listed(pages, _) => |pages| + 1
  }

  /** The rounds of the directory with most pages. */
  function ListRounds(remote: Remote, dirs: seq<Path>): nat
  {
    if dirs == [] then 0
    else Max(ListRounds(remote, dirs[..|dirs| - 1]), PageRounds(remote.dirs(dirs[|dirs| - 1])))
  }

  lemma {:induction false} ListRoundsIsMax(remote: Remote, dirs: seq<Path>)
    ensures forall i :: 0 <= i < |dirs| ==> PageRounds(remote.dirs(dirs[i])) <= ListRounds(remote, dirs)
    ensures ListRounds(remote, dirs) > 0 ==>
      exists i :: 0 <= i < |dirs| && PageRounds(remote.dirs(dirs[i])) == ListRounds(remote, dirs)
  {
    if dirs != [] {
      var init := dirs[..|dirs| - 1];
      ListRoundsIsMax(remote, init);
      forall i | 0 <= i < |dirs| ensures PageRounds(remote.dirs(dirs[i])) <= ListRounds(remote, dirs) {
        if i < |init| {
          assert dirs[i] == init[i];
        }
      }
      if ListRounds(remote, init) == ListRounds(remote, dirs) && ListRounds(remote, dirs) > 0 {
        var i :| 0 <= i < |init| && PageRounds(remote.dirs(init[i])) == ListRounds(remote, init);
        assert dirs[i] == init[i];
      }
    }
  }

  /** More directories never take fewer rounds. */
  lemma {:induction false} ListRoundsWithin(remote: Remote, some: seq<Path>, all: seq<Path>)
    requires forall d :: d in some ==> d in all
    ensures ListRounds(remote, some) <= ListRounds(remote, all)
  {
    ListRoundsIsMax(remote, some);
    ListRoundsIsMax(remote, all);
    if ListRounds(remote, some) > 0 {
      var i :| 0 <= i < |some| && PageRounds(remote.dirs(some[i])) == ListRounds(remote, some);
      assert some[i] in all;
    }
  }

  type Entries = Result<seq<Entry>, Error>

  /** A directory that has given k pages so far. */
  predicate Listing(got: Entries, d: Dir, k: nat)
  {
    got.Ok? && d.Listed? && k <= |d.pages| && got.value == Flatten(d.pages[..k])
  }

  /** What one READDIR reply does to one directory, and whether to ask for another page. */
  function TakePage(got: Entries, reply: Reply): (r: (Entries, bool))
  {
    match reply
    case Names(entries) => (if got.Ok? then Ok(got.value + entries) else got, true)
    case Status(code) => (if code == STATUS_EOF then got else Err(ReadFailed(code)), false)
    case NoReply => (Err(SessionGone), false)
    case _ => (Err(ReadFailed(0)), false)
  }

  /** Where page round k leaves one directory that was being listed before it. */
  predicate Paged(got: Entries, d: Dir, k: nat, stays: bool, alive: bool)
  {
    && PageRounds(d) > k
    && (if stays then Listing(got, d, k + 1) else Delivered(got, Contents(d), alive))
    && (alive ==> (stays <==> PageRounds(d) > k + 1))
  }

  /** A reply to page k of a directory, or to nothing if the session has ended. */
  predicate Pages(remote: Remote, dir: Path, k: nat, reply: Reply, alive: bool)
  {
    reply == ReplyTo(remote, ReadDir(dir, k)) || (!alive && reply == NoReply)
  }

  lemma TakesPage(remote: Remote, dir: Path, got: Entries, k: nat, reply: Reply, alive: bool)
    requires Listing(got, remote.dirs(dir), k) && Pages(remote, dir, k, reply, alive)
    ensures var r := TakePage(got, reply); Paged(r.0, remote.dirs(dir), k, r.1, alive)
  {
    var d := remote.dirs(dir);
    if k < |d.pages| {
      assert d.pages[..k + 1][..k] == d.pages[..k];
    } else {
      assert d.pages[..k] == d.pages;
    }
  }

  /** What opening one directory came to. */
  predicate OpenedDirAs(handle: Option<Path>, got: Entries, remote: Remote, dir: Path, alive: bool)
  {
    var d := remote.dirs(dir);
    match handle
    case Some(h) => h == dir && d.Listed? && got == Ok([])
    case None => if d.NotListed? then Delivered(got, Contents(d), alive) else !alive && got == Err(SessionGone)
  }

  // ---- The fetch of a whole file whose listed size is known ----

  /** What serve_alias reads: a listed size that is positive but too small is believed. */
  function Fetched(f: File, size: nat): Bytes
  {
    match f
    case Readable(body) => Ok(if 0 < size < |body| then body[..size] else body)
    case _ => Whole(f)
  }

  /** The listing gives a readable file fewer bytes than it has, but some. */
  predicate Undersold(f: File, size: nat) { f.Readable? && 0 < size < |f.body| }

  /** Such a file, and no other, is not fetched whole. */
  lemma FetchedIsWhole(f: File, size: nat)
    ensures Fetched(f, size) == Whole(f) <==> !Undersold(f, size)
  {
    if Undersold(f, size) {
      assert |f.body[..size]| < |f.body|;
    }
  }

  /** How many rounds that takes at most. */
  function FetchRounds(f: File, size: nat): nat
  {
    match f
    case Readable(body) => if 0 < size <= |body| then 2 else 3 + ChunkRounds(f)
    case _ => 3 + ChunkRounds(f)
  }

  // ---- read_ranges: every chunk known in advance ----

  /** How far request i has been cut by these pieces. */
  function CutTo(pieces: seq<Piece>, reqs: seq<RangeReq>, i: nat): nat
    requires i < |reqs|
  {
    if pieces == [] then reqs[i].offset
    else
      var p := pieces[|pieces| - 1];
      if p.req == i then p.offset + p.len else CutTo(pieces[..|pieces| - 1], reqs, i)
  }

  /** Each piece starts exactly where the previous piece of its request stopped, and none is empty. */
  predicate Tiling(pieces: seq<Piece>, reqs: seq<RangeReq>)
  {
    forall j :: 0 <= j < |pieces| ==>
      && pieces[j].req < |reqs|
      && 0 < pieces[j].len <= READ_CHUNK
      && pieces[j].offset == CutTo(pieces[..j], reqs, pieces[j].req)
  }

  lemma TilingGrows(pieces: seq<Piece>, reqs: seq<RangeReq>, p: Piece)
    requires Tiling(pieces, reqs) && p.req < |reqs| && 0 < p.len <= READ_CHUNK
    requires p.offset == CutTo(pieces, reqs, p.req)
    ensures Tiling(pieces + [p], reqs)
    ensures forall i :: 0 <= i < |reqs| ==>
      CutTo(pieces + [p], reqs, i) == if i == p.req then p.offset + p.len else CutTo(pieces, reqs, i)
  {
    var more := pieces + [p];
    assert more[..|pieces|] == pieces;
    forall j | 0 <= j < |more|
      ensures more[j].req < |reqs| && 0 < more[j].len <= READ_CHUNK
      ensures more[j].offset == CutTo(more[..j], reqs, more[j].req)
    {
      assert j < |pieces| ==> more[..j] == pieces[..j];
    }
  }

  /** Chunk every range up front. */
  method CutPieces(reqs: seq<RangeReq>, handles: seq<Option<Path>>) returns (pieces: seq<Piece>)
    requires |handles| == |reqs|
    ensures Tiling(pieces, reqs)
    ensures forall i :: 0 <= i < |reqs| && handles[i].Some? ==> CutTo(pieces, reqs, i) == reqs[i].End()
    ensures forall i :: 0 <= i < |reqs| && handles[i].None? ==> CutTo(pieces, reqs, i) == reqs[i].offset
    ensures forall j :: 0 <= j < |pieces| ==> handles[pieces[j].req].Some?
  {
    pieces := [];
    for i := 0 to |reqs|
      invariant Tiling(pieces, reqs)
      invariant forall k :: 0 <= k < i ==>
        CutTo(pieces, reqs, k) == if handles[k].Some? then reqs[k].End() else reqs[k].offset
      invariant forall k :: i <= k < |reqs| ==> CutTo(pieces, reqs, k) == reqs[k].offset
      invariant forall j :: 0 <= j < |pieces| ==> pieces[j].req < i && handles[pieces[j].req].Some?
    {
      if handles[i].Some? {
        var at: nat := reqs[i].offset;
        var end := reqs[i].End();
        while at < end
          invariant reqs[i].offset <= at <= end
          invariant Tiling(pieces, reqs) && CutTo(pieces, reqs, i) == at
          invariant forall k :: 0 <= k < i ==>
            CutTo(pieces, reqs, k) == if handles[k].Some? then reqs[k].End() else reqs[k].offset
          invariant forall k :: i < k < |reqs| ==> CutTo(pieces, reqs, k) == reqs[k].offset
          invariant forall j :: 0 <= j < |pieces| ==> pieces[j].req <= i && handles[pieces[j].req].Some?
          decreases end - at
        {
          var p := Piece(i, at, Min(end - at, READ_CHUNK));
          TilingGrows(pieces, reqs, p);
          pieces := pieces + [p];
          at := at + p.len;
        }
      }
    }
  }

  /** What one reply does to the range it belongs to. */
  function Append(got: Bytes, reply: Reply): Bytes
  {
    match reply
    case Data(data) => if got.Ok? then Ok(got.value + data) else got
    case Status(code) => if code == STATUS_EOF then got else Err(ReadFailed(code))
    case NoReply => Err(SessionGone)
    case _ => Err(ReadFailed(0))
  }

  /** The reply to one piece, or to nothing if the session has ended. */
  predicate Answers(remote: Remote, reqs: seq<RangeReq>, p: Piece, reply: Reply, alive: bool)
  {
    && p.req < |reqs| && !remote.files(reqs[p.req].path).NotOpened?
    && (reply == ReplyTo(remote, Read(reqs[p.req].path, p.offset, p.len)) || (!alive && reply == NoReply))
  }

  /** What has been put together of range r, up to offset `cut`. */
  predicate JoinedTo(got: Bytes, f: File, r: RangeReq, cut: nat, alive: bool)
  {
    cut >= r.offset && Delivered(got, Part(f, r.offset, cut - r.offset), alive)
  }

  lemma ClampExtends(body: seq<byte>, from: nat, mid: nat, to: nat)
    requires from <= mid <= to
    ensures mid < |body| ==> Clamp(body, from, mid) + body[mid..Min(to, |body|)] == Clamp(body, from, to)
    ensures mid >= |body| ==> Clamp(body, from, mid) == Clamp(body, from, to)
  {
  }

  /** A piece that starts where the range has got to takes it exactly as far as the piece reaches. */
  lemma JoinPiece(f: File, r: RangeReq, p: Piece, got: Bytes, reply: Reply, alive: bool, remote: Remote)
    requires !f.NotOpened? && p.len > 0 && f == remote.files(r.path)
    requires reply == ReplyTo(remote, Read(r.path, p.offset, p.len)) || (!alive && reply == NoReply)
    requires JoinedTo(got, f, r, p.offset, alive)
    ensures JoinedTo(Append(got, reply), f, r, p.offset + p.len, alive)
  {
    match f
    case Readable(body) => ClampExtends(body, r.offset, p.offset, p.offset + p.len);
    case Unreadable(s) =>
  }

  lemma CutGrows(pieces: seq<Piece>, reqs: seq<RangeReq>, p: Piece, i: nat)
    requires i < |reqs|
    ensures CutTo(pieces + [p], reqs, i) == if i == p.req then p.offset + p.len else CutTo(pieces, reqs, i)
  {
    assert (pieces + [p])[..|pieces|] == pieces;
  }

  /** Every range put together as far as these pieces have cut it. */
  predicate AllJoined(out: seq<Bytes>, remote: Remote, reqs: seq<RangeReq>, pieces: seq<Piece>, alive: bool)
  {
    && |out| == |reqs|
    && forall i :: 0 <= i < |reqs| ==>
      JoinedTo(out[i], remote.files(reqs[i].path), reqs[i], CutTo(pieces, reqs, i), alive)
  }

  lemma AllJoinedGrows(out: seq<Bytes>, remote: Remote, reqs: seq<RangeReq>, pieces: seq<Piece>, p: Piece, reply: Reply,
    alive: bool)
    requires AllJoined(out, remote, reqs, pieces, alive)
    requires Answers(remote, reqs, p, reply, alive) && p.len > 0 && p.offset == CutTo(pieces, reqs, p.req)
    ensures AllJoined(out[p.req := Append(out[p.req], reply)], remote, reqs, pieces + [p], alive)
    ensures out[p.req].Err? ==> Append(out[p.req], reply).Err?
  {
    JoinPiece(remote.files(reqs[p.req].path), reqs[p.req], p, out[p.req], reply, alive, remote);
    forall i | 0 <= i < |reqs|
      ensures CutTo(pieces + [p], reqs, i) == if i == p.req then p.offset + p.len else CutTo(pieces, reqs, i)
    {
      CutGrows(pieces, reqs, p, i);
    }
  }

  lemma RangeStarts(remote: Remote, handle: Option<Path>, got: Bytes, r: RangeReq, alive: bool)
    requires OpenedAs(handle, got, remote, r.path, alive)
    ensures JoinedTo(got, remote.files(r.path), r, r.offset, alive)
  {
  }

  /** A range cut to its end is finished; one whose file never opened has nothing to wait for. */
  lemma RangeFinished(remote: Remote, handle: Option<Path>, start: Bytes, got: Bytes, r: RangeReq, cut: nat,
    alive: bool)
    requires OpenedAs(handle, start, remote, r.path, alive)
    requires JoinedTo(got, remote.files(r.path), r, cut, alive)
    requires cut == if handle.Some? then r.End() else r.offset
    requires start.Err? ==> got.Err?
    ensures Delivered(got, Part(remote.files(r.path), r.offset, r.Span()), alive)
  {
  }

  /** The files some requests open, and the directories they open. */
  ghost function FilesIn(reqs: seq<Call>): set<Path> { set c | c in reqs && c.Open? :: c.path }

  ghost function DirsIn(reqs: seq<Call>): set<Path> { set c | c in reqs && c.OpenDir? :: c.path }

  function PathsIn(reqs: seq<RangeReq>): (paths: seq<Path>)
    ensures |paths| == |reqs| && forall i :: 0 <= i < |reqs| ==> paths[i] == reqs[i].path
  {
    seq(|reqs|, i requires 0 <= i < |reqs| => reqs[i].path)
  }

  ghost function Among(paths: seq<Path>): set<Path> { set p | p in paths }

  /** How many requests to open a file there are among these. */
  ghost function OpensIn(reqs: seq<Call>): nat
  {
    if reqs == [] then 0 else OpensIn(reqs[..|reqs| - 1]) + if reqs[|reqs| - 1].Open? then 1 else 0
  }

  lemma {:induction false} OpensCounted(reqs: seq<Call>)
    ensures (forall i :: 0 <= i < |reqs| ==> reqs[i].Open?) ==> OpensIn(reqs) == |reqs|
    ensures (forall i :: 0 <= i < |reqs| ==> !reqs[i].Open?) ==> OpensIn(reqs) == 0
  {
    if reqs != [] {
      OpensCounted(reqs[..|reqs| - 1]);
    }
  }

  lemma OpensAre(paths: seq<Path>, reqs: seq<Call>)
    requires |reqs| == |paths| && forall i :: 0 <= i < |paths| ==> reqs[i] == Open(paths[i])
    ensures FilesIn(reqs) == Among(paths) && DirsIn(reqs) == {} && OpensIn(reqs) == |paths|
  {
    OpensCounted(reqs);
    forall p | p in paths ensures p in FilesIn(reqs) {
      var i :| 0 <= i < |paths| && paths[i] == p;
      assert reqs[i] in reqs;
    }
  }

  lemma OpenDirsAre(dirs: seq<Path>, reqs: seq<Call>)
    requires |reqs| == |dirs| && forall i :: 0 <= i < |dirs| ==> reqs[i] == OpenDir(dirs[i])
    ensures DirsIn(reqs) == Among(dirs) && FilesIn(reqs) == {} && OpensIn(reqs) == 0
  {
    OpensCounted(reqs);
    forall d | d in dirs ensures d in DirsIn(reqs) {
      var i :| 0 <= i < |dirs| && dirs[i] == d;
      assert reqs[i] in reqs;
    }
  }

  /** Only opening opens. */
  lemma ReadsOpenNothing(reqs: seq<Call>)
    requires forall i :: 0 <= i < |reqs| ==> reqs[i].Read? || reqs[i].ReadDir?
    ensures FilesIn(reqs) == {} && DirsIn(reqs) == {} && OpensIn(reqs) == 0
  {
    OpensCounted(reqs);
  }

  /** Those that opened. */
  method WithHandles(handles: seq<Option<Path>>) returns (live: seq<nat>)
    ensures Ascending(live, |handles|)
    ensures forall j: nat :: j in live <==> j < |handles| && handles[j].Some?
  {
    live := [];
    for i := 0 to |handles|
      invariant Ascending(live, i)
      invariant forall j: nat :: j in live <==> j < i && handles[j].Some?
    {
      if handles[i].Some? {
        live := live + [i];
      }
    }
  }

  class SftpFs {
    const remote: Remote
    /** Any schedule: before which reply of which round the stream ends, if it does, and if the writer then lingers. */
    const ends: (nat, nat) -> bool
    const lingers: nat -> bool
    /** False once the stream has ended; it never comes back. */
    var alive: bool
    /** Once it has ended: the reader has gone, and the writer has yet to return. */
    var deaf: bool
    /** Rounds of issue-everything-then-await. */
    var rounds: nat
    /** Every file the server has been asked to open, and every directory. */
    ghost var filesOpened: set<Path>
    ghost var dirsOpened: set<Path>
    /** How many requests to open a file have been sent. */
    ghost var opens: nat

    constructor (remote: Remote, ends: (nat, nat) -> bool, lingers: nat -> bool)
      ensures this.remote == remote && this.ends == ends && this.lingers == lingers && alive && rounds == 0
      ensures filesOpened == {} && dirsOpened == {} && opens == 0
    {
      this.remote, this.ends, this.lingers := remote, ends, lingers;
      alive, deaf, rounds := true, false, 0;
      filesOpened, dirsOpened, opens := {}, {}, 0;
    }

    /** `is_alive`: the writer has not returned. */
    predicate IsAlive()
      reads this
    {
      alive || deaf
    }

    /** The stream is up, and ends before the first reply of the next round, the writer lingering. */
    predicate EndsNext()
      reads this
    {
      alive && ends(rounds, 0) && lingers(rounds)
    }

    /**
     Issue every request, then await every reply. The session may end at any moment, and then some of the
     replies never come. That the multiplexer brings back no less is Rounds.RoundComesBack.
     */
    method RoundTrip(reqs: seq<Call>) returns (replies: seq<Reply>)
      modifies this
      ensures CameBack(remote, reqs, replies, old(alive), alive, IsAlive()) && (IsAlive() ==> old(IsAlive()))
      ensures rounds == if reqs == [] then old(rounds) else old(rounds) + 1
      ensures filesOpened == old(filesOpened) + FilesIn(reqs) && dirsOpened == old(dirsOpened) + DirsIn(reqs)
      ensures opens == old(opens) + OpensIn(reqs)
      ensures reqs != [] && old(EndsNext()) ==> !alive && deaf && forall i :: 0 <= i < |reqs| ==> replies[i] == NoReply
    {
      replies := [];
      var was := alive;
      if !was && reqs != [] {
        deaf := false;
      }
      for i := 0 to |reqs|
        invariant |replies| == i && (alive ==> was) && (was && i == 0 ==> alive) && rounds == old(rounds)
        invariant !was && reqs != [] ==> !deaf
        invariant was && i > 0 && ends(rounds, 0) ==> !alive && deaf == lingers(rounds)
        invariant reqs == [] ==> alive == old(alive) && deaf == old(deaf)
        invariant filesOpened == old(filesOpened) && dirsOpened == old(dirsOpened) && opens == old(opens)
        invariant !was || (i > 0 && ends(rounds, 0)) ==> !alive && forall j :: 0 <= j < i ==> replies[j] == NoReply
        invariant forall j :: 0 <= j < i ==>
          replies[j] == ReplyTo(remote, reqs[j]) || (!alive && replies[j] == NoReply)
      {
        if alive && ends(rounds, i) {
          alive, deaf := false, lingers(rounds);
        }
        replies := replies + [if alive then ReplyTo(remote, reqs[i]) else NoReply];
      }
      if reqs != [] {
        rounds := rounds + 1;
      }
      filesOpened, dirsOpened := filesOpened + FilesIn(reqs), dirsOpened + DirsIn(reqs);
      opens := opens + OpensIn(reqs);
    }

    /** All the opens go out before anything comes back. */
    method OpenAll(paths: seq<Path>) returns (handles: seq<Option<Path>>, out: seq<Bytes>)
      modifies this
      ensures alive ==> old(alive)
      ensures rounds == if paths == [] then old(rounds) else old(rounds) + 1
      ensures |handles| == |out| == |paths|
      ensures forall i :: 0 <= i < |paths| ==>
        OpenedAs(handles[i], out[i], remote, paths[i], alive)
      ensures !old(alive) ==> forall i :: 0 <= i < |paths| ==> handles[i].None?
      ensures filesOpened == old(filesOpened) + Among(paths) && dirsOpened == old(dirsOpened) &&
        opens == old(opens) + |paths|
      ensures forall i :: 0 <= i < |paths| && handles[i].None? ==> out[i].Err?
    {
      hide FilesIn, DirsIn, OpensIn, Among;
      var reqs := seq(|paths|, i requires 0 <= i < |paths| => Open(paths[i]));
      OpensAre(paths, reqs);
      var replies := RoundTrip(reqs);
      handles, out := [], [];
      for i := 0 to |paths|
        invariant |handles| == |out| == i
        invariant forall j :: 0 <= j < i ==>
          OpenedAs(handles[j], out[j], remote, paths[j], alive)
        invariant !old(alive) ==> forall j :: 0 <= j < i ==> handles[j].None?
      {
        match replies[i] {
          case Handle(h) => handles, out := handles + [Some(h)], out + [Ok([])];
          case Status(code) => handles, out := handles + [None], out + [Err(Refused(code))];
          case _ => handles, out := handles + [None], out + [Err(SessionGone)];
        }
      }
    }

    /** Every file of a batch, polled in 32 KiB pieces up to the first that comes back short. */
    method ReadBatch(paths: seq<Path>) returns (out: seq<Bytes>)
      modifies this
      ensures alive ==> old(alive)
      ensures |out| == |paths|
      ensures forall i :: 0 <= i < |paths| ==> Delivered(out[i], Whole(remote.files(paths[i])), alive)
      ensures rounds <= old(rounds) + 1 + PollRounds(remote, paths)
      ensures alive && paths != [] ==> rounds == old(rounds) + 1 + PollRounds(remote, paths)
      ensures !old(alive) ==> forall i :: 0 <= i < |paths| ==> out[i].Err?
      ensures filesOpened == old(filesOpened) + Among(paths) && dirsOpened == old(dirsOpened) &&
        opens == old(opens) + |paths|
    {
      hide PollRounds, Among;
      PollRoundsIsMax(remote, paths);
      var handles: seq<Option<Path>>;
      handles, out := OpenAll(paths);
      var live := WithHandles(handles);
      ghost var k: nat := 0;
      assert !old(alive) ==> live == [] by {
        assert live != [] ==> live[0] in live;
      }
      while live != []
        invariant |out| == |paths| && Ascending(live, |paths|) && (alive ==> old(alive))
        invariant filesOpened == old(filesOpened) + Among(paths) && dirsOpened == old(dirsOpened) &&
          opens == old(opens) + |paths|
        invariant !old(alive) ==> live == [] && forall i :: 0 <= i < |paths| ==> out[i].Err?
        invariant rounds == old(rounds) + (if paths == [] then 0 else 1) + k && k <= PollRounds(remote, paths)
        invariant forall i :: i in live ==>
          handles[i] == Some(paths[i]) && InProgress(out[i], remote.files(paths[i]), k)
        invariant forall i :: 0 <= i < |paths| && i !in live ==>
          Delivered(out[i], Whole(remote.files(paths[i])), alive)
        invariant alive ==> forall i :: 0 <= i < |paths| && ChunkRounds(remote.files(paths[i])) > k ==> i in live
        decreases PollRounds(remote, paths) - k
      {
        assert live[0] in live;
        live, out := ReadChunks(paths, handles, live, out, k);
        k := k + 1;
      }
    }

    /** Chunk index k of every still-live file, in one round. */
    method ReadChunks(paths: seq<Path>, handles: seq<Option<Path>>, live: seq<nat>, got: seq<Bytes>, ghost k: nat)
      returns (stillLive: seq<nat>, out: seq<Bytes>)
      requires |handles| == |got| == |paths| && live != [] && Ascending(live, |paths|)
      requires forall i :: i in live ==> handles[i] == Some(paths[i]) && InProgress(got[i], remote.files(paths[i]), k)
      modifies this
      ensures alive ==> old(alive)
      ensures rounds == old(rounds) + 1
      ensures |out| == |paths| && Ascending(stillLive, |paths|)
      ensures forall i :: i in stillLive ==> i in live
      ensures forall i :: 0 <= i < |paths| && i !in live ==> out[i] == got[i]
      ensures forall i :: i in live ==> Absorbed(out[i], remote.files(paths[i]), k, i in stillLive, alive)
      ensures filesOpened == old(filesOpened) && dirsOpened == old(dirsOpened) && opens == old(opens)
    {
      var replies := AskChunks(paths, handles, live, got);
      forall a | 0 <= a < |live|
        ensures Reads(remote, paths[live[a]], got[live[a]], replies[a], alive)
      {
        assert live[a] in live;
      }
      stillLive, out := AbsorbAll(paths, live, got, replies, k);
    }

    method AskChunks(paths: seq<Path>, handles: seq<Option<Path>>, live: seq<nat>, got: seq<Bytes>)
      returns (replies: seq<Reply>)
      requires |handles| == |got| == |paths| && live != [] && Ascending(live, |paths|)
      requires forall i :: i in live ==> handles[i] == Some(paths[i]) && got[i].Ok?
      modifies this
      ensures alive ==> old(alive)
      ensures rounds == old(rounds) + 1 && |replies| == |live|
      ensures forall a :: 0 <= a < |live| ==> Reads(remote, paths[live[a]], got[live[a]], replies[a], alive)
      ensures filesOpened == old(filesOpened) && dirsOpened == old(dirsOpened) && opens == old(opens)
    {
      var reqs: seq<Call> := [];
      for a := 0 to |live|
        invariant |reqs| == a
        invariant forall b :: 0 <= b < a ==>
          got[live[b]].Ok? && reqs[b] == Read(paths[live[b]], |got[live[b]].value|, READ_CHUNK)
      {
        var i := live[a];
        assert i in live;
        reqs := reqs + [Read(handles[i].value, |got[i].value|, READ_CHUNK)];
      }
      ReadsOpenNothing(reqs);
      replies := RoundTrip(reqs);
    }

    method AbsorbAll(paths: seq<Path>, live: seq<nat>, got: seq<Bytes>, replies: seq<Reply>, ghost k: nat)
      returns (stillLive: seq<nat>, out: seq<Bytes>)
      requires |got| == |paths| && |replies| == |live| && Ascending(live, |paths|)
      requires forall a :: 0 <= a < |live| ==> Reads(remote, paths[live[a]], got[live[a]], replies[a], alive)
      requires forall i :: i in live ==> InProgress(got[i], remote.files(paths[i]), k)
      ensures |out| == |paths| && Ascending(stillLive, |paths|)
      ensures forall i :: i in stillLive ==> i in live
      ensures forall i :: 0 <= i < |paths| && i !in live ==> out[i] == got[i]
      ensures forall i :: i in live ==> Absorbed(out[i], remote.files(paths[i]), k, i in stillLive, alive)
    {
      hide Reads, InProgress, Absorb, Absorbed;
      stillLive, out := [], got;
      var a := 0;
      while a < |live|
        invariant 0 <= a <= |live| && |out| == |paths|
        invariant Ascending(stillLive, if a < |live| then live[a] else |paths|)
        invariant forall i :: i in stillLive ==> i in live
        invariant forall i :: 0 <= i < |paths| && (i !in live || (a < |live| && i >= live[a])) ==> out[i] == got[i]
        invariant forall b :: 0 <= b < a ==>
          Absorbed(out[live[b]], remote.files(paths[live[b]]), k, live[b] in stillLive, alive)
      {
        var i := live[a];
        assert i in live;
        AbsorbReply(remote, paths[i], got[i], k, replies[a], alive);
        var (buf, full) := Absorb(out[i], replies[a]);
        out := out[i := buf];
        if full {
          stillLive := stillLive + [i];
        }
        a := a + 1;
      }
    }

    /** Ranges of files, every chunk of every range issued in one round. */
    method ReadRanges(reqs: seq<RangeReq>) returns (out: seq<Bytes>)
      modifies this
      ensures alive ==> old(alive)
      ensures |out| == |reqs|
      ensures forall i :: 0 <= i < |reqs| ==>
        Delivered(out[i], Part(remote.files(reqs[i].path), reqs[i].offset, reqs[i].Span()), alive)
      ensures rounds <= old(rounds) + 2
      ensures filesOpened == old(filesOpened) + Among(PathsIn(reqs)) && dirsOpened == old(dirsOpened) &&
        opens == old(opens) + |reqs|
      ensures !old(alive) ==> forall i :: 0 <= i < |reqs| ==> out[i].Err?
    {
      var paths := PathsIn(reqs);
      var handles;
      handles, out := OpenAll(paths);
      var pieces := CutPieces(reqs, handles);
      var replies := AskPieces(reqs, handles, pieces);
      assert forall i :: 0 <= i < |reqs| ==> OpenedAs(handles[i], out[i], remote, paths[i], alive);
      ghost var start := out;
      forall i | 0 <= i < |reqs|
        ensures JoinedTo(out[i], remote.files(reqs[i].path), reqs[i], CutTo([], reqs, i), alive)
      {
        RangeStarts(remote, handles[i], out[i], reqs[i], alive);
      }
      out := JoinPieces(reqs, out, pieces, replies);
      forall i | 0 <= i < |reqs|
        ensures Delivered(out[i], Part(remote.files(reqs[i].path), reqs[i].offset, reqs[i].Span()), alive)
      {
        RangeFinished(remote, handles[i], start[i], out[i], reqs[i], CutTo(pieces, reqs, i), alive);
      }
    }

    /** Each range grows by its replies in the order of its pieces, and each piece starts where the last ended. */
    method JoinPieces(reqs: seq<RangeReq>, start: seq<Bytes>, pieces: seq<Piece>, replies: seq<Reply>)
      returns (out: seq<Bytes>)
      requires |start| == |reqs| && |replies| == |pieces| && Tiling(pieces, reqs)
      requires AllJoined(start, remote, reqs, [], alive)
      requires forall j :: 0 <= j < |pieces| ==> Answers(remote, reqs, pieces[j], replies[j], alive)
      ensures AllJoined(out, remote, reqs, pieces, alive)
      ensures forall i :: 0 <= i < |reqs| && start[i].Err? ==> out[i].Err?
    {
      hide Append, JoinedTo, Answers, CutTo;
      out := start;
      assert pieces[..0] == [];
      for j := 0 to |pieces|
        invariant AllJoined(out, remote, reqs, pieces[..j], alive)
        invariant forall i :: 0 <= i < |reqs| && start[i].Err? ==> out[i].Err?
      {
        var p := pieces[j];
        assert pieces[..j + 1] == pieces[..j] + [p];
        AllJoinedGrows(out, remote, reqs, pieces[..j], p, replies[j], alive);
        out := out[p.req := Append(out[p.req], replies[j])];
      }
      assert pieces[..|pieces|] == pieces;
    }

    method AskPieces(reqs: seq<RangeReq>, handles: seq<Option<Path>>, pieces: seq<Piece>) returns (replies: seq<Reply>)
      requires |handles| == |reqs|
      requires forall j :: 0 <= j < |pieces| ==>
        && pieces[j].req < |reqs| && handles[pieces[j].req] == Some(reqs[pieces[j].req].path)
        && !remote.files(reqs[pieces[j].req].path).NotOpened?
      modifies this
      ensures alive ==> old(alive)
      ensures rounds <= old(rounds) + 1 && |replies| == |pieces|
      ensures forall j :: 0 <= j < |pieces| ==> Answers(remote, reqs, pieces[j], replies[j], alive)
      ensures filesOpened == old(filesOpened) && dirsOpened == old(dirsOpened) && opens == old(opens)
    {
      var asks: seq<Call> := [];
      for j := 0 to |pieces|
        invariant |asks| == j
        invariant forall k :: 0 <= k < j ==> asks[k] == Read(reqs[pieces[k].req].path, pieces[k].offset, pieces[k].len)
      {
        asks := asks + [Read(handles[pieces[j].req].value, pieces[j].offset, pieces[j].len)];
      }
      ReadsOpenNothing(asks);
      replies := RoundTrip(asks);
    }

    /** Several directories at once: page k of every still-open directory goes out together. */
    method ListDirs(dirs: seq<Path>) returns (out: seq<Entries>)
      modifies this
      ensures alive ==> old(alive)
      ensures |out| == |dirs|
      ensures forall i :: 0 <= i < |dirs| ==> Delivered(out[i], Contents(remote.dirs(dirs[i])), alive)
      ensures rounds <= old(rounds) + 1 + ListRounds(remote, dirs)
      ensures dirs == [] ==> rounds == old(rounds)
      ensures dirsOpened == old(dirsOpened) + Among(dirs) && filesOpened == old(filesOpened) && opens == old(opens)
      ensures (IsAlive() ==> old(IsAlive())) && (!old(alive) && dirs != [] ==> !IsAlive())
      ensures dirs != [] && old(EndsNext()) ==>
        !alive && deaf && forall i :: 0 <= i < |dirs| ==> out[i] == Err(SessionGone)
    {
      hide Among, ListRounds, EndsNext, IsAlive;
      ListRoundsIsMax(remote, dirs);
      var handles: seq<Option<Path>>;
      handles, out := OpenDirs(dirs);
      var live := WithHandles(handles);
      var k: nat := 0;
      assert forall i :: i in live ==> remote.dirs(dirs[i]).Listed? ==> remote.dirs(dirs[i]).pages[..0] == [];
      assert old(EndsNext()) ==> live == [] by {
        assert live != [] ==> live[0] in live;
      }
      while live != []
        invariant |out| == |dirs| && Ascending(live, |dirs|) && (alive ==> old(alive))
        invariant (IsAlive() ==> old(IsAlive())) && (!old(alive) && dirs != [] ==> !IsAlive())
        invariant dirs != [] && old(EndsNext()) ==>
          live == [] && !alive && deaf && forall i :: 0 <= i < |dirs| ==> out[i] == Err(SessionGone)
        invariant dirsOpened == old(dirsOpened) + Among(dirs) && filesOpened == old(filesOpened) && opens == old(opens)
        invariant rounds == old(rounds) + (if dirs == [] then 0 else 1) + k && k <= ListRounds(remote, dirs)
        invariant forall i :: i in live ==> handles[i] == Some(dirs[i]) && Listing(out[i], remote.dirs(dirs[i]), k)
        invariant forall i :: 0 <= i < |dirs| && i !in live ==>
          Delivered(out[i], Contents(remote.dirs(dirs[i])), alive)
        decreases ListRounds(remote, dirs) - k
      {
        assert live[0] in live;
        live, out := ReadPages(dirs, handles, live, out, k);
        k := k + 1;
      }
    }

    method OpenDirs(dirs: seq<Path>) returns (handles: seq<Option<Path>>, out: seq<Entries>)
      modifies this
      ensures alive ==> old(alive)
      ensures rounds == if dirs == [] then old(rounds) else old(rounds) + 1
      ensures |handles| == |out| == |dirs|
      ensures forall i :: 0 <= i < |dirs| ==> OpenedDirAs(handles[i], out[i], remote, dirs[i], alive)
      ensures dirsOpened == old(dirsOpened) + Among(dirs) && filesOpened == old(filesOpened) && opens == old(opens)
      ensures (IsAlive() ==> old(IsAlive())) && (!old(alive) && dirs != [] ==> !IsAlive())
      ensures dirs != [] && old(EndsNext()) ==>
        !alive && deaf && forall i :: 0 <= i < |dirs| ==> out[i] == Err(SessionGone)
      ensures dirs != [] && old(EndsNext()) ==> forall i :: 0 <= i < |dirs| ==> handles[i].None?
    {
      hide FilesIn, DirsIn, OpensIn, Among;
      var reqs := seq(|dirs|, i requires 0 <= i < |dirs| => OpenDir(dirs[i]));
      OpenDirsAre(dirs, reqs);
      var replies := RoundTrip(reqs);
      handles, out := [], [];
      for i := 0 to |dirs|
        invariant |handles| == |out| == i
        invariant forall j :: 0 <= j < i ==> OpenedDirAs(handles[j], out[j], remote, dirs[j], alive)
        invariant dirs != [] && old(EndsNext()) ==>
          forall j :: 0 <= j < i ==> handles[j].None? && out[j] == Err(SessionGone)
      {
        match replies[i] {
          case Handle(h) => handles, out := handles + [Some(h)], out + [Ok([])];
          case Status(code) => handles, out := handles + [None], out + [Err(Refused(code))];
          case _ => handles, out := handles + [None], out + [Err(SessionGone)];
        }
      }
    }

    /** The k-th READDIR of every live directory, in one round. */
    method ReadPages(dirs: seq<Path>, handles: seq<Option<Path>>, live: seq<nat>, got: seq<Entries>, k: nat)
      returns (stillLive: seq<nat>, out: seq<Entries>)
      requires |handles| == |got| == |dirs| && live != [] && Ascending(live, |dirs|)
      requires forall i :: i in live ==> handles[i] == Some(dirs[i]) && Listing(got[i], remote.dirs(dirs[i]), k)
      modifies this
      ensures alive ==> old(alive)
      ensures rounds == old(rounds) + 1
      ensures |out| == |dirs| && Ascending(stillLive, |dirs|)
      ensures forall i :: i in stillLive ==> i in live
      ensures forall i :: 0 <= i < |dirs| && i !in live ==> out[i] == got[i]
      ensures forall i :: i in live ==> Paged(out[i], remote.dirs(dirs[i]), k, i in stillLive, alive)
      ensures filesOpened == old(filesOpened) && dirsOpened == old(dirsOpened) && opens == old(opens)
      ensures IsAlive() ==> old(IsAlive())
    {
      hide FilesIn, DirsIn, OpensIn;
      assert forall a :: 0 <= a < |live| ==> live[a] in live;
      var reqs := seq(|live|, a requires 0 <= a < |live| && live[a] < |handles| && handles[live[a]].Some? =>
        ReadDir(handles[live[a]].value, k));
      ReadsOpenNothing(reqs);
      var replies := RoundTrip(reqs);
      stillLive, out := TakePages(dirs, live, got, replies, k);
    }

    method TakePages(dirs: seq<Path>, live: seq<nat>, got: seq<Entries>, replies: seq<Reply>, ghost k: nat)
      returns (stillLive: seq<nat>, out: seq<Entries>)
      requires |got| == |dirs| && |replies| == |live| && Ascending(live, |dirs|)
      requires forall a :: 0 <= a < |live| ==> Pages(remote, dirs[live[a]], k, replies[a], alive)
      requires forall i :: i in live ==> Listing(got[i], remote.dirs(dirs[i]), k)
      ensures |out| == |dirs| && Ascending(stillLive, |dirs|)
      ensures forall i :: i in stillLive ==> i in live
      ensures forall i :: 0 <= i < |dirs| && i !in live ==> out[i] == got[i]
      ensures forall i :: i in live ==> Paged(out[i], remote.dirs(dirs[i]), k, i in stillLive, alive)
    {
      hide Pages, Listing, TakePage, Paged;
      stillLive, out := [], got;
      var a := 0;
      while a < |live|
        invariant 0 <= a <= |live| && |out| == |dirs|
        invariant Ascending(stillLive, if a < |live| then live[a] else |dirs|)
        invariant forall i :: i in stillLive ==> i in live
        invariant forall i :: 0 <= i < |dirs| && (i !in live || (a < |live| && i >= live[a])) ==> out[i] == got[i]
        invariant forall b :: 0 <= b < a ==>
          Paged(out[live[b]], remote.dirs(dirs[live[b]]), k, live[b] in stillLive, alive)
      {
        var i := live[a];
        assert i in live;
        TakesPage(remote, dirs[i], got[i], k, replies[a], alive);
        var (acc, more) := TakePage(out[i], replies[a]);
        out := out[i := acc];
        if more {
          stillLive := stillLive + [i];
        }
        a := a + 1;
      }
    }

    /** origin/mod.rs:1215-1235: one ranged read of the listed size, and the poll when that falls short. */
    method FetchWhole(path: Path, size: u64) returns (got: Bytes)
      modifies this
      ensures alive ==> old(alive)
      ensures Delivered(got, Fetched(remote.files(path), size), alive)
      ensures alive ==> (got == Whole(remote.files(path)) <==> !Undersold(remote.files(path), size))
      ensures alive ==> rounds <= old(rounds) + FetchRounds(remote.files(path), size)
      ensures filesOpened == old(filesOpened) + {path} && dirsOpened == old(dirsOpened) && opens > old(opens)
      ensures !old(alive) ==> got.Err?
    {
      FetchedIsWhole(remote.files(path), size);
      if size > 0 {
        var ranged := ReadRanges([RangeReq(path, 0, size)]);
        assert Delivered(ranged[0], Part(remote.files(path), 0, size), alive);
        if ranged[0].Ok? && |ranged[0].value| == size {
          RangedIsFetched(remote.files(path), size);
          return ranged[0];
        }
      }
      var polled := ReadBatch([path]);
      PollRoundsOfOne(remote, path);
      assert Delivered(polled[0], Whole(remote.files([path][0])), alive);
      got := polled[0];
    }
  }

  /** A ranged read from 0 that came back at full length is what Fetched promises. */
  lemma RangedIsFetched(f: File, size: nat)
    requires size > 0 && Part(f, 0, size).Ok? && |Part(f, 0, size).value| == size
    ensures Fetched(f, size) == Part(f, 0, size)
  {
    match f
    case Readable(body) =>
      assert body[0..size] == body[..size];
      assert body[..|body|] == body;
    case _ =>
  }

  lemma PollRoundsOfOne(remote: Remote, path: Path)
    ensures PollRounds(remote, [path]) == ChunkRounds(remote.files(path))
  {
    assert [path][..0] == [];
  }
}
