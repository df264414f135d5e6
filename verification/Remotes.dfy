/** What a remote is, as far as SFTP shows it: draft-ietf-secsh-filexfer-02 sections 6.3, 6.4 and 6.7. */
module Remotes {
  import opened Common

  const STATUS_EOF: nat := 1
  const STATUS_NO_SUCH_FILE: nat := 2

  /** File attributes, every group optional, wire.rs:140-147. */
  datatype Attrs = Attrs(
    size: Option<u64>, uid: Option<u32>, gid: Option<u32>,
    permissions: Option<u32>, atime: Option<u32>, mtime: Option<u32>)
  {
    /** permissions & 0o170000, shifted down. */
    function Kind(): Option<nat>
    {
      match permissions
      case None => None
      case Some(p) => Some(p / 0x1000 % 16)
    }

    predicate IsDir() { Kind() == Some(4) }

    predicate IsSymlink() { Kind() == Some(10) }
  }

  datatype Entry = Entry(name: Path, attrs: Attrs)

  /** A file, as OPEN and READ show it. A directory opens and then refuses to be read. */
  datatype File = NotOpened(status: nat) | Readable(body: seq<byte>) | Unreadable(status: nat)

  /** A directory, as OPENDIR and READDIR show it: pages, then a status. */
  datatype Dir = NotListed(status: nat) | Listed(pages: seq<seq<Entry>>, last: nat)

  /** An unchanging remote. */
  datatype Remote = Remote(files: Path -> File, dirs: Path -> Dir)

  datatype Error = Refused(status: nat) | ReadFailed(status: nat) | SessionGone

  /** A refusal that says the path does not exist, fs/mod.rs:49-53. */
  predicate IsAbsent(e: Error) { e == Refused(STATUS_NO_SUCH_FILE) }

  // ---- One request and its reply ----

  /** A handle is opaque to the client; here it is the path it was opened on. */
  datatype Call =
    | Open(path: Path)
    | Read(handle: Path, offset: nat, len: nat)
    | OpenDir(path: Path)
    | ReadDir(handle: Path, page: nat)

  datatype Reply =
    | Handle(handle: Path)
    | Data(data: seq<byte>)
    | Names(entries: seq<Entry>)
    | Status(code: nat)
    | NoReply

  function ReplyTo(remote: Remote, req: Call): Reply
  {
    match req
    case Open(p) =>
      (match remote.files(p)
       case NotOpened(s) => Status(s)
       case _ => Handle(p))
    case Read(h, offset, len) =>
      (match remote.files(h)
       case Readable(body) =>
         if offset >= |body| then Status(STATUS_EOF) else Data(body[offset..Min(offset + len, |body|)])
       case Unreadable(s) => Status(s)
       case NotOpened(s) => Status(s))
    case OpenDir(p) =>
      (match remote.dirs(p)
       case NotListed(s) => Status(s)
       case Listed(_, _) => Handle(p))
    case ReadDir(h, k) =>
      (match remote.dirs(h)
       case NotListed(s) => Status(s)
       case Listed(pages, last) => if k < |pages| then Names(pages[k]) else Status(last))
  }

  /**
   What a round brings back: to each request its reply, or nothing once the stream has ended. `up` is whether the
   writer has not returned by then, which is all `is_alive` asks. It may linger when the stream ends during the
   round; but requests issued over a stream that had ended are answered only by its returning.
   */
  predicate CameBack(remote: Remote, reqs: seq<Call>, replies: seq<Reply>, was: bool, alive: bool, up: bool)
  {
    && |replies| == |reqs| && (alive ==> was && up)
    && (forall i :: 0 <= i < |reqs| ==> replies[i] == ReplyTo(remote, reqs[i]) || (!alive && replies[i] == NoReply))
    && (!was ==> forall i :: 0 <= i < |reqs| ==> replies[i] == NoReply)
    && (!was && reqs != [] ==> !up)
  }

  // ---- What the caller is after ----

  type Bytes = Result<seq<byte>, Error>

  function Clamp(b: seq<byte>, from: nat, to: nat): (r: seq<byte>)
  {
    if from < Min(to, |b|) then b[from..Min(to, |b|)] else []
  }

  /** A whole file. */
  function Whole(f: File): Bytes
  {
    match f
    case NotOpened(s) => Err(Refused(s))
    case Readable(body) => Ok(body)
    case Unreadable(s) => if s == STATUS_EOF then Ok([]) else Err(ReadFailed(s))
  }

  /** `len` bytes of a file from `offset`; fewer at its end. */
  function Part(f: File, offset: nat, len: nat): Bytes
  {
    match f
    case NotOpened(s) => Err(Refused(s))
    case Readable(body) => Ok(Clamp(body, offset, offset + len))
    case Unreadable(s) => if s == STATUS_EOF || len == 0 then Ok([]) else Err(ReadFailed(s))
  }

  function Flatten(pages: seq<seq<Entry>>): seq<Entry>
  {
    if pages == [] then [] else Flatten(pages[..|pages| - 1]) + pages[|pages| - 1]
  }

  lemma {:induction false} FlattenJoins(a: seq<seq<Entry>>, b: seq<seq<Entry>>)
    ensures Flatten(a + b) == Flatten(a) + Flatten(b)
  {
    if b == [] {
      assert a + b == a && Flatten(a) + [] == Flatten(a);
    } else {
      var init, last := b[..|b| - 1], b[|b| - 1];
      FlattenJoins(a, init);
      assert (a + b)[..|a + b| - 1] == a + init;
      assert Flatten(a) + (Flatten(init) + last) == Flatten(a) + Flatten(init) + last;
    }
  }

  /** Page after page, and within a page entry after entry. */
  lemma PagesInOrder(before: seq<seq<Entry>>, page: seq<Entry>, after: seq<seq<Entry>>)
    ensures Flatten(before + [page] + after) == Flatten(before) + page + Flatten(after)
  {
    FlattenJoins(before + [page], after);
    assert (before + [page])[..|before|] == before;
  }

  /** A directory's entries. */
  function Contents(d: Dir): Result<seq<Entry>, Error>
  {
    match d
    case NotListed(s) => Err(Refused(s))
    case Listed(pages, last) => if last == STATUS_EOF then Ok(Flatten(pages)) else Err(ReadFailed(last))
  }

  /** No silent truncation: a caller gets exactly what it asked for, or hears that the session has ended. */
  predicate Delivered<T(==)>(got: Result<T, Error>, want: Result<T, Error>, alive: bool)
  {
    got == want || (!alive && got == Err(SessionGone))
  }
}
