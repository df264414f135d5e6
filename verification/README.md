# ssh-browser, modelled and proved in Dafny

ssh-browser serves the files of remote hosts over one pipelined SFTP session per host, behind a
listing cache and a body cache. This project models its protocol, its caching request handler, its
session lifecycle, its parsers and its small algorithms, and proves what they promise. It verifies
with Dafny 4.11: `dafny verify dfyconfig.toml`.

## The modules

- `Common`: shared types, bytes and 32- and 64-bit numbers.
- `Mux`, `Driver`: the multiplexer. `Mux` is a step relation over callers, writer task, reader task
  and a server that answers each request at most once, in any order; its theorems hold in every
  reachable state. `Driver.Session` is the tasks' code over their shared fields: every method is tied
  to the step it takes, and `WriterTurn` is a whole turn of the writer's loop with the other tasks
  interleaved at every await.
- `Wire`, `Frames`: the wire format, as encoder and decoder objects against pure decoding functions;
  `Layout` says where each field stands.
- `Remotes`, `SftpFiles`: what an SFTP server shows of an unchanging remote, and the batch readers
  `read_batch`, `read_ranges` and `list_dirs` over it. A round is issue-everything-then-await; the
  session may end at any point of any of them. `Rounds` proves of `Mux`
  what a round is taken to bring back.
- `BodyCache`, `Caching`, `Etags`: the byte-budget cache, the listing cache, and validators.
- `Guard`, `Ranges`, `Hosts`: path resolution and escaping, Range headers, Host headers. `Encodings` and
  `Links` say what a path or a reference leads to in terms of the names that were written.
- `Answers`, `Origins`, `Trees`: `Answers.Answer` is the handler with no cache at all, `Origins.Origin`
  the handler with both caches and the prefetcher, with arbitrary other tasks running at every await
  (or, to say what a revisit or a page with all it refers to costs, with none), and `Trees` a
  recursive specification over a file tree. `Delivery` says which bytes of a file an answer carries, and
  `Visits` which requests a printed page makes.
- `Prefetch`, `Pages`, `References`: the HTML reference scanner, and what it makes of printed pages.
- `Sessions`, `Aliases`: dialling, adopting, evicting and stopping one alias's session. `Sessions` is
  the step relation its theorems are about; `Aliases.Alias` is the code of `session_for`, `live`, `adopt`,
  `evict` and the retry loop over the shared fields, every method tied to the steps it takes.
- `Glob`, `SshConfig`: the file-name matcher, and includes and hosts of an ssh_config. `Includes` and
  `HostLines` say which lines are gathered in what order, and which names they name.
- `Calendar`, `Stamps`, `Crc32`, `Base64`: the two date formulas, what a stamp of a listing says, the table-driven
  checksum, the encoder.

## What is not quite as the source says

These hold of the code and are proved here; the comments or documents say otherwise or less.

- The glob walk tests equality before `*`, so a name that itself holds a `*` can swallow the
  pattern's star (`Glob.ExactNames`). Nor is it linear, as its comment has it: `Glob.NoLinearBound`, with
  the patterns of `Glob.NeedleTurns`. It is linear as long as the pieces between stars are bounded in
  length (`Glob.TurnsWithin`).
- A close marks the alias before removing its session, "so no request can slip between the two". A
  request already past the stopped check can still put a session back. `Sessions.CloseUndoneIff` says
  exactly when.
- `is_alive` is said to be the same event as the connection's death. It is the writer having
  returned; a session whose reader alone has ended leaves callers waiting (`Mux.DeafSessionLeavesWaiting`).
- Ids are given out again after 2^32 - 1 requests, and a reply that comes after that goes to a stranger.
  `Mux.RepliesReachTheirCallers` states the exact window and `Mux.WindowIsNeeded` that it is needed.
- The listing page's calendar corrects its negative branch twice. From day -719468 on it is right; below,
  it is a day late on all but one day in 146097 (`Calendar.ListingIsLate`). Listings only show days from 0 on.
- A listed size that is positive and too small makes the handler serve a prefix. `SftpFiles.SftpFs.FetchWhole`
  gives the condition, and `Answers` takes that answer as the one to agree with.
- A request that is cut short by its session is said not to have been answered at all, and is tried again.
  It is if a listing failed and the writer has returned by then. If the stream ended under the listing and the
  writer is still waiting for more to send, `is_alive` holds and the bad gateway stands
  (`Rounds.ClosedWhileAlive` reaches that state); and if a file was being read, it is answered as not found and
  that stands. `Origins.Origin.Attempt` says exactly when.
- A Host header whose port does not parse as a number is treated as having none (`Hosts.ReachesAliasIff`).
- A listing in which one name comes twice with different attributes answers differently before and
  after it is cached. `Caching.CachedLookupAgrees` says exactly when it does not; the agreement theorem
  needs that of the remote, and needs nothing of its sizes.

## Model

| member | source | states |
|---|---|---|
| `Mux.RepliesReachTheirCallers` | crates/ssh-browser/src/fs/sftp.rs:480-537 | In every reachable state of callers, writer, reader and server, a reply handed to a waiter is the reply to that waiter's own request if and only if fewer than 2^32 - 1 jobs had been registered after its request |
| `Mux.NoReplyIsLost` | crates/ssh-browser/src/fs/sftp.rs:524-537 | As long as every reply so far came inside that window, the next reply the reader takes resolves its own caller: none is dropped on the floor |
| `Mux.EveryJobResolvedOnce` | crates/ssh-browser/src/fs/sftp.rs:480-537 | No issued job is ever resolved twice, and once both tasks have returned every issued job has been resolved exactly once, by a reply or by its sender being dropped |
| `Mux.RoundsWithin` | crates/ssh-browser/src/fs/sftp.rs:480-537 | In every reachable state the registered requests lie between the rounds and 256 times one more, no batch holds more than 256 jobs and the queue no more than 1024 |
| `Mux.WriterGetsOn` | crates/ssh-browser/src/fs/sftp.rs:480-522 | In every reachable state a writer that has not returned and has anything to do can take its next step, whatever the callers, the reader and the server are at |
| `Mux.IdleLosesNothing` | crates/ssh-browser/src/fs/sftp.rs:480-490 | A writer that returns with nothing in hand leaves no job in the queue and nobody who could still send one |
| `Mux.DroppedOnlyAtTheEnd` | crates/ssh-browser/src/fs/sftp.rs:120-123 | A waiter is dropped only once a task has returned, or when its id was needed again |
| `Mux.StepKeeps` | crates/ssh-browser/src/fs/sftp.rs:480-537 | Every step of every task keeps the protocol's invariant: FIFO registration, ids by serial number, each registered job either waiting under its own id or resolved |
| `Mux.WindowIsNeeded` | crates/ssh-browser/src/sftp/mod.rs:62-67 | A run exists that leaves one request unanswered while every other id is used, and hands its reply to a stranger |
| `Mux.DeafSessionLeavesWaiting` | crates/ssh-browser/src/fs/sftp.rs:58-71 | After the reader has returned, a registered job waits, over any further run, exactly until the writer returns too or its id comes round: is_alive alone does not promise an answer |
| `Mux.DeafSessionExists` | crates/ssh-browser/src/fs/sftp.rs:69-71 | Such a state is reachable: alive by is_alive, reader gone, a job waiting |
| `Mux.SendersAreWaiting` | crates/ssh-browser/src/fs/sftp.rs:534-536 | The senders dropped when the map is cleared are exactly those of the registered, unresolved jobs |
| `Rounds.RoundComesBack` | crates/ssh-browser/src/fs/sftp.rs:480-537 | The jobs of a round issued over any reachable session come back as the batch readers take it: to each request its own reply, or word that the session has closed, and then its stream has ended; over one whose stream had ended before, nothing else, and not before the writer has returned |
| `Rounds.ClosedWhileAlive` | crates/ssh-browser/src/fs/sftp.rs:524-537 | Such a round does end with word that the session has closed while the writer has not returned, so that is_alive, fs/sftp.rs:69-71, still holds |
| `Driver.Session.AllocId` | crates/ssh-browser/src/sftp/mod.rs:62-67 | The id handed out is the counter, and the next is IdOf of the next serial number, skipping 0 on wrap |
| `Driver.Session.Issue` | crates/ssh-browser/src/fs/sftp.rs:109-117 | Accepted exactly while the handle is open, the writer is up and the queue has room; otherwise nothing changes |
| `Driver.Session.RegisterFirst` | crates/ssh-browser/src/fs/sftp.rs:503-515 | The job's sender is in the map under the new id before its frame can be written |
| `Driver.Session.ReaderTurn` | crates/ssh-browser/src/fs/sftp.rs:525-536 | A reply removes exactly the waiter under its id; the end of the stream drops every waiter |
| `Driver.Session.WriterTurn` | crates/ssh-browser/src/fs/sftp.rs:487-521 | With other tasks interleaved at every await, one turn is a run of the protocol: at least the jobs queued (up to 256) are registered and flushed as one round, or the writer returns |
| `Driver.Session.SendBatch` | crates/ssh-browser/src/fs/sftp.rs:503-520 | Every job of the batch is registered and written and one flush counted, or the writer returns and drops what it held |
| `SftpFiles.SftpFs.ReadBatch` | crates/ssh-browser/src/fs/sftp.rs:164-253 | Each result is the whole file or its own refusal, never a prefix, in exactly 1 + PollRounds rounds while the session lives |
| `SftpFiles.SftpFs.ReadRanges` | crates/ssh-browser/src/fs/sftp.rs:255-360 | Each result is file[offset .. min(offset+len, size)] or the refusal, in at most two rounds whatever the lengths |
| `SftpFiles.SftpFs.ListDirs` | crates/ssh-browser/src/fs/sftp.rs:393-473 | Each result is all the pages of its directory in order, or its refusal, within 1 + ListRounds rounds |
| `Remotes.PagesInOrder` | crates/ssh-browser/src/fs/sftp.rs:393-473 | A directory's entries are those of its pages, page after page and in the order of each |
| `SftpFiles.SftpFs.FetchWhole` | crates/ssh-browser/src/origin/mod.rs:1215-1235 | Ranged read, then poll: while the session is up the result is the whole file if and only if the listing does not give a readable file a positive size that is too small, and otherwise that prefix, within FetchRounds |
| `SftpFiles.CutPieces` | crates/ssh-browser/src/fs/sftp.rs:283-316 | The pieces of each opened range tile it exactly, in order, none longer than 32 KiB |
| `SftpFiles.TilingGrows` | crates/ssh-browser/src/fs/sftp.rs:290-310 | A piece that starts where the last one ended keeps the tiling |
| `SftpFiles.JoinPiece` | crates/ssh-browser/src/fs/sftp.rs:330-356 | Appending a piece's reply extends the range read so far, or fails the range for good |
| `SftpFiles.FetchedIsWhole` | crates/ssh-browser/src/origin/mod.rs:1215-1226 | What is fetched with a listed size is the whole file if and only if the size is zero, at least the true length, or the file could not be read anyway |
| `SftpFiles.PollRoundsIsMax` | crates/ssh-browser/src/fs/sftp.rs:195-250 | The poll takes floor(longest / 32 KiB) + 1 rounds: as many as the longest file needs and no more |
| `SftpFiles.ListRoundsIsMax` | crates/ssh-browser/src/fs/sftp.rs:420-470 | Listing takes as many rounds as the directory with the most pages |
| `SftpFiles.RangedIsFetched` | crates/ssh-browser/src/origin/mod.rs:1221-1226 | A ranged read that comes back at its listed length is what the whole fetch would have returned |
| `Origins.Origin.ServeRun` | crates/ssh-browser/src/origin/mod.rs:1029-1261 | Over any sequence of requests, with prefetches, evictions, expiries and other tasks in between, every answer given while the session is up is the cacheless answer, and one given afterwards is that or a failure; every file opened on the way is reached by no hidden name and no symlink; and requests whose answers are held change nothing and cost nothing |
| `Origins.Origin.ServeAlias` | crates/ssh-browser/src/origin/mod.rs:1029-1261 | One request is answered as Answers.Answer says, whatever the caches hold, or is cut short by its session: with a bad gateway before its file was asked for, as not found after; within the rounds of the longest directory on its path and of reading that one file, and if it is a page, of the longest trusted directory along its references |
| `Origins.Origin.Attempt` | crates/ssh-browser/src/origin/mod.rs:1006-1011 | A request cut short by its session is tried again if and only if no file had been asked for yet and the writer has returned by then, as it has if the stream had ended before the request; with no other task running, one whose first listings the stream ends under, while the writer lingers, is a bad gateway and not tried again, and one whose session ended before its file was read is not found and not tried again |
| `Origins.Origin.Revisit` | crates/ssh-browser/src/origin/mod.rs:1142-1167 | With no other task running, a file that is kept, a page as well as any other, is answered the same again after any pause; while its listings stay fresh the two requests cost no more rounds than the first alone, and otherwise one batch of listings more: the project's second invariant. For a page the cost supposes that nothing was evicted, as reading what it refers to may drive it out itself |
| `Origins.Origin.ServeWalk` | crates/ssh-browser/src/origin/mod.rs:1089-1141 | Symlinks are refused before anything else; then the answer is the walk's, and a held answer changes nothing and asks nothing |
| `Origins.Origin.FilesToRead` | crates/ssh-browser/src/origin/mod.rs:2389-2422 | Exactly the worthwhile references are read ahead: every one of them is, and every one read is approved |
| `Origins.Origin.ServeFile` | crates/ssh-browser/src/origin/mod.rs:1142-1260 | 304, 416, 206 and 200 as the cacheless answer, whether sliced from a held body, fetched whole or read directly |
| `Origins.Origin.ServeDirectly` | crates/ssh-browser/src/origin/mod.rs:1169-1199 | A range of a file too large to hold is bytes start..=end, in two rounds |
| `Origins.DirectPart` | crates/ssh-browser/src/origin/mod.rs:1169-1199 | Reading a range directly sends the bytes that cutting it from the whole would |
| `Origins.Origin.PartOfLargeCost` | crates/ssh-browser/src/origin/mod.rs:1169-1199 | A part of a file of more than 8388608 bytes costs two rounds, and of any other what the whole file does |
| `Origins.Origin.ListingsAlong` | crates/ssh-browser/src/origin/mod.rs:2475-2515 | Held listings answer every lookup as the remote does; the first refusal is reported; one batch, within one round more than the longest directory of the chain takes, whatever the depth |
| `Origins.Origin.FoundIsApproved` | crates/ssh-browser/src/origin/mod.rs:1089-1141 | A file reached by no hidden name and no symlink has every directory on its way listed as real: serving it opens nothing the prefetcher would not |
| `Origins.Origin.WalkHeld` | crates/ssh-browser/src/origin/mod.rs:1105-1129 | The loop over held listings decides as the recursive walk over the remote |
| `Origins.Origin.ServePage` | crates/ssh-browser/src/origin/mod.rs:2328-2456 | With no other task running, and no directory along the page's references refused but for absence, serving a page and then any number of requests that lead where something it refers to does, beside it, or for the page again, under any conditions and ranges, gives the cacheless answers within the cost of serving the page alone, unless some body was driven out of the cache meanwhile; with an honest size that is six rounds and the pages of the longest directory on its path and along its references |
| `Visits.PageAsksFor` | crates/ssh-browser/src/origin/mod.rs:2328-2347 | For a printed page in a directory, a request for the names of one of its references in that directory, however its path is written, is such a request |
| `Origins.Origin.WarmSubresources` | crates/ssh-browser/src/origin/mod.rs:2328-2456 | Prefetching opens only directories known step by step to be real and only files no part of whose path is hidden or a symlink, keeps the caches sound and costs at most three rounds and the pages of the longest trusted directory along the references; and with no other task running, nothing evicted and no directory along the references refused but for absence, every reference that may be looked at and is worth it has its listings fresh and its body held afterwards |
| `Origins.Origin.RefDirsMeans` | crates/ssh-browser/src/origin/mod.rs:2343-2387 | The directories that bound counts are exactly those that lie along some reference and are trusted |
| `Origins.Origin.KnownIsWanted` | crates/ssh-browser/src/origin/mod.rs:2343-2381 | With every directory above its own freshly listed, a reference to a file by no hidden name and no symlink passes every check made before anything is listed for it |
| `Origins.Origin.WantedIsRead` | crates/ssh-browser/src/origin/mod.rs:2389-2422 | What such a reference leads to is held already, or is read at its listed size |
| `Origins.Origin.Listable` | crates/ssh-browser/src/origin/mod.rs:2525-2534 | True exactly for the base, or a directory every step to which is cached as a real directory, which the remote then says too |
| `Origins.Origin.KeepIfWhole` | crates/ssh-browser/src/origin/mod.rs:2443-2455 | A prefetched body of its listed length is held afterwards, and it is what a fetch would have returned |
| `Origins.FirstRefusedAt` | crates/ssh-browser/src/origin/mod.rs:2496-2512 | The first refusal among the missing directories is the first along the path |
| `Trees.AnswerFollowsTree` | crates/ssh-browser/src/origin/mod.rs:1063-1140 | Every request is answered as a recursive walk of the tree along its path decides: a bad gateway at the first directory on it that cannot be listed, forbidden behind a symlink, and so on, whatever lies behind either and whatever lies elsewhere |
| `Trees.ServedIffReadable` | crates/ssh-browser/src/origin/mod.rs:1063-1140 | A plain request is answered with content if and only if the path stays inside, has no dot-name, and leads through real directories that can be listed to a readable file; only the tree along that path is supposed anything of |
| `Trees.RefusedIfClosed` | crates/ssh-browser/src/origin/mod.rs:1083-1095 | What is refused along a path is exactly the first directory on it that cannot be listed |
| `Trees.WalkFollows` | crates/ssh-browser/src/origin/mod.rs:1097-1129 | From any real directory on, with every directory on the way listed, the walk finds a symlink exactly when the tree is blocked by one, and otherwise reaches the tree's verdict |
| `Trees.EveryTreeIsShown` | crates/ssh-browser/src/testing.rs:163-281 | For every labelled tree there is a remote that shows it, so the hypotheses above are met |
| `Trees.LookReaches` | crates/ssh-browser/src/origin/mod.rs:1105-1129 | The recursive decision finds a file exactly where the path without symlinks leads to one |
| `Delivery.WholeIsSent` | crates/ssh-browser/src/origin/mod.rs:1142-1260 | A plain request for a file reached through real directories is answered with exactly its bytes, or with a prefix of its listed size if that is positive and too small; as not found if it cannot be read; and tagged if and only if its directory lists a time and a size |
| `Delivery.RangeIsSent` | crates/ssh-browser/src/origin/mod.rs:1155-1260 | A printed range is answered with exactly the bytes it selects of the file at its listed size, first and last of them named, or as unsatisfiable if and only if it selects none |
| `Delivery.IfRangeIsWhole` | crates/ssh-browser/src/origin/range.rs:29-31 | With an If-Range a request is answered as with no range |
| `Delivery.NotSentIffHeld` | crates/ssh-browser/src/origin/mod.rs:1142-1151 | With a printed If-None-Match list, whatever the range, a file is left out if and only if it is listed with a time and a size and the list holds * or that very version; otherwise the answer is the one without the list |
| `Delivery.TagComesBack` | crates/ssh-browser/src/cache/mod.rs:218-235 | The tag a file was sent with, sent back later: it is left out if and only if it is then listed with the same time and size |
| `BodyCache.Replay` | crates/ssh-browser/src/cache/mod.rs:58-78 | After any run of insertions the held entries are exactly the longest suffix of the accepted ones that fits the budget |
| `BodyCache.Bodies.Insert` | crates/ssh-browser/src/cache/mod.rs:59-78 | order lists the map's keys once each, bytes is their total, never over cap; a body too large or already held changes nothing; something is evicted exactly when there is no room |
| `BodyCache.FittingIsLongestSuffix` | crates/ssh-browser/src/cache/mod.rs:70-77 | Fitting is a suffix within budget and every longer suffix is over it |
| `BodyCache.EvictsIffOver` | crates/ssh-browser/src/cache/mod.rs:70-77 | An insertion evicts nothing exactly when there is room for it; then what was held is held |
| `BodyCache.FittingForgets` | crates/ssh-browser/src/cache/mod.rs:70-77 | Evicting as bodies arrive keeps what evicting at the end would |
| `BodyCache.ListsPop` | crates/ssh-browser/src/cache/mod.rs:71-76 | Dropping the oldest never underflows the byte count and leaves the rest listed |
| `Caching.CachedLookupAgrees` | crates/ssh-browser/src/cache/mod.rs:115-166 | A lookup in the cached map agrees with a scan of the listing if and only if entries of one name agree |
| `Caching.Cache.PutListing` | crates/ssh-browser/src/cache/mod.rs:146-160 | The whole listing replaces the directory's entry, fetched now; nothing else changes |
| `Caching.Cache.ListingEntries` | crates/ssh-browser/src/cache/mod.rs:128-144 | A fresh listing answers lookups as the map does, in whatever order the map gives; a stale one is none |
| `Caching.ListedThenAsked` | crates/ssh-browser/src/cache/mod.rs:100-160 | A listing that was put answers after a time if and only if that is less than the time to live |
| `Caching.Cache.PutBody` | crates/ssh-browser/src/cache/mod.rs:185-195 | Kept under path, mtime and size, or not at all when either is unknown |
| `Etags.TagsMatchSameVersion` | crates/ssh-browser/src/cache/mod.rs:218-235 | The validator of one version matches another's if and only if mtime and size are the same |
| `Etags.ListMatchesIff` | crates/ssh-browser/src/cache/mod.rs:226-235 | A list in If-None-Match matches if and only if it holds * or the current version's tag, with its weak marker or without |
| `Etags.TagNormalises` | crates/ssh-browser/src/cache/mod.rs:218-235 | Normalising a tag leaves exactly its core |
| `Ranges.PrintedResolves` | crates/ssh-browser/src/origin/range.rs:28-96 | A printed a-b, a- or -n resolves to exactly the bytes RFC 9110 section 14.1.2 selects, or is unsatisfiable when it selects none |
| `Ranges.ResolvesAny` | crates/ssh-browser/src/origin/range.rs:28-96 | Any header at all: one that asks for what two sides of a dash say gets exactly that, wherever the white space and however the numbers are written, and any other the whole; of nothing no range can be had |
| `Ranges.Resolve` | crates/ssh-browser/src/origin/range.rs:28-96 | Whatever the header, a part satisfies start <= end < size |
| `Ranges.DecidesExactly` | crates/ssh-browser/src/origin/range.rs:58-96 | The decision on parsed ends is exactly the range-spec's selection clamped to the file |
| `Guard.Resolve` | crates/ssh-browser/src/origin/guard.rs:105-126 | Fails exactly when decoding fails, a NUL appears or some segment climbs above the base; otherwise the base and the surviving segments |
| `Links.PathLeads` | crates/ssh-browser/src/origin/guard.rs:105-126 | A path, each byte written as it stands or escaped with digits of either case, leads to what following its names from the base leads to, one down and two dots up; nowhere if a climb leaves the base, or a name is not UTF-8 or has a NUL in it |
| `Links.RelativeLeads` | crates/ssh-browser/src/origin/mod.rs:2335-2347 | A reference on a page that starts with no slash leads on from the directory the page is in, however both are written |
| `Links.AbsoluteLeads` | crates/ssh-browser/src/origin/mod.rs:2342-2347 | One that starts with a slash leads where it says, whatever the page |
| `Links.ReferenceLeads` | crates/ssh-browser/src/origin/mod.rs:2335-2347 | Names alone lead to them in the page's directory; behind two dots, in the directory above, and from the base itself nowhere |
| `Links.BelowBase` | crates/ssh-browser/src/origin/guard.rs:105-126 | Below a base, however many slashes it ends in, stand the names with one slash before each, and the base itself without them |
| `Guard.PercentDecode` | crates/ssh-browser/src/origin/guard.rs:129-145 | Decodes exactly the well-formed escapes, and refuses what is not UTF-8 |
| `Encodings.UnescapesIff` | crates/ssh-browser/src/origin/guard.rs:129-145 | A string stands for certain bytes if and only if it is a way of writing them: each as it stands unless it is a percent sign, or as a percent sign and its two digits, each large or small |
| `Encodings.CutShort` | crates/ssh-browser/src/origin/guard.rs:132-140 | A percent sign not followed by two hexadecimal digits spoils the whole string, whatever stands around it |
| `Encodings.Utf8Iff` | crates/ssh-browser/src/origin/guard.rs:144-145 | Bytes count as UTF-8 if and only if they are the encodings of Unicode scalar values, RFC 3629 section 3 |
| `Guard.Components` | crates/ssh-browser/src/origin/mod.rs:2749-2763 | Lists each name under the base with the directory it is in |
| `Guard.StepsOf` | crates/ssh-browser/src/origin/mod.rs:2749-2763 | The components of a resolved path are its surviving segments with successive prefixes as directories |
| `Guard.ChainAt` | crates/ssh-browser/src/origin/mod.rs:2757-2761 | Step i of a chain is segment i, in the directory of the segments before it |
| `Guard.LinkToEntry` | crates/ssh-browser/src/origin/mod.rs:3483-3494 | Appending a slash and the escaped name to any resolving path resolves to the old result, a slash and the name |
| `Guard.EscapedMeans` | crates/ssh-browser/src/origin/mod.rs:3483-3494 | Percent-decoding an escaped name gives the name back |
| `Guard.SurvivorsAreReal` | crates/ssh-browser/src/origin/guard.rs:109-121 | No surviving segment is empty, a dot or two dots |
| `Guard.UrlEscape` | crates/ssh-browser/src/origin/mod.rs:3483-3494 | The loop computes the byte-by-byte escape |
| `Encodings.EscapedIs` | crates/ssh-browser/src/origin/mod.rs:3483-3494 | Letters, digits and four signs stay as they are, and every other byte is a percent sign and its two digits, large ones |
| `Hosts.ReachesAliasIff` | crates/ssh-browser/src/origin/guard.rs:27-88 | A Host reaches an alias if and only if that is letters, digits and inner hyphens and it is that alias's own name, bare or with a port that is 80, 443 or no port number |
| `Hosts.DirectIff` | crates/ssh-browser/src/origin/guard.rs:27-88 | A request is answered directly if and only if its Host is a loopback name, with this listener's own port behind it, that the suffix has no claim to |
| `Hosts.IndexIff` | crates/ssh-browser/src/origin/guard.rs:47-56 | A request reaches the front door if and only if its Host is the suffix itself, bare or with a port that is 80, 443 or no port number |
| `Hosts.NothingElse` | crates/ssh-browser/src/origin/guard.rs:27-70 | Whatever is answered is about the path that was asked for |
| `Sessions.LiveSessionStays` | crates/ssh-browser/src/origin/mod.rs:1016-1026 | Over any run without a close or disable, a session that stays connected stays in the map |
| `Sessions.DialsAreSpaced` | crates/ssh-browser/src/origin/mod.rs:1750-1789 | In every reachable state at most one request is dialling, and every request-driven dial started at least one cooldown after every failed one before it, a failure of startup's own dial included |
| `Sessions.ReconnectionLands` | crates/ssh-browser/src/origin/mod.rs:1624-1645 | A dial that succeeded is what the map holds next unless a live session got there first, and the loser is closed |
| `Sessions.StopIsForGood` | crates/ssh-browser/src/origin/mod.rs:1571-1581 | Once marked, removed and with no hopeful request left, no run without control opens brings a session back, and every later request that is answered is answered Stopped |
| `Sessions.NobodyElsePasses` | crates/ssh-browser/src/origin/mod.rs:1746-1750 | Once the alias is marked, no request gets past the stopped check |
| `Sessions.CloseUndoneIff` | crates/ssh-browser/src/origin/mod.rs:1571-1581 | A close can be undone without a control open exactly when a request was past the stopped check with a dial that had not failed |
| `Sessions.CloseCanBeUndone` | crates/ssh-browser/src/origin/mod.rs:1748-1781 | That does happen in a reachable state |
| `Sessions.StepKeeps` | crates/ssh-browser/src/origin/mod.rs:1739-1813 | Every step of every request, control call and clock keeps the lock's section exclusive, fresh sessions in one pair of hands, and failures remembered |
| `Sessions.UndeclaredNeverDials` | crates/ssh-browser/src/origin/mod.rs:1744-1750 | In every reachable state no request for a name that was never declared has dialled or waits to, and each is served over a session opened otherwise or told that there is no such name |
| `Sessions.RetriedIff` | crates/ssh-browser/src/origin/mod.rs:1006-1013 | A request is sent round again if and only if it has not been before, its answer was a server error and its session has gone; it then looks for a session afresh with that one out of the map, and otherwise it is answered |
| `Sessions.EachAnsweredOnce` | crates/ssh-browser/src/origin/mod.rs:972-1013 | In every reachable state each request that has ended has exactly one answer in the history, and no other has any |
| `Aliases.Alias.SessionFor` | crates/ssh-browser/src/origin/mod.rs:1739-1790 | With other tasks at every await: Unknown only for a name never declared, and on an alias marked stopped beforehand either the session still held or Stopped, without a dial of its own |
| `Aliases.Alias.Live` | crates/ssh-browser/src/origin/mod.rs:1802-1813 | What it returns is what the map holds as it returns; a dead session found there is dropped, and no dial is started |
| `Aliases.Alias.DropDead` | crates/ssh-browser/src/origin/mod.rs:1806-1812 | Only a dead session leaves the map here, and what is returned is alive |
| `Aliases.Alias.DialDue` | crates/ssh-browser/src/origin/mod.rs:1772-1776 | A dial is due exactly when no failure is remembered or the cooldown has passed since |
| `Aliases.Alias.Adopt` | crates/ssh-browser/src/origin/mod.rs:1635-1645 | A live session in the map stays and the new one is closed; otherwise the new one takes the place |
| `Aliases.Alias.Evict` | crates/ssh-browser/src/origin/mod.rs:1021-1026 | Removes only the session the caller held, which is dead |
| `Aliases.Alias.Request` | crates/ssh-browser/src/origin/mod.rs:972-1013 | A request asks for a session once, and a second and last time exactly if it has been sent round again; it ends in an answer or is still waiting for the dial lock |
| `Aliases.Alias.Served` | crates/ssh-browser/src/origin/mod.rs:1006-1011 | Again if and only if it is the first pass, a server error, and the session has gone |
| `Glob.GlobMatches` | crates/ssh-browser/src/ssh_config/mod.rs:192-215 | The remembered-star walk answers Walks, which for a name without a star is the recursive match, in exactly Turns turns, no more than (pattern+1)*name + pattern |
| `Glob.ExactNames` | crates/ssh-browser/src/ssh_config/mod.rs:199-205 | The walk agrees with the recursive definition for every pattern if and only if the name holds no star |
| `Glob.WalksImpliesMatches` | crates/ssh-browser/src/ssh_config/mod.rs:192-215 | The walk never accepts what the definition refuses |
| `Glob.WalksIsMatchesOnPlainNames` | crates/ssh-browser/src/ssh_config/mod.rs:192-215 | On a name without a star it refuses nothing the definition accepts |
| `Glob.Misread` | crates/ssh-browser/src/ssh_config/mod.rs:199 | For every name with a star, a pattern the walk gets wrong |
| `Glob.TurnsWithin` | crates/ssh-browser/src/ssh_config/mod.rs:192-215 | The cost is at most linear in the name with a factor of the longest piece of pattern between stars plus one, and for any pattern and name within (pattern+1)*name + pattern turns |
| `Glob.NeedleTurns` | crates/ssh-browser/src/ssh_config/mod.rs:192-215 | A star, k times one letter and another letter, on 2k of the letter: exactly (k + 1) squared turns |
| `Glob.NoLinearBound` | crates/ssh-browser/src/ssh_config/mod.rs:194-195 | Whatever multiple of the two lengths is named, some pattern and plain name take more turns: the walk is not linear, as its comment says |
| `SshConfig.Gather` | crates/ssh-browser/src/ssh_config/mod.rs:89-117 | The recursive code with its buffer comes to GatherFile's lines behind what was in the buffer, or to its failure |
| `Includes.FileTells` | crates/ssh-browser/src/ssh_config/mod.rs:89-117 | The lines gathered are the lines at all addresses that lead to a line that is no include, through includes that name existing files, in the order of the addresses: none missing, none added |
| `Includes.PlainFile` | crates/ssh-browser/src/ssh_config/mod.rs:99-115 | A file without an include line gathers to exactly its lines |
| `Includes.ReadFrom` | crates/ssh-browser/src/ssh_config/mod.rs:74-85 | No file is no hosts, a blocked chain of includes is its failure, and otherwise the hosts are what the gathered lines name |
| `HostLines.SettingMeans` | crates/ssh-browser/src/ssh_config/mod.rs:120-140 | However a setting is spaced, and with equals signs or not, it is an include or a host line if and only if its keyword says so in any case, and its argument is read as written |
| `HostLines.LinesWritten` | crates/ssh-browser/src/ssh_config/mod.rs:99 | A text has the lines that were written, whether they end in a line feed or in both characters, the last perhaps in neither |
| `HostLines.NamesSaid` | crates/ssh-browser/src/ssh_config/mod.rs:225-240 | The names of a configuration are those its host lines name, quotes off, no patterns and no negations, in the order they stand in |
| `HostLines.SortedMeans` | crates/ssh-browser/src/ssh_config/mod.rs:241-264 | The hosts are exactly the kept names whose alias is a label, and the unusable ones exactly the others, each in order |
| `SshConfig.FailsIffBlocked` | crates/ssh-browser/src/ssh_config/mod.rs:89-117 | Reading fails exactly when some chain of includes runs out of levels or meets an unreadable file |
| `SshConfig.RoomToSpare` | crates/ssh-browser/src/ssh_config/mod.rs:91-99 | A configuration that is read at all reads the same with a higher limit: the limit never truncates |
| `SshConfig.LoopsAreRefused` | crates/ssh-browser/src/ssh_config/mod.rs:92-98 | Files that include one another round and round are refused at every limit |
| `SshConfig.Parse` | crates/ssh-browser/src/ssh_config/mod.rs:225-264 | Hosts and unusable names are the kept names sorted by whether their alias is a label |
| `SshConfig.KeptAreFirstSpellings` | crates/ssh-browser/src/ssh_config/mod.rs:222-246 | Kept names are the first spellings of all aliases, each once, and nothing else, in the order of the file |
| `Calendar.ListingIsCounted` | crates/ssh-browser/src/origin/mod.rs:3254-3265 | From day -719468 on, the listing's copy is the proleptic Gregorian date counted day by day |
| `Calendar.ListingIsLate` | crates/ssh-browser/src/origin/mod.rs:3256 | Before that it is one day late, but for one day in each cycle of 146097 |
| `Calendar.ListingRightIff` | crates/ssh-browser/src/origin/mod.rs:3254-3265 | Exactly when the listing's copy names the day |
| `Calendar.CertificateIsCounted` | crates/ssh-browser/src/tls/mod.rs:263-278 | The certificate's copy is the counted date on every day, as far as an i32 holds the year |
| `Calendar.CopiesAgree` | crates/ssh-browser/src/tls/mod.rs:263-278 | The two copies agree from day -719468 on, as long as the year fits the i32 the certificate's copy keeps it in |
| `Calendar.InEraNext` | crates/ssh-browser/src/origin/mod.rs:3257-3264 | The formula's date for the next day is the calendar's next date, across months, leap years and eras |
| `Calendar.StampsSortByMinute` | crates/ssh-browser/src/origin/mod.rs:3243-3249 | Over all u32 seconds, stamps compare as text exactly as their minutes compare as time |
| `Stamps.StampReads` | crates/ssh-browser/src/origin/mod.rs:3243-3249 | The five numbers of a stamp are year, month and day of its day, and hour and minute within it |
| `Prefetch.Scan` | crates/ssh-browser/src/prefetch/mod.rs:33-91 | Terminates within bounds on every byte string and returns at most max references, each once, each one this origin could serve |
| `References.ScanOfPage` | crates/ssh-browser/src/prefetch/mod.rs:33-119 | On any printed page the scan gives the first URLs its items refer to, each once, in order: of the seven tags in any case the first src, of a link the first href if some word of its first rel is one of the five, of anything else none |
| `References.MarkingOf` | crates/ssh-browser/src/prefetch/mod.rs:58-74 | Every item there is falls under one of those cases, whatever its attributes |
| `References.RelMeans` | crates/ssh-browser/src/prefetch/mod.rs:59-67 | Whether a link is fetched goes by its rel's words, each in any case: whether some one of them is one of the five |
| `References.UsableMeans` | crates/ssh-browser/src/prefetch/mod.rs:97-116 | However it is spelled, what is kept of a reference is its URL without the white space around it and without query and fragment, unless it is empty, starts with two slashes or has a scheme |
| `Prefetch.UsableIsServable` | crates/ssh-browser/src/prefetch/mod.rs:101-123 | What is kept of a reference is servable, and a servable reference is kept as it is |
| `Prefetch.Attributes` | crates/ssh-browser/src/prefetch/mod.rs:168-213 | The attribute loop reads what the one-attribute reader reads again and again, and ends one past the tag |
| `Prefetch.FindNeedle` | crates/ssh-browser/src/prefetch/mod.rs:125-133 | The first place from the start on where the needle stands, and none if and only if it stands nowhere |
| `Prefetch.FindCloseTag` | crates/ssh-browser/src/prefetch/mod.rs:136-148 | The first closing tag of that name in any case, and none if and only if there is none |
| `Pages.AttrsPrinted` | crates/ssh-browser/src/prefetch/mod.rs:162-214 | Attributes in double, single or no quotes, or without a value, with any spacing and slashes between them, are read back as written, their names in lower case, up to the tag's end |
| `Pages.RawElementAt` | crates/ssh-browser/src/prefetch/mod.rs:79-87 | A script body free of its terminator contributes nothing but the script's own reference |
| `Crc32.Checksum` | extension/crc32.mjs:21-27 | The table-driven loop computes the bit-at-a-time reflected division by 0xedb88320 |
| `Crc32.CheckValue` | extension/crc32.mjs:6-7 | The checksum of 123456789 is cbf43926 |
| `Crc32.MakeTable` | extension/crc32.mjs:9-19 | Entry n is n shifted through the division eight times |
| `Crc32.TableStep` | extension/crc32.mjs:24 | One step by table is eight steps by bit |
| `Crc32.ShiftsLinear` | extension/crc32.mjs:14 | Any number of division steps is linear over xor |
| `Crc32.OneByteShows` | extension/crc32.mjs:21-27 | Two messages that differ in one byte have different checksums |
| `Wire.NamesRoundTrip` | crates/ssh-browser/src/fs/sftp.rs:126-142 | Any page of names with any attribute flags, undefined flags and extended pairs decodes to its entries, or is implausible exactly when it counts more than 65536 |
| `Wire.NamesThereAndBack` | crates/ssh-browser/src/sftp/wire.rs:72-98 | A page written through the encoder decodes to its entries, or is implausible by its count |
| `Wire.AttrsAt` | crates/ssh-browser/src/sftp/wire.rs:150-178 | Attributes decode to the groups that were sent, and the decoder stands right behind them |
| `Layout.AttrsLaidOut` | crates/ssh-browser/src/sftp/wire.rs:148-174 | On the wire attributes are a big-endian word whose bits 1, 2, 4, 8 and 2^31 announce the groups, then the groups in that order, each where section 5 of the draft puts it |
| `Layout.PairsLaidOut` | crates/ssh-browser/src/sftp/wire.rs:148-174 | Owner stands before group and access time before change time, and what the decoder keeps of them goes by those places |
| `Layout.NamedLaidOut` | crates/ssh-browser/src/fs/sftp.rs:126-142 | A name of a page is its length and itself, the length and text of the long form, and its attributes; the name kept is the first |
| `Layout.KindOfMode` | crates/ssh-browser/src/sftp/wire.rs:176-190 | A file is a directory or a symlink by the four bits of its permissions above the lower twelve, 4 and 10, whatever the others; without permissions it is neither |
| `Wire.Dec.Attributes` | crates/ssh-browser/src/sftp/wire.rs:150-178 | On arbitrary bytes the decoder stays in bounds, never moves back and answers as GetAttrs |
| `Wire.Dec.Str` | crates/ssh-browser/src/sftp/wire.rs:124-131 | A length that runs past the end is None, with the length consumed |
| `Wire.DecodeNames` | crates/ssh-browser/src/fs/sftp.rs:126-142 | The page decoder answers as GetNames on every payload, with the same failure at the same place |
| `Frames.FramesRoundTrip` | crates/ssh-browser/src/sftp/mod.rs:35-53 | Reading the concatenation of written frames gives back that sequence, for payloads under 64 MiB |
| `Frames.FramesThereAndBack` | crates/ssh-browser/src/sftp/mod.rs:35-53 | Frames written one by one and read until the end come back as they were |
| `Frames.FrameAt` | crates/ssh-browser/src/sftp/mod.rs:42-53 | A written frame reads back exactly when its payload is shorter than 64 MiB |
| `Layout.FrameLaidOut` | crates/ssh-browser/src/sftp/mod.rs:35-53 | A frame is a big-endian length, the kind it counts too, and the payload; it is read back if and only if that length is at most 67108864 |
| `Frames.Source.ReadFrame` | crates/ssh-browser/src/sftp/mod.rs:42-53 | Reads the frame at the position or fails, and never moves back |
| `Frames.Sink.WriteFrame` | crates/ssh-browser/src/sftp/mod.rs:35-41 | Appends the frame, or nothing when its length does not fit 32 bits |
| `Frames.IdReadsBack` | crates/ssh-browser/src/sftp/mod.rs:98-103 | The id a request goes out under is the id its reply is read under |
| `Base64.EncodesIffDecodes` | crates/ssh-browser/src/tls/mod.rs:400-424 | A text is the encoding of some bytes exactly when RFC 4648 section 4 decodes it to them |
| `Base64.Base64` | crates/ssh-browser/src/tls/mod.rs:400-424 | The loop over chunks of three computes the encoding |
| `Base64.EncodedLength` | crates/ssh-browser/src/tls/mod.rs:402-403 | The length is four times the number of bytes divided by three, rounded up |

## Left out

- Driver.Session.WriterTurn: one turn at a time; that the loop takes another turn is the scheduler's business, and no liveness is claimed.
- Origins.Origin.ServeAlias: one remote; cache keys carry no host, so two hosts with the same absolute paths share entries and agreement across them is not true of the code.
- Origins.Origin.ServeRun: the remote does not change during a run; a body read after a file changed is stored under the old key in the code.
- Prefetch.Scan: white space, letter case and the replacement of invalid UTF-8 are those of ASCII text.
- Sessions.StopIsForGood: one alias at a time, which share nothing that decides here; `reachable`, routes and messages are not part of it.
- Calendar.ListingIsCounted: days are unbounded integers, so the overflow of `z + 719468` near the ends of an i64 is not modelled.
- Wire.DecodeNames: names stay bytes; replacing invalid UTF-8 in them is not modelled.
- The content of listing pages, their themes and their tree of ancestor levels; a directory's page is one abstract answer.
- The text of error answers, and headers other than the validator and Content-Range.
- MIME guessing: which files count as pages is an arbitrary predicate.
- The handles a server gives out are identified with the paths they were opened on, and CLOSE requests, which nobody awaits, are not counted as rounds.
- REALPATH and how a base directory is resolved at connection time.
- Waiting times: the writer's 200 microsecond wait admits any split into batches, and flushes are not rounds.
- A caller that gives up before its reply arrives.
- The version handshake, spawning ssh, sockets, TLS, the CONNECT tunnel and the PAC script.
- Certificates beyond the calendar and base64 used for them.
- Configuration files, their merge, the token store, autostart and the control API's JSON.
- `ssh -G` output and path expansion in Include lines: what an argument names is an arbitrary function.
- Unicode white space, in `trim` and `split_whitespace`.
- The extension apart from its CRC-32, and the end-to-end harness.
