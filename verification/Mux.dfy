/**
 The session's demultiplexing protocol: callers, the writer task, the reader task and the server,
 fs/sftp.rs:37-125 and 480-537 with the id allocator of sftp/mod.rs:62-67, under every interleaving.

 A job's tag is its serial number among the jobs accepted by `issue`. It stands for the caller's
 oneshot channel, which is resolved when a reply is sent down it or its sender is dropped.
 */
module Mux {
  import opened Common

  const QUEUE_DEPTH: nat := 1024
  const MAX_BATCH: nat := 256

  /** How many ids there are: zero is never handed out. */
  const IDS: nat := U32_SPAN - 1

  /** `wrapping_add(1).max(1)` */
  function NextId(id: nat): nat { Max((id + 1) % U32_SPAN, 1) }

  /** A request on the wire, or the reply to it: the id it carries and the job it belongs to. */
  datatype Frame = Frame(id: nat, tag: nat)

  datatype Writer =
    | Idle
    | Filling(batch: seq<nat>)
    | Sending(batch: seq<nat>, unsent: Option<Frame>)
    | Returned

  /** `at` is how many jobs had been registered when the reply was handed over. */
  datatype How = Replied(cause: nat, at: nat) | Dropped

  datatype Event = Event(tag: nat, how: How)

  /** issued, registered, flushed and log are history: nothing decides on them. */
  datatype State = State(
    queue: seq<nat>, handleOpen: bool,
    writer: Writer, nextId: nat, readerUp: bool, pending: map<nat, nat>,
    wire: set<Frame>, inbox: seq<Frame>, rounds: nat,
    issued: nat, registered: nat, flushed: nat, log: seq<Event>)
  {
    function Batch(): seq<nat>
    {
      match writer
      case Filling(b) => b
      case Sending(b, _) => b
      case _ => []
    }

    /** `is_alive`: the job channel is closed by the writer returning, and by nothing else. */
    predicate Alive() { writer != Returned }

    predicate BothReturned() { writer == Returned && !readerUp }
  }

  function Start(): State
  {
    State([], true, Idle, 1, true, map[], {}, [], 0, 0, 0, 0, [])
  }

  /** `order` is the order in which dropping the pending map visits its ids. */
  datatype Step =
    | Issue
    | CloseHandle
    | Take(n: nat)
    | TopUp
    | Commit
    | Register
    | Write
    | Flush
    | WriterReturns(order: seq<nat>)
    | ServerReplies(frame: Frame)
    | Deliver
    | ReaderReturns(order: seq<nat>)

  predicate Orders(order: seq<nat>, pending: map<nat, nat>)
  {
    && (forall i :: 0 <= i < |order| ==> order[i] in pending)
    && (forall id :: id in pending ==> id in order)
    && (forall i, j :: 0 <= i < j < |order| ==> order[i] != order[j])
  }

  /** The senders a map drops, in that order. */
  function Senders(order: seq<nat>, pending: map<nat, nat>): (tags: seq<nat>)
    requires Orders(order, pending)
    ensures |tags| == |order| && forall i :: 0 <= i < |order| ==> tags[i] == pending[order[i]]
  {
    seq(|order|, i requires 0 <= i < |order| => pending[order[i]])
  }

  function Drops(tags: seq<nat>): (events: seq<Event>)
    ensures |events| == |tags| && forall i :: 0 <= i < |tags| ==> events[i] == Event(tags[i], Dropped)
  {
    seq(|tags|, i requires 0 <= i < |tags| => Event(tags[i], Dropped))
  }

  /** A write or a flush may fail at any time; an idle writer returns when the last handle has gone. */
  predicate MayReturn(s: State)
  {
    match s.writer
    case Idle => s.queue == [] && !s.handleOpen
    case Sending(batch, unsent) => unsent.Some? || batch == []
    case _ => false
  }

  predicate Enabled(s: State, step: Step)
  {
    match step
    case Issue => s.handleOpen && s.Alive() && |s.queue| < QUEUE_DEPTH
    case CloseHandle => s.handleOpen
    case Take(n) => s.writer == Idle && 0 < n <= Min(|s.queue|, MAX_BATCH)
    case TopUp => s.writer.Filling? && |s.writer.batch| < MAX_BATCH && s.queue != []
    case Commit => s.writer.Filling? && (|s.writer.batch| == MAX_BATCH || s.queue == [])
    case Register => s.writer.Sending? && s.writer.unsent.None? && s.writer.batch != []
    case Write => s.writer.Sending? && s.writer.unsent.Some?
    case Flush => s.writer == Sending([], None)
    case WriterReturns(order) => MayReturn(s) && (s.readerUp || Orders(order, s.pending))
    case ServerReplies(f) => f in s.wire
    case Deliver => s.readerUp && s.inbox != []
    case ReaderReturns(order) => s.readerUp && Orders(order, s.pending)
  }

  /** Inserting under an id drops the sender it may still hold. */
  function Replaced(pending: map<nat, nat>, id: nat): seq<Event>
  {
    if id in pending then Drops([pending[id]]) else []
  }

  function Registered(s: State): State
    requires Enabled(s, Register)
  {
    var tag := s.writer.batch[0];
    s.(writer := Sending(s.writer.batch[1..], Some(Frame(s.nextId, tag))), nextId := NextId(s.nextId),
       pending := s.pending[s.nextId := tag], registered := s.registered + 1,
       log := s.log + Replaced(s.pending, s.nextId))
  }

  /** What is left of the batch and of the queue goes with the writer; the map with the last task. */
  function WriterGone(s: State, order: seq<nat>): State
    requires Enabled(s, WriterReturns(order))
  {
    var left := Drops(s.Batch() + s.queue);
    if s.readerUp then s.(writer := Returned, queue := [], log := s.log + left)
    else s.(writer := Returned, queue := [], pending := map[], log := s.log + left + Drops(Senders(order, s.pending)))
  }

  function Delivered(s: State): State
    requires Enabled(s, Deliver)
  {
    var f := s.inbox[0];
    if f.id in s.pending
    then s.(inbox := s.inbox[1..], pending := s.pending - {f.id},
            log := s.log + [Event(s.pending[f.id], Replied(f.tag, s.registered))])
    else s.(inbox := s.inbox[1..])
  }

  function Apply(s: State, step: Step): State
    requires Enabled(s, step)
  {
    match step
    case Issue => s.(queue := s.queue + [s.issued], issued := s.issued + 1)
    case CloseHandle => s.(handleOpen := false)
    case Take(n) => s.(writer := Filling(s.queue[..n]), queue := s.queue[n..])
    case TopUp => s.(writer := Filling(s.writer.batch + [s.queue[0]]), queue := s.queue[1..])
    case Commit => s.(writer := Sending(s.writer.batch, None))
    case Register => Registered(s)
    case Write => s.(writer := Sending(s.writer.batch, None), wire := s.wire + {s.writer.unsent.value})
    case Flush => s.(writer := Idle, rounds := s.rounds + 1, flushed := s.registered)
    case WriterReturns(order) => WriterGone(s, order)
    case ServerReplies(f) => s.(wire := s.wire - {f}, inbox := s.inbox + [f])
    case Deliver => Delivered(s)
    case ReaderReturns(order) =>
      s.(readerUp := false, pending := map[], log := s.log + Drops(Senders(order, s.pending)))
  }

  predicate Possible(s: State, run: seq<Step>)
    decreases |run|
  {
    run == [] || (Enabled(s, run[0]) && Possible(Apply(s, run[0]), run[1..]))
  }

  function After(s: State, run: seq<Step>): State
    requires Possible(s, run)
    decreases |run|
  {
    if run == [] then s else After(Apply(s, run[0]), run[1..])
  }

  // ---- What every step keeps ----

  /** The id of the k-th job registered. */
  function IdOf(k: nat): nat { 1 + k % IDS }

  lemma SameId(a: nat, b: nat)
    requires IdOf(a) == IdOf(b) && a < b + IDS && b < a + IDS
    ensures a == b
  {
  }

  lemma ComesRound(k: nat)
    ensures IdOf(k + IDS) == IdOf(k)
  {
  }

  lemma NextIdOf(k: nat)
    ensures NextId(IdOf(k)) == IdOf(k + 1)
  {
  }

  function Tags(log: seq<Event>): set<nat> { set e | e in log :: e.tag }

  /** Jobs are registered in the order they were issued in. */
  predicate Fifo(s: State)
  {
    var batch := s.Batch();
    && (forall i :: 0 <= i < |batch| ==> batch[i] == s.registered + i)
    && (forall i :: 0 <= i < |s.queue| ==> s.queue[i] == s.registered + |batch| + i)
    && (if s.Alive() then s.issued == s.registered + |batch| + |s.queue| else s.queue == [] && s.registered <= s.issued)
    && s.nextId == IdOf(s.registered)
    && |s.queue| <= QUEUE_DEPTH && |batch| <= MAX_BATCH
  }

  /** No request's reply has gone astray on the way: every frame belongs to a registered job, once. */
  predicate Frames(s: State)
  {
    && (s.writer.Sending? && s.writer.unsent.Some? ==>
        s.registered > 0 && s.writer.unsent.value == Frame(IdOf(s.registered - 1), s.registered - 1))
    && (forall f :: f in s.wire ==> f.tag < WrittenBefore(s) && f.id == IdOf(f.tag))
    && (forall i :: 0 <= i < |s.inbox| ==>
        s.inbox[i] !in s.wire && s.inbox[i].tag < WrittenBefore(s) && s.inbox[i].id == IdOf(s.inbox[i].tag))
    && (forall i, j :: 0 <= i < j < |s.inbox| ==> s.inbox[i] != s.inbox[j])
  }

  function WrittenBefore(s: State): int
  {
    if s.writer.Sending? && s.writer.unsent.Some? then s.registered - 1 else s.registered
  }

  /** A job waits under its own id, and under no other, until an id comes round again. */
  predicate Waiting(pending: map<nat, nat>, registered: nat)
  {
    forall id :: id in pending ==>
      pending[id] < registered <= pending[id] + IDS && IdOf(pending[id]) == id
  }

  /** Nobody is resolved twice. */
  predicate Once(log: seq<Event>)
  {
    forall i, j :: 0 <= i < j < |log| ==> log[i].tag != log[j].tag
  }

  predicate Waits(pending: map<nat, nat>, t: nat)
  {
    IdOf(t) in pending && pending[IdOf(t)] == t
  }

  /** A registered job is either resolved or waiting. */
  predicate Partition(log: seq<Event>, pending: map<nat, nat>, registered: nat)
  {
    forall t :: 0 <= t < registered ==> (t in Tags(log) <==> !Waits(pending, t))
  }

  predicate TagsBelow(log: seq<Event>, bound: nat) { forall t :: t in Tags(log) ==> t < bound }

  /** One that was never registered goes with the writer, and the map goes with the last task. */
  predicate Resolutions(s: State)
  {
    && Once(s.log) && AllRightlyHanded(s.log)
    && Partition(s.log, s.pending, s.registered)
    && TagsBelow(s.log, if s.Alive() then s.registered else s.issued)
    && (!s.Alive() ==> forall t :: s.registered <= t < s.issued ==> t in Tags(s.log))
    && (s.BothReturned() ==> s.pending == map[])
  }

  /** A reply is handed to the caller that asked exactly when no id has come round since. */
  predicate RightlyHanded(e: Event)
  {
    e.how.Replied? ==> (e.tag == e.how.cause <==> e.how.at <= e.how.cause + IDS)
  }

  predicate AllRightlyHanded(log: seq<Event>) { forall i :: 0 <= i < |log| ==> RightlyHanded(log[i]) }

  /** Every flush carries at least one request and at most a full batch. */
  predicate RoundsCount(s: State)
  {
    && s.rounds <= s.flushed <= MAX_BATCH * s.rounds
    && s.flushed <= s.registered
    && s.registered + |s.Batch()| <= s.flushed + MAX_BATCH
    && (s.writer.Idle? || s.writer.Filling? ==> s.flushed == s.registered)
    && (s.writer.Filling? ==> s.writer.batch != [])
    && (s.writer.Sending? ==> s.flushed < s.registered + |s.writer.batch|)
  }

  predicate Inv(s: State)
  {
    Fifo(s) && Frames(s) && Waiting(s.pending, s.registered) && Resolutions(s) && RoundsCount(s)
  }

  lemma TagsGrow(log: seq<Event>, more: seq<Event>)
    ensures Tags(log + more) == Tags(log) + Tags(more)
  {
    forall t | t in Tags(log) + Tags(more) ensures t in Tags(log + more) {
      if t in Tags(log) {
        var e :| e in log && e.tag == t;
        assert e in log + more;
      } else {
        var e :| e in more && e.tag == t;
        assert e in log + more;
      }
    }
  }

  lemma TagsOfDrops(tags: seq<nat>)
    ensures Tags(Drops(tags)) == set t | t in tags
  {
    forall t | t in tags ensures t in Tags(Drops(tags)) {
      var i :| 0 <= i < |tags| && tags[i] == t;
      assert Drops(tags)[i] in Drops(tags);
    }
  }

  predicate Distinct(tags: seq<nat>) { forall i, j :: 0 <= i < j < |tags| ==> tags[i] != tags[j] }

  /** Dropping senders that had not been resolved. */
  lemma DropOnce(log: seq<Event>, tags: seq<nat>)
    requires Once(log) && AllRightlyHanded(log) && Distinct(tags)
    requires forall i :: 0 <= i < |tags| ==> tags[i] !in Tags(log)
    ensures Once(log + Drops(tags)) && AllRightlyHanded(log + Drops(tags))
    ensures Tags(log + Drops(tags)) == Tags(log) + set t | t in tags
  {
    TagsGrow(log, Drops(tags));
    TagsOfDrops(tags);
    forall i | 0 <= i < |log| ensures log[i].tag in Tags(log) {
      assert log[i] in log;
    }
  }

  lemma ReplyOnce(log: seq<Event>, e: Event)
    requires Once(log) && AllRightlyHanded(log) && RightlyHanded(e) && e.tag !in Tags(log)
    ensures Once(log + [e]) && AllRightlyHanded(log + [e])
    ensures Tags(log + [e]) == Tags(log) + {e.tag}
  {
    TagsGrow(log, [e]);
    forall i | 0 <= i < |log| ensures log[i].tag in Tags(log) {
      assert log[i] in log;
    }
  }

  /** The senders in the pending map are those of the registered jobs that are not resolved. */
  lemma SendersAreWaiting(log: seq<Event>, pending: map<nat, nat>, registered: nat, order: seq<nat>)
    requires Waiting(pending, registered) && Partition(log, pending, registered) && Orders(order, pending)
    ensures Distinct(Senders(order, pending))
    ensures forall t :: t in Senders(order, pending) <==> 0 <= t < registered && t !in Tags(log)
  {
    var tags := Senders(order, pending);
    forall i, j | 0 <= i < j < |tags| ensures tags[i] != tags[j] {
      assert IdOf(tags[i]) == order[i] && IdOf(tags[j]) == order[j];
    }
    forall t | 0 <= t < registered && t !in Tags(log) ensures t in tags {
      assert Waits(pending, t);
      var i :| 0 <= i < |order| && order[i] == IdOf(t);
      assert tags[i] == t;
    }
    forall t | t in tags ensures 0 <= t < registered && t !in Tags(log) {
      var i :| 0 <= i < |tags| && tags[i] == t;
      assert IdOf(t) == order[i];
      assert Waits(pending, t);
    }
  }

  /** Dropping the whole map resolves every registered job that was waiting. */
  lemma ClearingResolves(log: seq<Event>, pending: map<nat, nat>, registered: nat, order: seq<nat>, bound: nat)
    requires Waiting(pending, registered) && Partition(log, pending, registered) && Orders(order, pending)
    requires Once(log) && AllRightlyHanded(log) && TagsBelow(log, bound) && registered <= bound
    ensures var after := log + Drops(Senders(order, pending));
      && Once(after) && AllRightlyHanded(after) && TagsBelow(after, bound)
      && Partition(after, map[], registered)
      && Tags(log) <= Tags(after)
  {
    SendersAreWaiting(log, pending, registered, order);
    DropOnce(log, Senders(order, pending));
  }

  lemma WaitingGrows(pending: map<nat, nat>, n: nat)
    requires Waiting(pending, n)
    ensures Waiting(pending[IdOf(n) := n], n + 1)
  {
    forall id | id in pending && id != IdOf(n) ensures n + 1 <= pending[id] + IDS {
      ComesRound(pending[id]);
    }
  }

  /** Registering job n under its id drops the sender of job n - IDS, if that is still waiting. */
  lemma RegisteringKeeps(log: seq<Event>, pending: map<nat, nat>, n: nat)
    requires Waiting(pending, n) && Partition(log, pending, n)
    requires Once(log) && AllRightlyHanded(log) && TagsBelow(log, n)
    ensures var after := log + Replaced(pending, IdOf(n));
      && Once(after) && AllRightlyHanded(after) && TagsBelow(after, n + 1)
      && Waiting(pending[IdOf(n) := n], n + 1)
      && Partition(after, pending[IdOf(n) := n], n + 1)
  {
    var id := IdOf(n);
    var more := pending[id := n];
    WaitingGrows(pending, n);
    if id in pending {
      assert Waits(pending, pending[id]);
      DropOnce(log, [pending[id]]);
    } else {
      assert log + [] == log;
    }
    assert n !in Tags(log);
    forall t | 0 <= t < n ensures Waits(more, t) <==> Waits(pending, t) && IdOf(t) != id {
    }
  }

  /** Whose sender a reply finds. */
  lemma ReplyFinds(pending: map<nat, nat>, registered: nat, f: Frame)
    requires Waiting(pending, registered) && f.tag < registered && f.id == IdOf(f.tag) && f.id in pending
    ensures pending[f.id] == f.tag <==> registered <= f.tag + IDS
  {
    if registered <= f.tag + IDS {
      SameId(pending[f.id], f.tag);
    }
  }

  lemma HandingKeeps(log: seq<Event>, pending: map<nat, nat>, registered: nat, f: Frame)
    requires Waiting(pending, registered) && Partition(log, pending, registered)
    requires Once(log) && AllRightlyHanded(log)
    requires f.tag < registered && f.id == IdOf(f.tag) && f.id in pending
    ensures var e := Event(pending[f.id], Replied(f.tag, registered)); var after := log + [e];
      && e.tag < registered
      && Once(after) && AllRightlyHanded(after) && Tags(after) == Tags(log) + {e.tag}
      && Waiting(pending - {f.id}, registered)
      && Partition(after, pending - {f.id}, registered)
  {
    var e := Event(pending[f.id], Replied(f.tag, registered));
    assert Waits(pending, e.tag);
    ReplyFinds(pending, registered, f);
    ReplyOnce(log, e);
    forall t | 0 <= t < registered
      ensures Waits(pending - {f.id}, t) <==> Waits(pending, t) && t != e.tag
    {
    }
  }

  lemma RegisterKeeps(s: State)
    requires Inv(s) && Enabled(s, Register)
    ensures Inv(Apply(s, Register))
  {
    hide Waiting, AllRightlyHanded, Once, Partition, TagsBelow;
    var tag, s' := s.writer.batch[0], Apply(s, Register);
    NextIdOf(tag);
    RegisteringKeeps(s.log, s.pending, tag);
    assert s'.Batch() == s.Batch()[1..];
    assert Fifo(s') by {
      assert forall i :: 0 <= i < |s'.Batch()| ==> s'.Batch()[i] == s.Batch()[i + 1];
    }
    assert Frames(s');
    assert RoundsCount(s');
  }

  lemma WriterReturnsRest(s: State, order: seq<nat>)
    requires Inv(s) && Enabled(s, WriterReturns(order))
    ensures var s' := Apply(s, WriterReturns(order));
      Fifo(s') && Frames(s') && Waiting(s'.pending, s'.registered) && RoundsCount(s')
  {
    hide Resolutions, Orders, IdOf, Drops, Senders;
  }

  lemma WriterReturnsResolves(s: State, order: seq<nat>)
    requires Fifo(s) && Resolutions(s) && Waiting(s.pending, s.registered) && Enabled(s, WriterReturns(order))
    ensures Resolutions(Apply(s, WriterReturns(order)))
  {
    var left := s.Batch() + s.queue;
    assert forall i :: 0 <= i < |left| ==> left[i] == s.registered + i;
    DropOnce(s.log, left);
    forall t | s.registered <= t < s.issued ensures t in left {
      assert left[t - s.registered] == t;
    }
    if !s.readerUp {
      ClearingResolves(s.log + Drops(left), s.pending, s.registered, order, s.issued);
    }
  }

  lemma WriterReturnsKeeps(s: State, order: seq<nat>)
    requires Inv(s) && Enabled(s, WriterReturns(order))
    ensures Inv(Apply(s, WriterReturns(order)))
  {
    hide Fifo, Frames, Waiting, Resolutions, RoundsCount;
    WriterReturnsRest(s, order);
    WriterReturnsResolves(s, order);
  }

  lemma ReaderReturnsKeeps(s: State, order: seq<nat>)
    requires Inv(s) && Enabled(s, ReaderReturns(order))
    ensures Inv(Apply(s, ReaderReturns(order)))
  {
    ClearingResolves(s.log, s.pending, s.registered, order, if s.Alive() then s.registered else s.issued);
  }

  lemma DeliverKeeps(s: State)
    requires Inv(s) && Enabled(s, Deliver)
    ensures Inv(Apply(s, Deliver))
  {
    hide Waiting, Once, AllRightlyHanded, Partition, Tags, IdOf;
    var f := s.inbox[0];
    if f.id in s.pending {
      HandingKeeps(s.log, s.pending, s.registered, f);
    }
    FramesDelivered(s);
  }

  lemma FramesDelivered(s: State)
    requires Frames(s) && Enabled(s, Deliver)
    ensures Frames(Apply(s, Deliver))
  {
    assert Apply(s, Deliver).inbox == s.inbox[1..];
  }

  lemma CallerStepKeeps(s: State, step: Step)
    requires Inv(s) && Enabled(s, step)
    requires step.Issue? || step.CloseHandle? || step.ServerReplies?
    ensures Inv(Apply(s, step))
  {
    hide Waiting, IdOf, AllRightlyHanded, Once, Partition, Tags;
  }

  lemma BatchStepKeeps(s: State, step: Step)
    requires Inv(s) && Enabled(s, step)
    requires step.Take? || step.TopUp? || step.Commit?
    ensures Inv(Apply(s, step))
  {
  }

  lemma SendStepKeeps(s: State, step: Step)
    requires Inv(s) && Enabled(s, step) && (step.Write? || step.Flush?)
    ensures Inv(Apply(s, step))
  {
  }

  lemma StepKeeps(s: State, step: Step)
    requires Inv(s) && Enabled(s, step)
    ensures Inv(Apply(s, step))
  {
    match step
    case Register => RegisterKeeps(s);
    case WriterReturns(order) => WriterReturnsKeeps(s, order);
    case ReaderReturns(order) => ReaderReturnsKeeps(s, order);
    case Deliver => DeliverKeeps(s);
    case Write => SendStepKeeps(s, step);
    case Flush => SendStepKeeps(s, step);
    case Take(_) => BatchStepKeeps(s, step);
    case TopUp => BatchStepKeeps(s, step);
    case Commit => BatchStepKeeps(s, step);
    case _ => CallerStepKeeps(s, step);
  }

  lemma {:induction false} RunKeeps(s: State, run: seq<Step>)
    requires Inv(s) && Possible(s, run)
    ensures Inv(After(s, run))
    decreases |run|
  {
    if run != [] {
      StepKeeps(s, run[0]);
      RunKeeps(Apply(s, run[0]), run[1..]);
    }
  }

  // ---- What a whole run promises ----

  ghost predicate Reachable(s: State)
  {
    exists run :: Possible(Start(), run) && After(Start(), run) == s
  }

  lemma {:induction false} RunThen(s: State, run: seq<Step>, step: Step)
    requires Possible(s, run) && Enabled(After(s, run), step)
    ensures Possible(s, run + [step]) && After(s, run + [step]) == Apply(After(s, run), step)
    decreases |run|
  {
    if run == [] {
      assert run + [step] == [step] && [step][1..] == [];
    } else {
      assert (run + [step])[0] == run[0] && (run + [step])[1..] == run[1..] + [step];
      RunThen(Apply(s, run[0]), run[1..], step);
    }
  }

  lemma ReachedNext(s: State, step: Step)
    requires Reachable(s) && Enabled(s, step)
    ensures Reachable(Apply(s, step))
  {
    var run :| Possible(Start(), run) && After(Start(), run) == s;
    RunThen(Start(), run, step);
  }

  lemma StartReached()
    ensures Reachable(Start())
  {
    assert Possible(Start(), []) && After(Start(), []) == Start();
  }

  lemma ReachableInv(s: State)
    requires Reachable(s)
    ensures Inv(s)
  {
    var run :| Possible(Start(), run) && After(Start(), run) == s;
    RunKeeps(Start(), run);
  }

  /** A reply goes to the caller it answers if and only if its request was not left unanswered across IDS later ones. */
  lemma RepliesReachTheirCallers(s: State)
    requires Reachable(s)
    ensures forall e :: e in s.log && e.how.Replied? ==> (e.tag == e.how.cause <==> e.how.at <= e.how.cause + IDS)
  {
    ReachableInv(s);
    forall e | e in s.log && e.how.Replied? ensures e.tag == e.how.cause <==> e.how.at <= e.how.cause + IDS {
      var i :| 0 <= i < |s.log| && s.log[i] == e;
      assert RightlyHanded(s.log[i]);
    }
  }

  predicate ResolvedOnce(log: seq<Event>, tag: nat)
  {
    exists i :: 0 <= i < |log| && log[i].tag == tag && forall j :: 0 <= j < |log| && j != i ==> log[j].tag != tag
  }

  /** Nobody is resolved twice; and when both tasks have returned, nobody is left waiting. */
  lemma EveryJobResolvedOnce(s: State, tag: nat)
    requires Reachable(s)
    ensures (exists e :: e in s.log && e.tag == tag) ==> tag < s.issued && ResolvedOnce(s.log, tag)
    ensures s.BothReturned() && tag < s.issued ==> ResolvedOnce(s.log, tag)
  {
    ReachableInv(s);
    if s.BothReturned() && tag < s.registered {
      assert !Waits(s.pending, tag);
    }
    if tag in Tags(s.log) {
      var e :| e in s.log && e.tag == tag;
      var i :| 0 <= i < |s.log| && s.log[i] == e;
    }
  }

  /** Rounds against requests, whatever the interleaving. */
  lemma RoundsWithin(s: State)
    requires Reachable(s)
    ensures s.rounds <= s.registered <= 256 * (s.rounds + 1)
    ensures |s.Batch()| <= 256 && |s.queue| <= 1024
  {
    ReachableInv(s);
  }

  // ---- The writer gets on ----

  predicate IsWriters(step: Step)
  {
    step.Take? || step.TopUp? || step.Commit? || step.Register? || step.Write? || step.Flush?
  }

  /** As long as it has not returned, a writer with anything to do can do some of it, whatever the others are at. */
  lemma WriterGetsOn(s: State)
    requires Reachable(s) && s.Alive() && (s.queue != [] || s.writer != Idle)
    ensures exists step :: IsWriters(step) && Enabled(s, step)
  {
    ReachableInv(s);
    var step := match s.writer
      case Idle => Take(1)
      case Filling(_) => if |s.writer.batch| < MAX_BATCH && s.queue != [] then TopUp else Commit
      case Sending(batch, unsent) => if unsent.Some? then Write else if batch != [] then Register else Flush
      case Returned => Flush;
    assert IsWriters(step) && Enabled(s, step);
  }

  /** A writer that returns with nothing in hand leaves nobody behind in the queue, and nobody who could still send. */
  lemma IdleLosesNothing(s: State, order: seq<nat>)
    requires Enabled(s, WriterReturns(order)) && s.writer == Idle
    ensures !s.handleOpen && (s.readerUp ==> WriterGone(s, order).log == s.log)
  {
    var left := Drops(s.Batch() + s.queue);
    assert left == [] && s.log + left == s.log;
  }

  /** One that returns while sending has a frame to write or a round to flush, either of which may fail. */
  lemma FailsWhileSending(s: State, order: seq<nat>)
    requires Enabled(s, WriterReturns(order)) && s.writer != Idle
    ensures Enabled(s, Write) || Enabled(s, Flush)
  {
  }

  // ---- No reply is lost ----

  /** No reply is on its way twice; while the reader is up a sender is dropped only for its id or with the writer. */
  predicate Unlost(s: State)
  {
    && (forall i :: 0 <= i < |s.log| && s.log[i].how.Replied? ==> NotComing(s, s.log[i].how.cause))
    && (s.readerUp ==> forall i :: 0 <= i < |s.log| && s.log[i].how.Dropped? ==>
        s.log[i].tag >= s.registered || s.registered > s.log[i].tag + IDS)
  }

  predicate NotComing(s: State, tag: nat)
  {
    tag < WrittenBefore(s) && Frame(IdOf(tag), tag) !in s.wire && Frame(IdOf(tag), tag) !in s.inbox
  }

  lemma UnlostRegister(s: State)
    requires Inv(s) && Unlost(s) && Enabled(s, Register)
    ensures Unlost(Apply(s, Register))
  {
    forall i | 0 <= i < |s.log| ensures s.log[i].tag < s.registered {
      assert s.log[i].tag in Tags(s.log);
    }
    if s.nextId in s.pending && s.registered < s.pending[s.nextId] + IDS {
      SameId(s.pending[s.nextId], s.registered);
    }
  }

  lemma UnlostReplies(s: State, f: Frame)
    requires Inv(s) && Unlost(s) && Enabled(s, ServerReplies(f))
    ensures Unlost(Apply(s, ServerReplies(f)))
  {
  }

  lemma UnlostReturns(s: State, step: Step)
    requires Inv(s) && Unlost(s) && Enabled(s, step) && (step.WriterReturns? || step.ReaderReturns?)
    ensures Unlost(Apply(s, step))
  {
  }

  lemma UnlostDeliver(s: State)
    requires Inv(s) && Unlost(s) && Enabled(s, Deliver)
    ensures Unlost(Apply(s, Deliver))
  {
    var f := s.inbox[0];
    assert f.id == IdOf(f.tag);
    assert f !in s.inbox[1..];
    assert f !in s.wire;
    assert forall g :: g in s.inbox[1..] ==> g in s.inbox;
  }

  lemma UnlostOther(s: State, step: Step)
    requires Inv(s) && Unlost(s) && Enabled(s, step)
    requires step.Issue? || step.CloseHandle? || step.Take? || step.TopUp? || step.Commit? || step.Write? || step.Flush?
    ensures Unlost(Apply(s, step))
  {
  }

  lemma StepUnlost(s: State, step: Step)
    requires Inv(s) && Unlost(s) && Enabled(s, step)
    ensures Unlost(Apply(s, step))
  {
    match step
    case Register => UnlostRegister(s);
    case ServerReplies(f) => UnlostReplies(s, f);
    case WriterReturns(_) => UnlostReturns(s, step);
    case ReaderReturns(_) => UnlostReturns(s, step);
    case Deliver => UnlostDeliver(s);
    case _ => UnlostOther(s, step);
  }

  lemma {:induction false} RunUnlost(s: State, run: seq<Step>)
    requires Inv(s) && Unlost(s) && Possible(s, run)
    ensures Unlost(After(s, run))
    decreases |run|
  {
    if run != [] {
      StepUnlost(s, run[0]);
      StepKeeps(s, run[0]);
      RunUnlost(Apply(s, run[0]), run[1..]);
    }
  }

  predicate InTime(e: Event) { e.how.Replied? ==> e.how.at <= e.how.cause + IDS }

  /** As long as every reply comes in time, the next one in the reader's hands resolves its own caller. */
  lemma NoReplyIsLost(s: State)
    requires Reachable(s) && Enabled(s, Deliver)
    requires forall e :: e in s.log ==> InTime(e)
    requires s.registered <= s.inbox[0].tag + IDS
    ensures var tag := s.inbox[0].tag;
      Apply(s, Deliver).log == s.log + [Event(tag, Replied(tag, s.registered))]
  {
    ReachableInv(s);
    var run :| Possible(Start(), run) && After(Start(), run) == s;
    RunUnlost(Start(), run);
    var f := s.inbox[0];
    assert f in s.inbox;
    forall i | 0 <= i < |s.log| ensures s.log[i].tag != f.tag {
      assert RightlyHanded(s.log[i]) && InTime(s.log[i]);
    }
    assert f.tag !in Tags(s.log);
    assert Waits(s.pending, f.tag);
  }

  /** A caller hears that the session closed only when it has, or when its id was needed again. */
  lemma DroppedOnlyAtTheEnd(s: State)
    requires Reachable(s)
    ensures forall e :: e in s.log && e.how.Dropped? ==> !s.readerUp || !s.Alive() || e.tag + IDS < s.registered
  {
    ReachableInv(s);
    var run :| Possible(Start(), run) && After(Start(), run) == s;
    RunUnlost(Start(), run);
    forall e | e in s.log && e.how.Dropped? && s.readerUp && s.Alive() ensures e.tag + IDS < s.registered {
      var i :| 0 <= i < |s.log| && s.log[i] == e;
      assert e.tag in Tags(s.log);
    }
  }

  // ---- When the reader has gone and the writer has not ----

  lemma DeafStep(s: State, step: Step, tag: nat)
    requires Inv(s) && !s.readerUp && Enabled(s, step) && tag < s.registered
    requires Waits(s.pending, tag)
    ensures var s' := Apply(s, step);
      && !s'.readerUp && tag < s'.registered
      && (Waits(s'.pending, tag) <==> s'.Alive() && s'.registered <= tag + IDS)
  {
    StepKeeps(s, step);
    var s' := Apply(s, step);
    assert Waiting(s.pending, s.registered) && Waiting(s'.pending, s'.registered);
    assert s.pending[IdOf(tag)] == tag;
    if step == Register && IdOf(s.registered) == IdOf(tag) {
      if s.registered < tag + IDS {
        SameId(s.registered, tag);
      }
    }
  }

  lemma {:induction false} SettledStays(s: State, run: seq<Step>, tag: nat)
    requires Inv(s) && Possible(s, run) && tag < s.registered && !Waits(s.pending, tag)
    ensures !Waits(After(s, run).pending, tag)
    decreases |run|
  {
    if run != [] {
      var s' := Apply(s, run[0]);
      StepKeeps(s, run[0]);
      assert tag in Tags(s.log);
      TagsStay(s, run[0]);
      SettledStays(s', run[1..], tag);
    }
  }

  lemma TagsStay(s: State, step: Step)
    requires Enabled(s, step)
    ensures Tags(s.log) <= Tags(Apply(s, step).log)
  {
    assert s.log <= Apply(s, step).log;
  }

  lemma {:induction false} RunsOn(s: State, run: seq<Step>)
    requires Inv(s) && Possible(s, run)
    ensures var s' := After(s, run);
      s.registered <= s'.registered && (s'.Alive() ==> s.Alive())
    decreases |run|
  {
    if run != [] {
      StepKeeps(s, run[0]);
      RunsOn(Apply(s, run[0]), run[1..]);
    }
  }

  /**
   `is_alive` is not enough to promise an answer. Once the reader has returned, a job in the map
   waits exactly until the writer returns too or its id comes round again, however the run goes on.
   */
  lemma {:induction false} DeafSessionLeavesWaiting(s: State, run: seq<Step>, tag: nat)
    requires Inv(s) && !s.readerUp && Possible(s, run) && tag < s.registered && Waits(s.pending, tag) && s.Alive()
    ensures var s' := After(s, run);
      Waits(s'.pending, tag) <==> s'.Alive() && s'.registered <= tag + IDS
    decreases |run|
  {
    if run == [] {
      assert s.pending[IdOf(tag)] == tag;
    } else {
      var s1 := Apply(s, run[0]);
      DeafStep(s, run[0], tag);
      StepKeeps(s, run[0]);
      if Waits(s1.pending, tag) {
        DeafSessionLeavesWaiting(s1, run[1..], tag);
      } else {
        SettledStays(s1, run[1..], tag);
        RunsOn(s1, run[1..]);
      }
    }
  }

  /** Such a state is reachable: the reader ends, a job is sent, and the session still calls itself alive. */
  lemma DeafSessionExists()
    ensures exists s :: Reachable(s) && s.Alive() && !s.readerUp && s.issued == 1 && Waits(s.pending, 0)
  {
    hide Reachable, Inv;
    StartReached();
    var s1 := Apply(Start(), ReaderReturns([]));
    ReachedNext(Start(), ReaderReturns([]));
    var s2 := Apply(s1, Issue);
    ReachedNext(s1, Issue);
    var s3 := Apply(s2, Take(1));
    ReachedNext(s2, Take(1));
    var s4 := Apply(s3, Commit);
    ReachedNext(s3, Commit);
    assert s4.writer == Sending([0], None);
    var s5 := Apply(s4, Register);
    ReachedNext(s4, Register);
    assert Waits(s5.pending, 0);
  }

  // ---- The window is needed ----

  /** k jobs have been sent one at a time, and the first has had no answer. */
  ghost predicate FirstUnanswered(s: State, k: nat)
  {
    && Reachable(s) && s.handleOpen && s.readerUp && s.writer == Idle && s.queue == [] && s.inbox == []
    && s.registered == k && (k > 0 ==> Frame(1, 0) in s.wire && IdOf(k - 1) in s.pending)
  }

  lemma SendOne(s: State, k: nat) returns (s': State)
    requires FirstUnanswered(s, k)
    ensures FirstUnanswered(s', k + 1)
  {
    ReachableInv(s);
    var tag := s.issued;
    var s1 := Apply(s, Issue);
    ReachedNext(s, Issue);
    var s2 := Apply(s1, Take(1));
    ReachedNext(s1, Take(1));
    var s3 := Apply(s2, Commit);
    ReachedNext(s2, Commit);
    assert s3.writer == Sending([tag], None);
    s' := SendRegistered(s3, k);
  }

  lemma SendRegistered(s: State, k: nat) returns (s': State)
    requires Reachable(s) && s.handleOpen && s.readerUp && s.queue == [] && s.inbox == []
    requires s.registered == k && s.writer == Sending([k], None)
    requires k > 0 ==> Frame(1, 0) in s.wire
    ensures FirstUnanswered(s', k + 1)
  {
    ReachableInv(s);
    var s1 := Apply(s, Register);
    ReachedNext(s, Register);
    var s2 := Apply(s1, Write);
    ReachedNext(s1, Write);
    s' := Apply(s2, Flush);
    ReachedNext(s2, Flush);
  }

  lemma SendMany(k: nat) returns (s: State)
    ensures FirstUnanswered(s, k)
  {
    s := Start();
    StartReached();
    for i := 0 to k
      invariant FirstUnanswered(s, i)
    {
      s := SendOne(s, i);
    }
  }

  /** Leave one request unanswered while every other id is used, and its reply goes to a stranger. */
  lemma WindowIsNeeded()
    ensures exists s, e :: Reachable(s) && e in s.log && e.how.Replied? && e.tag != e.how.cause
  {
    var s := SendMany(IDS + 1);
    var f := Frame(1, 0);
    assert IdOf(IDS) == 1;
    var s1 := Apply(s, ServerReplies(f));
    ReachedNext(s, ServerReplies(f));
    assert s1.inbox == [f];
    var s2 := Apply(s1, Deliver);
    ReachedNext(s1, Deliver);
    RepliesReachTheirCallers(s2);
    var e := Event(s1.pending[1], Replied(0, IDS + 1));
    assert e in s2.log;
  }
}
