/**
 The two driver tasks as code over their shared state, fs/sftp.rs:93-125 and 480-537. Each method
 does what one stretch of a task between two awaits does; Mux says what any interleaving of them comes to.
 */
module Driver {
  import opened Common
  import opened Mux

  /** Some order for a map's ids to be visited in. */
  lemma SomeOrder(pending: map<nat, nat>) returns (order: seq<nat>)
    ensures Orders(order, pending)
  {
    order := [];
    var left := pending.Keys;
    while left != {}
      invariant left <= pending.Keys
      invariant forall i :: 0 <= i < |order| ==> order[i] in pending && order[i] !in left
      invariant forall id :: id in pending ==> id in left || id in order
      invariant forall i, j :: 0 <= i < j < |order| ==> order[i] != order[j]
      decreases |left|
    {
      var id :| id in left;
      order := order + [id];
      left := left - {id};
    }
  }

  class Session {
    /** The job channel. */
    var queue: seq<nat>
    var issued: nat
    var handleOpen: bool
    /** The write half's id counter, the jobs in the writer's hands, and whether it has returned. */
    var nextId: nat
    var batch: seq<nat>
    var writerUp: bool
    /** Shared by both tasks. */
    var pending: map<nat, nat>
    var rounds: nat
    /** Requests the server has yet to answer. */
    var wire: set<Frame>
    /** The read half: replies that have arrived, and whether its task has returned. */
    var inbox: seq<Frame>
    var readerUp: bool
    ghost var now: State

    /** The fields are those of a state some run leads to. */
    ghost predicate Valid()
      reads this
    {
      && Reachable(now)
      && queue == now.queue && issued == now.issued && handleOpen == now.handleOpen
      && nextId == now.nextId && batch == now.Batch() && writerUp == now.Alive()
      && pending == now.pending && rounds == now.rounds
      && wire == now.wire && inbox == now.inbox && readerUp == now.readerUp
    }

    constructor ()
      ensures Valid() && now == Start()
    {
      queue, issued, handleOpen, nextId, batch, writerUp := [], 0, true, 1, [], true;
      pending, rounds, wire, inbox, readerUp := map[], 0, {}, [], true;
      now := Start();
      new;
      StartReached();
    }

    ghost method Record(step: Step)
      requires Reachable(now) && Enabled(now, step)
      modifies `now
      ensures now == Apply(old(now), step) && Reachable(now)
    {
      ReachedNext(now, step);
      now := Apply(now, step);
    }

    /** `is_alive` */
    predicate IsAlive()
      reads this
    {
      writerUp
    }

    /** Hand a job to the writer; None while the channel is full, and for good once it is closed. */
    method Issue() returns (accepted: Option<nat>)
      requires Valid()
      modifies `queue, `issued, `now
      ensures Valid()
      ensures accepted.Some? <==> old(Enabled(now, Step.Issue))
      ensures accepted.Some? ==> accepted.value == old(issued) && now == Apply(old(now), Step.Issue)
      ensures accepted.None? ==> now == old(now)
    {
      if !handleOpen || !writerUp || |queue| >= QUEUE_DEPTH {
        return None;
      }
      accepted := Some(issued);
      queue, issued := queue + [issued], issued + 1;
      Record(Step.Issue);
    }

    /** Ids run from 1 and skip 0 when they wrap, sftp/mod.rs:62-67. */
    method AllocId() returns (id: nat)
      requires 0 < nextId < U32_SPAN
      modifies `nextId
      ensures id == old(nextId) && nextId == NextId(id) && 0 < nextId < U32_SPAN
      ensures forall k: nat :: id == IdOf(k) ==> nextId == IdOf(k + 1)
    {
      id := nextId;
      var wrapped := if nextId == U32_SPAN - 1 then 0 else nextId + 1;
      nextId := Max(wrapped, 1);
    }

    /** One job out of the batch: an id for it, and its sender into the map before anything is written. */
    method RegisterFirst() returns (frame: Frame)
      requires Valid() && Enabled(now, Register)
      modifies `nextId, `batch, `pending, `now
      ensures Valid() && now == Apply(old(now), Register)
      ensures now.writer.unsent == Some(frame)
    {
      ReachableInv(now);
      var id := AllocId();
      frame := Frame(id, batch[0]);
      pending := pending[id := batch[0]];
      batch := batch[1..];
      Record(Register);
    }

    /** The writer returns: what it still holds goes with it, and the map too if the reader has gone. */
    method WriterGoes()
      requires Valid() && MayReturn(now)
      modifies `queue, `batch, `writerUp, `pending, `now
      ensures Valid() && exists order ::
        Enabled(old(now), WriterReturns(order)) && now == Apply(old(now), WriterReturns(order))
      ensures now.writer == Returned && old(now.log) <= now.log
    {
      hide Reachable;
      ghost var order := SomeOrder(pending);
      queue, batch, writerUp := [], [], false;
      if !readerUp {
        pending := map[];
      }
      Record(WriterReturns(order));
    }

    /** One turn of the reader's loop: a reply for whoever waits under its id, or the end of the stream. */
    method ReaderTurn(failed: bool)
      requires Valid() && readerUp
      modifies `pending, `inbox, `readerUp, `now
      ensures Valid() && now.writer == old(now.writer) && old(now.log) <= now.log
      ensures now.registered == old(now.registered)
      ensures failed ==> !readerUp && pending == map[]
      ensures failed ==> exists order :: Orders(order, old(pending)) && now == Apply(old(now), ReaderReturns(order))
      ensures !failed ==> now == if old(inbox) != [] then Apply(old(now), Deliver) else old(now)
    {
      if failed {
        ghost var order := SomeOrder(pending);
        pending, readerUp := map[], false;
        Record(ReaderReturns(order));
      } else if inbox != [] {
        var reply := inbox[0];
        inbox := inbox[1..];
        pending := pending - {reply.id};
        Record(Deliver);
      }
    }

    method ServerAnswers(f: Frame)
      requires Valid() && f in wire
      modifies `wire, `inbox, `now
      ensures Valid() && now == Apply(old(now), ServerReplies(f))
    {
      wire, inbox := wire - {f}, inbox + [f];
      Record(ServerReplies(f));
    }

    method CloseLastHandle()
      requires Valid() && handleOpen
      modifies `handleOpen, `now
      ensures Valid() && now == Apply(old(now), CloseHandle)
    {
      handleOpen := false;
      Record(CloseHandle);
    }

    /** Whatever the callers, the server and the reader do while the writer awaits. */
    method OthersRun()
      requires Valid()
      modifies `queue, `issued, `handleOpen, `pending, `wire, `inbox, `readerUp, `now
      ensures Valid() && now.writer == old(now.writer)
      ensures old(now.log) <= now.log && now.registered == old(now.registered) && old(queue) <= queue
    {
      var steps: seq<Step> := *;
      for i := 0 to |steps|
        invariant Valid() && now.writer == old(now.writer) && old(now.log) <= now.log
        invariant now.registered == old(now.registered) && old(queue) <= queue
      {
        match steps[i] {
          case Issue => var _ := Issue();
          case CloseHandle => if handleOpen { CloseLastHandle(); }
          case ServerReplies(f) => if f in wire { ServerAnswers(f); }
          case Deliver => if readerUp { ReaderTurn(false); }
          case ReaderReturns(_) => if readerUp { ReaderTurn(true); }
          case _ =>
        }
      }
    }

    /** One turn of the writer's loop: a batch taken, topped up, sent and flushed as one round. */
    method WriterTurn() returns (going: bool)
      requires Valid() && now.writer == Idle
      modifies this
      ensures Valid() && now.writer == if going then Idle else Returned
      ensures old(now.log) <= now.log
      ensures rounds == old(rounds) || (rounds == old(rounds) + 1 && going)
      ensures going && old(queue) != [] ==>
        rounds == old(rounds) + 1 && now.registered >= old(now.registered) + Min(|old(queue)|, MAX_BATCH)
    {
      OthersRun();
      if queue == [] {
        if handleOpen {
          return true;
        }
        WriterGoes();
        return false;
      }
      var n := Min(|queue|, MAX_BATCH);
      batch, queue := queue[..n], queue[n..];
      Record(Take(n));
      FillUp();
      going := SendBatch();
    }

    /** Jobs that arrive while the writer waits for siblings join its batch, as long as there is room. */
    method FillUp()
      requires Valid() && now.writer.Filling? && |batch| <= MAX_BATCH
      modifies this
      ensures Valid() && now.writer.Sending? && now.writer.unsent.None?
      ensures old(now.log) <= now.log && rounds == old(rounds) && now.registered == old(now.registered)
      ensures old(batch) <= batch && |batch| <= MAX_BATCH
    {
      hide Reachable;
      if |batch| < MAX_BATCH {
        OthersRun();
        while |batch| < MAX_BATCH && queue != []
          invariant Valid() && now.writer.Filling? && |batch| <= MAX_BATCH
          invariant old(now.log) <= now.log && rounds == old(rounds) && now.registered == old(now.registered)
          invariant old(batch) <= batch
          decreases MAX_BATCH - |batch|
        {
          batch, queue := batch + [queue[0]], queue[1..];
          Record(TopUp);
        }
      }
      Record(Commit);
    }

    /** Every job of the batch registered and written, and then one flush for all of them. */
    method SendBatch() returns (going: bool)
      requires Valid() && now.writer.Sending? && now.writer.unsent.None?
      modifies this
      ensures Valid() && now.writer == if going then Idle else Returned
      ensures old(now.log) <= now.log
      ensures rounds == if going then old(rounds) + 1 else old(rounds)
      ensures going ==> now.registered == old(now.registered) + |old(batch)|
    {
      while batch != []
        invariant Valid() && now.writer.Sending? && now.writer.unsent.None?
        invariant old(now.log) <= now.log && rounds == old(rounds)
        invariant now.registered + |batch| == old(now.registered) + |old(batch)|
        decreases |batch|
      {
        var sent := SendFirst();
        if !sent {
          return false;
        }
      }
      going := FlushRound();
    }

    method SendFirst() returns (sent: bool)
      requires Valid() && now.writer.Sending? && now.writer.unsent.None? && batch != []
      modifies this
      ensures Valid() && now.writer == if sent then Sending(old(batch)[1..], None) else Returned
      ensures old(now.log) <= now.log && rounds == old(rounds)
      ensures sent ==> now.registered == old(now.registered) + 1
    {
      hide Reachable;
      OthersRun();
      var frame := RegisterFirst();
      OthersRun();
      var failed: bool := *;
      if failed {
        WriterGoes();
        return false;
      }
      wire := wire + {frame};
      Record(Write);
      sent := true;
    }

    method FlushRound() returns (flushed: bool)
      requires Valid() && now.writer == Sending([], None)
      modifies this
      ensures Valid() && now.writer == if flushed then Idle else Returned
      ensures old(now.log) <= now.log
      ensures rounds == if flushed then old(rounds) + 1 else old(rounds)
      ensures flushed ==> now.registered == old(now.registered)
    {
      OthersRun();
      var failed: bool := *;
      if failed {
        WriterGoes();
        return false;
      }
      rounds := rounds + 1;
      Record(Flush);
      flushed := true;
    }
  }
}
