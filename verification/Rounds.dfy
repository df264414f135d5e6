/**
 Why a round of requests may be taken to come back as SftpFiles.RoundTrip says: the multiplexer, job by job,
 hands each caller the reply to its own request or tells it that the session has ended.
 */
module Rounds {
  import opened Common
  import opened Remotes
  import opened Mux

  /** What the callers hear: nothing yet, the reply to some job's request, or that the session has closed. */
  function HeardIn(remote: Remote, calls: seq<Call>, log: seq<Event>, tag: nat): Option<Remotes.Reply>
    requires forall e :: e in log && e.how.Replied? ==> e.how.cause < |calls|
  {
    if log == [] then None
    else
      var e := log[|log| - 1];
      if e.tag != tag then HeardIn(remote, calls, log[..|log| - 1], tag)
      else if e.how.Replied? then Some(ReplyTo(remote, calls[e.how.cause]))
      else Some(NoReply)
  }

  /** The stream carries requests and replies. */
  predicate Up(s: State) { s.readerUp && s.Alive() }

  /** Every reply on its way, and every one handed over, answers a job that has been issued. */
  lemma CausesIssued(s: State)
    requires Reachable(s)
    ensures forall e :: e in s.log && e.how.Replied? ==> e.how.cause < s.issued
  {
    ReachableInv(s);
    var run :| Possible(Start(), run) && After(Start(), run) == s;
    RunUnlost(Start(), run);
    forall e | e in s.log && e.how.Replied? ensures e.how.cause < s.issued {
      var i :| 0 <= i < |s.log| && s.log[i] == e;
      assert NotComing(s, e.how.cause);
    }
  }

  lemma {:induction false} HeardMeans(remote: Remote, calls: seq<Call>, log: seq<Event>, tag: nat) returns (e: Event)
    requires forall e :: e in log && e.how.Replied? ==> e.how.cause < |calls|
    requires tag in Tags(log)
    ensures e in log && e.tag == tag
    ensures HeardIn(remote, calls, log, tag) ==
      Some(if e.how.Replied? then ReplyTo(remote, calls[e.how.cause]) else NoReply)
    decreases |log|
  {
    e := log[|log| - 1];
    if e.tag != tag {
      var before := log[..|log| - 1];
      var x :| x in log && x.tag == tag;
      assert log == before + [e];
      assert x in before;
      e := HeardMeans(remote, calls, before, tag);
    }
  }

  // ---- Nothing comes back over a stream that had ended ----

  /** Jobs from `first` on have had no reply. */
  predicate NoneReplied(s: State, first: nat)
  {
    forall i :: 0 <= i < |s.log| && s.log[i].how.Replied? ==> s.log[i].tag < first
  }

  lemma DownStaysDown(s: State, step: Step)
    requires Enabled(s, step) && !Up(s)
    ensures !Up(Apply(s, step))
  {
  }

  lemma DownHandsNothing(s: State, step: Step, first: nat)
    requires Enabled(s, step) && NoneReplied(s, first) && !Up(s) && (s.readerUp ==> s.issued == first) && Inv(s)
    ensures NoneReplied(Apply(s, step), first)
    ensures var s' := Apply(s, step); s'.readerUp ==> s'.issued == first
  {
    if step == Deliver && s.inbox[0].id in s.pending {
      assert s.pending[s.inbox[0].id] < s.registered <= s.issued;
    }
  }

  lemma {:induction false} DownRun(s: State, run: seq<Step>, first: nat)
    requires Inv(s) && Possible(s, run) && NoneReplied(s, first) && !Up(s) && (s.readerUp ==> s.issued == first)
    ensures NoneReplied(After(s, run), first) && !Up(After(s, run))
    decreases |run|
  {
    hide Inv, NoneReplied, Up;
    if run != [] {
      StepKeeps(s, run[0]);
      DownStaysDown(s, run[0]);
      DownHandsNothing(s, run[0], first);
      DownRun(Apply(s, run[0]), run[1..], first);
    }
  }

  lemma {:induction false} UpWas(s: State, run: seq<Step>)
    requires Possible(s, run) && !Up(s)
    ensures !Up(After(s, run))
    decreases |run|
  {
    hide Up;
    if run != [] {
      DownStaysDown(s, run[0]);
      UpWas(Apply(s, run[0]), run[1..]);
    }
  }

  /** While the writer has not returned, jobs from `first` on have been dropped only for their ids. */
  predicate DroppedForIds(s: State, first: nat)
  {
    s.Alive() ==> forall i :: 0 <= i < |s.log| && s.log[i].how.Dropped? && s.log[i].tag >= first ==>
      s.log[i].tag + IDS < s.registered
  }

  lemma DeafDropsNothing(s: State, step: Step, first: nat)
    requires Inv(s) && Enabled(s, step) && !Up(s) && DroppedForIds(s, first)
    ensures DroppedForIds(Apply(s, step), first)
  {
    if step == Register && s.nextId in s.pending && s.registered < s.pending[s.nextId] + IDS {
      SameId(s.pending[s.nextId], s.registered);
    }
  }

  lemma {:induction false} DeafRun(s: State, run: seq<Step>, first: nat)
    requires Inv(s) && Possible(s, run) && !Up(s) && DroppedForIds(s, first)
    ensures DroppedForIds(After(s, run), first)
    decreases |run|
  {
    hide Inv, DroppedForIds, Up;
    if run != [] {
      StepKeeps(s, run[0]);
      DownStaysDown(s, run[0]);
      DeafDropsNothing(s, run[0], first);
      DeafRun(Apply(s, run[0]), run[1..], first);
    }
  }

  // ---- A round ----

  /** The jobs `tags`, issued during the run from s to s', ask `reqs`, and all of them have been resolved. */
  predicate RoundOf(s: State, s': State, calls: seq<Call>, tags: seq<nat>, reqs: seq<Call>)
  {
    && |tags| == |reqs| && s'.issued <= |calls|
    && forall i :: 0 <= i < |tags| ==>
      s.issued <= tags[i] < s'.issued && calls[tags[i]] == reqs[i] && tags[i] in Tags(s'.log)
  }

  /** No reply has come so late that its id had been used again, and no id of the round has come round since. */
  predicate InWindow(s: State, tags: seq<nat>)
  {
    (forall e :: e in s.log ==> InTime(e)) && forall i :: 0 <= i < |tags| ==> s.registered <= tags[i] + IDS
  }

  /**
   What each caller of a round hears is the reply to its own request; or that the session has closed, and then it
   has. Over a stream that had ended before the round nobody hears anything else, and not before the writer returns.
   */
  lemma RoundComesBack(remote: Remote, s: State, run: seq<Step>, calls: seq<Call>, tags: seq<nat>, reqs: seq<Call>)
    returns (replies: seq<Remotes.Reply>)
    requires Reachable(s) && Possible(s, run) && RoundOf(s, After(s, run), calls, tags, reqs)
    requires InWindow(After(s, run), tags)
    ensures forall e :: e in After(s, run).log && e.how.Replied? ==> e.how.cause < |calls|
    ensures CameBack(remote, reqs, replies, Up(s), Up(After(s, run)), After(s, run).Alive())
    ensures forall i :: 0 <= i < |reqs| ==> HeardIn(remote, calls, After(s, run).log, tags[i]) == Some(replies[i])
  {
    hide Up, HeardIn, Inv;
    var s' := After(s, run);
    UpIsAlive(s');
    ReachedLater(s, run);
    CausesIssued(s');
    if !Up(s) {
      UpWas(s, run);
    }
    replies := [];
    for i := 0 to |reqs|
      invariant |replies| == i
      invariant forall j :: 0 <= j < i ==> HeardIn(remote, calls, s'.log, tags[j]) == Some(replies[j])
      invariant forall j :: 0 <= j < i ==> replies[j] == ReplyTo(remote, reqs[j]) || (!Up(s') && replies[j] == NoReply)
      invariant !Up(s) ==> forall j :: 0 <= j < i ==> replies[j] == NoReply
      invariant !Up(s) && i > 0 ==> !s'.Alive()
    {
      var e := HeardMeans(remote, calls, s'.log, tags[i]);
      OneHears(s, run, e, tags[i]);
      replies := replies + [HeardIn(remote, calls, s'.log, tags[i]).value];
    }
  }

  lemma UpIsAlive(s: State)
    ensures Up(s) ==> s.Alive()
  {
  }

  lemma NothingYet(s: State)
    requires Inv(s)
    ensures NoneReplied(s, s.issued) && DroppedForIds(s, s.issued)
  {
    forall i | 0 <= i < |s.log| ensures s.log[i].tag < s.issued {
      assert s.log[i].tag in Tags(s.log);
    }
  }

  lemma {:induction false} ReachedLater(s: State, run: seq<Step>)
    requires Reachable(s) && Possible(s, run)
    ensures Reachable(After(s, run))
    decreases |run|
  {
    hide Reachable;
    if run != [] {
      ReachedNext(s, run[0]);
      ReachedLater(Apply(s, run[0]), run[1..]);
    }
  }

  /** One job's end: its own reply, or the session's end; and no reply if the stream had ended before it was issued. */
  lemma OneHears(s: State, run: seq<Step>, e: Event, tag: nat)
    requires Reachable(s) && Possible(s, run) && Reachable(After(s, run)) && e in After(s, run).log && e.tag == tag
    requires s.issued <= tag && After(s, run).registered <= tag + IDS && InTime(e)
    ensures e.how.Replied? ==> e.how.cause == tag && Up(s)
    ensures e.how.Dropped? ==> !Up(After(s, run))
    ensures !Up(s) ==> !After(s, run).Alive()
  {
    var s' := After(s, run);
    RepliesReachTheirCallers(s');
    DroppedOnlyAtTheEnd(s');
    ReachableInv(s);
    ReachableInv(s');
    if !Up(s) {
      NothingYet(s);
      DownRun(s, run, s.issued);
      DeafRun(s, run, s.issued);
    }
  }

  predicate Leads(run: seq<Step>, s: State) { Possible(Start(), run) && After(Start(), run) == s }

  lemma LeadsOn(run: seq<Step>, s: State, step: Step)
    requires Leads(run, s) && Enabled(s, step)
    ensures Leads(run + [step], Apply(s, step))
  {
    RunThen(Start(), run, step);
  }

  /** One job taken by the writer. */
  lemma OneTaken() returns (run: seq<Step>, s: State)
    ensures Leads(run, s) && s.writer == Sending([0], None) && s == Start().(writer := s.writer, issued := 1)
  {
    hide Leads;
    run, s := [], Start();
    NoSteps();
    LeadsOn(run, s, Issue);
    run, s := run + [Issue], Apply(s, Issue);
    LeadsOn(run, s, Take(1));
    run, s := run + [Take(1)], Apply(s, Take(1));
    LeadsOn(run, s, Commit);
    run, s := run + [Commit], Apply(s, Commit);
  }

  /** And sent. */
  lemma OneSent() returns (run: seq<Step>, s: State)
    ensures Leads(run, s) && s.writer == Idle && s.readerUp && s.pending == map[1 := 0]
    ensures s.issued == s.registered == 1 && s.log == []
  {
    hide Leads;
    run, s := OneTaken();
    LeadsOn(run, s, Register);
    run, s := run + [Register], Apply(s, Register);
    LeadsOn(run, s, Write);
    run, s := run + [Write], Apply(s, Write);
    assert s.writer == Sending([], None);
    LeadsOn(run, s, Flush);
    run, s := run + [Flush], Apply(s, Flush);
  }

  /**
   The stream may end under a round and the writer not return: a request is written and flushed, the reader then
   finds the stream finished, and the writer is waiting for more to send. The caller hears that the session has
   closed while `is_alive` still holds.
   */
  lemma ClosedWhileAlive(remote: Remote, call: Call) returns (run: seq<Step>, replies: seq<Remotes.Reply>)
    ensures Possible(Start(), run) && RoundOf(Start(), After(Start(), run), [call], [0], [call])
    ensures InWindow(After(Start(), run), [0]) && !Up(After(Start(), run)) && After(Start(), run).Alive()
    ensures After(Start(), run).log == [Event(0, Dropped)] &&
      HeardIn(remote, [call], [Event(0, Dropped)], 0) == Some(NoReply)
    ensures replies == [NoReply] && CameBack(remote, [call], replies, true, false, true)
  {
    var s;
    run, s := OneSent();
    LeadsOn(run, s, ReaderReturns([1]));
    run, s := run + [ReaderReturns([1])], Apply(s, ReaderReturns([1]));
    assert s.log == [Event(0, Dropped)] && s.log[0] in s.log;
    StartReached();
    replies := RoundComesBack(remote, Start(), run, [call], [0], [call]);
  }

  lemma NoSteps()
    ensures Leads([], Start())
  {
  }
}
