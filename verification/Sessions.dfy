/**
 The life of one alias's session under concurrent requests and control calls: `session_for`, `live`,
 `adopt`, `evict`, the retry loop of `alias`, and the control calls, origin/mod.rs:955-1026, 1460-1655,
 1739-1813 and 1979-1996. Aliases share no state that decides anything here, so one is enough.

 Each step is what one task does between two awaits. A session is a number; whether it is connected
 is the environment's business, and a session that has gone does not come back.
 */
module Sessions {
  import opened Common

  datatype Reply = Unknown | Stopped | Down | Served

  /** Where a request task is. `locked` is the second look, the one under the dial lock. */
  datatype Pc =
    | Look(locked: bool)
    | Again(locked: bool)
    | Sweep(locked: bool)
    | CheckStopped
    | AwaitLock
    | CheckTrouble
    | Dialling
    | Failing
    | Dialled(session: nat)
    | Adopting(session: nat)
    | Serving(session: nat)
    | Evicting(session: nat)
    | Answered(reply: Reply)

  datatype Task = Task(pc: Pc, retried: bool)

  /** Times are in the unit of the clock. */
  datatype Event =
    | DialStarted(caller: nat, at: nat)
    | DialFailed(at: nat)
    | Replied(task: nat, reply: Reply)

  /**
   `inHand` are the sessions control calls have connected and not put in the map yet. lastFailed and
   log are history: nothing decides on them.
   */
  datatype State = State(
    declared: bool, cooldown: nat, now: nat,
    held: Option<nat>, alive: set<nat>, next: nat,
    stopped: bool, lock: Option<nat>, trouble: Option<nat>,
    tasks: map<nat, Task>, inHand: set<nat>, lastFailed: Option<nat>, log: seq<Event>)

  /**
   What startup leaves: a session, which may have gone since, or none; and without one perhaps the memory of the
   dial that failed, which counts as a dial that failed.
   */
  predicate Starting(s: State)
  {
    && (if s.next == 0 then s.held == None && s.alive == {} else s.next == 1 && s.held == Some(0) && s.alive <= {0})
    && (s.trouble.Some? ==> s.held == None && s.trouble.value <= s.now)
    && !s.stopped && s.lock == None && s.tasks == map[] && s.inHand == {} && s.lastFailed == s.trouble
    && s.log == if s.trouble.Some? then [DialFailed(s.trouble.value)] else []
  }

  datatype Step =
    | Arrive(task: nat)
    | Turn(task: nat)
    | DialEnds(task: nat, ok: bool)
    | ServeEnds(task: nat, serverError: bool)
    | Dies(session: nat)
    | Tick(elapsed: nat)
    | ControlMark
    | ControlRemove
    | ControlConnect
    | ControlOpen(session: nat)
    | ControlAdopt(session: nat)

  function At(s: State, t: nat, pc: Pc): State
    requires t in s.tasks
  {
    s.(tasks := s.tasks[t := s.tasks[t].(pc := pc)])
  }

  /** Leaving `session_for`: its dial guard, if it has one, is dropped. */
  function Unlocked(s: State, t: nat): State
  {
    if s.lock == Some(t) then s.(lock := None) else s
  }

  function Reach(s: State, t: nat, session: nat): State
    requires t in s.tasks
  {
    At(Unlocked(s, t), t, Serving(session))
  }

  function Answer(s: State, t: nat, reply: Reply): State
    requires t in s.tasks
  {
    At(Unlocked(s, t), t, Answered(reply)).(log := s.log + [Replied(t, reply)])
  }

  /** No live session: on to the stopped check, or under the lock to the memory of a failure. */
  function NoneLive(s: State, t: nat, locked: bool): State
    requires t in s.tasks
  {
    At(s, t, if locked then CheckTrouble else CheckStopped)
  }

  /** The first read of `live`. */
  function Looked(s: State, t: nat, locked: bool): State
    requires t in s.tasks
  {
    match s.held
    case None => NoneLive(s, t, locked)
    case Some(x) => At(s, t, if x in s.alive then Again(locked) else Sweep(locked))
  }

  /** Its second read: the map may have changed since the first. */
  function LookedAgain(s: State, t: nat, locked: bool): State
    requires t in s.tasks
  {
    match s.held
    case None => NoneLive(s, t, locked)
    case Some(x) => Reach(s, t, x)
  }

  /** Under the write lock: a session that is dead now is dropped, another is returned. */
  function Swept(s: State, t: nat, locked: bool): State
    requires t in s.tasks
  {
    match s.held
    case None => NoneLive(s, t, locked)
    case Some(x) => if x in s.alive then Reach(s, t, x) else NoneLive(s.(held := None), t, locked)
  }

  /** Keep the session that got there first, unless it is dead. The loser is closed by being dropped. */
  function Adopted(s: State, session: nat): State
  {
    match s.held
    case None => s.(held := Some(session))
    case Some(x) => if x in s.alive then s.(alive := s.alive - {session}) else s.(held := Some(session))
  }

  predicate MayTurn(s: State, t: nat)
  {
    t in s.tasks &&
    match s.tasks[t].pc
    case AwaitLock => s.lock == None
    case Dialling => false
    case Serving(_) => false
    case Answered(_) => false
    case _ => true
  }

  function Turned(s: State, t: nat): State
    requires MayTurn(s, t)
  {
    match s.tasks[t].pc
    case Look(locked) => Looked(s, t, locked)
    case Again(locked) => LookedAgain(s, t, locked)
    case Sweep(locked) => Swept(s, t, locked)
    case CheckStopped =>
      if !s.declared then Answer(s, t, Unknown) else if s.stopped then Answer(s, t, Stopped) else At(s, t, AwaitLock)
    case AwaitLock => At(s.(lock := Some(t)), t, Look(true))
    case CheckTrouble =>
      if s.trouble.Some? && s.now < s.trouble.value + s.cooldown then Answer(s, t, Down)
      else At(s, t, Dialling).(log := s.log + [DialStarted(t, s.now)])
    case Failing => Answer(s.(trouble := Some(s.now)), t, Down)
    case Dialled(x) => At(s.(trouble := None), t, Adopting(x))
    case Adopting(x) => Reach(Adopted(s, x), t, Adopted(s, x).held.value)
    case Evicting(x) => At(if s.held == Some(x) then s.(held := None) else s, t, Look(false))
    case _ => s
  }

  predicate Enabled(s: State, step: Step)
  {
    match step
    case Arrive(t) => t !in s.tasks
    case Turn(t) => MayTurn(s, t)
    case DialEnds(t, _) => t in s.tasks && s.tasks[t].pc == Dialling
    case ServeEnds(t, _) => t in s.tasks && s.tasks[t].pc.Serving?
    case ControlOpen(x) => x in s.inHand
    case ControlAdopt(x) => x in s.inHand
    case _ => true
  }

  /** One retry, and only when the answer failed and the session is known to have gone. */
  function ServeEnded(s: State, t: nat, serverError: bool): State
    requires t in s.tasks && s.tasks[t].pc.Serving?
  {
    var x := s.tasks[t].pc.session;
    if !s.tasks[t].retried && serverError && x !in s.alive
    then s.(tasks := s.tasks[t := Task(Evicting(x), true)])
    else Answer(s, t, Served)
  }

  function Apply(s: State, step: Step): State
    requires Enabled(s, step)
  {
    match step
    case Arrive(t) => s.(tasks := s.tasks[t := Task(Look(false), false)])
    case Turn(t) => Turned(s, t)
    case DialEnds(t, ok) =>
      if ok then At(s, t, Dialled(s.next)).(next := s.next + 1, alive := s.alive + {s.next})
      else At(s, t, Failing).(lastFailed := Some(s.now), log := s.log + [DialFailed(s.now)])
    case ServeEnds(t, serverError) => ServeEnded(s, t, serverError)
    case Dies(x) => s.(alive := s.alive - {x})
    case Tick(elapsed) => s.(now := s.now + elapsed)
    case ControlMark => if s.declared then s.(stopped := true) else s
    case ControlRemove => s.(held := None)
    case ControlConnect => s.(inHand := s.inHand + {s.next}, next := s.next + 1, alive := s.alive + {s.next})
    case ControlOpen(x) =>
      if s.held.Some? then s.(inHand := s.inHand - {x}, alive := s.alive - {x})
      else s.(inHand := s.inHand - {x}, held := Some(x))
    case ControlAdopt(x) => Adopted(s.(inHand := s.inHand - {x}), x)
  }

  predicate Possible(s: State, run: seq<Step>)
    decreases |run|
  {
    run == [] || (Enabled(s, run[0]) && Possible(Apply(s, run[0]), run[1..]))
  }

  function After(s: State, run: seq<Step>): State
    requires Possible(s, run)
    decreases |run|
  {
    if run == [] then s else After(Apply(s, run[0]), run[1..])
  }

  // ---- What every step keeps ----

  /** Inside the section the dial lock guards. */
  predicate Guarded(pc: Pc)
  {
    match pc
    case Look(locked) => locked
    case Again(locked) => locked
    case Sweep(locked) => locked
    case CheckTrouble => true
    case Dialling => true
    case Failing => true
    case Dialled(_) => true
    case Adopting(_) => true
    case _ => false
  }

  predicate LockHeld(s: State)
  {
    && (forall t :: t in s.tasks && Guarded(s.tasks[t].pc) ==> s.lock == Some(t))
    && (s.lock.Some? ==> s.lock.value in s.tasks && Guarded(s.tasks[s.lock.value].pc))
  }

  /** The session a task holds. */
  function Holds(pc: Pc): Option<nat>
  {
    match pc
    case Dialled(x) => Some(x)
    case Adopting(x) => Some(x)
    case Serving(x) => Some(x)
    case Evicting(x) => Some(x)
    case _ => None
  }

  /** The one task that has connected it holds it. */
  predicate Own(pc: Pc) { pc.Dialled? || pc.Adopting? }

  predicate Below(x: Option<nat>, bound: nat) { x.Some? ==> x.value < bound }

  /** No session is made twice, so a dead one stays dead; and a request evicts only a dead one. */
  predicate SessionsKnown(s: State)
  {
    && (forall x :: x in s.alive ==> x < s.next)
    && (forall x :: x in s.inHand ==> x < s.next)
    && Below(s.held, s.next)
    && (forall t :: t in s.tasks ==> Below(Holds(s.tasks[t].pc), s.next))
    && (forall t :: t in s.tasks && s.tasks[t].pc.Evicting? ==> s.tasks[t].pc.session !in s.alive)
  }

  /** A session a task or a control call has just connected is in nobody else's hands, the map's included. */
  predicate HandsApart(s: State)
  {
    && (forall t :: t in s.tasks && Own(s.tasks[t].pc) ==> s.held != Holds(s.tasks[t].pc))
    && (forall t, u :: t in s.tasks && u in s.tasks && t != u && Own(s.tasks[t].pc) ==>
        Holds(s.tasks[t].pc) != Holds(s.tasks[u].pc))
    && (s.held.Some? ==> s.held.value !in s.inHand)
    && (forall t :: t in s.tasks && Holds(s.tasks[t].pc).Some? ==> Holds(s.tasks[t].pc).value !in s.inHand)
  }

  function LockPc(s: State): Option<Pc>
  {
    if s.lock.Some? && s.lock.value in s.tasks then Some(s.tasks[s.lock.value].pc) else None
  }

  predicate Cooled(s: State) { s.lastFailed.Some? ==> s.now >= s.lastFailed.value + s.cooldown }

  /** A failure is remembered until a cooldown has passed, and no dial is under way before that. */
  predicate CooledDown(s: State)
  {
    && (s.trouble.Some? ==> s.trouble.value <= s.now)
    && (s.lastFailed.Some? ==> s.lastFailed.value <= s.now)
    && (Cooled(s) || (s.trouble.Some? && s.trouble.value >= s.lastFailed.value) || LockPc(s) == Some(Failing))
    && (LockPc(s).Some? && (LockPc(s).value.Dialling? || LockPc(s).value.Dialled?) ==> Cooled(s))
  }

  /** Dials start at least one cooldown after any that failed before them. */
  predicate Spaced(log: seq<Event>, cooldown: nat)
  {
    forall i, j :: 0 <= i < j < |log| && log[i].DialFailed? && log[j].DialStarted? ==>
      log[j].at >= log[i].at + cooldown
  }

  predicate LogSpaced(s: State)
  {
    && Spaced(s.log, s.cooldown)
    && forall i :: 0 <= i < |s.log| && s.log[i].DialFailed? ==>
      s.lastFailed.Some? && s.log[i].at <= s.lastFailed.value
  }

  predicate Inv(s: State)
  {
    LockHeld(s) && SessionsKnown(s) && HandsApart(s) && CooledDown(s) && LogSpaced(s)
  }

  // A step of a request changes one task. These say what is enough for the rest to be kept.

  predicate Moves(s: State, s': State, t: nat)
  {
    && t in s'.tasks && s'.tasks == s.tasks[t := s'.tasks[t]] && s'.inHand == s.inHand && s'.cooldown == s.cooldown
    && s'.declared == s.declared && s'.stopped == s.stopped
  }

  predicate LockMoves(s: State, s': State, t: nat)
  {
    && Moves(s, s', t)
    && (if Guarded(s'.tasks[t].pc) then s'.lock == Some(t) && (s.lock == None || s.lock == Some(t))
        else s'.lock == if s.lock == Some(t) then None else s.lock)
  }

  lemma LockKept(s: State, s': State, t: nat)
    requires LockHeld(s) && LockMoves(s, s', t)
    ensures LockHeld(s')
  {
  }

  predicate KnownMoves(s: State, s': State, t: nat)
  {
    && Moves(s, s', t)
    && ((s'.next == s.next && s'.alive <= s.alive) || (s'.next == s.next + 1 && s'.alive == s.alive + {s.next}))
    && Below(s'.held, s'.next) && Below(Holds(s'.tasks[t].pc), s'.next)
    && (s'.tasks[t].pc.Evicting? ==> s'.tasks[t].pc.session < s.next && s'.tasks[t].pc.session !in s.alive)
  }

  lemma KnownKept(s: State, s': State, t: nat)
    requires SessionsKnown(s) && KnownMoves(s, s', t)
    ensures SessionsKnown(s')
  {
  }

  function HoldsAt(s: State, t: nat): Option<nat>
  {
    if t in s.tasks then Holds(s.tasks[t].pc) else None
  }

  predicate OwnAt(s: State, t: nat) { t in s.tasks && Own(s.tasks[t].pc) }

  /** What a task holds next: nothing, what it held, what the map holds, or a session just made. */
  predicate HandsMove(s: State, s': State, t: nat)
  {
    && Moves(s, s', t)
    && (if OwnAt(s', t) then HoldsAt(s', t) == Some(s.next) || (HoldsAt(s', t) == HoldsAt(s, t) && OwnAt(s, t))
        else HoldsAt(s', t) in {None, HoldsAt(s, t), s.held})
    && (s'.held in {None, s.held} || (OwnAt(s, t) && !OwnAt(s', t) && s'.held == HoldsAt(s, t)))
  }

  lemma HandsKept(s: State, s': State, t: nat)
    requires SessionsKnown(s) && HandsApart(s) && HandsMove(s, s', t)
    ensures HandsApart(s')
  {
    forall u, v | u in s'.tasks && v in s'.tasks && u != v && Own(s'.tasks[u].pc)
      ensures Holds(s'.tasks[u].pc) != Holds(s'.tasks[v].pc)
    {
      assert v != t ==> s'.tasks[v] == s.tasks[v] && Below(Holds(s.tasks[v].pc), s.next);
      assert u != t ==> s'.tasks[u] == s.tasks[u] && Below(Holds(s.tasks[u].pc), s.next);
    }
  }

  /** At most one event more, and a dial only when it is due. */
  predicate LogMoves(s: State, s': State)
  {
    && (s'.log == s.log || (|s'.log| == |s.log| + 1 && s'.log[..|s.log|] == s.log))
    && (s'.log == s.log || !s'.log[|s.log|].DialFailed? ==> s'.lastFailed == s.lastFailed)
    && (s'.log != s.log && s'.log[|s.log|].DialStarted? ==>
        s.lastFailed.Some? ==> s'.log[|s.log|].at >= s.lastFailed.value + s.cooldown)
    && (s'.log != s.log && s'.log[|s.log|].DialFailed? ==>
        s'.lastFailed == Some(s'.log[|s.log|].at) && (s.lastFailed.Some? ==> s.lastFailed.value <= s'.lastFailed.value))
  }

  lemma LogKept(s: State, s': State)
    requires LogSpaced(s) && LogMoves(s, s') && s'.cooldown == s.cooldown
    ensures LogSpaced(s')
  {
    assert forall i :: 0 <= i < |s.log| ==> s'.log[i] == s.log[i];
  }

  /** All that a step of task t needs to know of the state it starts from. */
  predicate Ready(s: State, t: nat)
  {
    && (t in s.tasks && Guarded(s.tasks[t].pc) <==> s.lock == Some(t))
    && Below(s.held, s.next) && Below(HoldsAt(s, t), s.next)
    && CooledDown(s)
  }

  predicate Fine(s: State, s': State, t: nat)
  {
    LockMoves(s, s', t) && KnownMoves(s, s', t) && HandsMove(s, s', t) && CooledDown(s') && LogMoves(s, s')
  }

  lemma FineKeeps(s: State, s': State, t: nat)
    requires Inv(s) && Fine(s, s', t)
    ensures Inv(s')
  {
    LockKept(s, s', t);
    KnownKept(s, s', t);
    HandsKept(s, s', t);
    LogKept(s, s');
  }

  /** Moving on without a session, on the same side of the lock; the map's entry may have been dropped. */
  lemma MovesOn(s: State, t: nat, held: Option<nat>, pc: Pc)
    requires Ready(s, t) && t in s.tasks && s.tasks[t].pc != Failing && held in {None, s.held}
    requires Guarded(pc) == Guarded(s.tasks[t].pc) && Holds(pc) == None && !pc.Dialling? && !pc.Dialled?
    ensures Fine(s, At(s.(held := held), t, pc), t)
  {
  }

  lemma Reaches(s: State, t: nat)
    requires Ready(s, t) && t in s.tasks && s.tasks[t].pc != Failing && s.held.Some?
    ensures Fine(s, Reach(s, t, s.held.value), t)
  {
  }

  lemma Answers(s: State, t: nat, reply: Reply)
    requires Ready(s, t) && t in s.tasks && s.tasks[t].pc != Failing
    ensures Fine(s, Answer(s, t, reply), t)
  {
  }

  lemma LookTurn(s: State, t: nat)
    requires Ready(s, t) && MayTurn(s, t)
    requires var pc := s.tasks[t].pc; pc.Look? || pc.Again? || pc.Sweep?
    ensures Fine(s, Turned(s, t), t)
  {
    hide Fine, Ready;
    var locked := s.tasks[t].pc.locked;
    MovesOn(s, t, s.held, Again(locked));
    MovesOn(s, t, s.held, Sweep(locked));
    var next := if locked then CheckTrouble else CheckStopped;
    MovesOn(s, t, s.held, next);
    MovesOn(s, t, None, next);
    assert s.(held := s.held) == s;
    if s.held.Some? {
      Reaches(s, t);
    }
  }

  lemma StoppedTurn(s: State, t: nat)
    requires Ready(s, t) && MayTurn(s, t) && s.tasks[t].pc.CheckStopped?
    ensures Fine(s, Turned(s, t), t)
  {
    Answers(s, t, Unknown);
    Answers(s, t, Stopped);
    MovesOn(s, t, s.held, AwaitLock);
    assert s.(held := s.held) == s;
  }

  lemma TroubleTurn(s: State, t: nat)
    requires Ready(s, t) && MayTurn(s, t)
    requires s.tasks[t].pc.AwaitLock? || s.tasks[t].pc.CheckTrouble?
    ensures Fine(s, Turned(s, t), t)
  {
    Answers(s, t, Down);
  }

  lemma DialTurn(s: State, t: nat)
    requires Ready(s, t) && MayTurn(s, t)
    requires var pc := s.tasks[t].pc; pc.Failing? || pc.Dialled? || pc.Evicting?
    ensures Fine(s, Turned(s, t), t)
  {
  }

  /** s1 is s but for a session put in the map, or closed because a live one was there. */
  lemma AdoptReached(s: State, s1: State, t: nat, x: nat)
    requires Ready(s, t) && MayTurn(s, t) && s.tasks[t].pc == Adopting(x)
    requires s1 == s.(held := s1.held, alive := s1.alive) && s1.held.Some? && s1.alive <= s.alive
    requires s1.held == s.held || s1.held == Some(x)
    ensures Fine(s, Reach(s1, t, s1.held.value), t)
  {
  }

  lemma AdoptTurn(s: State, t: nat)
    requires Ready(s, t) && MayTurn(s, t)
    requires s.tasks[t].pc.Adopting?
    ensures Fine(s, Turned(s, t), t)
  {
    hide Ready, Fine, Reach;
    var x := s.tasks[t].pc.session;
    var s1 := Adopted(s, x);
    AdoptReached(s, s1, t, x);
    assert Turned(s, t) == Reach(s1, t, s1.held.value);
  }

  lemma ArriveFine(s: State, t: nat)
    requires Enabled(s, Arrive(t)) && Ready(s, t)
    ensures Fine(s, Apply(s, Arrive(t)), t)
  {
  }

  lemma DialEndsFine(s: State, t: nat, ok: bool)
    requires Enabled(s, DialEnds(t, ok)) && Ready(s, t)
    ensures Fine(s, Apply(s, DialEnds(t, ok)), t)
  {
  }

  lemma TaskStep(s: State, step: Step)
    requires Enabled(s, step) && (step.Arrive? || step.DialEnds?)
    requires Ready(s, step.task)
    ensures Fine(s, Apply(s, step), step.task)
  {
    hide Fine, Ready;
    if step.Arrive? {
      ArriveFine(s, step.task);
    } else {
      DialEndsFine(s, step.task, step.ok);
    }
  }

  lemma ServeEndFine(s: State, t: nat, serverError: bool)
    requires Ready(s, t) && t in s.tasks && s.tasks[t].pc.Serving?
    ensures Fine(s, ServeEnded(s, t, serverError), t)
  {
    Answers(s, t, Served);
  }

  lemma TurnFine(s: State, t: nat)
    requires Inv(s) && MayTurn(s, t)
    ensures Fine(s, Turned(s, t), t)
  {
    match s.tasks[t].pc {
      case Look(_) => LookTurn(s, t);
      case Again(_) => LookTurn(s, t);
      case Sweep(_) => LookTurn(s, t);
      case Evicting(_) => DialTurn(s, t);
      case Failing => DialTurn(s, t);
      case Dialled(_) => DialTurn(s, t);
      case Adopting(_) => AdoptTurn(s, t);
      case CheckStopped => StoppedTurn(s, t);
      case _ => TroubleTurn(s, t);
    }
  }

  lemma TurnKeeps(s: State, t: nat)
    requires Inv(s) && MayTurn(s, t)
    ensures Inv(Turned(s, t))
  {
    TurnFine(s, t);
    FineKeeps(s, Turned(s, t), t);
  }

  lemma TaskFine(s: State, step: Step)
    requires Inv(s) && Enabled(s, step) && (step.Arrive? || step.DialEnds? || step.ServeEnds?)
    ensures Fine(s, Apply(s, step), step.task)
  {
    if step.ServeEnds? {
      ServeEndFine(s, step.task, step.serverError);
    } else {
      TaskStep(s, step);
    }
  }

  lemma TaskKeeps(s: State, step: Step)
    requires Inv(s) && Enabled(s, step) && (step.Arrive? || step.DialEnds? || step.ServeEnds?)
    ensures Inv(Apply(s, step))
  {
    TaskFine(s, step);
    FineKeeps(s, Apply(s, step), step.task);
  }

  predicate IsControl(step: Step) { !(step.Turn? || step.Arrive? || step.DialEnds? || step.ServeEnds?) }

  lemma ControlKeepsKnown(s: State, step: Step)
    requires SessionsKnown(s) && Enabled(s, step) && IsControl(step)
    ensures SessionsKnown(Apply(s, step))
  {
  }

  lemma ControlKeepsApart(s: State, step: Step)
    requires SessionsKnown(s) && HandsApart(s) && Enabled(s, step) && IsControl(step)
    ensures HandsApart(Apply(s, step))
  {
  }

  lemma ControlKeepsSessions(s: State, step: Step)
    requires SessionsKnown(s) && HandsApart(s) && Enabled(s, step) && IsControl(step)
    ensures SessionsKnown(Apply(s, step)) && HandsApart(Apply(s, step))
  {
    hide SessionsKnown, HandsApart;
    ControlKeepsKnown(s, step);
    ControlKeepsApart(s, step);
  }

  lemma ControlKeeps(s: State, step: Step)
    requires Inv(s) && Enabled(s, step)
    requires IsControl(step)
    ensures Inv(Apply(s, step))
  {
    ControlKeepsSessions(s, step);
  }

  lemma StepKeeps(s: State, step: Step)
    requires Inv(s) && Enabled(s, step)
    ensures Inv(Apply(s, step))
  {
    match step
    case Turn(t) => TurnKeeps(s, t);
    case Arrive(_) => TaskKeeps(s, step);
    case DialEnds(_, _) => TaskKeeps(s, step);
    case ServeEnds(_, _) => TaskKeeps(s, step);
    case _ => ControlKeeps(s, step);
  }

  lemma {:induction false} RunKeeps(s: State, run: seq<Step>)
    requires Inv(s) && Possible(s, run)
    ensures Inv(After(s, run))
    decreases |run|
  {
    if run != [] {
      StepKeeps(s, run[0]);
      RunKeeps(Apply(s, run[0]), run[1..]);
    }
  }

  ghost predicate Reachable(s: State)
  {
    exists start, run :: Starting(start) && Possible(start, run) && After(start, run) == s
  }

  lemma ReachableInv(s: State)
    requires Reachable(s)
    ensures Inv(s)
  {
    var start, run :| Starting(start) && Possible(start, run) && After(start, run) == s;
    assert Inv(start);
    RunKeeps(start, run);
  }

  // ---- Only a control call takes a live session away ----

  lemma LiveStaysTurn(s: State, t: nat)
    requires SessionsKnown(s) && HandsApart(s) && MayTurn(s, t) && s.held.Some? && s.held.value in s.alive
    ensures Turned(s, t).held == s.held && s.held.value in Turned(s, t).alive
  {
  }

  lemma LiveStays(s: State, step: Step)
    requires Inv(s) && Enabled(s, step) && s.held.Some? && s.held.value in s.alive
    requires step != ControlRemove && step != Dies(s.held.value)
    ensures Apply(s, step).held == s.held && s.held.value in Apply(s, step).alive
  {
    if step.Turn? {
      LiveStaysTurn(s, step.task);
    }
  }

  /** As long as nobody closes or disables the alias and the connection itself holds, the session stays where it is. */
  lemma {:induction false} LiveSessionStays(s: State, run: seq<Step>)
    requires Inv(s) && Possible(s, run) && s.held.Some? && s.held.value in s.alive
    requires ControlRemove !in run && Dies(s.held.value) !in run
    ensures After(s, run).held == s.held && s.held.value in After(s, run).alive
    decreases |run|
  {
    if run != [] {
      StepKeeps(s, run[0]);
      LiveStays(s, run[0]);
      LiveSessionStays(Apply(s, run[0]), run[1..]);
    }
  }

  /** A connection that has just come up is what the map holds next, unless a live one got there first. */
  lemma ReconnectionLands(s: State, t: nat)
    requires Inv(s) && MayTurn(s, t) && s.tasks[t].pc.Adopting? && s.tasks[t].pc.session in s.alive
    ensures var x := s.tasks[t].pc.session; var s' := Turned(s, t);
      && s'.held.Some? && s'.held.value in s'.alive && s'.tasks[t].pc == Serving(s'.held.value)
      && (s'.held == Some(x) <==> !(s.held.Some? && s.held.value in s.alive))
      && (s'.held != Some(x) ==> x !in s'.alive)
  {
  }

  // ---- Dials ----

  predicate AtDial(s: State, t: nat) { t in s.tasks && s.tasks[t].pc == Dialling }

  /**
   At most one request is dialling, and no request dials sooner than a cooldown after a failure, that of startup
   included.
   */
  lemma DialsAreSpaced(s: State)
    requires Reachable(s)
    ensures forall t, u :: AtDial(s, t) && AtDial(s, u) ==> t == u
    ensures Spaced(s.log, s.cooldown)
  {
    ReachableInv(s);
  }

  // ---- Stopping ----

  predicate Opens(step: Step) { step.ControlConnect? || step.ControlOpen? || step.ControlAdopt? }

  predicate NoOpens(run: seq<Step>) { forall i :: 0 <= i < |run| ==> !Opens(run[i]) }

  /** Past the stopped check, with a dial that has not failed. */
  predicate Hopeful(pc: Pc) { pc.AwaitLock? || (Guarded(pc) && !pc.Failing?) }

  predicate HopefulAt(s: State, t: nat) { t in s.tasks && Hopeful(s.tasks[t].pc) }

  predicate Promising(s: State) { exists t :: t in s.tasks && HopefulAt(s, t) }

  /** Stopped, with the session gone from the map and no control call about to put one there. */
  predicate Closed(s: State) { s.declared && s.stopped && s.held == None && s.inHand == {} }

  /** Once the alias is marked, nobody gets past the check any more. */
  lemma NobodyElsePasses(s: State, step: Step, t: nat)
    requires Enabled(s, step) && s.declared && s.stopped && HopefulAt(Apply(s, step), t)
    ensures HopefulAt(s, t)
  {
    if step.Turn? {
      TurnPasses(s, step.task);
    }
  }

  lemma TurnPasses(s: State, t: nat)
    requires MayTurn(s, t) && s.declared && s.stopped
    ensures HopefulAt(Turned(s, t), t) ==> HopefulAt(s, t)
    ensures forall u :: u != t && HopefulAt(Turned(s, t), u) ==> HopefulAt(s, u)
  {
  }

  /** Where a request that arrives after the close can be: nowhere but on its way to being told so. */
  predicate OnItsWay(pc: Pc) { pc in {Look(false), CheckStopped, Answered(Stopped)} }

  predicate OnlyStopped(tasks: map<nat, Task>, before: set<nat>)
  {
    forall t :: t in tasks && t !in before ==> OnItsWay(tasks[t].pc)
  }

  predicate ToldStopped(log: seq<Event>, since: nat, before: set<nat>)
  {
    forall i :: since <= i < |log| && log[i].Replied? && log[i].task !in before ==> log[i].reply == Stopped
  }

  lemma ClosedTurn(s: State, t: nat)
    requires MayTurn(s, t) && Closed(s) && !HopefulAt(s, t)
    ensures var s' := Turned(s, t);
      && Closed(s') && (OnItsWay(s.tasks[t].pc) ==> OnItsWay(s'.tasks[t].pc)) && Moves(s, s', t)
      && (s'.log == s.log || s'.log == s.log + [Replied(t, Stopped)]
        || (!OnItsWay(s.tasks[t].pc) && s'.log == s.log + [Replied(t, Down)]))
  {
    if s.tasks[t].pc.CheckStopped? {
      assert Turned(s, t).log == s.log + [Replied(t, Stopped)];
    }
    if s.tasks[t].pc.Failing? {
      assert Turned(s, t).log == s.log + [Replied(t, Down)];
    }
  }

  lemma ClosedStep(s: State, step: Step, since: nat, before: set<nat>)
    requires Enabled(s, step) && !Opens(step) && Closed(s) && !Promising(s)
    requires OnlyStopped(s.tasks, before) && ToldStopped(s.log, since, before)
    ensures var s' := Apply(s, step);
      Closed(s') && OnlyStopped(s'.tasks, before) && ToldStopped(s'.log, since, before)
  {
    if step.Turn? {
      assert !HopefulAt(s, step.task);
      ClosedTurn(s, step.task);
    }
    if step.DialEnds? && HopefulAt(s, step.task) {
      assert false;
    }
  }

  /**
   Once it is closed and no hopeful request is left, it stays closed however the run goes on, and
   every request that arrives from then on is answered Stopped or not yet answered.
   */
  lemma {:induction false} ClosedForGood(s: State, run: seq<Step>, since: nat, before: set<nat>)
    requires Possible(s, run) && NoOpens(run) && Closed(s) && !Promising(s)
    requires OnlyStopped(s.tasks, before) && ToldStopped(s.log, since, before)
    ensures var s' := After(s, run);
      && Closed(s') && !Promising(s')
      && OnlyStopped(s'.tasks, before) && ToldStopped(s'.log, since, before)
    decreases |run|
  {
    if run != [] {
      var s1 := Apply(s, run[0]);
      ClosedStep(s, run[0], since, before);
      forall t | t in s1.tasks ensures !HopefulAt(s1, t) {
        if HopefulAt(s1, t) {
          NobodyElsePasses(s, run[0], t);
        }
      }
      ClosedForGood(s1, run[1..], since, before);
    }
  }

  /** From the close on: before are the requests there are now. */
  lemma StopIsForGood(s: State, run: seq<Step>)
    requires Possible(s, run) && NoOpens(run) && Closed(s) && !Promising(s)
    ensures After(s, run).held == None
    ensures ToldStopped(After(s, run).log, |s.log|, s.tasks.Keys)
  {
    ClosedForGood(s, run, |s.log|, s.tasks.Keys);
  }

  // ---- Names nobody declared ----

  /** Nobody is past the check or on the way to a dial, and nobody was told of one. */
  predicate Undialled(s: State)
  {
    && (forall t :: t in s.tasks ==> !Guarded(s.tasks[t].pc) && !s.tasks[t].pc.AwaitLock?)
    && (forall t :: t in s.tasks && s.tasks[t].pc.Answered? ==> s.tasks[t].pc.reply in {Unknown, Served})
    && forall i :: 0 <= i < |s.log| ==> !s.log[i].DialStarted?
  }

  lemma UndeclaredTurn(s: State, t: nat)
    requires MayTurn(s, t) && !s.declared && Undialled(s)
    ensures Undialled(Turned(s, t)) && !Turned(s, t).declared
    ensures s.tasks[t].pc.CheckStopped? ==> Turned(s, t).tasks[t].pc == Answered(Unknown)
  {
  }

  lemma UndeclaredStep(s: State, step: Step)
    requires Enabled(s, step) && !s.declared && Undialled(s)
    ensures Undialled(Apply(s, step)) && !Apply(s, step).declared
  {
    hide Turned;
    if step.Turn? {
      UndeclaredTurn(s, step.task);
    }
  }

  lemma {:induction false} UndeclaredRun(s: State, run: seq<Step>)
    requires Possible(s, run) && !s.declared && Undialled(s)
    ensures Undialled(After(s, run))
    decreases |run|
  {
    hide Undialled;
    if run != [] {
      UndeclaredStep(s, run[0]);
      UndeclaredRun(Apply(s, run[0]), run[1..]);
    }
  }

  /**
   For a name that was never declared no request ever dials: each is served over a session somebody opened, or told
   that there is no such name.
   */
  lemma UndeclaredNeverDials(s: State)
    requires Reachable(s) && !s.declared
    ensures Undialled(s)
  {
    var start, run :| Starting(start) && Possible(start, run) && After(start, run) == s;
    DeclaredStays(start, run);
    UndeclaredRun(start, run);
  }

  lemma {:induction false} DeclaredStays(s: State, run: seq<Step>)
    requires Possible(s, run)
    ensures After(s, run).declared == s.declared
    decreases |run|
  {
    if run != [] {
      DeclaredOnce(s, run[0]);
      DeclaredStays(Apply(s, run[0]), run[1..]);
    }
  }

  lemma DeclaredOnce(s: State, step: Step)
    requires Enabled(s, step)
    ensures Apply(s, step).declared == s.declared
  {
  }

  // ---- The retry ----

  /**
   A request is sent round again exactly when it has not been before, its answer was a server error and the session it
   came over has gone. It then looks for a session afresh, with that one out of the map, and has not been answered.
   Otherwise it has, once and for all.
   */
  lemma RetriedIff(s: State, t: nat, serverError: bool)
    requires Reachable(s) && t in s.tasks && s.tasks[t].pc.Serving?
    ensures var x := s.tasks[t].pc.session; var served := Apply(s, ServeEnds(t, serverError));
      if !s.tasks[t].retried && serverError && x !in s.alive then
        && MayTurn(served, t)
        && var again := Apply(served, Turn(t));
        again.tasks == s.tasks[t := Task(Look(false), true)] && again.log == s.log && again.lock == s.lock
        && again.held == if s.held == Some(x) then None else s.held
      else
        && served.tasks == s.tasks[t := Task(Answered(Served), s.tasks[t].retried)]
        && served.log == s.log + [Replied(t, Served)] && served.held == s.held
  {
    hide Looked, LookedAgain, Swept, Adopted, CooledDown, HandsApart, LogSpaced, SessionsKnown, Reachable;
    ReachableInv(s);
  }

  /** Every answer in the history is the one its request has come to, and no request has two. */
  predicate OneAnswerEach(s: State)
  {
    && (forall i :: 0 <= i < |s.log| && s.log[i].Replied? ==>
        s.log[i].task in s.tasks && s.tasks[s.log[i].task].pc == Answered(s.log[i].reply))
    && (forall i, j :: 0 <= i < j < |s.log| && s.log[i].Replied? && s.log[j].Replied? ==>
        s.log[i].task != s.log[j].task)
    && forall t :: t in s.tasks && s.tasks[t].pc.Answered? ==> Replied(t, s.tasks[t].pc.reply) in s.log
  }

  /** What is enough to keep that: one task moves, and only an answer is an end. */
  ghost predicate AnswerMoves(s: State, s': State, t: nat)
  {
    && t in s'.tasks && s'.tasks == s.tasks[t := s'.tasks[t]] && (t in s.tasks ==> !s.tasks[t].pc.Answered?)
    && if s'.tasks[t].pc.Answered? then s'.log == s.log + [Replied(t, s'.tasks[t].pc.reply)]
       else s'.log == s.log || exists e: Event :: !e.Replied? && s'.log == s.log + [e]
  }

  lemma AnswerMoved(s: State, s': State, t: nat)
    requires OneAnswerEach(s) && AnswerMoves(s, s', t)
    ensures OneAnswerEach(s')
  {
    assert s.log <= s'.log;
    forall u | u in s'.tasks && s'.tasks[u].pc.Answered? ensures Replied(u, s'.tasks[u].pc.reply) in s'.log {
      if u == t {
        assert s'.log[|s.log|] == Replied(t, s'.tasks[t].pc.reply);
      } else {
        assert Replied(u, s.tasks[u].pc.reply) in s.log;
      }
    }
  }

  lemma TurnAnswers(s: State, t: nat)
    requires MayTurn(s, t)
    ensures AnswerMoves(s, Turned(s, t), t)
  {
    hide Looked, LookedAgain, Swept, Adopted;
    match s.tasks[t].pc
    case Look(locked) => LooksAnswer(s, t, locked);
    case Again(locked) => LooksAnswer(s, t, locked);
    case Sweep(locked) => LooksAnswer(s, t, locked);
    case Adopting(x) => AdoptedIs(s, x);
    case CheckTrouble =>
      var s' := Turned(s, t);
      if !s'.tasks[t].pc.Answered? {
        assert s'.log == s.log + [DialStarted(t, s.now)];
      }
    case _ =>
  }

  /** Looking for a session answers nobody. */
  lemma LooksAnswer(s: State, t: nat, locked: bool)
    requires t in s.tasks && !s.tasks[t].pc.Answered?
    ensures AnswerMoves(s, Looked(s, t, locked), t) && AnswerMoves(s, LookedAgain(s, t, locked), t)
    ensures AnswerMoves(s, Swept(s, t, locked), t)
  {
  }

  lemma AdoptedIs(s: State, x: nat)
    ensures Adopted(s, x).held.Some? && Adopted(s, x).tasks == s.tasks && Adopted(s, x).log == s.log
    ensures Adopted(s, x).lock == s.lock
  {
  }

  lemma StepAnswers(s: State, step: Step)
    requires OneAnswerEach(s) && Enabled(s, step)
    ensures OneAnswerEach(Apply(s, step))
  {
    hide Turned, OneAnswerEach;
    match step
    case Turn(t) =>
      TurnAnswers(s, t);
      AnswerMoved(s, Turned(s, t), t);
    case Arrive(t) => AnswerMoved(s, Apply(s, step), t);
    case DialEnds(t, ok) =>
      if !ok {
        assert Apply(s, step).log == s.log + [DialFailed(s.now)];
      }
      AnswerMoved(s, Apply(s, step), t);
    case ServeEnds(t, _) => AnswerMoved(s, Apply(s, step), t);
    case _ => SameAnswers(s, Apply(s, step));
  }

  lemma SameAnswers(s: State, s': State)
    requires OneAnswerEach(s) && s'.tasks == s.tasks && s'.log == s.log
    ensures OneAnswerEach(s')
  {
  }

  lemma {:induction false} RunAnswers(s: State, run: seq<Step>)
    requires OneAnswerEach(s) && Possible(s, run)
    ensures OneAnswerEach(After(s, run))
    decreases |run|
  {
    hide OneAnswerEach;
    if run != [] {
      StepAnswers(s, run[0]);
      RunAnswers(Apply(s, run[0]), run[1..]);
    }
  }

  /** However often it was sent round, a request is answered once at most, and what it was told is where it ends. */
  lemma EachAnsweredOnce(s: State)
    requires Reachable(s)
    ensures OneAnswerEach(s)
  {
    var start, run :| Starting(start) && Possible(start, run) && After(start, run) == s;
    assert OneAnswerEach(start);
    RunAnswers(start, run);
  }

  // ---- When a close is undone ----

  lemma Follows(s: State, step: Step, run: seq<Step>)
    requires Enabled(s, step) && Possible(Apply(s, step), run)
    ensures Possible(s, [step] + run) && After(s, [step] + run) == After(Apply(s, step), run)
    ensures !Opens(step) && NoOpens(run) ==> NoOpens([step] + run)
  {
    assert ([step] + run)[1..] == run;
  }

  /** The holder of the dial lock, with a dial that has not failed and no session in the map. */
  predicate HolderHopes(s: State, t: nat)
  {
    && s.held == None && s.lock == Some(t) && t in s.tasks
    && Guarded(s.tasks[t].pc) && !s.tasks[t].pc.Failing?
    && (s.trouble.Some? ==> s.trouble.value <= s.now)
  }

  /** How far it is from putting one there. */
  function Left(s: State, t: nat): nat
    requires t in s.tasks
  {
    match s.tasks[t].pc
    case CheckTrouble => if s.trouble.Some? && s.now < s.trouble.value + s.cooldown then 4 else 3
    case Dialling => 2
    case Dialled(_) => 1
    case Adopting(_) => 0
    case _ => 5
  }

  function NextOf(s: State, t: nat): (step: Step)
    requires HolderHopes(s, t)
    ensures !Opens(step)
  {
    match Left(s, t)
    case 4 => Tick(s.cooldown)
    case 2 => DialEnds(t, true)
    case _ => Turn(t)
  }

  lemma TurnAdvances(s: State, t: nat)
    requires HolderHopes(s, t) && Left(s, t) !in {2, 4}
    ensures MayTurn(s, t)
    ensures var s' := Turned(s, t);
      if Left(s, t) == 0 then s'.held.Some? else HolderHopes(s', t) && Left(s', t) < Left(s, t)
  {
  }

  lemma HolderAdvances(s: State, t: nat)
    requires HolderHopes(s, t)
    ensures Enabled(s, NextOf(s, t))
    ensures var s' := Apply(s, NextOf(s, t));
      if Left(s, t) == 0 then s'.held.Some? else HolderHopes(s', t) && Left(s', t) < Left(s, t)
  {
    hide Turned;
    if Left(s, t) !in {2, 4} {
      TurnAdvances(s, t);
    }
  }

  /** Left to itself, it connects and puts its session in the map. */
  lemma {:induction false} HolderConnects(s: State, t: nat) returns (run: seq<Step>)
    requires HolderHopes(s, t)
    ensures Possible(s, run) && NoOpens(run) && After(s, run).held.Some?
    decreases Left(s, t)
  {
    HolderAdvances(s, t);
    var step := NextOf(s, t);
    run := [];
    if Left(s, t) > 0 {
      run := HolderConnects(Apply(s, step), t);
    }
    Follows(s, step, run);
    run := [step] + run;
  }

  lemma WaiterConnects(s: State, t: nat) returns (run: seq<Step>)
    requires Inv(s) && s.held == None && s.lock == None && t in s.tasks && s.tasks[t].pc.AwaitLock?
    ensures Possible(s, run) && NoOpens(run) && After(s, run).held.Some?
  {
    run := HolderConnects(Apply(s, Turn(t)), t);
    Follows(s, Turn(t), run);
    run := [Turn(t)] + run;
  }

  lemma HopeConnects(s: State, t: nat) returns (run: seq<Step>)
    requires Inv(s) && s.held == None && HopefulAt(s, t)
    ensures Possible(s, run) && NoOpens(run) && After(s, run).held.Some?
  {
    if s.lock.None? {
      run := WaiterConnects(s, t);
    } else {
      var holder := s.lock.value;
      if s.tasks[holder].pc.Failing? {
        TurnKeeps(s, holder);
        run := WaiterConnects(Apply(s, Turn(holder)), t);
        Follows(s, Turn(holder), run);
        run := [Turn(holder)] + run;
      } else {
        run := HolderConnects(s, holder);
      }
    }
  }

  /**
   A close can be undone without anybody opening the alias again, exactly when a request was past the
   stopped check with a dial that had not failed.
   */
  lemma CloseUndoneIff(s: State)
    requires Inv(s) && Closed(s)
    ensures Promising(s) <==>
      exists run :: Possible(s, run) && NoOpens(run) && After(s, run).held.Some?
  {
    if Promising(s) {
      var t :| t in s.tasks && HopefulAt(s, t);
      var run := HopeConnects(s, t);
    } else {
      forall run | Possible(s, run) && NoOpens(run) ensures After(s, run).held == None {
        StopIsForGood(s, run);
      }
    }
  }

  lemma {:induction false} RunThen(s: State, run: seq<Step>, step: Step)
    requires Possible(s, run) && Enabled(After(s, run), step)
    ensures Possible(s, run + [step]) && After(s, run + [step]) == Apply(After(s, run), step)
    decreases |run|
  {
    if run == [] {
      assert run + [step] == [step] && [step][1..] == [];
    } else {
      assert (run + [step])[0] == run[0] && (run + [step])[1..] == run[1..] + [step];
      RunThen(Apply(s, run[0]), run[1..], step);
    }
  }

  lemma ReachedNext(s: State, step: Step)
    requires Reachable(s) && Enabled(s, step)
    ensures Reachable(Apply(s, step))
  {
    var start, run :| Starting(start) && Possible(start, run) && After(start, run) == s;
    RunThen(start, run, step);
  }

  /** It does happen: one request past the check when the alias is marked and its session removed. */
  lemma CloseCanBeUndone()
    ensures exists s :: Reachable(s) && Closed(s) && Promising(s)
  {
    var s0 := State(true, 3, 0, None, {}, 0, false, None, None, map[], {}, None, []);
    assert Possible(s0, []) && After(s0, []) == s0;
    var s1 := Apply(s0, Arrive(0));
    ReachedNext(s0, Arrive(0));
    var s2 := Apply(s1, Turn(0));
    ReachedNext(s1, Turn(0));
    var s3 := Apply(s2, Turn(0));
    ReachedNext(s2, Turn(0));
    var s4 := Apply(s3, ControlMark);
    ReachedNext(s3, ControlMark);
    var s5 := Apply(s4, ControlRemove);
    ReachedNext(s4, ControlRemove);
    assert HopefulAt(s5, 0);
  }
}
