/**
 `session_for`, `live`, `adopt` and `evict` as code over one alias's shared fields, origin/mod.rs:1016-1026,
 1635-1645 and 1739-1813. Between two awaits a method does what one step of Sessions does; at every await
 the other requests, the control calls, the clock and the connections take any steps they can.
 */
module Aliases {
  import opened Common
  import opened Sessions

  datatype Reached = Open(session: nat) | NotAnAlias | IsDown | IsStopped | Waiting

  /** The steps that move request t. */
  predicate IsOf(step: Step, t: nat)
  {
    match step
    case Arrive(u) => u == t
    case Turn(u) => u == t
    case DialEnds(u, _) => u == t
    case ServeEnds(u, _) => u == t
    case _ => false
  }

  /** Request t is where it was, and the dial lock its own if and only if it was. */
  predicate LeftAlone(s: State, s': State, t: nat)
  {
    && t in s.tasks && t in s'.tasks && s'.tasks[t] == s.tasks[t] && (s.lock == Some(t) <==> s'.lock == Some(t))
    && s'.declared == s.declared && s'.cooldown == s.cooldown && (s.stopped ==> s'.stopped)
    && NoDialBy(s.log, s'.log, t)
  }

  /** Since the history was `was`, request t has started no dial. */
  predicate NoDialBy(was: seq<Event>, log: seq<Event>, t: nat)
  {
    was <= log && forall i :: |was| <= i < |log| ==> !(log[i].DialStarted? && log[i].caller == t)
  }

  /** A dial is logged under the request that starts it. */
  lemma DialsAreTheirOwn(s: State, step: Step, t: nat)
    requires Enabled(s, step) && !IsOf(step, t)
    ensures NoDialBy(s.log, Apply(s, step).log, t)
  {
    match step
    case Turn(u) => TurnsLog(s, u);
    case _ =>
  }

  lemma TurnsLog(s: State, u: nat)
    requires MayTurn(s, u)
    ensures var log := Turned(s, u).log;
      log == s.log || (|log| == |s.log| + 1 && s.log <= log && (log[|s.log|].DialStarted? ==> log[|s.log|].caller == u))
  {
  }

  lemma MovedAlone(s: State, s': State, t: nat, u: nat)
    requires LockMoves(s, s', u) && t in s.tasks && t != u && NoDialBy(s.log, s'.log, t)
    ensures LeftAlone(s, s', t)
  {
  }

  lemma OthersLeave(s: State, step: Step, t: nat)
    requires Inv(s) && Enabled(s, step) && !IsOf(step, t) && t in s.tasks
    ensures LeftAlone(s, Apply(s, step), t)
  {
    DialsAreTheirOwn(s, step, t);
    match step
    case Turn(u) =>
      TurnFine(s, u);
      MovedAlone(s, Turned(s, u), t, u);
    case Arrive(u) =>
      TaskFine(s, step);
      MovedAlone(s, Apply(s, step), t, u);
    case DialEnds(u, _) =>
      TaskFine(s, step);
      MovedAlone(s, Apply(s, step), t, u);
    case ServeEnds(u, _) =>
      TaskFine(s, step);
      MovedAlone(s, Apply(s, step), t, u);
    case _ =>
  }

  /** Everything the tasks of one alias share, its requests' places included, and the history. */
  class Alias {
    const declared: bool
    const cooldown: nat
    var held: Option<nat>
    var alive: set<nat>
    var next: nat
    var stopped: bool
    var dialling: Option<nat>
    var trouble: Option<nat>
    var clock: nat
    var tasks: map<nat, Task>
    var inHand: set<nat>
    var lastFailed: Option<nat>
    var log: seq<Event>

    function Snapshot(): State
      reads this
    {
      State(declared, cooldown, clock, held, alive, next, stopped, dialling, trouble, tasks, inHand, lastFailed, log)
    }

    ghost predicate Valid()
      reads this
    {
      Reachable(Snapshot())
    }

    /** A request at its place, with the dial lock exactly where its place says. */
    ghost predicate AtPc(t: nat, pc: Pc)
      reads this
    {
      t in tasks && tasks[t].pc == pc && (dialling == Some(t) <==> Guarded(pc))
    }

    /** What has been done since is one step. */
    lemma Stepped(before: State, step: Step)
      requires Reachable(before) && Enabled(before, step) && Snapshot() == Apply(before, step)
      ensures Valid()
    {
      ReachedNext(before, step);
    }

    method Restore(s: State)
      requires s.declared == declared && s.cooldown == cooldown
      modifies this
      ensures Snapshot() == s
    {
      clock, held, alive, next, stopped, dialling := s.now, s.held, s.alive, s.next, s.stopped, s.lock;
      trouble, tasks, inHand, lastFailed, log := s.trouble, s.tasks, s.inHand, s.lastFailed, s.log;
    }

    /** Whatever everybody but request t does while it awaits. */
    method OthersRun(t: nat)
      requires Valid() && t in tasks
      modifies this
      ensures Valid() && t in tasks && tasks[t] == old(tasks[t])
      ensures dialling == Some(t) <==> old(dialling) == Some(t)
      ensures (old(stopped) ==> stopped) && NoDialBy(old(log), log, t)
    {
      var steps: seq<Step> := *;
      for i := 0 to |steps|
        invariant Valid() && t in tasks && tasks[t] == old(tasks[t])
        invariant dialling == Some(t) <==> old(dialling) == Some(t)
        invariant (old(stopped) ==> stopped) && NoDialBy(old(log), log, t)
      {
        var s := Snapshot();
        if !IsOf(steps[i], t) && Enabled(s, steps[i]) {
          ReachableInv(s);
          OthersLeave(s, steps[i], t);
          Restore(Apply(s, steps[i]));
          Stepped(s, steps[i]);
        }
      }
    }

    method Go(t: nat, pc: Pc)
      requires t in tasks
      modifies `tasks
      ensures tasks == old(tasks)[t := old(tasks)[t].(pc := pc)]
    {
      tasks := tasks[t := tasks[t].(pc := pc)];
    }

    /** Leaving `session_for` drops the dial guard, if it holds one. */
    method Leave(t: nat, pc: Pc)
      requires t in tasks
      modifies `tasks, `dialling
      ensures tasks == old(tasks)[t := old(tasks)[t].(pc := pc)]
      ensures dialling == if old(dialling) == Some(t) then None else old(dialling)
    {
      if dialling == Some(t) {
        dialling := None;
      }
      Go(t, pc);
    }

    /** What the map holds once a session found dead in it has been taken out. */
    method Live(t: nat, locked: bool) returns (live: Option<nat>)
      requires Valid() && AtPc(t, Look(locked))
      modifies this
      ensures Valid() && live == held && NoDialBy(old(log), log, t)
      ensures AtPc(t, if live.Some? then Serving(live.value) else if locked then CheckTrouble else CheckStopped)
      ensures tasks[t].retried == old(tasks[t].retried) && (old(stopped) ==> stopped)
    {
      hide Reachable;
      var none := if locked then CheckTrouble else CheckStopped;
      ghost var s := Snapshot();
      if held.None? {
        Go(t, none);
        Stepped(s, Turn(t));
        return None;
      }
      if held.value in alive {
        Go(t, Again(locked));
        Stepped(s, Turn(t));
        OthersRun(t);
        live := SecondRead(t, locked);
      } else {
        Go(t, Sweep(locked));
        Stepped(s, Turn(t));
        OthersRun(t);
        live := DropDead(t, locked);
      }
    }

    method SecondRead(t: nat, locked: bool) returns (live: Option<nat>)
      requires Valid() && AtPc(t, Again(locked))
      modifies this
      ensures Valid() && live == old(held) == held && log == old(log)
      ensures AtPc(t, if live.Some? then Serving(live.value) else if locked then CheckTrouble else CheckStopped)
      ensures tasks[t].retried == old(tasks[t].retried) && (old(stopped) ==> stopped)
    {
      hide Reachable;
      ghost var s := Snapshot();
      live := held;
      if live.Some? {
        Leave(t, Serving(live.value));
      } else {
        Go(t, if locked then CheckTrouble else CheckStopped);
      }
      Stepped(s, Turn(t));
    }

    /** The second check, with the write lock: what is dead now goes, and what is left is the answer. */
    method DropDead(t: nat, locked: bool) returns (live: Option<nat>)
      requires Valid() && AtPc(t, Sweep(locked))
      modifies this
      ensures Valid() && live == held && (live.Some? ==> live.value in alive && old(held) == live) && log == old(log)
      ensures live.None? ==> old(held).None? || old(held).value !in alive
      ensures AtPc(t, if live.Some? then Serving(live.value) else if locked then CheckTrouble else CheckStopped)
      ensures tasks[t].retried == old(tasks[t].retried) && (old(stopped) ==> stopped)
    {
      hide Reachable;
      ghost var s := Snapshot();
      if held.Some? && held.value !in alive {
        held := None;
      }
      live := held;
      if live.Some? {
        Leave(t, Serving(live.value));
      } else {
        Go(t, if locked then CheckTrouble else CheckStopped);
      }
      Stepped(s, Turn(t));
    }

    method Answer(t: nat, reply: Reply)
      requires t in tasks
      modifies `tasks, `dialling, `log
      ensures tasks == old(tasks)[t := old(tasks)[t].(pc := Answered(reply))]
      ensures dialling == if old(dialling) == Some(t) then None else old(dialling)
      ensures log == old(log) + [Replied(t, reply)]
    {
      Leave(t, Answered(reply));
      log := log + [Replied(t, reply)];
    }

    /** Is it an alias at all, and has it been stopped? Asked before dialling. */
    method MayDial(t: nat) returns (refused: Option<Reply>)
      requires Valid() && AtPc(t, CheckStopped)
      modifies this
      ensures Valid() && AtPc(t, if refused.Some? then Answered(refused.value) else AwaitLock)
      ensures tasks[t].retried == old(tasks[t].retried) && stopped == old(stopped) && NoDialBy(old(log), log, t)
      ensures refused == if !declared then Some(Unknown) else if old(stopped) then Some(Stopped) else None
    {
      hide Reachable;
      ghost var s := Snapshot();
      if !declared {
        Answer(t, Unknown);
        refused := Some(Unknown);
      } else if stopped {
        Answer(t, Stopped);
        refused := Some(Stopped);
      } else {
        Go(t, AwaitLock);
        refused := None;
      }
      Stepped(s, Turn(t));
    }

    method TakeLock(t: nat) returns (taken: bool)
      requires Valid() && AtPc(t, AwaitLock)
      modifies `dialling, `tasks
      ensures Valid() && taken == old(dialling).None?
      ensures AtPc(t, if taken then Look(true) else AwaitLock) && tasks[t].retried == old(tasks[t].retried)
    {
      hide Reachable;
      if dialling.Some? {
        return false;
      }
      ghost var s := Snapshot();
      dialling := Some(t);
      Go(t, Look(true));
      Stepped(s, Turn(t));
      taken := true;
    }

    /** A failure is remembered, and inside the window answered from memory. */
    method DialDue(t: nat) returns (due: bool)
      requires Valid() && AtPc(t, CheckTrouble)
      modifies this
      ensures Valid() && AtPc(t, if due then Dialling else Answered(Down))
      ensures tasks[t].retried == old(tasks[t].retried)
      ensures due <==> old(trouble).None? || old(clock) - old(trouble).value >= cooldown
    {
      hide Reachable, Looked, LookedAgain, Swept, Adopted;
      ghost var s := Snapshot();
      due := !(trouble.Some? && clock - trouble.value < cooldown);
      if due {
        Go(t, Dialling);
        log := log + [DialStarted(t, clock)];
      } else {
        Answer(t, Down);
      }
      Stepped(s, Turn(t));
    }

    /** `dial` touches nothing that is shared: it connects, or it fails. */
    method Dial(t: nat) returns (session: Option<nat>)
      requires Valid() && AtPc(t, Dialling)
      modifies this
      ensures Valid() && AtPc(t, if session.Some? then Dialled(session.value) else Failing)
      ensures tasks[t].retried == old(tasks[t].retried)
      ensures held == old(held) && trouble == old(trouble) && stopped == old(stopped)
    {
      hide Reachable;
      ghost var s := Snapshot();
      var connects: bool := *;
      if connects {
        session := Some(next);
        alive, next := alive + {next}, next + 1;
        Go(t, Dialled(session.value));
      } else {
        session := None;
        lastFailed, log := Some(clock), log + [DialFailed(clock)];
        Go(t, Failing);
      }
      Stepped(s, DialEnds(t, connects));
    }

    method RememberFailure(t: nat)
      requires Valid() && AtPc(t, Failing)
      modifies this
      ensures Valid() && AtPc(t, Answered(Down))
      ensures tasks[t].retried == old(tasks[t].retried)
      ensures trouble == Some(old(clock)) && held == old(held) && stopped == old(stopped)
    {
      hide Reachable;
      ghost var s := Snapshot();
      trouble := Some(clock);
      Answer(t, Down);
      Stepped(s, Turn(t));
    }

    method ForgetTrouble(t: nat, session: nat)
      requires Valid() && AtPc(t, Dialled(session))
      modifies `trouble, `tasks
      ensures Valid() && AtPc(t, Adopting(session)) && trouble == None
      ensures tasks[t].retried == old(tasks[t].retried)
    {
      hide Reachable;
      ghost var s := Snapshot();
      trouble := None;
      Go(t, Adopting(session));
      Stepped(s, Turn(t));
    }

    /** Keep the session that got there first, unless it is dead; the loser is closed by being dropped. */
    method Adopt(t: nat, session: nat) returns (kept: nat)
      requires Valid() && AtPc(t, Adopting(session))
      modifies this
      ensures Valid() && AtPc(t, Serving(kept)) && held == Some(kept)
      ensures if old(held).Some? && old(held).value in old(alive)
        then held == old(held) && alive == old(alive) - {session}
        else kept == session && alive == old(alive)
      ensures tasks[t].retried == old(tasks[t].retried)
      ensures stopped == old(stopped)
    {
      hide Reachable, Looked, LookedAgain, Swept;
      ghost var s := Snapshot();
      if held.Some? && held.value in alive {
        kept := held.value;
        alive := alive - {session};
      } else {
        kept := session;
        held := Some(session);
      }
      Leave(t, Serving(kept));
      Stepped(s, Turn(t));
    }

    /** The map gives up this very session and no other, even if another has taken its place since. */
    method Evict(t: nat, session: nat)
      requires Valid() && AtPc(t, Evicting(session))
      modifies `held, `tasks
      ensures Valid() && AtPc(t, Look(false)) && tasks[t].retried == old(tasks[t].retried)
      ensures held == if old(held) == Some(session) then None else old(held)
      ensures session !in alive
    {
      hide Reachable;
      ReachableInv(Snapshot());
      ghost var s := Snapshot();
      if held == Some(session) {
        held := None;
      }
      Go(t, Look(false));
      Stepped(s, Turn(t));
    }

    /** Wait for the dial lock, for as long as that takes or the run lasts. */
    method AwaitDialLock(t: nat) returns (taken: bool)
      requires Valid() && AtPc(t, AwaitLock)
      modifies this
      ensures Valid() && AtPc(t, if taken then Look(true) else AwaitLock)
      ensures tasks[t].retried == old(tasks[t].retried)
    {
      var patience: nat := *;
      taken := TakeLock(t);
      while !taken && patience > 0
        invariant Valid() && AtPc(t, if taken then Look(true) else AwaitLock)
        invariant tasks[t].retried == old(tasks[t].retried)
        decreases patience
      {
        OthersRun(t);
        taken := TakeLock(t);
        patience := patience - 1;
      }
    }

    /** Where a request is when `session_for` has answered it. */
    function PcOf(r: Reached): Pc
    {
      match r
      case Open(x) => Serving(x)
      case NotAnAlias => Answered(Unknown)
      case IsDown => Answered(Down)
      case IsStopped => Answered(Stopped)
      case Waiting => AwaitLock
    }

    /**
     Where a request gets a session from: the map, or a dial of its own; but never a dial once the alias
     has been stopped.
     */
    method SessionFor(t: nat) returns (r: Reached)
      requires Valid() && AtPc(t, Look(false))
      modifies this
      ensures Valid() && AtPc(t, PcOf(r)) && tasks[t].retried == old(tasks[t].retried)
      ensures r.NotAnAlias? ==> !declared
      ensures r.IsStopped? ==> stopped
      ensures declared && old(stopped) ==> (r.Open? || r.IsStopped?) && NoDialBy(old(log), log, t)
    {
      hide Valid;
      var live := Live(t, false);
      if live.Some? {
        return Open(live.value);
      }
      OthersRun(t);
      var refused := MayDial(t);
      if refused.Some? {
        return if refused.value == Unknown then NotAnAlias else IsStopped;
      }
      OthersRun(t);
      var taken := AwaitDialLock(t);
      if !taken {
        return Waiting;
      }
      r := UnderLock(t);
    }

    /** The section the dial lock guards: another look, the memory of a failure, and the dial. */
    method UnderLock(t: nat) returns (r: Reached)
      requires Valid() && AtPc(t, Look(true))
      modifies this
      ensures Valid() && AtPc(t, PcOf(r)) && (r.Open? || r.IsDown?)
      ensures tasks[t].retried == old(tasks[t].retried)
    {
      var live := Live(t, true);
      if live.Some? {
        return Open(live.value);
      }
      OthersRun(t);
      var due := DialDue(t);
      if !due {
        return IsDown;
      }
      OthersRun(t);
      var session := Dial(t);
      OthersRun(t);
      if session.None? {
        RememberFailure(t);
        return IsDown;
      }
      ForgetTrouble(t, session.value);
      OthersRun(t);
      var kept := Adopt(t, session.value);
      r := Open(kept);
    }

    /**
     A request, with its one retry: it ends in an answer, or is still waiting for the dial lock when
     the run ends. It asks for a session once, and once more exactly if it has been sent round again; the
     last pass of the loop always returns.
     */
    method Request(t: nat) returns (answered: bool, passes: nat)
      requires Valid() && AtPc(t, Look(false)) && !tasks[t].retried
      modifies this
      ensures Valid() && t in tasks
      ensures if answered then tasks[t].pc.Answered? else tasks[t].pc == AwaitLock
      ensures 1 <= passes <= 2 && (passes == 2 <==> tasks[t].retried)
    {
      var attempt := 0;
      while true
        invariant 0 <= attempt <= 1
        invariant Valid() && AtPc(t, Look(false)) && (tasks[t].retried <==> attempt == 1)
        decreases 1 - attempt
      {
        var r := SessionFor(t);
        if !r.Open? {
          return !r.Waiting?, attempt + 1;
        }
        OthersRun(t);
        var serverError: bool := *;
        var again := Served(t, r.session, serverError);
        if !again {
          return true, attempt + 1;
        }
        OthersRun(t);
        Evict(t, r.session);
        attempt := attempt + 1;
      }
    }

    /** Served: over for good, or to be tried once more on a server error whose session has ended since. */
    method Served(t: nat, session: nat, serverError: bool) returns (again: bool)
      requires Valid() && AtPc(t, Serving(session))
      modifies this
      ensures Valid() && (again <==> !old(tasks[t].retried) && serverError && session !in old(alive))
      ensures alive == old(alive)
      ensures AtPc(t, if again then Evicting(session) else Answered(Sessions.Served))
      ensures tasks[t].retried == (again || old(tasks[t].retried))
    {
      hide Reachable;
      ghost var s := Snapshot();
      again := !tasks[t].retried && serverError && session !in alive;
      if again {
        tasks := tasks[t := Task(Evicting(session), true)];
      } else {
        Answer(t, Sessions.Served);
      }
      Stepped(s, ServeEnds(t, serverError));
    }
  }
}
