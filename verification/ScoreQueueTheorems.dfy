/** What callers of the score queue rely on, over every interleaving. */
module ScoreQueueTheorems {
  import opened ScoreQueue
  import opened ScoreQueueProofs

  function Reach(c: Config, actions: seq<Action>): Sys { Run(c, START, actions) }

  lemma ReachHolds(c: Config, actions: seq<Action>)
    requires c.capacity > 0
    ensures Inv(Reach(c, actions))
  {
    StartHolds();
    RunKeeps(c, START, actions);
  }

  lemma {:induction false} RunAppend(c: Config, s: Sys, a: seq<Action>, b: seq<Action>)
    ensures Run(c, s, a + b) == Run(c, Run(c, s, a), b)
    decreases |a|
  {
    if a == [] {
      assert a + b == b;
    } else {
      assert (a + b)[0] == a[0] && (a + b)[1..] == a[1..] + b;
      hide Act;
      RunAppend(c, Act(c, s, a[0]), a[1..], b);
    }
  }

  /** Nothing accepted is lost, repeated or reordered: what has been delivered
      is the beginning of what was accepted, and the rest is in flight or
      queued, in order. */
  lemma DeliveredInOrder(c: Config, actions: seq<Action>)
    requires c.capacity > 0
    ensures var s := Reach(c, actions);
            && s.deliverLog <= s.acceptLog
            && s.acceptLog[|s.deliverLog|..] == Undelivered(s.dispatcher) + s.q.buf
            && s.q.accepted == s.q.completed + |InFlight(s.dispatcher)| + |s.q.buf|
            && |s.q.buf| <= c.capacity
  {
    ReachHolds(c, actions);
    BufferBounded(c, START, actions);
    var s := Reach(c, actions);
    hide Run, Reach;
    assert s.acceptLog == s.deliverLog + (Undelivered(s.dispatcher) + s.q.buf);
  }

  lemma EnqueueBounded(c: Config, s: Sys, id: nat, score: Score)
    requires |s.q.buf| <= c.capacity
    ensures |EnterEnqueue(c, s, id, score).q.buf| <= c.capacity
  {
  }

  lemma DispatchBounded(s: Sys)
    ensures |StepDispatcher(s).q.buf| <= |s.q.buf|
  {
    hide Stamps, Reached, Waiting;
    match s.dispatcher
    case Top =>
    case Parked =>
    case SignalSpace(_) =>
    case Deliver(_) =>
    case Finish(_) =>
    case _ =>
  }

  lemma ActBounded(c: Config, s: Sys, a: Action)
    requires |s.q.buf| <= c.capacity
    ensures |Act(c, s, a).q.buf| <= c.capacity
  {
    hide EnterEnqueue, StepDispatcher;
    if a.Dispatch? {
      DispatchBounded(s);
    } else if Enqueues(s, a) {
      EnqueueBounded(c, s, a.id, s.calls[a.id].score);
    } else {
      IdleAct(c, s, a);
      hide Act;
    }
  }

  lemma {:induction false} BufferBounded(c: Config, s: Sys, actions: seq<Action>)
    requires |s.q.buf| <= c.capacity
    ensures |Run(c, s, actions).q.buf| <= c.capacity
    decreases |actions|
  {
    if actions != [] {
      ActBounded(c, s, actions[0]);
      hide Act;
      BufferBounded(c, Act(c, s, actions[0]), actions[1..]);
    }
  }

  // ---- flush is a barrier ----

  /** The flush `id`, not yet begun when `n` scores had been accepted. */
  predicate Covers(s: Sys, id: nat, n: nat) {
    && n <= s.q.accepted
    && id in s.calls
    && match s.calls[id]
       case Flush => true
       case WaitFlush(target) => n <= target
       case Abandon(target) => n <= target
       case FlushNil(target) => n <= target
       case FlushCanceled => true
       case _ => false
  }

  lemma StepCovers(c: Config, s: Sys, id: nat, n: nat)
    requires Covers(s, id, n)
    ensures Covers(StepCall(c, s, id), id, n) && Covers(CancelCall(s, id), id, n)
  {
    hide Without;
    if s.calls[id].Flush? {
      if s.q.completed >= s.q.accepted {
      } else {
      }
    } else if s.calls[id].WaitFlush? {
      if id in s.signalled {
      } else {
      }
    } else if s.calls[id].Abandon? {
    }
  }

  lemma LogGrows(c: Config, s: Sys, a: Action)
    ensures s.acceptLog <= Act(c, s, a).acceptLog && s.q.accepted <= Act(c, s, a).q.accepted
  {
    if a.Dispatch? {
      DispatchStays(s);
      hide StepDispatcher;
    } else if Enqueues(s, a) {
      StepEnqueues(c, s, a.id);
      hide StepCall;
      if s.q.stopped {
      } else if |s.q.buf| < c.capacity {
      } else {
      }
    } else {
      IdleAct(c, s, a);
      hide Act;
    }
  }

  lemma ActCovers(c: Config, s: Sys, a: Action, id: nat, n: nat)
    requires Covers(s, id, n)
    ensures Covers(Act(c, s, a), id, n)
  {
    LogGrows(c, s, a);
    if a.Dispatch? {
      DispatchStays(s);
      hide StepDispatcher;
    } else if a.id != id {
      OthersAct(c, s, a);
      hide Act;
    } else {
      StepCovers(c, s, id, n);
      hide StepCall, CancelCall;
    }
  }

  lemma {:induction false} RunCovers(c: Config, s: Sys, actions: seq<Action>, id: nat, n: nat)
    requires Covers(s, id, n)
    ensures Covers(Run(c, s, actions), id, n) && s.acceptLog <= Run(c, s, actions).acceptLog
    decreases |actions|
  {
    if actions != [] {
      ActCovers(c, s, actions[0], id, n);
      LogGrows(c, s, actions[0]);
      hide Act, Covers;
      RunCovers(c, Act(c, s, actions[0]), actions[1..], id, n);
    }
  }

  /** A flush that returns nil has seen every score accepted before it began
      delivered, whatever happened in between. */
  lemma FlushIsABarrier(c: Config, before: seq<Action>, id: nat, after: seq<Action>)
    requires c.capacity > 0
    requires var s := Reach(c, before); id in s.calls && s.calls[id].Flush?
    ensures var s, t := Reach(c, before), Reach(c, before + after);
            id in t.calls && (t.calls[id].FlushNil? ==> s.acceptLog <= t.deliverLog)
  {
    var s, t := Reach(c, before), Reach(c, before + after);
    RunAppend(c, START, before, after);
    ReachHolds(c, before);
    ReachHolds(c, before + after);
    assert Covers(s, id, s.q.accepted);
    RunCovers(c, s, after, id, s.q.accepted);
    hide Run, Reach;
    if t.calls[id].FlushNil? {
      assert FlushOk(t, id);
      assert t.acceptLog == t.deliverLog + (Undelivered(t.dispatcher) + t.q.buf);
    }
  }

  /** A waiter is signalled once, at the completion that reaches its target. */
  lemma SignalledOnce(c: Config, before: seq<Action>, id: nat, after: seq<Action>)
    requires c.capacity > 0 && id in Reach(c, before).signalled
    ensures var s, t := Reach(c, before), Reach(c, before + after);
            && id in t.signalled && t.signalled[id] == s.signalled[id] && id in t.calls
            && (t.calls[id].WaitFlush? || t.calls[id].Abandon? || t.calls[id].FlushNil? ==>
                  t.signalled[id] == t.calls[id].target)
  {
    RunAppend(c, START, before, after);
    ReachHolds(c, before);
    ReachHolds(c, before + after);
    RunSignals(c, Reach(c, before), after, id);
    var t := Reach(c, before + after);
    hide Run, Reach;
    assert FlushOk(t, id);
    if HasWaiter(t.q.waiters, id) { NotBoth(t, id); }
  }

  lemma {:induction false} RunSignals(c: Config, s: Sys, actions: seq<Action>, id: nat)
    requires c.capacity > 0 && Inv(s) && id in s.signalled
    ensures id in Run(c, s, actions).signalled && Run(c, s, actions).signalled[id] == s.signalled[id]
    ensures id in Run(c, s, actions).calls
    decreases |actions|
  {
    if actions != [] {
      var t := Act(c, s, actions[0]);
      ActKeeps(c, s, actions[0]);
      ActSignals(c, s, actions[0], id);
      hide Act;
      RunSignals(c, t, actions[1..], id);
    }
  }

  lemma Unsignalled(s: Sys, n: nat)
    requires WaitersOk(s)
    ensures forall id :: id in Reached(s.q.waiters, n) ==> id !in s.signalled
  {
    forall id | id in Reached(s.q.waiters, n) ensures id !in s.signalled {
      var w :| w in s.q.waiters && w.target <= n && w.id == id;
      var k :| 0 <= k < |s.q.waiters| && s.q.waiters[k] == w;
      assert Owned(s, s.q.waiters[k]);
    }
  }

  lemma ActSignals(c: Config, s: Sys, a: Action, id: nat)
    requires Inv(s) && id in s.signalled
    ensures id in Act(c, s, a).signalled && Act(c, s, a).signalled[id] == s.signalled[id]
  {
    if !a.Dispatch? {
      if Registers(s, a) { IdleAct(c, s, a); } else { SameBarriersAct(c, s, a); }
      hide Act;
    } else if s.dispatcher.Finish? {
      var now, n := Reached(s.q.waiters, s.q.completed + 1), s.q.completed + 1;
      Unsignalled(s, n);
      FinishIs(s);
      hide StepDispatcher, Reached, Inv, Stamps, Waiting;
      Stamped(s.signalled, now, n, id);
    } else {
      QuietDispatch(s);
      hide StepDispatcher;
    }
  }

  // ---- shutdown ----

  lemma WaitersWait(s: Sys)
    requires WaitersOk(s)
    ensures s.q.waiters != [] ==> s.q.completed < s.q.accepted
  {
    if s.q.waiters != [] { assert Owned(s, s.q.waiters[0]); }
  }

  lemma Drained(s: Sys)
    requires Inv(s) && s.dispatcher.Exited?
    ensures s.q.buf == [] && s.q.waiters == [] && s.acceptLog == s.deliverLog
  {
    WaitersWait(s);
  }

  /** When the dispatcher has closed `done`, everything accepted has been
      delivered and no waiter is left unsignalled; and a shutdown that started
      the drain returns only then. */
  lemma ShutdownDrains(c: Config, actions: seq<Action>)
    requires c.capacity > 0
    ensures var s := Reach(c, actions);
            && (s.done ==> s.q.buf == [] && s.q.waiters == [] && s.acceptLog == s.deliverLog)
            && (forall id :: id in s.calls && (s.calls[id] == ShutdownNil(false) || s.calls[id].ShutdownCanceled?) ==>
                  s.done || !s.q.started)
  {
    ReachHolds(c, actions);
    var s := Reach(c, actions);
    hide Run, Reach;
    if s.done { Drained(s); }
    forall id | id in s.calls && (s.calls[id] == ShutdownNil(false) || s.calls[id].ShutdownCanceled?)
      ensures s.done || !s.q.started
    {
      assert ShutdownOk(s, s.calls[id]);
    }
  }

  // ---- no lost wakeups ----

  /** Before shutdown, work never waits behind a parked dispatcher and a
      producer never waits for an empty queue without a signal on its way. */
  lemma NoLostWakeups(c: Config, actions: seq<Action>)
    requires c.capacity > 0
    ensures NoLostWake(Reach(c, actions)) && NoLostSpace(Reach(c, actions))
  {
    ReachHolds(c, actions);
  }

  /** Nobody can move without a context ending or a new call. */
  ghost predicate Quiet(c: Config, s: Sys) {
    && Act(c, s, Dispatch) == s
    && forall id :: id in s.calls ==> Act(c, s, Step(id)) == s && Act(c, s, StopSeen(id)) == s
  }

  predicate Returned(p: Pc) {
    || p.Accepted? || p.QueueFull? || p.Rejected? || p.EnqueueCanceled?
    || p.FlushNil? || p.FlushCanceled? || p.ShutdownNil? || p.ShutdownCanceled?
  }

  // A call that stays where it is has returned or waits for somebody.
  lemma StaysPut(c: Config, s: Sys, id: nat)
    requires id in s.calls
    ensures var t := StepCall(c, s, id);
            id in t.calls && (t.calls[id] == s.calls[id] ==> WaitsOn(s, id))
  {
    hide EnterEnqueue, EnterFlush, EnterShutdown, Without;
    match s.calls[id]
    case Enqueue(score) => EnqueueShape(c, s, id, score);
    case Recheck(score) => EnqueueShape(c, s, id, score);
    case SignalWake =>
    case WaitSpace(_) =>
    case Flush => FlushShape(s, id);
    case WaitFlush(_) =>
    case Abandon(_) =>
    case Shutdown => ShutdownShape(s, id);
    case SignalStop(_, _) =>
    case AwaitDone(_, _) =>
    case _ =>
  }

  predicate WaitsOn(s: Sys, id: nat)
    requires id in s.calls
  {
    || Returned(s.calls[id])
    || (s.calls[id].WaitSpace? && !s.space)
    || (s.calls[id].WaitFlush? && id !in s.signalled)
    || (s.calls[id].AwaitDone? && !s.done)
  }

  lemma DispatcherStaysPut(s: Sys)
    ensures StepDispatcher(s).dispatcher == s.dispatcher ==>
              s.dispatcher.NotStarted? || s.dispatcher.Exited? || (s.dispatcher.Parked? && !s.wake)
  {
    hide FinishOne, Stamps;
    match s.dispatcher
    case Top =>
    case Parked =>
    case SignalSpace(_) =>
    case Deliver(_) =>
    case Finish(_) =>
    case _ =>
  }

  lemma StopSeenMoves(c: Config, s: Sys, id: nat)
    requires id in s.calls && s.calls[id].WaitSpace? && s.canceled
    ensures Act(c, s, StopSeen(id)) != s
  {
    assert Act(c, s, StopSeen(id)).calls[id] == Rejected;
  }

  lemma QuietCalls(c: Config, s: Sys)
    requires Quiet(c, s)
    ensures forall id :: id in s.calls ==> WaitsOn(s, id) && !(s.calls[id].WaitSpace? && s.canceled)
  {
    forall id | id in s.calls ensures WaitsOn(s, id) && !(s.calls[id].WaitSpace? && s.canceled) {
      assert Act(c, s, Step(id)) == s && Act(c, s, StopSeen(id)) == s;
      assert StepCall(c, s, id) == s;
      StaysPut(c, s, id);
      hide StepCall, Quiet, WaitsOn, StepDispatcher;
      if s.calls[id].WaitSpace? && s.canceled { StopSeenMoves(c, s, id); }
    }
  }

  lemma QuietSettled(c: Config, s: Sys)
    requires Inv(s) && Quiet(c, s)
    ensures s.q.buf == [] && InFlight(s.dispatcher) == [] && s.q.waiters == [] && s.acceptLog == s.deliverLog
    ensures s.q.stopped && s.q.started ==> s.done
  {
    QuietCalls(c, s);
    DispatcherStaysPut(s);
    WaitersWait(s);
    hide StepDispatcher, Act, StepCall;
    assert !Waking(s);
  }

  lemma NoneBlocked(c: Config, s: Sys)
    requires Inv(s) && Quiet(c, s) && s.q.buf == [] && InFlight(s.dispatcher) == []
    requires s.q.stopped && s.q.started ==> s.done
    ensures !Blocked(s) && (Stopping(s) ==> !s.done)
  {
    hide Act, StepDispatcher, Inv, Quiet;
    QuietCalls(c, s);
    assert !Rechecking(s) && (Stopping(s) ==> !s.done);
    QuietBlocked(s);
  }

  lemma CallReturned(c: Config, s: Sys, id: nat)
    requires Inv(s) && id in s.calls && WaitsOn(s, id) && !Blocked(s) && s.q.waiters == []
    requires s.q.stopped && s.q.started ==> s.done
    requires Stopping(s) ==> !s.done
    ensures Returned(s.calls[id])
  {
    NotBlocked(s, id);
    assert FlushOk(s, id) && ShutdownOk(s, s.calls[id]);
  }

  /** No deadlock: in any reachable state where no step is possible, every call
      has returned and everything accepted has been delivered. */
  lemma NeverStuck(c: Config, actions: seq<Action>)
    requires c.capacity > 0 && Quiet(c, Reach(c, actions))
    ensures var s := Reach(c, actions);
            && s.q.buf == [] && s.acceptLog == s.deliverLog
            && forall id :: id in s.calls ==> Returned(s.calls[id])
  {
    ReachHolds(c, actions);
    var s := Reach(c, actions);
    hide Run, Reach, Quiet, Act, StepDispatcher, Inv, WaitsOn, Blocked;
    QuietSettled(c, s);
    QuietCalls(c, s);
    NoneBlocked(c, s);
    forall id | id in s.calls ensures Returned(s.calls[id]) { CallReturned(c, s, id); }
  }

  lemma NotBlocked(s: Sys, id: nat)
    requires id in s.calls && !Blocked(s)
    ensures !s.calls[id].WaitSpace?
  {
  }

  lemma QuietBlocked(s: Sys)
    requires Inv(s) && s.q.buf == [] && !s.dispatcher.SignalSpace? && !Rechecking(s)
    requires s.q.stopped && s.q.started ==> s.done
    requires Stopping(s) ==> !s.done
    requires forall id :: id in s.calls ==> !(s.calls[id].WaitSpace? && (s.canceled || s.space))
    ensures !Blocked(s)
  {
    assert Blocked(s) ==> s.q.started && !s.canceled && !s.space;
  }
}
