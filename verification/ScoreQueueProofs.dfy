/** Every interleaving of the score protocol keeps its invariants. */
module ScoreQueueProofs {
  import opened ScoreQueue

  // ---- waiter lists ----

  lemma {:induction false} WithoutKeeps(ws: seq<Waiter>, id: nat)
    ensures forall i :: 0 <= i < |Without(ws, id)| ==> Without(ws, id)[i] in ws
    ensures forall w :: w in ws && w.id != id ==> w in Without(ws, id)
    decreases |ws|
  {
    if ws != [] {
      assert ws == [ws[0]] + ws[1..];
      if ws[0].id != id { WithoutKeeps(ws[1..], id); }
    }
  }

  predicate DistinctIds(ws: seq<Waiter>) {
    forall i, j :: 0 <= i < j < |ws| ==> ws[i].id != ws[j].id
  }

  lemma DistinctTail(ws: seq<Waiter>)
    requires ws != [] && DistinctIds(ws)
    ensures DistinctIds(ws[1..]) && forall w :: w in ws[1..] ==> w.id != ws[0].id
  {
    var t := ws[1..];
    forall i, j | 0 <= i < j < |t| ensures t[i].id != t[j].id {
      assert ws[i + 1].id != ws[j + 1].id;
    }
    forall w | w in t ensures w.id != ws[0].id {
      var i :| 0 <= i < |t| && t[i] == w;
      assert ws[i + 1] == w;
    }
  }

  lemma DistinctCons(w: Waiter, t: seq<Waiter>)
    requires DistinctIds(t) && forall v :: v in t ==> v.id != w.id
    ensures DistinctIds([w] + t)
  {
    var ws := [w] + t;
    forall i, j | 0 <= i < j < |ws| ensures ws[i].id != ws[j].id {
      assert ws[j] == t[j - 1] && t[j - 1] in t;
      if i > 0 { assert ws[i] == t[i - 1]; }
    }
  }

  lemma {:induction false} WithoutDistinct(ws: seq<Waiter>, id: nat)
    requires DistinctIds(ws)
    ensures DistinctIds(Without(ws, id))
    ensures !HasWaiter(Without(ws, id), id)
    decreases |ws|
  {
    if ws != [] {
      DistinctTail(ws);
      if ws[0].id == id {
        forall i | 0 <= i < |ws[1..]| ensures ws[1..][i].id != id { assert ws[1..][i] in ws[1..]; }
      } else {
        WithoutDistinct(ws[1..], id);
        WithoutKeeps(ws[1..], id);
        var t := Without(ws[1..], id);
        forall v | v in t ensures v.id != ws[0].id { }
        DistinctCons(ws[0], t);
        forall i | 0 <= i < |[ws[0]] + t| ensures ([ws[0]] + t)[i].id != id {
          if i > 0 { assert ([ws[0]] + t)[i] == t[i - 1]; }
        }
      }
    }
  }

  lemma {:induction false} WaitingIs(ws: seq<Waiter>, completed: nat)
    requires DistinctIds(ws)
    ensures DistinctIds(Waiting(ws, completed))
    ensures forall w :: w in Waiting(ws, completed) <==> w in ws && w.target > completed
    decreases |ws|
  {
    if ws != [] {
      DistinctTail(ws);
      WaitingIs(ws[1..], completed);
      assert ws == [ws[0]] + ws[1..];
      var t := Waiting(ws[1..], completed);
      if ws[0].target > completed {
        DistinctCons(ws[0], t);
      } else {
        assert [] + t == t;
      }
    }
  }

  lemma HasMember(ws: seq<Waiter>, id: nat)
    ensures HasWaiter(ws, id) <==> exists w :: w in ws && w.id == id
  {
    if HasWaiter(ws, id) {
      var i :| 0 <= i < |ws| && ws[i].id == id;
      assert ws[i] in ws;
    }
    if exists w :: w in ws && w.id == id {
      var w :| w in ws && w.id == id;
      var i :| 0 <= i < |ws| && ws[i] == w;
    }
  }

  // ---- frames ----

  /** A step into the critical section of an enqueue. */
  predicate Enqueues(s: Sys, a: Action) {
    a.Step? && a.id in s.calls && (s.calls[a.id].Enqueue? || s.calls[a.id].Recheck?)
  }

  predicate SameLoad(s: Sys, t: Sys) {
    && t.q.buf == s.q.buf && t.q.accepted == s.q.accepted && t.q.completed == s.q.completed
    && t.q.started == s.q.started && t.dispatcher == s.dispatcher && t.done == s.done
    && t.acceptLog == s.acceptLog && t.deliverLog == s.deliverLog && t.signalled == s.signalled
  }

  lemma GoIdle(s: Sys, id: nat, pc: Pc)
    ensures SameLoad(s, s) && SameLoad(s, Go(s, id, pc))
    ensures SameLoad(s, Go(s.(wake := true), id, pc)) && SameLoad(s, Go(s.(space := false), id, pc))
    ensures SameLoad(s, Go(s.(canceled := true), id, pc))
    ensures SameLoad(s, Go(s.(q := s.q.(waiters := Without(s.q.waiters, id))), id, pc))
  {
    hide Without;
  }

  lemma IdleStep(c: Config, s: Sys, id: nat)
    requires id in s.calls && !s.calls[id].Enqueue? && !s.calls[id].Recheck?
    ensures SameLoad(s, StepCall(c, s, id))
  {
    hide Without, EnterEnqueue, EnterFlush, EnterShutdown, SameLoad, Go;
    IdleEntries(s, id);
    match s.calls[id]
    case SignalWake => GoIdle(s, id, Accepted);
    case WaitSpace(score) => GoIdle(s, id, Recheck(score));
    case Flush =>
    case WaitFlush(target) => GoIdle(s, id, FlushNil(target));
    case Abandon(_) => GoIdle(s, id, FlushCanceled);
    case Shutdown =>
    case SignalStop(already, drained) =>
      GoIdle(s, id, if already then ShutdownNil(true) else AwaitDone(!drained, false));
    case AwaitDone(_, failed) => GoIdle(s, id, if failed then ShutdownCanceled else ShutdownNil(false));
    case _ => GoIdle(s, id, Accepted);
  }

  lemma IdleEntries(s: Sys, id: nat)
    ensures SameLoad(s, EnterFlush(s, id)) && SameLoad(s, EnterShutdown(s, id))
  {
    if s.q.completed >= s.q.accepted {
    } else {
    }
    if s.q.started {
    } else {
    }
  }

  lemma CancelShape(s: Sys, id: nat)
    requires id in s.calls
    ensures SameLoad(s, CancelCall(s, id)) && Shaped(s, CancelCall(s, id), id)
  {
    if s.calls[id].WaitSpace? {
    } else if s.calls[id].WaitFlush? {
    } else if s.calls[id].AwaitDone? && s.calls[id].mayCancel {
    } else {
    }
  }

  lemma IdleAct(c: Config, s: Sys, a: Action)
    requires !a.Dispatch? && !Enqueues(s, a)
    ensures SameLoad(s, Act(c, s, a))
  {
    hide StepCall, StepDispatcher, CancelCall;
    if a.Step? {
      if a.id in s.calls { IdleStep(c, s, a.id); }
    } else if a.Cancel? {
      if a.id in s.calls { CancelShape(s, a.id); }
    } else if a.Call? {
      if a.id !in s.calls && Fresh(a.pc) {
      } else {
      }
    } else if a.id in s.calls && s.calls[a.id].WaitSpace? && s.canceled {
    } else {
    }
  }

  predicate OthersStay(s: Sys, t: Sys, id: nat) {
    && (forall j :: j in s.calls ==> j in t.calls && (j == id || t.calls[j] == s.calls[j]))
    && (forall j :: j in t.calls ==> j == id || j in s.calls)
    && (s.q.stopped ==> t.q.stopped) && (s.canceled ==> t.canceled) && (s.wake ==> t.wake)
  }

  /** Only the call `id` and monotone flags change. */
  predicate Shaped(s: Sys, t: Sys, id: nat) {
    && id in t.calls && t.calls == s.calls[id := t.calls[id]]
    && (s.q.stopped ==> t.q.stopped) && (s.canceled ==> t.canceled) && (s.wake ==> t.wake)
  }

  lemma EnqueueShape(c: Config, s: Sys, id: nat, score: Score)
    ensures var t := EnterEnqueue(c, s, id, score);
            && Shaped(s, t, id) && t.space == s.space
            && (t.calls[id].Rejected? || t.calls[id].SignalWake? || t.calls[id].WaitSpace? || t.calls[id].QueueFull?)
  {
    if s.q.stopped {
    } else if |s.q.buf| < c.capacity {
    } else if c.blockOnFull {
    }
  }

  lemma FlushShape(s: Sys, id: nat)
    ensures var t := EnterFlush(s, id);
            Shaped(s, t, id) && t.space == s.space && (t.calls[id].FlushNil? || t.calls[id].WaitFlush?)
  {
    if s.q.completed >= s.q.accepted {
    } else {
    }
  }

  lemma ShutdownShape(s: Sys, id: nat)
    ensures var t := EnterShutdown(s, id);
            && Shaped(s, t, id) && t.space == s.space && (t.calls[id].ShutdownNil? || t.calls[id].SignalStop?)
            && ShutdownOk(t, t.calls[id])
  {
    if s.q.started {
    } else {
    }
  }

  lemma StepShape(c: Config, s: Sys, id: nat)
    requires id in s.calls
    ensures Shaped(s, StepCall(c, s, id), id)
  {
    hide Without, EnterEnqueue, EnterFlush, EnterShutdown;
    match s.calls[id]
    case Enqueue(score) => EnqueueShape(c, s, id, score);
    case Recheck(score) => EnqueueShape(c, s, id, score);
    case SignalWake =>
    case WaitSpace(_) => if s.space { } else { }
    case Flush => FlushShape(s, id);
    case WaitFlush(_) => if id in s.signalled { } else { }
    case Abandon(_) =>
    case Shutdown => ShutdownShape(s, id);
    case SignalStop(already, _) => if already { } else { }
    case AwaitDone(_, _) => if s.done { } else { }
    case _ =>
  }

  lemma OthersStepped(c: Config, s: Sys, id: nat)
    requires id in s.calls
    ensures OthersStay(s, StepCall(c, s, id), id)
  {
    StepShape(c, s, id);
    hide StepCall;
  }

  lemma OthersAct(c: Config, s: Sys, a: Action)
    requires !a.Dispatch?
    ensures OthersStay(s, Act(c, s, a), a.id)
  {
    hide StepCall, StepDispatcher, CancelCall;
    if a.Step? {
      if a.id in s.calls { OthersStepped(c, s, a.id); }
    } else if a.Cancel? {
      if a.id in s.calls { CancelShape(s, a.id); }
    } else if a.Call? {
      if a.id !in s.calls && Fresh(a.pc) {
      } else {
      }
    } else if a.id in s.calls && s.calls[a.id].WaitSpace? && s.canceled {
    } else {
    }
  }

  lemma DispatchStays(s: Sys)
    ensures SameCalls(s, StepDispatcher(s))
  {
    hide TakeNext, Complete;
    TakeStays(s);
    CompleteStays(s);
  }

  lemma TakeStays(s: Sys)
    ensures SameCalls(s, TakeNext(s))
  {
    if s.q.buf != [] {
    } else if s.q.stopped {
    } else {
    }
  }

  lemma CompleteStays(s: Sys)
    ensures SameCalls(s, Complete(s))
  {
    hide FinishOne, Stamps, Reached;
    FinishStays(s.q);
  }

  // What the dispatcher leaves to the calls.
  predicate SameCalls(s: Sys, t: Sys) {
    && t.calls == s.calls && t.q.stopped == s.q.stopped && t.q.started == s.q.started
    && t.canceled == s.canceled && t.acceptLog == s.acceptLog && t.q.accepted == s.q.accepted
  }

  lemma FinishStays(q: Queue)
    ensures var r := FinishOne(q);
            r.stopped == q.stopped && r.started == q.started && r.accepted == q.accepted && r.buf == q.buf
  {
  }

  // ---- each invariant ----

  lemma AccountedEnqueue(c: Config, s: Sys, id: nat, score: Score)
    requires Accounted(s) && Lifecycle(s)
    ensures Accounted(EnterEnqueue(c, s, id, score))
  {
    if |s.q.buf| < c.capacity && !s.q.stopped {
      Regroup(s.deliverLog + Undelivered(s.dispatcher), s.q.buf, score);
      assert !s.q.started ==>
               Undelivered(s.dispatcher) == Undelivered(Top) == [] && InFlight(s.dispatcher) == InFlight(Top);
    }
  }

  lemma Regroup(a: seq<Score>, b: seq<Score>, x: Score)
    ensures a + b + [x] == a + (b + [x])
  {
  }

  lemma AccountedDispatch(s: Sys)
    requires Accounted(s) && Lifecycle(s)
    ensures Accounted(StepDispatcher(s))
  {
    hide TakeNext, Complete;
    if s.dispatcher.Top? {
      AccountedTake(s);
    } else if s.dispatcher.Finish? {
      AccountedFinish(s);
    } else if s.dispatcher.Deliver? {
      var e := s.dispatcher.event;
      assert s.deliverLog + [e] + s.q.buf == (s.deliverLog + [e]) + [] + s.q.buf;
    }
  }

  lemma AccountedTake(s: Sys)
    requires Accounted(s) && s.dispatcher.Top?
    ensures Accounted(TakeNext(s))
  {
    if s.q.buf != [] {
      assert s.deliverLog + [] + s.q.buf == s.deliverLog + [s.q.buf[0]] + s.q.buf[1..];
    }
  }

  lemma AccountedFinish(s: Sys)
    requires Accounted(s) && s.dispatcher.Finish?
    ensures Accounted(Complete(s))
  {
    hide Waiting, Reached, Stamps;
  }

  lemma AccountedKept(c: Config, s: Sys, a: Action)
    requires Accounted(s) && Lifecycle(s)
    ensures Accounted(Act(c, s, a))
  {
    if a.Dispatch? {
      AccountedDispatch(s);
    } else if Enqueues(s, a) {
      AccountedEnqueue(c, s, a.id, s.calls[a.id].score);
    } else {
      IdleAct(c, s, a);
      hide Act;
    }
  }

  lemma LifecycleKept(c: Config, s: Sys, a: Action)
    requires Accounted(s) && Lifecycle(s)
    ensures Lifecycle(Act(c, s, a))
  {
    hide StepDispatcher, EnterEnqueue, Accounted, Lifecycle;
    if a.Dispatch? {
      LifecycleDispatch(s);
    } else if Enqueues(s, a) {
      LifecycleEnqueue(c, s, a.id, s.calls[a.id].score);
    } else {
      IdleAct(c, s, a);
      OthersAct(c, s, a);
      hide Act;
      LifecycleFrame(s, Act(c, s, a));
    }
  }

  lemma LifecycleDispatch(s: Sys)
    requires Lifecycle(s)
    ensures Lifecycle(StepDispatcher(s))
  {
    hide Waiting, Reached, Stamps;
  }

  lemma LifecycleEnqueue(c: Config, s: Sys, id: nat, score: Score)
    requires Lifecycle(s)
    ensures Lifecycle(EnterEnqueue(c, s, id, score))
  {
    if s.q.stopped {
    } else if |s.q.buf| < c.capacity {
    } else if c.blockOnFull {
    }
  }

  lemma LifecycleFrame(s: Sys, t: Sys)
    requires Lifecycle(s) && SameLoad(s, t) && (s.q.stopped ==> t.q.stopped)
    ensures Lifecycle(t)
  {
  }

  lemma Wakes(s: Sys, t: Sys, id: nat)
    requires NoLostWake(s) && SameLoad(s, t) && OthersStay(s, t, id)
    requires t.q.stopped == s.q.stopped
    requires id in s.calls && (s.calls[id].SignalWake? || s.calls[id].SignalStop?) ==> t == s || t.wake
    ensures NoLostWake(t)
  {
    if Waking(s) {
      var j :| j in s.calls && (s.calls[j].SignalWake? || s.calls[j].SignalStop?);
      if j != id { assert t.calls[j] == s.calls[j]; }
    }
  }

  lemma WakeKept(c: Config, s: Sys, a: Action)
    requires Lifecycle(s) && NoLostWake(s)
    ensures NoLostWake(Act(c, s, a))
  {
    var t := Act(c, s, a);
    hide StepDispatcher, StepCall, EnterEnqueue, EnterShutdown, NoLostWake, Lifecycle;
    if a.Dispatch? {
      WakeDispatch(s);
    } else if t.wake || t == s {
      Awake(s, t);
    } else {
      OthersAct(c, s, a);
      if Enqueues(s, a) && t.q.buf != s.q.buf {
        StepEnqueues(c, s, a.id);
        WakeEnqueue(c, s, a.id, s.calls[a.id].score);
      } else if a.Step? && a.id in s.calls && s.calls[a.id].Shutdown? {
        WakeShutdown(c, s, a.id);
      } else {
        WakeFrame(c, s, a);
        hide Act;
        Wakes(s, t, a.id);
      }
    }
  }

  lemma Awake(s: Sys, t: Sys)
    requires NoLostWake(s) && (t.wake || t == s)
    ensures NoLostWake(t)
  {
  }

  lemma WakeDispatch(s: Sys)
    requires NoLostWake(s)
    ensures NoLostWake(StepDispatcher(s))
  {
    DispatchStays(s);
    hide FinishOne, Waiting, Reached, Stamps;
  }

  lemma StepEnqueues(c: Config, s: Sys, id: nat)
    requires id in s.calls && (s.calls[id].Enqueue? || s.calls[id].Recheck?)
    ensures StepCall(c, s, id) == EnterEnqueue(c, s, id, s.calls[id].score)
  {
    hide EnterEnqueue;
  }

  lemma WakeEnqueue(c: Config, s: Sys, id: nat, score: Score)
    requires EnterEnqueue(c, s, id, score).q.buf != s.q.buf
    ensures NoLostWake(EnterEnqueue(c, s, id, score))
  {
    if !s.q.stopped && |s.q.buf| < c.capacity {
      assert EnterEnqueue(c, s, id, score).calls[id].SignalWake?;
    } else if c.blockOnFull {
    } else {
    }
  }

  lemma WakeShutdown(c: Config, s: Sys, id: nat)
    requires id in s.calls && s.calls[id].Shutdown? && Lifecycle(s)
    ensures NoLostWake(StepCall(c, s, id))
  {
    if s.q.started {
      assert StepCall(c, s, id).calls[id].SignalStop?;
    } else {
    }
  }

  lemma WakeFrame(c: Config, s: Sys, a: Action)
    requires !a.Dispatch? && Act(c, s, a) != s && !Act(c, s, a).wake
    requires Enqueues(s, a) ==> Act(c, s, a).q.buf == s.q.buf
    requires !(a.Step? && a.id in s.calls && s.calls[a.id].Shutdown?)
    ensures SameLoad(s, Act(c, s, a)) && Act(c, s, a).q.stopped == s.q.stopped
    ensures a.id in s.calls ==> !s.calls[a.id].SignalWake? && !s.calls[a.id].SignalStop?
  {
    hide StepCall, StepDispatcher, EnterEnqueue;
    if Enqueues(s, a) {
      StepEnqueues(c, s, a.id);
      FullEnqueue(c, s, a.id, s.calls[a.id].score);
    } else {
      IdleAct(c, s, a);
      if a.Step? && a.id in s.calls { StopsOnly(c, s, a.id); }
    }
  }

  lemma FullEnqueue(c: Config, s: Sys, id: nat, score: Score)
    requires EnterEnqueue(c, s, id, score).q.buf == s.q.buf
    ensures SameLoad(s, EnterEnqueue(c, s, id, score)) && EnterEnqueue(c, s, id, score).q.stopped == s.q.stopped
  {
    assert s.q.buf + [score] != s.q.buf;
    if s.q.stopped {
    } else if c.blockOnFull {
    } else {
    }
  }

  lemma StopsOnly(c: Config, s: Sys, id: nat)
    requires id in s.calls && !s.calls[id].Shutdown? && !s.calls[id].Enqueue? && !s.calls[id].Recheck?
    ensures StepCall(c, s, id).q.stopped == s.q.stopped
    ensures s.calls[id].SignalWake? || s.calls[id].SignalStop? ==> StepCall(c, s, id).wake
  {
    hide Without;
    match s.calls[id]
    case SignalWake =>
    case WaitSpace(_) => if s.space { } else { }
    case Flush =>
    case WaitFlush(_) => if id in s.signalled { } else { }
    case Abandon(_) =>
    case SignalStop(already, _) => if already { } else { }
    case AwaitDone(_, _) => if s.done { } else { }
    case _ =>
  }

  // ---- how a call moves ----

  predicate Moves(p: Pc, r: Pc) {
    r == p ||
    match p
    case Enqueue(_) => r.Rejected? || r.SignalWake? || r.WaitSpace? || r.QueueFull?
    case Recheck(_) => r.Rejected? || r.SignalWake? || r.WaitSpace? || r.QueueFull?
    case SignalWake => r.Accepted?
    case WaitSpace(_) => r.Recheck? || r.EnqueueCanceled? || r.Rejected?
    case Flush => r.FlushNil? || r.WaitFlush?
    case WaitFlush(target) => (r.FlushNil? || r.Abandon?) && r.target == target
    case Abandon(_) => r.FlushCanceled?
    case Shutdown => r.ShutdownNil? || r.SignalStop?
    case SignalStop(already, _) => if already then r == ShutdownNil(true) else r.AwaitDone?
    case AwaitDone(_, _) => r.AwaitDone? || r == ShutdownNil(false) || r.ShutdownCanceled?
    case _ => false
  }

  lemma StepMoves(c: Config, s: Sys, id: nat)
    requires id in s.calls
    ensures id in StepCall(c, s, id).calls && Moves(s.calls[id], StepCall(c, s, id).calls[id])
  {
    hide EnterEnqueue, EnterFlush, EnterShutdown, Without;
    match s.calls[id]
    case Enqueue(score) => EnqueueShape(c, s, id, score);
    case Recheck(score) => EnqueueShape(c, s, id, score);
    case SignalWake =>
    case WaitSpace(_) => if s.space { } else { }
    case Flush => FlushShape(s, id);
    case WaitFlush(_) => if id in s.signalled { } else { }
    case Abandon(_) =>
    case Shutdown => ShutdownShape(s, id);
    case SignalStop(already, _) => if already { } else { }
    case AwaitDone(_, _) => if s.done { } else { }
    case _ =>
  }

  lemma MovesItself(p: Pc)
    ensures Moves(p, p)
  {
  }

  lemma CancelMoves(c: Config, s: Sys, a: Action)
    requires (a.Cancel? || a.StopSeen?) && a.id in s.calls
    ensures a.id in Act(c, s, a).calls && Moves(s.calls[a.id], Act(c, s, a).calls[a.id])
  {
    hide StepCall, StepDispatcher;
    if a.StopSeen? {
      if s.calls[a.id].WaitSpace? && s.canceled {
      } else {
      }
    } else if s.calls[a.id].WaitSpace? {
    } else if s.calls[a.id].WaitFlush? {
    } else if s.calls[a.id].AwaitDone? && s.calls[a.id].mayCancel {
    } else {
    }
  }

  lemma ActMoves(c: Config, s: Sys, a: Action)
    requires !a.Dispatch? && a.id in s.calls
    ensures a.id in Act(c, s, a).calls && Moves(s.calls[a.id], Act(c, s, a).calls[a.id])
  {
    hide StepCall, StepDispatcher, Moves;
    MovesItself(s.calls[a.id]);
    if a.Step? {
      StepMoves(c, s, a.id);
    } else if a.Cancel? || a.StopSeen? {
      CancelMoves(c, s, a);
    }
  }

  // ---- the remaining invariants ----

  lemma SpaceDispatch(s: Sys)
    requires NoLostSpace(s)
    ensures NoLostSpace(StepDispatcher(s))
  {
    DispatchStays(s);
    hide Waiting, Reached, Stamps;
    if Rechecking(s) { var j :| j in s.calls && s.calls[j].Recheck?; assert StepDispatcher(s).calls[j].Recheck?; }
    match s.dispatcher
    case Top =>
    case Parked =>
    case SignalSpace(_) =>
    case Deliver(_) =>
    case Finish(_) =>
    case _ =>
  }

  lemma SpaceTaken(c: Config, s: Sys, id: nat)
    requires id in s.calls && StepCall(c, s, id).space != s.space
    ensures s.calls[id].WaitSpace? && StepCall(c, s, id).calls[id].Recheck?
  {
    hide EnterEnqueue, EnterFlush, EnterShutdown, Without;
    match s.calls[id]
    case Enqueue(score) => EnqueueShape(c, s, id, score);
    case Recheck(score) => EnqueueShape(c, s, id, score);
    case SignalWake =>
    case WaitSpace(_) => if s.space { } else { }
    case Flush => FlushShape(s, id);
    case WaitFlush(_) => if id in s.signalled { } else { }
    case Abandon(_) =>
    case Shutdown => ShutdownShape(s, id);
    case SignalStop(already, _) => if already { } else { }
    case AwaitDone(_, _) => if s.done { } else { }
    case _ =>
  }

  lemma SpaceFrame(c: Config, s: Sys, a: Action)
    requires !a.Dispatch? && Act(c, s, a).space != s.space
    ensures Rechecking(Act(c, s, a))
  {
    if a.Step? && a.id in s.calls { SpaceTaken(c, s, a.id); }
    hide StepCall;
  }

  lemma Spaces(s: Sys, t: Sys, id: nat)
    requires NoLostSpace(s) && SameLoad(s, t) && OthersStay(s, t, id) && t.space == s.space
    requires id in s.calls ==> Moves(s.calls[id], t.calls[id])
    requires id in s.calls ==> !s.calls[id].Enqueue? && !s.calls[id].Recheck?
    requires id !in s.calls && id in t.calls ==> Fresh(t.calls[id])
    ensures NoLostSpace(t)
  {
    if Blocked(t) {
      var j :| j in t.calls && t.calls[j].WaitSpace?;
      assert s.calls[j].WaitSpace?;
    }
    if Rechecking(s) {
      var j :| j in s.calls && s.calls[j].Recheck?;
      assert t.calls[j] == s.calls[j];
    }
  }

  lemma SpaceKept(c: Config, s: Sys, a: Action)
    requires c.capacity > 0 && NoLostSpace(s)
    ensures NoLostSpace(Act(c, s, a))
  {
    var t := Act(c, s, a);
    if a.Dispatch? {
      SpaceDispatch(s);
    } else if t.space != s.space {
      SpaceFrame(c, s, a);
      hide Act;
    } else if Enqueues(s, a) {
      SpaceEnqueue(c, s, a.id, s.calls[a.id].score);
    } else if t != s {
      IdleAct(c, s, a);
      OthersAct(c, s, a);
      if a.id in s.calls { ActMoves(c, s, a); RecheckSteps(c, s, a); } else { FreshCall(c, s, a); }
      hide Act;
      Spaces(s, t, a.id);
    }
  }

  lemma RecheckSteps(c: Config, s: Sys, a: Action)
    requires !a.Dispatch? && a.id in s.calls && !Enqueues(s, a) && Act(c, s, a) != s
    ensures !s.calls[a.id].Enqueue? && !s.calls[a.id].Recheck?
  {
    hide StepCall;
  }

  lemma FreshCall(c: Config, s: Sys, a: Action)
    requires !a.Dispatch? && a.id !in s.calls && a.id in Act(c, s, a).calls
    ensures Fresh(Act(c, s, a).calls[a.id])
  {
    hide StepCall;
  }

  lemma SpaceEnqueue(c: Config, s: Sys, id: nat, score: Score)
    requires c.capacity > 0
    ensures NoLostSpace(EnterEnqueue(c, s, id, score)) || EnterEnqueue(c, s, id, score).q.buf != []
  {
    if s.q.stopped {
    } else if |s.q.buf| < c.capacity {
    } else if c.blockOnFull {
    }
  }

  lemma ShutdownsKept(c: Config, s: Sys, a: Action)
    requires Lifecycle(s) && ShutdownsOk(s)
    ensures ShutdownsOk(Act(c, s, a))
  {
    if a.Dispatch? {
      DispatchStays(s);
      DoneStays(s);
      hide StepDispatcher;
    } else {
      OthersAct(c, s, a);
      LoadGrows(c, s, a);
      if a.id in s.calls {
        ActMoves(c, s, a);
        if a.Step? { StepShutdown(c, s, a.id); } else { CancelShutdown(s, a.id); }
      } else { if a.id in Act(c, s, a).calls { FreshCall(c, s, a); } }
      hide Act;
    }
  }

  lemma DoneStays(s: Sys)
    requires Lifecycle(s)
    ensures s.done ==> StepDispatcher(s).done
  {
    hide FinishOne, Stamps, Reached;
  }

  lemma LoadGrows(c: Config, s: Sys, a: Action)
    requires !a.Dispatch?
    ensures (s.done ==> Act(c, s, a).done) && (s.q.started ==> Act(c, s, a).q.started)
    ensures s.q.stopped && !s.q.started ==> !Act(c, s, a).q.started
  {
    if Enqueues(s, a) {
    } else {
      IdleAct(c, s, a);
      hide Act;
    }
  }

  lemma StepShutdown(c: Config, s: Sys, id: nat)
    requires id in s.calls && ShutdownOk(s, s.calls[id])
    ensures id in StepCall(c, s, id).calls && ShutdownOk(StepCall(c, s, id), StepCall(c, s, id).calls[id])
  {
    hide EnterEnqueue, EnterFlush, EnterShutdown, Without;
    match s.calls[id]
    case Enqueue(score) => EnqueueShape(c, s, id, score);
    case Recheck(score) => EnqueueShape(c, s, id, score);
    case SignalWake =>
    case WaitSpace(_) => if s.space { } else { }
    case Flush => FlushShape(s, id);
    case WaitFlush(_) => if id in s.signalled { } else { }
    case Abandon(_) =>
    case Shutdown => ShutdownShape(s, id);
    case SignalStop(already, _) => if already { } else { }
    case AwaitDone(_, _) => if s.done { } else { }
    case _ =>
  }

  lemma CancelShutdown(s: Sys, id: nat)
    requires id in s.calls && ShutdownOk(s, s.calls[id])
    ensures id in CancelCall(s, id).calls && ShutdownOk(CancelCall(s, id), CancelCall(s, id).calls[id])
  {
  }

  lemma ProducersKept(c: Config, s: Sys, a: Action)
    requires c.capacity > 0 && Accounted(s) && Lifecycle(s) && ProducersOk(s)
    ensures ProducersOk(Act(c, s, a))
  {
    if a.Dispatch? {
      DispatchStays(s);
      hide StepDispatcher;
    } else {
      OthersAct(c, s, a);
      LoadGrows(c, s, a);
      if a.id !in s.calls {
        if a.id in Act(c, s, a).calls { FreshCall(c, s, a); }
        hide Act;
      } else if Enqueues(s, a) {
        hide Accept;
      } else {
        ActMoves(c, s, a);
        hide Act;
      }
    }
  }

  predicate Owes(p: Pc) { p.AwaitDone? || (p.SignalStop? && !p.already) }

  lemma OwesOn(c: Config, s: Sys, id: nat)
    requires id in s.calls && Owes(s.calls[id])
    ensures var t := StepCall(c, s, id); id in t.calls && (Owes(t.calls[id]) || t.canceled)
    ensures var t := CancelCall(s, id); id in t.calls && (Owes(t.calls[id]) || t.canceled)
  {
    match s.calls[id]
    case SignalStop(already, _) => if already { } else { }
    case AwaitDone(_, _) => if s.done { } else { }
  }

  lemma StopKept(c: Config, s: Sys, a: Action)
    requires Lifecycle(s) && StopOwned(s)
    ensures StopOwned(Act(c, s, a))
  {
    var t := Act(c, s, a);
    if a.Dispatch? {
      DispatchStays(s);
      hide StepDispatcher;
      if Stopping(s) { var j :| j in s.calls && Owes(s.calls[j]); assert t.calls[j] == s.calls[j]; }
    } else {
      OthersAct(c, s, a);
      LoadGrows(c, s, a);
      if a.Step? && a.id in s.calls && s.calls[a.id].Shutdown? && !s.q.stopped && s.q.started {
        assert Owes(t.calls[a.id]);
      } else if Stopping(s) {
        var j :| j in s.calls && Owes(s.calls[j]);
        if j == a.id { OwesOn(c, s, j); }
        hide StepCall, CancelCall;
        assert t.canceled || Owes(t.calls[j]);
      } else {
        StopFirst(c, s, a);
        hide Act;
      }
    }
  }

  lemma StopFirst(c: Config, s: Sys, a: Action)
    requires !a.Dispatch?
    requires !(a.Step? && a.id in s.calls && s.calls[a.id].Shutdown? && !s.q.stopped && s.q.started)
    ensures Act(c, s, a).q.stopped && Act(c, s, a).q.started ==> s.q.stopped && s.q.started
  {
    if Enqueues(s, a) {
      hide Without;
    } else {
      IdleAct(c, s, a);
      if a.Step? && a.id in s.calls && !s.calls[a.id].Shutdown? { StopsOnly(c, s, a.id); }
      hide StepDispatcher, CancelCall;
      if a.Step? && a.id in s.calls && !s.calls[a.id].Shutdown? { hide StepCall; }
    }
  }

  // ---- flush barriers ----

  /** The waiters and the counters of a step that touches neither. */
  predicate SameBarriers(s: Sys, t: Sys) {
    && t.q.waiters == s.q.waiters && t.q.completed == s.q.completed && s.q.accepted <= t.q.accepted
    && t.signalled == s.signalled
  }

  lemma OwnedStays(s: Sys, t: Sys, id: nat, w: Waiter)
    requires Owned(s, w) && OthersStay(s, t, id) && t.signalled == s.signalled
    requires t.q.completed == s.q.completed && s.q.accepted <= t.q.accepted
    requires w.id == id ==> (t.calls[id].WaitFlush? || t.calls[id].Abandon?) && t.calls[id].target == w.target
    ensures Owned(t, w)
  {
  }

  predicate Waits(p: Pc) { p.WaitFlush? || p.Abandon? }

  // A step that leaves the waiters alone moves no waiter's owner on.
  lemma WaitersStay(s: Sys, t: Sys, id: nat)
    requires WaitersOk(s) && SameBarriers(s, t) && OthersStay(s, t, id)
    requires id in s.calls && Waits(s.calls[id]) ==>
               (Waits(t.calls[id]) && t.calls[id].target == s.calls[id].target) || id in s.signalled
    ensures WaitersOk(t)
  {
    forall i | 0 <= i < |t.q.waiters| ensures Owned(t, t.q.waiters[i]) {
      OwnedStays(s, t, id, s.q.waiters[i]);
    }
  }

  lemma FlushesStay(s: Sys, t: Sys, id: nat)
    requires FlushesOk(s) && SameBarriers(s, t) && OthersStay(s, t, id)
    requires id in t.calls ==> FlushOk(t, id)
    ensures FlushesOk(t)
  {
    forall j | j in t.calls ensures FlushOk(t, j) {
      if j != id { assert FlushOk(s, j); }
    }
  }

  /** Steps that change the waiters. */
  predicate Registers(s: Sys, a: Action) {
    a.Step? && a.id in s.calls && (s.calls[a.id].Flush? || s.calls[a.id].Abandon?)
  }

  lemma EnqueueBarriers(c: Config, s: Sys, id: nat, score: Score)
    ensures SameBarriers(s, EnterEnqueue(c, s, id, score))
  {
    if s.q.stopped {
    } else if |s.q.buf| < c.capacity {
    } else if c.blockOnFull {
    }
  }

  lemma ShutdownBarriers(s: Sys, id: nat)
    ensures SameBarriers(s, EnterShutdown(s, id))
  {
    if s.q.started {
    } else {
    }
  }

  lemma SameBarriersStep(c: Config, s: Sys, id: nat)
    requires id in s.calls && !s.calls[id].Flush? && !s.calls[id].Abandon?
    ensures SameBarriers(s, StepCall(c, s, id))
  {
    hide EnterFlush, Without, EnterEnqueue, EnterShutdown;
    match s.calls[id]
    case Enqueue(score) => EnqueueBarriers(c, s, id, score);
    case Recheck(score) => EnqueueBarriers(c, s, id, score);
    case SignalWake =>
    case WaitSpace(_) => if s.space { } else { }
    case WaitFlush(_) => if id in s.signalled { } else { }
    case Shutdown => ShutdownBarriers(s, id);
    case SignalStop(already, _) => if already { } else { }
    case AwaitDone(_, _) => if s.done { } else { }
    case _ =>
  }

  lemma SameBarriersAct(c: Config, s: Sys, a: Action)
    requires !a.Dispatch? && !Registers(s, a)
    ensures SameBarriers(s, Act(c, s, a))
  {
    if a.Step? && a.id in s.calls { SameBarriersStep(c, s, a.id); }
    hide StepCall;
  }

  lemma NotBoth(s: Sys, id: nat)
    requires WaitersOk(s) && HasWaiter(s.q.waiters, id)
    ensures id !in s.signalled
  {
    var i :| 0 <= i < |s.q.waiters| && s.q.waiters[i].id == id;
    assert Owned(s, s.q.waiters[i]);
  }

  lemma StepFlush(c: Config, s: Sys, id: nat)
    requires WaitersOk(s) && FlushesOk(s) && id in s.calls && !s.calls[id].Flush? && !s.calls[id].Abandon?
    ensures id in StepCall(c, s, id).calls && FlushOk(StepCall(c, s, id), id)
  {
    assert FlushOk(s, id);
    if HasWaiter(s.q.waiters, id) { NotBoth(s, id); }
    SameBarriersStep(c, s, id);
    StepMoves(c, s, id);
    if s.calls[id].WaitFlush? { StepWaits(c, s, id); }
    hide StepCall, HasWaiter;
  }

  // A blocked flush moves only once it is signalled.
  lemma StepWaits(c: Config, s: Sys, id: nat)
    requires id in s.calls && s.calls[id].WaitFlush?
    ensures StepCall(c, s, id) == if id in s.signalled then Go(s, id, FlushNil(s.calls[id].target)) else s
  {
  }

  lemma CancelFlush(s: Sys, id: nat)
    requires FlushesOk(s) && id in s.calls
    ensures id in CancelCall(s, id).calls && FlushOk(CancelCall(s, id), id)
  {
    assert FlushOk(s, id);
    hide HasWaiter;
    match s.calls[id]
    case WaitSpace(_) =>
    case WaitFlush(_) => if id in s.signalled { } else { }
    case AwaitDone(_, _) =>
    case _ =>
  }

  lemma AddedFlush(s: Sys, id: nat)
    requires id in s.calls && s.calls[id].Flush? && WaitersOk(s) && FlushesOk(s)
    ensures WaitersOk(EnterFlush(s, id)) && FlushesOk(EnterFlush(s, id))
  {
    var t := EnterFlush(s, id);
    assert FlushOk(s, id) && id !in s.signalled;
    if s.q.completed >= s.q.accepted {
      FlushesStay(s, t, id);
      WaitersStay(s, t, id);
    } else {
      AddedWaiter(s, id);
      AddedOwner(s, id);
    }
  }

  lemma AddedOwner(s: Sys, id: nat)
    requires id in s.calls && s.calls[id].Flush? && FlushesOk(s) && s.q.completed < s.q.accepted
    ensures FlushesOk(EnterFlush(s, id))
  {
    var t := EnterFlush(s, id);
    var n := |s.q.waiters|;
    assert FlushOk(s, id);
    assert t.q.waiters[n].id == id;
    forall j | j in t.calls ensures FlushOk(t, j) {
      if j != id {
        assert FlushOk(s, j) && t.calls[j] == s.calls[j];
        if HasWaiter(s.q.waiters, j) {
          var i :| 0 <= i < n && s.q.waiters[i].id == j;
          assert t.q.waiters[i].id == j;
        }
      }
    }
  }

  lemma AddedWaiter(s: Sys, id: nat)
    requires id in s.calls && s.calls[id].Flush? && id !in s.signalled && WaitersOk(s) && s.q.completed < s.q.accepted
    ensures WaitersOk(EnterFlush(s, id))
  {
    var t := EnterFlush(s, id);
    var n := |s.q.waiters|;
    forall i | 0 <= i < n ensures Owned(t, t.q.waiters[i]) && t.q.waiters[i].id != id {
      assert Owned(s, s.q.waiters[i]);
      OwnedStays(s, t, id, s.q.waiters[i]);
    }
    assert Owned(t, t.q.waiters[n]);
  }

  lemma WaitersWithout(s: Sys, t: Sys, id: nat)
    requires id in s.calls && WaitersOk(s)
    requires t == Go(s.(q := s.q.(waiters := Without(s.q.waiters, id))), id, FlushCanceled)
    ensures WaitersOk(t)
  {
    hide Without;
    WithoutDistinct(s.q.waiters, id);
    WithoutKeeps(s.q.waiters, id);
    hide Owned;
    forall i | 0 <= i < |t.q.waiters| ensures Owned(t, t.q.waiters[i]) {
      var w := t.q.waiters[i];
      assert w in s.q.waiters;
      var k :| 0 <= k < |s.q.waiters| && s.q.waiters[k] == w;
      assert w.id != id;
      OwnedStays(s, t, id, w);
    }
  }

  lemma FlushesWithout(s: Sys, t: Sys, id: nat)
    requires id in s.calls && WaitersOk(s) && FlushesOk(s)
    requires t == Go(s.(q := s.q.(waiters := Without(s.q.waiters, id))), id, FlushCanceled)
    ensures FlushesOk(t)
  {
    hide Without, HasWaiter;
    WithoutKeeps(s.q.waiters, id);
    forall j | j in t.calls ensures FlushOk(t, j) {
      if j != id {
        assert FlushOk(s, j);
        HasMember(s.q.waiters, j);
        HasMember(t.q.waiters, j);
      }
    }
  }

  lemma RemovedWaiter(c: Config, s: Sys, id: nat)
    requires id in s.calls && s.calls[id].Abandon? && WaitersOk(s) && FlushesOk(s)
    ensures WaitersOk(StepCall(c, s, id)) && FlushesOk(StepCall(c, s, id))
  {
    hide Without, Owned, WaitersOk, FlushesOk, FlushOk, HasWaiter;
    var t := Go(s.(q := s.q.(waiters := Without(s.q.waiters, id))), id, FlushCanceled);
    assert StepCall(c, s, id) == t;
    hide StepCall;
    WaitersWithout(s, t, id);
    FlushesWithout(s, t, id);
  }

  lemma FinishedWaiters(s: Sys)
    requires s.dispatcher.Finish? && Accounted(s) && WaitersOk(s)
    ensures WaitersOk(StepDispatcher(s))
  {
    var t := StepDispatcher(s);
    WaitingIs(s.q.waiters, s.q.completed + 1);
    forall i | 0 <= i < |t.q.waiters| ensures Owned(t, t.q.waiters[i]) {
      var w := t.q.waiters[i];
      assert w in Waiting(s.q.waiters, s.q.completed + 1);
      var k :| 0 <= k < |s.q.waiters| && s.q.waiters[k] == w;
      assert Owned(s, s.q.waiters[k]);
      NotReached(s.q.waiters, s.q.completed + 1, w);
    }
  }

  lemma NotReached(ws: seq<Waiter>, completed: nat, w: Waiter)
    requires DistinctIds(ws) && w in ws && w.target > completed
    ensures w.id !in Reached(ws, completed)
  {
    forall v | v in ws && v.id == w.id ensures v == w {
      var k :| 0 <= k < |ws| && ws[k] == w;
      var l :| 0 <= l < |ws| && ws[l] == v;
      assert k == l;
    }
  }

  // A waiter reached now has the new count as its target.
  lemma ReachedNow(s: Sys, id: nat)
    requires WaitersOk(s) && id in Reached(s.q.waiters, s.q.completed + 1)
    ensures id in s.calls && Waits(s.calls[id]) && s.calls[id].target == s.q.completed + 1
  {
    var w :| w in s.q.waiters && w.target <= s.q.completed + 1 && w.id == id;
    var k :| 0 <= k < |s.q.waiters| && s.q.waiters[k] == w;
    assert Owned(s, s.q.waiters[k]);
  }

  lemma ReachedOrWaiting(ws: seq<Waiter>, completed: nat, id: nat)
    requires DistinctIds(ws) && HasWaiter(ws, id)
    ensures id in Reached(ws, completed) || HasWaiter(Waiting(ws, completed), id)
  {
    HasMember(ws, id);
    HasMember(Waiting(ws, completed), id);
    WaitingIs(ws, completed);
    var w :| w in ws && w.id == id;
    assert w.target <= completed ==> w.id in Reached(ws, completed);
  }

  lemma Stamped(m: map<nat, nat>, ids: set<nat>, n: nat, id: nat)
    ensures var r := m + Stamps(ids, n);
            && (id in r <==> id in m || id in ids)
            && (id in r ==> r[id] == if id in ids then n else m[id])
  {
  }

  // One flush across a completion.
  lemma FinishedFlush(s: Sys, t: Sys, id: nat, now: bool)
    requires id in s.calls && FlushOk(s, id) && t.calls == s.calls
    requires t.q.completed == s.q.completed + 1
    requires id in t.signalled <==> id in s.signalled || now
    requires id in t.signalled ==> t.signalled[id] == if now then s.q.completed + 1 else s.signalled[id]
    requires now ==> Waits(s.calls[id]) && s.calls[id].target == s.q.completed + 1
    requires HasWaiter(s.q.waiters, id) ==> now || HasWaiter(t.q.waiters, id)
    ensures FlushOk(t, id)
  {
    hide HasWaiter;
  }

  lemma FinishIs(s: Sys)
    requires s.dispatcher.Finish?
    ensures var t, n := StepDispatcher(s), s.q.completed + 1;
            && t.signalled == s.signalled + Stamps(Reached(s.q.waiters, n), n) && t.calls == s.calls
            && t.q.completed == n && t.q.waiters == Waiting(s.q.waiters, n)
  {
    hide Reached, Stamps, Waiting;
  }

  lemma FinishedFlushes(s: Sys)
    requires s.dispatcher.Finish? && WaitersOk(s) && FlushesOk(s)
    ensures FlushesOk(StepDispatcher(s))
  {
    FinishIs(s);
    hide StepDispatcher, Waiting, Reached, Stamps, HasWaiter, WaitersOk;
    var t, n := StepDispatcher(s), s.q.completed + 1;
    var now := Reached(s.q.waiters, n);
    forall id | id in t.calls ensures FlushOk(t, id) {
      assert FlushOk(s, id);
      hide FlushOk, FlushesOk;
      Stamped(s.signalled, now, n, id);
      if id in now { ReachedNow(s, id); }
      if HasWaiter(s.q.waiters, id) { ReachedOrWaiting(s.q.waiters, n, id); }
      FinishedFlush(s, t, id, id in now);
    }
    forall id | id in t.signalled ensures id in t.calls && t.signalled[id] <= t.q.completed {
      hide FlushOk;
      Stamped(s.signalled, now, n, id);
      if id in now { ReachedNow(s, id); }
    }
  }

  lemma TakeIsQuiet(s: Sys)
    ensures SameBarriers(s, TakeNext(s)) && TakeNext(s).calls == s.calls
  {
    if s.q.buf != [] {
    } else if s.q.stopped {
    } else {
    }
  }

  lemma QuietDispatch(s: Sys)
    requires !s.dispatcher.Finish?
    ensures SameBarriers(s, StepDispatcher(s)) && StepDispatcher(s).calls == s.calls
  {
    hide Complete, TakeNext;
    TakeIsQuiet(s);
    if s.dispatcher.Parked? {
      if s.wake {
      } else {
      }
    } else if s.dispatcher.SignalSpace? {
    } else if s.dispatcher.Deliver? {
    }
  }

  lemma BarriersKept(c: Config, s: Sys, a: Action)
    requires Accounted(s) && WaitersOk(s) && FlushesOk(s)
    ensures WaitersOk(Act(c, s, a)) && FlushesOk(Act(c, s, a))
  {
    var t := Act(c, s, a);
    if a.Dispatch? {
      if s.dispatcher.Finish? {
        FinishedWaiters(s);
        FinishedFlushes(s);
      } else {
        QuietDispatch(s);
        BarriersFrame(s, t);
      }
    } else if Registers(s, a) {
      if s.calls[a.id].Flush? { AddedFlush(s, a.id); } else { RemovedWaiter(c, s, a.id); }
    } else {
      SameBarriersAct(c, s, a);
      OthersAct(c, s, a);
      ActorFlush(c, s, a);
      hide Act;
      WaitersStay(s, t, a.id);
      FlushesStay(s, t, a.id);
    }
  }

  lemma BarriersFrame(s: Sys, t: Sys)
    requires WaitersOk(s) && FlushesOk(s) && SameBarriers(s, t) && t.calls == s.calls
    ensures WaitersOk(t) && FlushesOk(t)
  {
    forall i | 0 <= i < |t.q.waiters| ensures Owned(t, t.q.waiters[i]) {
      assert Owned(s, s.q.waiters[i]);
    }
    forall j | j in t.calls ensures FlushOk(t, j) { assert FlushOk(s, j); }
  }

  lemma ActorFlush(c: Config, s: Sys, a: Action)
    requires !a.Dispatch? && !Registers(s, a) && WaitersOk(s) && FlushesOk(s)
    ensures a.id in Act(c, s, a).calls ==> FlushOk(Act(c, s, a), a.id)
    ensures a.id in s.calls && Waits(s.calls[a.id]) ==>
              || (Waits(Act(c, s, a).calls[a.id]) && Act(c, s, a).calls[a.id].target == s.calls[a.id].target)
              || a.id in s.signalled
  {
    hide StepCall, CancelCall, HasWaiter;
    if a.id !in s.calls {
    } else {
      assert FlushOk(s, a.id);
      if a.Step? && !s.calls[a.id].Flush? && !s.calls[a.id].Abandon? {
        StepFlush(c, s, a.id);
        if s.calls[a.id].WaitFlush? { StepWaits(c, s, a.id); }
      } else if a.Cancel? {
        CancelFlush(s, a.id);
        CancelWaits(s, a.id);
      }
    }
  }

  lemma CancelWaits(s: Sys, id: nat)
    requires id in s.calls
    ensures id in CancelCall(s, id).calls
    ensures Waits(s.calls[id]) ==>
              Waits(CancelCall(s, id).calls[id]) && CancelCall(s, id).calls[id].target == s.calls[id].target
  {
  }

  // ---- every run ----

  /** One step of anyone keeps the invariant. */
  lemma ActKeeps(c: Config, s: Sys, a: Action)
    requires c.capacity > 0 && Inv(s)
    ensures Inv(Act(c, s, a))
  {
    AccountedKept(c, s, a);
    LifecycleKept(c, s, a);
    WakeKept(c, s, a);
    SpaceKept(c, s, a);
    BarriersKept(c, s, a);
    ShutdownsKept(c, s, a);
    ProducersKept(c, s, a);
    StopKept(c, s, a);
  }

  lemma StartHolds()
    ensures Inv(START)
  {
  }

  lemma {:induction false} RunKeeps(c: Config, s: Sys, actions: seq<Action>)
    requires c.capacity > 0 && Inv(s)
    ensures Inv(Run(c, s, actions))
    decreases |actions|
  {
    if actions != [] {
      ActKeeps(c, s, actions[0]);
      RunKeeps(c, Act(c, s, actions[0]), actions[1..]);
    }
  }
}
