/** The score delivery protocol (internal/transport/scores.go) as a transition
    system: producers, flush barriers, shutdowns and the one dispatcher. Each
    critical section is one step, and the gap between an unlock and the signal
    that follows it is a program point of its own. */
module ScoreQueue {

  type Score = nat

  datatype Waiter = Waiter(id: nat, target: nat)

  /** What the mutex guards. */
  datatype Queue = Queue(buf: seq<Score>, accepted: nat, completed: nat, waiters: seq<Waiter>,
                         started: bool, stopped: bool)

  function Accept(q: Queue, score: Score): Queue {
    q.(started := true, buf := q.buf + [score], accepted := q.accepted + 1)
  }

  function AddWaiter(q: Queue, id: nat): Queue {
    q.(waiters := q.waiters + [Waiter(id, q.accepted)])
  }

  function Without(ws: seq<Waiter>, id: nat): seq<Waiter> {
    if ws == [] then [] else if ws[0].id == id then ws[1..] else [ws[0]] + Without(ws[1..], id)
  }

  /** The waiters still waiting once `completed` scores are complete. */
  function Waiting(ws: seq<Waiter>, completed: nat): seq<Waiter> {
    if ws == [] then []
    else (if ws[0].target <= completed then [] else [ws[0]]) + Waiting(ws[1..], completed)
  }

  function Reached(ws: seq<Waiter>, completed: nat): set<nat> {
    set w <- ws | w.target <= completed :: w.id
  }

  function Stamps(ids: set<nat>, completed: nat): map<nat, nat> { map id <- ids :: completed }

  function FinishOne(q: Queue): Queue {
    q.(completed := q.completed + 1, waiters := Waiting(q.waiters, q.completed + 1))
  }

  // Program points of a call. The last ones are returned calls.
  datatype Pc =
    | Enqueue(score: Score)        // about to lock
    | SignalWake                   // score accepted, wake not yet signalled
    | WaitSpace(score: Score)      // blocked on space
    | Recheck(score: Score)        // took the space token, about to lock
    | Accepted | QueueFull | Rejected | EnqueueCanceled
    | Flush                        // about to lock
    | WaitFlush(target: nat)       // blocked on its waiter
    | Abandon(target: nat)         // canceled, about to remove its waiter
    | FlushNil(target: nat) | FlushCanceled
    | Shutdown                     // about to lock
    | SignalStop(already: bool, drained: bool)
    | AwaitDone(mayCancel: bool, failed: bool)
    | ShutdownNil(already: bool) | ShutdownCanceled

  datatype Dispatcher =
    | NotStarted
    | Top                          // about to lock
    | Parked                       // blocked on wake
    | SignalSpace(event: Score)    // score taken, space not yet signalled
    | Deliver(event: Score)
    | Finish(event: Score)         // delivered, about to lock
    | Exited

  // `signalled` holds each signalled waiter with the completion count at that
  // moment; the logs hold the scores in order.
  datatype Sys = Sys(q: Queue, wake: bool, space: bool, done: bool, canceled: bool,
                     dispatcher: Dispatcher, calls: map<nat, Pc>,
                     acceptLog: seq<Score>, deliverLog: seq<Score>, signalled: map<nat, nat>)

  datatype Config = Config(capacity: nat, blockOnFull: bool)

  const START: Sys :=
    Sys(Queue([], 0, 0, [], false, false), false, false, false, false, NotStarted, map[], [], [], map[])

  datatype Action =
    | Call(id: nat, pc: Pc)
    | Step(id: nat)        // the next step of a call
    | Cancel(id: nat)      // its context ends
    | StopSeen(id: nat)    // a blocked producer sees the lifecycle end
    | Dispatch             // the next step of the dispatcher

  function Go(s: Sys, id: nat, pc: Pc): Sys { s.(calls := s.calls[id := pc]) }

  /** The critical section of an enqueue. */
  function EnterEnqueue(c: Config, s: Sys, id: nat, score: Score): Sys {
    if s.q.stopped then Go(s, id, Rejected)
    else if |s.q.buf| < c.capacity then
      Go(s.(q := Accept(s.q, score), acceptLog := s.acceptLog + [score],
            dispatcher := if s.q.started then s.dispatcher else Top), id, SignalWake)
    else Go(s, id, if c.blockOnFull then WaitSpace(score) else QueueFull)
  }

  function EnterFlush(s: Sys, id: nat): Sys {
    if s.q.completed >= s.q.accepted then Go(s, id, FlushNil(s.q.accepted))
    else Go(s.(q := AddWaiter(s.q, id)), id, WaitFlush(s.q.accepted))
  }

  function EnterShutdown(s: Sys, id: nat): Sys {
    var t := s.(q := s.q.(stopped := true));
    if !s.q.started then Go(t, id, ShutdownNil(s.q.stopped))
    else Go(t, id, SignalStop(s.q.stopped, s.q.completed >= s.q.accepted))
  }

  function StepCall(c: Config, s: Sys, id: nat): Sys
    requires id in s.calls
  {
    match s.calls[id]
    case Enqueue(score) => EnterEnqueue(c, s, id, score)
    case Recheck(score) => EnterEnqueue(c, s, id, score)
    case SignalWake => Go(s.(wake := true), id, Accepted)
    case WaitSpace(score) => if s.space then Go(s.(space := false), id, Recheck(score)) else s
    case Flush => EnterFlush(s, id)
    case WaitFlush(target) => if id in s.signalled then Go(s, id, FlushNil(target)) else s
    case Abandon(_) => Go(s.(q := s.q.(waiters := Without(s.q.waiters, id))), id, FlushCanceled)
    case Shutdown => EnterShutdown(s, id)
    case SignalStop(already, drained) =>
      Go(s.(wake := true), id, if already then ShutdownNil(true) else AwaitDone(!drained, false))
    case AwaitDone(_, failed) =>
      if s.done then Go(s.(canceled := true), id, if failed then ShutdownCanceled else ShutdownNil(false)) else s
    case _ => s
  }

  function CancelCall(s: Sys, id: nat): Sys
    requires id in s.calls
  {
    match s.calls[id]
    case WaitSpace(_) => Go(s, id, EnqueueCanceled)
    case WaitFlush(target) => Go(s, id, Abandon(target))
    case AwaitDone(true, _) => Go(s.(canceled := true), id, AwaitDone(false, true))
    case _ => s
  }

  /** The dispatcher takes the oldest score, parks or exits. */
  function TakeNext(s: Sys): Sys {
    if s.q.buf != [] then s.(q := s.q.(buf := s.q.buf[1..]), dispatcher := SignalSpace(s.q.buf[0]))
    else if s.q.stopped then s.(dispatcher := Exited, done := true)
    else s.(dispatcher := Parked)
  }

  /** The completion signals the waiters it reaches. */
  function Complete(s: Sys): Sys {
    s.(q := FinishOne(s.q), dispatcher := Top,
       signalled := s.signalled + Stamps(Reached(s.q.waiters, s.q.completed + 1), s.q.completed + 1))
  }

  function StepDispatcher(s: Sys): Sys {
    match s.dispatcher
    case Top => TakeNext(s)
    case Parked => if s.wake then s.(wake := false, dispatcher := Top) else s
    case SignalSpace(e) => s.(space := true, dispatcher := Deliver(e))
    case Deliver(e) => s.(deliverLog := s.deliverLog + [e], dispatcher := Finish(e))
    case Finish(_) => Complete(s)
    case _ => s
  }

  predicate Fresh(pc: Pc) { pc.Enqueue? || pc.Flush? || pc.Shutdown? }

  /** One step; an action that is not enabled changes nothing. */
  function Act(c: Config, s: Sys, a: Action): Sys {
    match a
    case Call(id, pc) => if id !in s.calls && Fresh(pc) then Go(s, id, pc) else s
    case Step(id) => if id in s.calls then StepCall(c, s, id) else s
    case Cancel(id) => if id in s.calls then CancelCall(s, id) else s
    case StopSeen(id) =>
      if id in s.calls && s.calls[id].WaitSpace? && s.canceled then Go(s, id, Rejected) else s
    case Dispatch => StepDispatcher(s)
  }

  function Run(c: Config, s: Sys, actions: seq<Action>): Sys
    decreases |actions|
  {
    if actions == [] then s else Run(c, Act(c, s, actions[0]), actions[1..])
  }

  // ---- what every reachable state satisfies ----

  function InFlight(d: Dispatcher): seq<Score> {
    match d
    case SignalSpace(e) => [e]
    case Deliver(e) => [e]
    case Finish(e) => [e]
    case _ => []
  }

  function Undelivered(d: Dispatcher): seq<Score> { if d.Finish? then [] else InFlight(d) }

  /** Every accepted score is complete, in flight or queued, and scores are
      delivered once each in the order they were accepted. */
  predicate Accounted(s: Sys) {
    && s.q.accepted == s.q.completed + |InFlight(s.dispatcher)| + |s.q.buf|
    && |s.acceptLog| == s.q.accepted
    && s.acceptLog == s.deliverLog + Undelivered(s.dispatcher) + s.q.buf
    && |s.deliverLog| == s.q.completed + (if s.dispatcher.Finish? then 1 else 0)
  }

  predicate Lifecycle(s: Sys) {
    && (s.dispatcher.NotStarted? <==> !s.q.started)
    && (s.done <==> s.dispatcher.Exited?)
    && (s.dispatcher.Exited? ==> s.q.stopped && s.q.buf == [])
    && (!s.q.started ==> s.q.accepted == 0)
  }

  // Some call is between an unlock and the wake signal.
  predicate Waking(s: Sys) {
    exists id :: id in s.calls && (s.calls[id].SignalWake? || s.calls[id].SignalStop?)
  }

  /** The dispatcher is never parked over work without a signal on its way. */
  predicate NoLostWake(s: Sys) {
    s.dispatcher.Parked? && (s.q.buf != [] || s.q.stopped) ==> s.wake || Waking(s)
  }

  predicate Rechecking(s: Sys) { exists id :: id in s.calls && s.calls[id].Recheck? }

  predicate Blocked(s: Sys) { exists id :: id in s.calls && s.calls[id].WaitSpace? }

  /** Before shutdown a producer is never blocked over an empty queue without
      a space signal on its way. */
  predicate NoLostSpace(s: Sys) {
    !s.q.stopped && s.q.buf == [] && Blocked(s) ==> s.space || s.dispatcher.SignalSpace? || Rechecking(s)
  }

  predicate HasWaiter(ws: seq<Waiter>, id: nat) { exists i :: 0 <= i < |ws| && ws[i].id == id }

  // The waiter's owner, with the same target.
  predicate Owned(s: Sys, w: Waiter) {
    && w.id in s.calls && (s.calls[w.id].WaitFlush? || s.calls[w.id].Abandon?) && s.calls[w.id].target == w.target
    && s.q.completed < w.target <= s.q.accepted && w.id !in s.signalled
  }

  predicate WaitersOk(s: Sys) {
    && (forall i :: 0 <= i < |s.q.waiters| ==> Owned(s, s.q.waiters[i]))
    && (forall i, j :: 0 <= i < j < |s.q.waiters| ==> s.q.waiters[i].id != s.q.waiters[j].id)
  }

  // A blocked or canceled flush has a waiter, or was signalled exactly when
  // its target was reached.
  predicate FlushOk(s: Sys, id: nat)
    requires id in s.calls
  {
    match s.calls[id]
    case WaitFlush(target) => HasWaiter(s.q.waiters, id) || (id in s.signalled && s.signalled[id] == target)
    case Abandon(target) => HasWaiter(s.q.waiters, id) || (id in s.signalled && s.signalled[id] == target)
    case FlushNil(target) => target <= s.q.completed && (id in s.signalled ==> s.signalled[id] == target)
    case FlushCanceled => true
    case _ => id !in s.signalled
  }

  predicate FlushesOk(s: Sys) {
    && (forall id :: id in s.calls ==> FlushOk(s, id))
    && (forall id :: id in s.signalled ==> id in s.calls && s.signalled[id] <= s.q.completed)
  }

  /** A shutdown that reports success without another one before it has drained
      the queue. */
  predicate ShutdownOk(s: Sys, p: Pc) {
    match p
    case ShutdownNil(already) => s.q.stopped && (!already ==> s.done || !s.q.started)
    case ShutdownCanceled => s.done
    case SignalStop(_, _) => s.q.stopped && s.q.started
    case AwaitDone(_, _) => s.q.stopped && s.q.started
    case _ => true
  }

  predicate ShutdownsOk(s: Sys) { forall id :: id in s.calls ==> ShutdownOk(s, s.calls[id]) }

  // A blocked producer has seen a full queue, so the dispatcher runs.
  predicate ProducersOk(s: Sys) {
    forall id :: id in s.calls && (s.calls[id].WaitSpace? || s.calls[id].Recheck?) ==> s.q.started
  }

  predicate Stopping(s: Sys) {
    exists id :: id in s.calls && (s.calls[id].AwaitDone? || (s.calls[id].SignalStop? && !s.calls[id].already))
  }

  // The lifecycle context is canceled in the end.
  predicate StopOwned(s: Sys) { s.q.stopped && s.q.started ==> s.canceled || Stopping(s) }

  /** What every interleaving keeps. */
  predicate Inv(s: Sys) {
    && Accounted(s) && Lifecycle(s) && NoLostWake(s) && NoLostSpace(s)
    && WaitersOk(s) && FlushesOk(s) && ShutdownsOk(s) && ProducersOk(s) && StopOwned(s)
  }
}
