/** The prompt cache (prompt_cache.go) as a transition system. Every critical
    section is one step; fetches are an oracle that answers any time and, when
    it succeeds, with a prompt that matches the request. */
module PromptCache {

  const MAX_ENTRIES: nat := 256
  const MAX_REFRESHES: nat := 8
  const MAX_FOREGROUND: nat := 64
  const REFRESH_COOLDOWN: int := 10_000_000_000 // nanoseconds

  datatype Option<T> = None | Some(value: T)

  datatype Key = Key(name: string, version: int, labelled: string)

  datatype Prompt = Prompt(name: string, version: int, labels: seq<string>, body: string)

  /** What a successful fetch has checked (internal/transport/prompts.go). */
  predicate Answers(k: Key, p: Prompt) {
    && p.name == k.name && p.version > 0
    && (k.version > 0 ==> p.version == k.version)
    && (k.version == 0 ==> k.labelled in p.labels)
  }

  // `id` stands for the identity of the source's entry object.
  datatype Entry = Entry(id: nat, master: Prompt, fetchedAt: int, generation: nat, refreshing: bool, cooldownUntil: int)

  // The recency list has the most recent key in front. `used` records when
  // each key was last used, on a clock of uses; no operation reads it.
  datatype Cache = Cache(entries: map<Key, Entry>, lru: seq<Key>, used: map<Key, nat>, clock: nat, nextId: nat)

  function Without(keys: seq<Key>, key: Key): seq<Key> {
    if keys == [] then [] else if keys[0] == key then keys[1..] else [keys[0]] + Without(keys[1..], key)
  }

  function Touch(c: Cache, key: Key): Cache {
    c.(lru := [key] + Without(c.lru, key), used := c.used[key := c.clock], clock := c.clock + 1)
  }

  function RemoveEntry(c: Cache, key: Key): Cache {
    if key in c.entries then c.(entries := c.entries - {key}, lru := Without(c.lru, key)) else c
  }

  /** Evicts from the back of the list until the cap holds. */
  function Trim(c: Cache): Cache
    decreases |c.entries|
  {
    if |c.entries| <= MAX_ENTRIES || c.lru == [] || c.lru[|c.lru| - 1] !in c.entries then c
    else
      var r := RemoveEntry(c, c.lru[|c.lru| - 1]);
      if |r.entries| < |c.entries| then Trim(r) else r
  }

  function PushEntry(c: Cache, key: Key, master: Prompt, now: int): Cache {
    c.(entries := c.entries[key := Entry(c.nextId, master, now, 1, false, 0)], lru := [key] + c.lru,
       used := c.used[key := c.clock], clock := c.clock + 1, nextId := c.nextId + 1)
  }

  function Store(c: Cache, key: Key, master: Prompt, now: int): Cache { Trim(PushEntry(c, key, master, now)) }

  datatype Fetch = Found(prompt: Prompt) | NotFound | Failed

  predicate Matches(k: Key, r: Fetch) { r.Found? ==> Answers(k, r.prompt) }

  // A worker runs, then has committed under the mutex, then has left the
  // wait group.
  datatype Phase = Running | Closing | Gone

  datatype Flight = Flight(key: Key, waiters: int, abandoned: bool, phase: Phase, result: Fetch)

  datatype Refresh = Refresh(key: Key, entry: nat, generation: nat, phase: Phase)

  datatype Gate = Gate(closing: bool, lifecycleEnded: bool, refreshing: int, foreground: int, wg: int)

  datatype Outcome =
    | Hit(key: Key, prompt: Prompt, stale: bool)
    | Fetched(key: Key, prompt: Prompt)
    | Fallback
    | Canceled

  // Program points of a call.
  datatype Pc =
    | Get(key: Key, ttl: int)
    | Missed(key: Key, ttl: int)                    // unlocked, about to check its context
    | Admit(key: Key, ttl: int)                     // about to lock again
    | WaitOut(key: Key, ttl: int, flight: nat)      // an abandoned flight holds the key
    | Await(key: Key, flight: nat)
    | Leave(flight: nat)                            // canceled, about to lock
    | Refused                                       // admission failed
    | Direct(key: Key) | DirectAdmit(key: Key) | DirectFetch(key: Key)
    | DirectSettle(out: Outcome) | DirectClose(out: Outcome)
    | Returned(out: Outcome)
    | Shutdown | ShutdownCancel | ShutdownWait | ShutdownNil | ShutdownFailed

  // Flights and refreshes are kept forever, as the objects they are; `flights`
  // holds the mapped ones.
  datatype Sys = Sys(cache: Cache, gate: Gate, flights: map<Key, nat>, table: seq<Flight>, refreshes: seq<Refresh>,
                     calls: map<nat, Pc>, ended: set<nat>)

  const START: Sys := Sys(Cache(map[], [], map[], 0, 0), Gate(false, false, 0, 0, 0), map[], [], [], map[], {})

  datatype Action =
    | Call(id: nat, pc: Pc)
    | EndContext(id: nat)
    | Step(id: nat, now: int, later: int, alternative: bool)
    | DirectFetched(id: nat, result: Fetch)
    | FlightCommit(flight: nat, result: Fetch, now: int)
    | FlightClose(flight: nat)
    | RefreshCommit(refresh: nat, result: Fetch, now: int)
    | RefreshClose(refresh: nat)

  function Go(s: Sys, id: nat, pc: Pc): Sys { s.(calls := s.calls[id := pc]) }

  /** Admits one background refresh of a stale entry. */
  function MaybeRefresh(s: Sys, key: Key, now: int): Sys
    requires key in s.cache.entries
  {
    var e := s.cache.entries[key];
    if e.refreshing || s.gate.closing || s.gate.refreshing >= MAX_REFRESHES || now < e.cooldownUntil then s
    else s.(cache := s.cache.(entries := s.cache.entries[key := e.(refreshing := true)]),
            gate := s.gate.(refreshing := s.gate.refreshing + 1, wg := s.gate.wg + 1),
            refreshes := s.refreshes + [Refresh(key, e.id, e.generation, Running)])
  }

  function HitKey(s: Sys, key: Key, ttl: int, now: int, later: int): Sys
    requires key in s.cache.entries
  {
    var t := s.(cache := Touch(s.cache, key));
    if now - s.cache.entries[key].fetchedAt > ttl then MaybeRefresh(t, key, later) else t
  }

  function StepGet(s: Sys, id: nat, key: Key, ttl: int, now: int, later: int): Sys {
    if key in s.cache.entries then
      var e := s.cache.entries[key];
      Go(HitKey(s, key, ttl, now, later), id, Returned(Hit(key, e.master, now - e.fetchedAt > ttl)))
    else Go(s, id, Missed(key, ttl))
  }

  function StartFlight(s: Sys, key: Key): Sys {
    s.(flights := s.flights[key := |s.table|], table := s.table + [Flight(key, 1, false, Running, Failed)],
       gate := s.gate.(foreground := s.gate.foreground + 1, wg := s.gate.wg + 1))
  }

  function JoinFlight(s: Sys, f: nat): Sys
    requires f < |s.table|
  {
    s.(table := s.table[f := s.table[f].(waiters := s.table[f].waiters + 1)])
  }

  function JoinOrStart(s: Sys, id: nat, key: Key, ttl: int): Sys {
    if s.gate.closing then Go(s, id, Refused)
    else if key in s.flights && s.flights[key] < |s.table| then
      var f := s.flights[key];
      if s.table[f].abandoned then Go(s, id, WaitOut(key, ttl, f)) else Go(JoinFlight(s, f), id, Await(key, f))
    else if s.gate.foreground >= MAX_FOREGROUND then Go(s, id, Refused)
    else Go(StartFlight(s, key), id, Await(key, |s.table|))
  }

  predicate Done(s: Sys, f: nat) { f < |s.table| && !s.table[f].phase.Running? }

  function StepAwait(s: Sys, id: nat, key: Key, f: nat, alternative: bool): Sys {
    if id in s.ended && (alternative || !Done(s, f)) then Go(s, id, Leave(f))
    else if !Done(s, f) then s
    else if id in s.ended then Go(s, id, Returned(Canceled))
    else if s.table[f].result.Found? then Go(s, id, Returned(Fetched(key, s.table[f].result.prompt)))
    else Go(s, id, Returned(Fallback))
  }

  /** The last departure abandons the flight. */
  function LeaveFlight(s: Sys, f: nat): Sys {
    if f < |s.table| then
      var left := s.table[f].waiters - 1;
      s.(table := s.table[f := s.table[f].(waiters := left, abandoned := s.table[f].abandoned || left == 0)])
    else s
  }

  function StepDirectAdmit(s: Sys, id: nat, key: Key): Sys {
    if s.gate.closing || s.gate.foreground >= MAX_FOREGROUND then Go(s, id, Refused)
    else Go(s.(gate := s.gate.(foreground := s.gate.foreground + 1, wg := s.gate.wg + 1)), id, DirectFetch(key))
  }

  function StepMissed(s: Sys, id: nat, key: Key, ttl: int): Sys {
    Go(s, id, if id in s.ended then Returned(Canceled) else Admit(key, ttl))
  }

  /** The entry may have arrived while the mutex was free. */
  function StepAdmit(s: Sys, id: nat, key: Key, ttl: int): Sys {
    if key in s.cache.entries then Go(s, id, Get(key, ttl)) else JoinOrStart(s, id, key, ttl)
  }

  function StepWaitOut(s: Sys, id: nat, key: Key, ttl: int, f: nat): Sys {
    if id in s.ended then Go(s, id, Returned(Canceled)) else if Done(s, f) then Go(s, id, Get(key, ttl)) else s
  }

  function StepLeave(s: Sys, id: nat, f: nat): Sys { Go(LeaveFlight(s, f), id, Returned(Canceled)) }

  function StepRefused(s: Sys, id: nat): Sys { Go(s, id, Returned(if id in s.ended then Canceled else Fallback)) }

  function StepDirect(s: Sys, id: nat, key: Key): Sys {
    Go(s, id, if id in s.ended then Returned(Canceled) else DirectAdmit(key))
  }

  function StepSettle(s: Sys, id: nat, out: Outcome): Sys {
    Go(s.(gate := s.gate.(foreground := s.gate.foreground - 1)), id, DirectClose(out))
  }

  function StepClose(s: Sys, id: nat, out: Outcome): Sys {
    Go(s.(gate := s.gate.(wg := s.gate.wg - 1)), id, Returned(out))
  }

  function StepShutdown(s: Sys, id: nat): Sys { Go(s.(gate := s.gate.(closing := true)), id, ShutdownCancel) }

  function StepShutdownCancel(s: Sys, id: nat): Sys {
    Go(s.(gate := s.gate.(lifecycleEnded := true)), id, ShutdownWait)
  }

  function StepShutdownWait(s: Sys, id: nat, alternative: bool): Sys {
    if s.gate.wg == 0 && !(alternative && id in s.ended) then Go(s, id, ShutdownNil)
    else if id in s.ended then Go(s, id, ShutdownFailed)
    else s
  }

  function StepCall(s: Sys, a: Action): Sys
    requires a.Step? && a.id in s.calls
  {
    var id := a.id;
    match s.calls[id]
    case Get(key, ttl) => StepGet(s, id, key, ttl, a.now, a.later)
    case Missed(key, ttl) => StepMissed(s, id, key, ttl)
    case Admit(key, ttl) => StepAdmit(s, id, key, ttl)
    case WaitOut(key, ttl, f) => StepWaitOut(s, id, key, ttl, f)
    case Await(key, f) => StepAwait(s, id, key, f, a.alternative)
    case Leave(f) => StepLeave(s, id, f)
    case Refused => StepRefused(s, id)
    case Direct(key) => StepDirect(s, id, key)
    case DirectAdmit(key) => StepDirectAdmit(s, id, key)
    case DirectSettle(out) => StepSettle(s, id, out)
    case DirectClose(out) => StepClose(s, id, out)
    case Shutdown => StepShutdown(s, id)
    case ShutdownCancel => StepShutdownCancel(s, id)
    case ShutdownWait => StepShutdownWait(s, id, a.alternative)
    case _ => s
  }

  function SettleDirect(s: Sys, id: nat, key: Key, r: Fetch): Sys {
    Go(s, id, DirectSettle(if id in s.ended then Canceled else if r.Found? then Fetched(key, r.prompt) else Fallback))
  }

  function CommitFlight(s: Sys, f: nat, r: Fetch, now: int): Sys
    requires f < |s.table|
  {
    var k := s.table[f].key;
    s.(cache := if r.Found? then Store(s.cache, k, r.prompt, now) else s.cache,
       table := s.table[f := s.table[f].(phase := Closing, result := r)],
       flights := s.flights - {k}, gate := s.gate.(foreground := s.gate.foreground - 1))
  }

  predicate StillInstalled(c: Cache, w: Refresh) {
    w.key in c.entries && c.entries[w.key].id == w.entry && c.entries[w.key].generation == w.generation
  }

  /** What a refresh does to the entry it still holds. */
  function Refreshed(c: Cache, w: Refresh, r: Fetch, now: int, lifecycleEnded: bool): Cache
    requires w.key in c.entries
  {
    var e := c.entries[w.key].(refreshing := false);
    match r
    case Found(p) =>
      c.(entries := c.entries[w.key := e.(master := p, fetchedAt := now, generation := e.generation + 1)])
    case NotFound => RemoveEntry(c, w.key)
    case Failed =>
      c.(entries := c.entries[w.key := if lifecycleEnded then e else e.(cooldownUntil := now + REFRESH_COOLDOWN)])
  }

  function CommitRefresh(s: Sys, i: nat, r: Fetch, now: int): Sys
    requires i < |s.refreshes|
  {
    var w := s.refreshes[i];
    s.(refreshes := s.refreshes[i := w.(phase := Closing)],
       gate := s.gate.(refreshing := s.gate.refreshing - 1),
       cache := if StillInstalled(s.cache, w) then Refreshed(s.cache, w, r, now, s.gate.lifecycleEnded) else s.cache)
  }

  predicate Begins(pc: Pc) { pc.Get? || pc.Direct? || pc.Shutdown? }

  /** One step of anyone; an action that is not enabled changes nothing. */
  function Act(s: Sys, a: Action): Sys {
    match a
    case Call(id, pc) => if id !in s.calls && Begins(pc) then Go(s, id, pc) else s
    case EndContext(id) => s.(ended := s.ended + {id})
    case Step(id, _, _, _) => if id in s.calls then StepCall(s, a) else s
    case DirectFetched(id, r) =>
      if id in s.calls && s.calls[id].DirectFetch? && Matches(s.calls[id].key, r)
      then SettleDirect(s, id, s.calls[id].key, r) else s
    case FlightCommit(f, r, now) =>
      if f < |s.table| && s.table[f].phase.Running? && Matches(s.table[f].key, r) then CommitFlight(s, f, r, now) else s
    case FlightClose(f) =>
      if f < |s.table| && s.table[f].phase.Closing?
      then s.(table := s.table[f := s.table[f].(phase := Gone)], gate := s.gate.(wg := s.gate.wg - 1)) else s
    case RefreshCommit(i, r, now) =>
      if i < |s.refreshes| && s.refreshes[i].phase.Running? && Matches(s.refreshes[i].key, r)
      then CommitRefresh(s, i, r, now) else s
    case RefreshClose(i) =>
      if i < |s.refreshes| && s.refreshes[i].phase.Closing?
      then s.(refreshes := s.refreshes[i := s.refreshes[i].(phase := Gone)], gate := s.gate.(wg := s.gate.wg - 1))
      else s
  }

  function Run(s: Sys, actions: seq<Action>): Sys
    decreases |actions|
  {
    if actions == [] then s else Run(Act(s, actions[0]), actions[1..])
  }

  // ---- what every reachable state satisfies ----

  ghost predicate Distinct(keys: seq<Key>) { forall i, j :: 0 <= i < j < |keys| ==> keys[i] != keys[j] }

  ghost function UsedAt(c: Cache, k: Key): int { if k in c.used then c.used[k] else -1 }

  ghost predicate Recent(c: Cache, k: Key) { k in c.used && c.used[k] < c.clock }

  ghost predicate ByLastUse(c: Cache) {
    forall i, j :: 0 <= i < j < |c.lru| ==> UsedAt(c, c.lru[i]) > UsedAt(c, c.lru[j])
  }

  /** The list names each entry once, in the order of last use, and the cap
      holds. */
  ghost predicate ListOk(c: Cache) {
    && Distinct(c.lru) && (forall k :: k in c.entries <==> k in c.lru) && |c.entries| == |c.lru|
    && (forall k :: k in c.entries ==> Recent(c, k)) && ByLastUse(c)
  }

  ghost predicate EntryOk(c: Cache, k: Key)
    requires k in c.entries
  {
    c.entries[k].id < c.nextId && c.entries[k].generation > 0 && Answers(k, c.entries[k].master)
  }

  ghost predicate EntriesOk(c: Cache) {
    && (forall k :: k in c.entries ==> EntryOk(c, k))
    && (forall k, l :: k in c.entries && l in c.entries && k != l ==> c.entries[k].id != c.entries[l].id)
  }

  ghost predicate CacheOk(c: Cache) { ListOk(c) && EntriesOk(c) && |c.entries| <= MAX_ENTRIES }

  /** Mapped flights are the running ones, one a key, and none has an entry. */
  ghost predicate FlightsOk(s: Sys) {
    && (forall k :: k in s.flights ==>
          s.flights[k] < |s.table| && s.table[s.flights[k]].key == k && s.table[s.flights[k]].phase.Running?)
    && (forall f: nat :: f < |s.table| && s.table[f].phase.Running? ==>
          s.table[f].key in s.flights && s.flights[s.table[f].key] == f)
    && (forall k :: k in s.flights ==> k !in s.cache.entries)
    && (forall f: nat :: f < |s.table| ==> Matches(s.table[f].key, s.table[f].result))
  }

  ghost function Joined(calls: map<nat, Pc>, f: nat): set<nat> {
    set id <- calls | (calls[id].Await? || calls[id].Leave?) && calls[id].flight == f
  }

  /** Waiters are counted exactly while the flight runs, and a flight is
      abandoned exactly when none is left. */
  ghost predicate WaiterOk(s: Sys, f: nat)
    requires f < |s.table|
  {
    && (s.table[f].abandoned <==> s.table[f].waiters == 0)
    && |Joined(s.calls, f)| <= s.table[f].waiters
    && (s.table[f].phase.Running? ==> s.table[f].waiters == |Joined(s.calls, f)|)
  }

  ghost predicate WaitersOk(s: Sys) {
    && (forall f: nat :: f < |s.table| ==> WaiterOk(s, f))
    && (forall id :: id in s.calls && (s.calls[id].Await? || s.calls[id].Leave? || s.calls[id].WaitOut?) ==>
          s.calls[id].flight < |s.table|)
    && (forall id :: id in s.calls && s.calls[id].Await? ==> s.table[s.calls[id].flight].key == s.calls[id].key)
  }

  ghost predicate Holds(w: Refresh, k: Key, e: Entry) { w.phase.Running? && w.key == k && w.entry == e.id }

  /** A running refresh whose entry is installed holds it at its captured
      generation; the flag is set exactly when one does, and only one does. */
  ghost predicate RefreshesOk(s: Sys) {
    && (forall i: nat :: i < |s.refreshes| ==> s.refreshes[i].entry < s.cache.nextId)
    && (forall i: nat :: i < |s.refreshes| && s.refreshes[i].phase.Running? ==>
          forall k :: k in s.cache.entries && s.cache.entries[k].id == s.refreshes[i].entry ==>
            && s.refreshes[i].key == k && s.cache.entries[k].refreshing
            && s.cache.entries[k].generation == s.refreshes[i].generation)
    && (forall k :: k in s.cache.entries && s.cache.entries[k].refreshing ==> Held(s, k))
    && (forall i: nat, j: nat ::
          i < j < |s.refreshes| && s.refreshes[i].phase.Running? && s.refreshes[j].phase.Running? ==>
          s.refreshes[i].entry != s.refreshes[j].entry)
  }

  ghost predicate Held(s: Sys, k: Key)
    requires k in s.cache.entries
  {
    exists i: nat :: i < |s.refreshes| && Holds(s.refreshes[i], k, s.cache.entries[k])
  }

  ghost function DirectFetches(calls: map<nat, Pc>): set<nat> {
    set id <- calls | calls[id].DirectFetch? || calls[id].DirectSettle?
  }

  ghost function DirectWorkers(calls: map<nat, Pc>): set<nat> {
    set id <- calls | calls[id].DirectFetch? || calls[id].DirectSettle? || calls[id].DirectClose?
  }

  ghost function FlightWorkers(table: seq<Flight>): set<nat> { set f: nat | f < |table| && !table[f].phase.Gone? }

  ghost function RefreshWorkers(refreshes: seq<Refresh>): set<nat> {
    set i: nat | i < |refreshes| && !refreshes[i].phase.Gone?
  }

  ghost function RunningRefreshes(refreshes: seq<Refresh>): set<nat> {
    set i: nat | i < |refreshes| && refreshes[i].phase.Running?
  }

  ghost predicate ForegroundOk(s: Sys) {
    s.gate.foreground == |s.flights| + |DirectFetches(s.calls)| <= MAX_FOREGROUND
  }

  ghost predicate RefreshingOk(s: Sys) { s.gate.refreshing == |RunningRefreshes(s.refreshes)| <= MAX_REFRESHES }

  ghost predicate GroupOk(s: Sys) {
    s.gate.wg == |FlightWorkers(s.table)| + |DirectWorkers(s.calls)| + |RefreshWorkers(s.refreshes)|
  }

  ghost predicate ShutdownOk(s: Sys, p: Pc) {
    && (p.ShutdownCancel? || p.ShutdownWait? || p.ShutdownNil? || p.ShutdownFailed? ==> s.gate.closing)
    && (p.ShutdownNil? ==> s.gate.wg == 0)
  }

  ghost predicate ShutdownsOk(s: Sys) { forall id :: id in s.calls ==> ShutdownOk(s, s.calls[id]) }

  ghost predicate OutcomeOk(out: Outcome) { out.Hit? || out.Fetched? ==> Answers(out.key, out.prompt) }

  ghost predicate OutcomesOk(s: Sys) {
    forall id :: id in s.calls && (s.calls[id].Returned? || s.calls[id].DirectSettle? || s.calls[id].DirectClose?) ==>
      OutcomeOk(s.calls[id].out)
  }

  ghost predicate Inv(s: Sys) {
    && CacheOk(s.cache) && FlightsOk(s) && WaitersOk(s) && RefreshesOk(s)
    && ForegroundOk(s) && RefreshingOk(s) && GroupOk(s) && ShutdownsOk(s) && OutcomesOk(s)
  }
}
