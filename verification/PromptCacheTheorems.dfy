/** What callers of the prompt cache rely on, over every interleaving. */
module PromptCacheTheorems {
  import opened PromptCache
  import opened PromptCacheStore
  import opened PromptCacheProofs

  function Reach(actions: seq<Action>): Sys { Run(START, actions) }

  lemma ReachHolds(actions: seq<Action>)
    ensures Inv(Reach(actions))
  {
    StartHolds();
    hide Inv;
    RunKeeps(START, actions);
  }

  lemma {:induction false} RunAppend(s: Sys, a: seq<Action>, b: seq<Action>)
    ensures Run(s, a + b) == Run(Run(s, a), b)
    decreases |a|
  {
    hide Act;
    if a == [] {
      assert a + b == b;
    } else {
      assert (a + b)[0] == a[0] && (a + b)[1..] == a[1..] + b;
      RunAppend(Act(s, a[0]), a[1..], b);
    }
  }

  /** Keys with a flight and keys with an entry are disjoint, the list names
      each entry once in the order of last use, and the caps hold. */
  lemma StoreIsOrdered(actions: seq<Action>)
    ensures var s := Reach(actions);
            && s.flights.Keys !! s.cache.entries.Keys
            && ListOk(s.cache) && |s.cache.entries| <= MAX_ENTRIES
            && s.gate.foreground == |s.flights| + |DirectFetches(s.calls)| <= MAX_FOREGROUND
            && s.gate.refreshing == |RunningRefreshes(s.refreshes)| <= MAX_REFRESHES
  {
    hide Run;
    ReachHolds(actions);
    hide ListOk, EntriesOk, WaitersOk, RefreshesOk;
  }

  /** A successful flight installs its entry; what makes room for it is the
      entry whose last use is the oldest of all. */
  lemma EvictionIsLru(actions: seq<Action>, f: nat, p: Prompt, now: int)
    requires var s := Reach(actions);
             f < |s.table| && s.table[f].phase.Running? && Answers(s.table[f].key, p)
    ensures var s := Reach(actions);
            var key, c, t := s.table[f].key, s.cache, CommitFlight(s, f, Found(p), now).cache;
            && key !in c.entries && key in t.entries && t.entries[key].master == p
            && (|c.entries| < MAX_ENTRIES ==> t.entries == c.entries[key := t.entries[key]])
            && (|c.entries| == MAX_ENTRIES ==>
                  exists victim :: Oldest(c, victim) && t.entries == (c.entries - {victim})[key := t.entries[key]])
  {
    hide Run, Inv, CacheOk, Answers, Store, Oldest;
    ReachHolds(actions);
    var s := Reach(actions);
    hide Reach;
    Flying(s, f);
    InvParts(s);
    StoreEvictsOldest(s.cache, s.table[f].key, p, now);
  }

  /** Every entry, and every prompt handed to a caller, answers its own key. */
  lemma AnswersOwnKey(actions: seq<Action>)
    ensures var s := Reach(actions);
            && (forall k :: k in s.cache.entries ==> Answers(k, s.cache.entries[k].master))
            && (forall id :: id in s.calls && s.calls[id].Returned? ==> OutcomeOk(s.calls[id].out))
  {
    hide Run;
    ReachHolds(actions);
    hide Answers, ListOk, WaitersOk, RefreshesOk, FlightsOk;
    var s := Reach(actions);
    forall k | k in s.cache.entries ensures Answers(k, s.cache.entries[k].master) { assert EntryOk(s.cache, k); }
  }

  /** What a refresh leaves of the entry it holds: the fetched prompt one
      generation on, nothing when there is none, or the old prompt, cooling
      down unless the client is shutting down. */
  predicate SettledAs(e: Entry, r: Fetch, now: int, lifecycleEnded: bool, f: Option<Entry>) {
    match r
    case NotFound => f.None?
    case Found(prompt) =>
      f.Some? && f.value == Entry(e.id, prompt, now, e.generation + 1, false, e.cooldownUntil)
    case Failed =>
      f.Some? && f.value == Entry(e.id, e.master, e.fetchedAt, e.generation, false,
                                  if lifecycleEnded then e.cooldownUntil else now + REFRESH_COOLDOWN)
  }

  /** A running refresh either still holds its entry, flagged and at the
      captured generation, and settles that entry alone, or its commit cannot
      touch the store. No key is ever added. */
  lemma RefreshIsGuarded(actions: seq<Action>, i: nat, r: Fetch, now: int)
    requires i < |Reach(actions).refreshes| && Reach(actions).refreshes[i].phase.Running?
    ensures var s := Reach(actions);
            var w, t := s.refreshes[i], CommitRefresh(s, i, r, now).cache;
            && t.entries.Keys <= s.cache.entries.Keys
            && if w.key in s.cache.entries && s.cache.entries[w.key].id == w.entry
               then var e := s.cache.entries[w.key];
                    && e.refreshing && e.generation == w.generation
                    && (forall k :: k in s.cache.entries && k != w.key ==>
                          k in t.entries && t.entries[k] == s.cache.entries[k])
                    && SettledAs(e, r, now, s.gate.lifecycleEnded,
                                 if w.key in t.entries then Some(t.entries[w.key]) else None)
               else t == s.cache && forall k :: k in s.cache.entries ==> s.cache.entries[k].id != w.entry
  {
    hide Run, Inv, ListOk, EntriesOk, FlightsOk;
    ReachHolds(actions);
    var s := Reach(actions);
    hide Reach, Without;
    InvParts(s);
  }

  /** The flag of an entry is set exactly when one running refresh holds it. */
  lemma RefreshingMeansHeld(actions: seq<Action>, k: Key)
    requires k in Reach(actions).cache.entries
    ensures var s := Reach(actions); s.cache.entries[k].refreshing <==> Held(s, k)
    ensures var s := Reach(actions);
            forall i: nat, j: nat :: i < j < |s.refreshes| ==>
              !(Holds(s.refreshes[i], k, s.cache.entries[k]) && Holds(s.refreshes[j], k, s.cache.entries[k]))
  {
    hide Run, Inv, ListOk, EntriesOk, FlightsOk;
    ReachHolds(actions);
    var s := Reach(actions);
    hide Reach;
    InvParts(s);
  }

  // ---- what a step never undoes ----

  ghost predicate Grows(s: Sys, t: Sys) {
    && |s.table| <= |t.table| && |s.refreshes| <= |t.refreshes|
    && (forall f: nat :: f < |s.table| ==>
          t.table[f].key == s.table[f].key && (s.table[f].abandoned ==> t.table[f].abandoned))
    && (s.gate.closing ==> t.gate.closing && |t.table| == |s.table| && |t.refreshes| == |s.refreshes|)
    && s.ended <= t.ended
  }

  ghost predicate OnlyMoves(s: Sys, t: Sys, id: nat) {
    && (forall j :: j in s.calls ==> j in t.calls && (j != id ==> t.calls[j] == s.calls[j]))
    && (forall j :: j in t.calls ==> j in s.calls || j == id)
  }

  lemma GetGrows(s: Sys, id: nat, key: Key, ttl: int, now: int, later: int)
    ensures Grows(s, StepGet(s, id, key, ttl, now, later)) && OnlyMoves(s, StepGet(s, id, key, ttl, now, later), id)
  {
    hide Touch;
  }

  lemma AdmitGrows(s: Sys, id: nat, key: Key, ttl: int)
    ensures Grows(s, StepAdmit(s, id, key, ttl)) && OnlyMoves(s, StepAdmit(s, id, key, ttl), id)
  {
  }

  lemma LeaveGrows(s: Sys, id: nat, f: nat)
    ensures Grows(s, StepLeave(s, id, f)) && OnlyMoves(s, StepLeave(s, id, f), id)
  {
  }

  lemma OtherGrows(s: Sys, a: Action)
    requires a.Step? && a.id in s.calls && !s.calls[a.id].Get? && !s.calls[a.id].Admit? && !s.calls[a.id].Leave?
    ensures Grows(s, StepCall(s, a)) && OnlyMoves(s, StepCall(s, a), a.id)
  {
    hide StepGet, StepAdmit, StepLeave;
    var pc, t := s.calls[a.id], StepCall(s, a);
    if pc.Missed? || pc.WaitOut? || pc.Await? || pc.Refused? { } else if pc.Direct? || pc.DirectAdmit? { } else { }
    assert t.table == s.table && t.refreshes == s.refreshes && t.ended == s.ended;
    assert (s.gate.closing ==> t.gate.closing) && (t == s || t.calls == s.calls[a.id := t.calls[a.id]]);
    hide StepCall;
  }

  lemma ActGrows(s: Sys, a: Action)
    ensures Grows(s, Act(s, a))
    ensures a.Call? || a.Step? || a.DirectFetched? ==> OnlyMoves(s, Act(s, a), a.id)
    ensures !(a.Call? || a.Step? || a.DirectFetched?) ==> Act(s, a).calls == s.calls
  {
    hide Store, StillInstalled, Refreshed, Matches;
    if a.Step? && a.id in s.calls {
      hide StepGet, StepAdmit, StepLeave;
      var pc := s.calls[a.id];
      if pc.Get? { GetGrows(s, a.id, pc.key, pc.ttl, a.now, a.later); }
      else if pc.Admit? { AdmitGrows(s, a.id, pc.key, pc.ttl); }
      else if pc.Leave? { LeaveGrows(s, a.id, pc.flight); }
      else { OtherGrows(s, a); hide StepCall; }
      hide Grows, OnlyMoves;
    } else {
      hide StepCall;
    }
  }

  lemma GrowsOn(s: Sys, t: Sys, u: Sys)
    requires Grows(s, t) && Grows(t, u)
    ensures Grows(s, u)
  {
    assert forall f: nat :: f < |s.table| ==> t.table[f].key == s.table[f].key && u.table[f].key == t.table[f].key;
  }

  lemma {:induction false} RunGrows(s: Sys, actions: seq<Action>)
    ensures Grows(s, Run(s, actions))
    decreases |actions|
  {
    hide Act;
    if actions != [] {
      var t := Act(s, actions[0]);
      ActGrows(s, actions[0]);
      RunGrows(t, actions[1..]);
      GrowsOn(s, t, Run(t, actions[1..]));
    }
  }

  // ---- flights ----

  /** A flight is abandoned exactly when nobody waits for it, is then joined
      by nobody, and stays so whatever happens next. */
  lemma AbandonedForever(before: seq<Action>, f: nat, after: seq<Action>)
    requires f < |Reach(before).table|
    ensures var s, t := Reach(before), Reach(before + after);
            && (s.table[f].abandoned <==> s.table[f].waiters == 0)
            && (s.table[f].abandoned ==> f < |t.table| && t.table[f].abandoned && Joined(t.calls, f) == {})
  {
    hide Run, Inv, Joined;
    ReachHolds(before);
    ReachHolds(before + after);
    RunAppend(START, before, after);
    RunGrows(Reach(before), after);
    var s, t := Reach(before), Reach(before + after);
    assert t == Run(s, after);
    hide Reach;
    Waiting(s, f);
    Waiting(t, f);
  }

  lemma Waiting(s: Sys, f: nat)
    requires Inv(s) && f < |s.table|
    ensures s.table[f].abandoned <==> s.table[f].waiters == 0
    ensures s.table[f].abandoned ==> Joined(s.calls, f) == {}
    ensures s.table[f].phase.Running? ==> s.table[f].waiters == |Joined(s.calls, f)|
  {
    hide Joined;
    assert WaiterOk(s, f);
  }

  // ---- shutdown ----

  lemma NilStays(s: Sys, a: Action, id: nat)
    requires id in s.calls && s.calls[id].ShutdownNil?
    ensures id in Act(s, a).calls && Act(s, a).calls[id].ShutdownNil?
  {
    ActGrows(s, a);
    if a.Step? && a.id == id { assert StepCall(s, a) == s; } else { hide StepCall; }
    hide CommitFlight, CommitRefresh, SettleDirect, Matches;
  }

  lemma {:induction false} RunNilStays(s: Sys, actions: seq<Action>, id: nat)
    requires id in s.calls && s.calls[id].ShutdownNil?
    ensures id in Run(s, actions).calls && Run(s, actions).calls[id].ShutdownNil?
    decreases |actions|
  {
    hide Act;
    if actions != [] {
      NilStays(s, actions[0], id);
      RunNilStays(Act(s, actions[0]), actions[1..], id);
    }
  }

  lemma NilIsDrained(s: Sys, id: nat)
    requires Inv(s) && id in s.calls && s.calls[id].ShutdownNil?
    ensures s.gate.closing && FlightWorkers(s.table) == {} && DirectWorkers(s.calls) == {}
    ensures RefreshWorkers(s.refreshes) == {}
  {
    hide ListOk, EntriesOk, FlightsOk, WaitersOk, RefreshesOk, FlightWorkers, DirectWorkers, RefreshWorkers;
    assert ShutdownOk(s, s.calls[id]);
  }

  /** Once a shutdown has returned nil no prompt worker is alive, and none is
      ever started again. */
  lemma ShutdownIsFinal(before: seq<Action>, id: nat, after: seq<Action>)
    requires id in Reach(before).calls && Reach(before).calls[id].ShutdownNil?
    ensures var s, t := Reach(before), Reach(before + after);
            && FlightWorkers(t.table) == {} && DirectWorkers(t.calls) == {} && RefreshWorkers(t.refreshes) == {}
            && |t.table| == |s.table| && |t.refreshes| == |s.refreshes|
  {
    hide Run, Inv, FlightWorkers, DirectWorkers, RefreshWorkers;
    ReachHolds(before);
    ReachHolds(before + after);
    RunAppend(START, before, after);
    RunGrows(Reach(before), after);
    RunNilStays(Reach(before), after, id);
    NilIsDrained(Reach(before), id);
    NilIsDrained(Reach(before + after), id);
  }

  // ---- cancellation ----

  /** A call whose context has ended can still return a hit, but never the
      result of a fetch or a fallback. */
  ghost predicate Doomed(s: Sys, id: nat) {
    && id in s.ended && id in s.calls
    && (s.calls[id].DirectSettle? || s.calls[id].DirectClose? ==> s.calls[id].out == Canceled)
    && (s.calls[id].Returned? ==> s.calls[id].out == Canceled || s.calls[id].out.Hit?)
  }

  lemma StepDoomed(s: Sys, a: Action)
    requires a.Step? && a.id in s.calls && Doomed(s, a.id)
    ensures a.id in StepCall(s, a).calls
    ensures var pc := StepCall(s, a).calls[a.id];
            && (pc.DirectSettle? || pc.DirectClose? ==> pc.out == Canceled)
            && (pc.Returned? ==> pc.out == Canceled || pc.out.Hit?)
  {
    hide HitKey, StartFlight, JoinFlight, LeaveFlight;
    var pc := s.calls[a.id];
    if pc.Get? { hide StepAdmit, StepAwait, StepDirectAdmit; }
    else if pc.Admit? { hide StepGet, StepAwait, StepDirectAdmit; }
    else { hide StepGet, StepAdmit; }
  }

  lemma ActDoomed(s: Sys, a: Action, id: nat)
    requires Doomed(s, id)
    ensures Doomed(Act(s, a), id)
  {
    ActGrows(s, a);
    if a.Step? && a.id == id { StepDoomed(s, a); }
    hide StepCall, CommitFlight, CommitRefresh, Matches;
  }

  lemma {:induction false} RunDoomed(s: Sys, actions: seq<Action>, id: nat)
    requires Doomed(s, id)
    ensures Doomed(Run(s, actions), id)
    decreases |actions|
  {
    hide Act, Doomed;
    if actions != [] {
      ActDoomed(s, actions[0], id);
      RunDoomed(Act(s, actions[0]), actions[1..], id);
    }
  }

  /** Cancellation wins: a call still on its way when its context has ended
      returns its cancellation or a cached prompt. */
  lemma CancellationWins(before: seq<Action>, id: nat, after: seq<Action>)
    requires var s := Reach(before);
             && id in s.ended && id in s.calls
             && !s.calls[id].DirectSettle? && !s.calls[id].DirectClose? && !s.calls[id].Returned?
    ensures var t := Reach(before + after);
            id in t.calls && (t.calls[id].Returned? ==> t.calls[id].out == Canceled || t.calls[id].out.Hit?)
  {
    hide Run;
    RunAppend(START, before, after);
    RunDoomed(Reach(before), after, id);
  }
}
