/** Every interleaving of the prompt cache keeps its invariants. */
module PromptCacheProofs {
  import opened PromptCache
  import opened PromptCacheStore

  // ---- counting ----

  function One(b: bool): int { if b then 1 else 0 }

  lemma CardMove<T>(s: set<T>, t: set<T>, x: T)
    requires s - {x} == t - {x}
    ensures |t| == |s| - One(x in s) + One(x in t)
  {
    var r := s - {x};
    assert x !in r;
    assert s == if x in s then r + {x} else r;
    assert t == if x in t then r + {x} else r;
  }

  predicate Joins(pc: Pc, f: nat) { (pc.Await? || pc.Leave?) && pc.flight == f }

  predicate FetchesDirectly(pc: Pc) { pc.DirectFetch? || pc.DirectSettle? }

  predicate WorksDirectly(pc: Pc) { FetchesDirectly(pc) || pc.DirectClose? }

  lemma JoinedCount(calls: map<nat, Pc>, id: nat, pc: Pc, f: nat)
    ensures |Joined(calls[id := pc], f)| ==
            |Joined(calls, f)| - One(id in calls && Joins(calls[id], f)) + One(Joins(pc, f))
  {
    CardMove(Joined(calls, f), Joined(calls[id := pc], f), id);
  }

  lemma DirectCount(calls: map<nat, Pc>, id: nat, pc: Pc)
    ensures |DirectFetches(calls[id := pc])| ==
            |DirectFetches(calls)| - One(id in calls && FetchesDirectly(calls[id])) + One(FetchesDirectly(pc))
    ensures |DirectWorkers(calls[id := pc])| ==
            |DirectWorkers(calls)| - One(id in calls && WorksDirectly(calls[id])) + One(WorksDirectly(pc))
  {
    CardMove(DirectFetches(calls), DirectFetches(calls[id := pc]), id);
    CardMove(DirectWorkers(calls), DirectWorkers(calls[id := pc]), id);
  }

  lemma Working(calls: map<nat, Pc>, id: nat)
    requires id in calls && WorksDirectly(calls[id])
    ensures |DirectWorkers(calls)| > 0
  {
    assert id in DirectWorkers(calls);
  }

  lemma FlightCount(table: seq<Flight>, f: nat, x: Flight)
    requires f < |table|
    ensures |FlightWorkers(table[f := x])| ==
            |FlightWorkers(table)| - One(!table[f].phase.Gone?) + One(!x.phase.Gone?)
    ensures !table[f].phase.Gone? ==> |FlightWorkers(table)| > 0
  {
    CardMove(FlightWorkers(table), FlightWorkers(table[f := x]), f);
    if !table[f].phase.Gone? { assert f in FlightWorkers(table); }
  }

  lemma FlightPush(table: seq<Flight>, x: Flight)
    requires !x.phase.Gone?
    ensures |FlightWorkers(table + [x])| == |FlightWorkers(table)| + 1
  {
    CardMove(FlightWorkers(table), FlightWorkers(table + [x]), |table|);
  }

  lemma RefreshCount(refreshes: seq<Refresh>, i: nat, x: Refresh)
    requires i < |refreshes|
    ensures |RefreshWorkers(refreshes[i := x])| ==
            |RefreshWorkers(refreshes)| - One(!refreshes[i].phase.Gone?) + One(!x.phase.Gone?)
    ensures |RunningRefreshes(refreshes[i := x])| ==
            |RunningRefreshes(refreshes)| - One(refreshes[i].phase.Running?) + One(x.phase.Running?)
    ensures !refreshes[i].phase.Gone? ==> |RefreshWorkers(refreshes)| > 0
  {
    CardMove(RefreshWorkers(refreshes), RefreshWorkers(refreshes[i := x]), i);
    CardMove(RunningRefreshes(refreshes), RunningRefreshes(refreshes[i := x]), i);
    if !refreshes[i].phase.Gone? { assert i in RefreshWorkers(refreshes); }
  }

  lemma RefreshPush(refreshes: seq<Refresh>, x: Refresh)
    requires x.phase.Running?
    ensures |RefreshWorkers(refreshes + [x])| == |RefreshWorkers(refreshes)| + 1
    ensures |RunningRefreshes(refreshes + [x])| == |RunningRefreshes(refreshes)| + 1
  {
    CardMove(RefreshWorkers(refreshes), RefreshWorkers(refreshes + [x]), |refreshes|);
    CardMove(RunningRefreshes(refreshes), RunningRefreshes(refreshes + [x]), |refreshes|);
  }

  // ---- calls that move without touching anything else ----

  /** A move that joins, leaves or counts nothing. */
  ghost predicate Plain(s: Sys, id: nat, pc: Pc) {
    && !WorksDirectly(pc) && (id in s.calls ==> !WorksDirectly(s.calls[id]))
    && (pc.Await? ==> id in s.calls && s.calls[id] == pc)
    && (pc.Leave? ==> id in s.calls && (s.calls[id].Await? || s.calls[id].Leave?) && s.calls[id].flight == pc.flight)
    && (pc.WaitOut? ==> pc.flight < |s.table|)
    && (id in s.calls && (s.calls[id].Await? || s.calls[id].Leave?) && !Joins(pc, s.calls[id].flight) ==>
          Done(s, s.calls[id].flight))
    && ShutdownOk(s, pc) && (pc.Returned? ==> OutcomeOk(pc.out))
  }

  lemma PlainWaiters(s: Sys, id: nat, pc: Pc)
    requires WaitersOk(s) && Plain(s, id, pc)
    ensures WaitersOk(Go(s, id, pc))
  {
    var t := Go(s, id, pc);
    hide Joined;
    forall f: nat | f < |t.table| ensures WaiterOk(t, f) {
      assert WaiterOk(s, f);
      JoinedCount(s.calls, id, pc, f);
    }
  }

  lemma PlainKeeps(s: Sys, id: nat, pc: Pc)
    requires Inv(s) && Plain(s, id, pc)
    ensures Inv(Go(s, id, pc))
  {
    hide Joined, DirectFetches, DirectWorkers, FlightWorkers, RefreshWorkers, RunningRefreshes, CacheOk,
         WaitersOk;
    var t := Go(s, id, pc);
    PlainWaiters(s, id, pc);
    DirectCount(s.calls, id, pc);
    RefreshesFrame(s, t);
  }

  // ---- frames ----

  lemma RefreshesFrame(s: Sys, t: Sys)
    requires RefreshesOk(s) && t.refreshes == s.refreshes && t.cache.entries == s.cache.entries
    requires t.cache.nextId == s.cache.nextId
    ensures RefreshesOk(t)
  {
    forall k | k in t.cache.entries && t.cache.entries[k].refreshing ensures Held(t, k) { assert Held(s, k); }
  }

  lemma FlightsFrame(s: Sys, t: Sys)
    requires FlightsOk(s) && t.flights == s.flights && t.table == s.table
    requires forall k :: k in t.cache.entries ==> k in s.cache.entries
    ensures FlightsOk(t)
  {
  }

  lemma WaitersFrame(s: Sys, t: Sys)
    requires WaitersOk(s) && t.table == s.table && t.calls == s.calls
    ensures WaitersOk(t)
  {
    hide Joined;
    forall f: nat | f < |t.table| ensures WaiterOk(t, f) { assert WaiterOk(s, f); }
  }

  lemma ShutdownsFrame(s: Sys, t: Sys, id: nat)
    requires ShutdownsOk(s) && (s.gate.closing ==> t.gate.closing)
    requires s.gate.closing && s.gate.wg == 0 ==> t.gate.wg == 0
    requires forall j :: j in t.calls && j != id ==> j in s.calls && t.calls[j] == s.calls[j]
    requires id in t.calls ==> ShutdownOk(t, t.calls[id]) || (id in s.calls && t.calls[id] == s.calls[id])
    ensures ShutdownsOk(t)
  {
    forall j | j in t.calls ensures ShutdownOk(t, t.calls[j]) {
      if j != id { assert ShutdownOk(s, s.calls[j]); }
      else if id in s.calls { assert ShutdownOk(s, s.calls[id]); }
    }
  }

  // ---- what the invariant says of one thing ----

  lemma Cached(s: Sys, key: Key)
    requires Inv(s) && key in s.cache.entries
    ensures EntryOk(s.cache, key)
  {
  }

  lemma Mapped(s: Sys, key: Key)
    requires Inv(s) && key in s.flights
    ensures var f := s.flights[key]; f < |s.table| && s.table[f].key == key && s.table[f].phase.Running?
  {
  }

  lemma Flying(s: Sys, f: nat)
    requires Inv(s) && f < |s.table|
    ensures Matches(s.table[f].key, s.table[f].result)
    ensures s.table[f].phase.Running? ==> s.table[f].key in s.flights && s.table[f].key !in s.cache.entries
  {
  }

  lemma Calling(s: Sys, id: nat)
    requires Inv(s) && id in s.calls
    ensures ShutdownOk(s, s.calls[id]) && s.gate.foreground <= MAX_FOREGROUND
    ensures s.calls[id].Await? || s.calls[id].Leave? || s.calls[id].WaitOut? ==> s.calls[id].flight < |s.table|
    ensures s.calls[id].Await? ==> s.table[s.calls[id].flight].key == s.calls[id].key
    ensures s.calls[id].DirectSettle? || s.calls[id].DirectClose? ==> OutcomeOk(s.calls[id].out)
  {
  }

  // ---- hits and refreshes ----

  lemma SameList(c: Cache, d: Cache)
    requires ListOk(c) && d == c.(entries := d.entries) && d.entries.Keys == c.entries.Keys
    ensures ListOk(d)
  {
    hide Distinct;
    SameOrder(c, d);
    hide ByLastUse;
    assert |d.entries| == |d.entries.Keys| == |c.entries|;
    forall k | k in d.entries ensures Recent(d, k) { assert Recent(c, k); }
  }

  lemma EntryUpdated(c: Cache, key: Key, e: Entry)
    requires CacheOk(c) && key in c.entries && e.id == c.entries[key].id && e.generation > 0 && Answers(key, e.master)
    ensures CacheOk(c.(entries := c.entries[key := e]))
  {
    hide ListOk, Answers;
    var d := c.(entries := c.entries[key := e]);
    assert d.entries.Keys == c.entries.Keys;
    SameList(c, d);
    assert |d.entries| == |d.entries.Keys| == |c.entries|;
    forall k | k in d.entries ensures EntryOk(d, k) { assert EntryOk(c, k); }
  }

  lemma TouchKeeps(s: Sys, key: Key)
    requires Inv(s) && key in s.cache.entries
    ensures key in Touch(s.cache, key).entries && Inv(s.(cache := Touch(s.cache, key)))
  {
    hide CacheOk, WaitersOk, RefreshesOk, Without, Joined, DirectFetches, DirectWorkers, FlightWorkers,
         RefreshWorkers, RunningRefreshes;
    var t := s.(cache := Touch(s.cache, key));
    TouchOk(s.cache, key);
    RefreshesFrame(s, t);
    WaitersFrame(s, t);
  }

  lemma RefreshStarted(s: Sys, key: Key, t: Sys)
    requires EntriesOk(s.cache) && RefreshesOk(s) && key in s.cache.entries && !s.cache.entries[key].refreshing
    requires var e := s.cache.entries[key];
             && t.cache == s.cache.(entries := s.cache.entries[key := e.(refreshing := true)])
             && t.refreshes == s.refreshes + [Refresh(key, e.id, e.generation, Running)]
    ensures RefreshesOk(t)
  {
    var e, n := s.cache.entries[key], |s.refreshes|;
    assert EntryOk(s.cache, key);
    hide Answers;
    assert t.refreshes[n] == Refresh(key, e.id, e.generation, Running);
    assert forall i: nat :: i < n ==> t.refreshes[i] == s.refreshes[i];
    forall k | k in t.cache.entries && t.cache.entries[k].refreshing ensures Held(t, k) {
      if k == key {
        assert Holds(t.refreshes[n], k, t.cache.entries[k]);
      } else {
        assert Held(s, k);
        var i: nat :| i < n && Holds(s.refreshes[i], k, s.cache.entries[k]);
        assert Holds(t.refreshes[i], k, t.cache.entries[k]);
      }
    }
  }

  lemma MaybeRefreshKeeps(s: Sys, key: Key, now: int)
    requires Inv(s) && key in s.cache.entries
    ensures Inv(MaybeRefresh(s, key, now)) && MaybeRefresh(s, key, now).calls == s.calls
  {
    hide CacheOk, FlightsOk, WaitersOk, RefreshesOk, Joined, DirectFetches, DirectWorkers, FlightWorkers,
         RefreshWorkers, RunningRefreshes;
    var t, e := MaybeRefresh(s, key, now), s.cache.entries[key];
    if t != s {
      Cached(s, key);
      InvParts(s);
      EntryUpdated(s.cache, key, e.(refreshing := true));
      RefreshStarted(s, key, t);
      WaitersFrame(s, t);
      FlightsFrame(s, t);
      RefreshPush(s.refreshes, Refresh(key, e.id, e.generation, Running));
      }
  }

  lemma HitKeeps(s: Sys, key: Key, ttl: int, now: int, later: int)
    requires Inv(s) && key in s.cache.entries
    ensures Inv(HitKey(s, key, ttl, now, later))
    ensures HitKey(s, key, ttl, now, later).calls == s.calls
  {
    hide Inv, MaybeRefresh, Touch;
    TouchKeeps(s, key);
    MaybeRefreshKeeps(s.(cache := Touch(s.cache, key)), key, later);
  }

  // A refresh reaches its commit: its entry, if still there, is released.
  lemma RefreshEnded(s: Sys, t: Sys, i: nat)
    requires RefreshesOk(s) && i < |s.refreshes| && s.refreshes[i].phase.Running?
    requires t.refreshes == s.refreshes[i := s.refreshes[i].(phase := Closing)] && t.cache.nextId == s.cache.nextId
    requires forall k :: k in t.cache.entries ==>
               && k in s.cache.entries && t.cache.entries[k].id == s.cache.entries[k].id
               && (t.cache.entries[k] == s.cache.entries[k] || !t.cache.entries[k].refreshing)
               && (s.cache.entries[k].id == s.refreshes[i].entry <==> t.cache.entries[k] != s.cache.entries[k])
    ensures RefreshesOk(t)
  {
    var w := s.refreshes[i];
    forall k | k in t.cache.entries && t.cache.entries[k].refreshing ensures Held(t, k) {
      assert t.cache.entries[k] == s.cache.entries[k] && Held(s, k);
      var j: nat :| j < |s.refreshes| && Holds(s.refreshes[j], k, s.cache.entries[k]);
      assert j != i;
      assert Holds(t.refreshes[j], k, t.cache.entries[k]);
    }
  }

  // An entry that the worker no longer holds is not there under any key.
  lemma NotInstalled(s: Sys, i: nat, k: Key)
    requires RefreshesOk(s) && i < |s.refreshes| && s.refreshes[i].phase.Running? && k in s.cache.entries
    requires EntriesOk(s.cache)
    ensures s.cache.entries[k].id == s.refreshes[i].entry <==>
              k == s.refreshes[i].key && StillInstalled(s.cache, s.refreshes[i])
    ensures s.cache.entries[k].id == s.refreshes[i].entry ==> s.cache.entries[k].refreshing
  {
  }

  lemma RemovedCache(c: Cache, key: Key)
    requires CacheOk(c)
    ensures CacheOk(RemoveEntry(c, key)) && RemoveEntry(c, key).nextId == c.nextId
    ensures forall k :: k in RemoveEntry(c, key).entries <==> k in c.entries && k != key
    ensures forall k :: k in RemoveEntry(c, key).entries ==> RemoveEntry(c, key).entries[k] == c.entries[k]
  {
    hide ListOk, EntriesOk, Without;
    RemoveOk(c, key);
  }

  lemma EntryIsOk(c: Cache, key: Key)
    requires CacheOk(c) && key in c.entries
    ensures EntryOk(c, key)
  {
    hide ListOk;
  }

  lemma RefreshedCache(c: Cache, w: Refresh, r: Fetch, now: int, lifecycleEnded: bool)
    requires CacheOk(c) && StillInstalled(c, w) && Matches(w.key, r)
    ensures var d := Refreshed(c, w, r, now, lifecycleEnded);
            && CacheOk(d) && d.nextId == c.nextId
            && (forall k :: k in d.entries ==>
                  k in c.entries && d.entries[k].id == c.entries[k].id && (k != w.key ==> d.entries[k] == c.entries[k]))
            && (w.key in d.entries ==> !d.entries[w.key].refreshing)
  {
    hide CacheOk, Answers, RemoveEntry;
    var e := c.entries[w.key].(refreshing := false);
    EntryIsOk(c, w.key);
    if r.Found? {
      EntryUpdated(c, w.key, e.(master := r.prompt, fetchedAt := now, generation := e.generation + 1));
    } else if r.NotFound? {
      RemovedCache(c, w.key);
    } else {
      EntryUpdated(c, w.key, if lifecycleEnded then e else e.(cooldownUntil := now + REFRESH_COOLDOWN));
    }
  }

  // A refresh commits with this cache.
  lemma CommittedRefresh(s: Sys, t: Sys, i: nat)
    requires Inv(s) && i < |s.refreshes| && s.refreshes[i].phase.Running? && CacheOk(t.cache)
    requires t == s.(refreshes := s.refreshes[i := s.refreshes[i].(phase := Closing)],
                     gate := s.gate.(refreshing := s.gate.refreshing - 1), cache := t.cache)
    requires RefreshesOk(t) && forall k :: k in t.cache.entries ==> k in s.cache.entries
    ensures Inv(t)
  {
    hide CacheOk, RefreshesOk, Joined, DirectFetches, DirectWorkers, FlightWorkers, RefreshWorkers,
         RunningRefreshes, WaitersOk, FlightsOk;
    RefreshCount(s.refreshes, i, s.refreshes[i].(phase := Closing));
    WaitersFrame(s, t);
    FlightsFrame(s, t);
  }

  lemma InvParts(s: Sys)
    requires Inv(s)
    ensures CacheOk(s.cache) && EntriesOk(s.cache) && RefreshesOk(s) && FlightsOk(s)
  {
    hide ListOk, EntriesOk, RefreshesOk, FlightsOk, WaitersOk, ForegroundOk, RefreshingOk, GroupOk, ShutdownsOk,
         OutcomesOk;
  }

  lemma UntouchedRefreshes(s: Sys, t: Sys, i: nat)
    requires RefreshesOk(s) && EntriesOk(s.cache) && i < |s.refreshes| && s.refreshes[i].phase.Running?
    requires !StillInstalled(s.cache, s.refreshes[i]) && t.cache == s.cache
    requires t.refreshes == s.refreshes[i := s.refreshes[i].(phase := Closing)]
    ensures RefreshesOk(t)
  {
    forall k | k in s.cache.entries ensures s.cache.entries[k].id != s.refreshes[i].entry { NotInstalled(s, i, k); }
    hide EntriesOk, StillInstalled;
    RefreshEnded(s, t, i);
    hide RefreshesOk;
  }

  lemma ReleasedRefreshes(s: Sys, t: Sys, i: nat)
    requires RefreshesOk(s) && EntriesOk(s.cache) && i < |s.refreshes| && s.refreshes[i].phase.Running?
    requires t.refreshes == s.refreshes[i := s.refreshes[i].(phase := Closing)] && t.cache.nextId == s.cache.nextId
    requires StillInstalled(s.cache, s.refreshes[i])
    requires var key := s.refreshes[i].key;
             && (forall k :: k in t.cache.entries ==>
                   && k in s.cache.entries && t.cache.entries[k].id == s.cache.entries[k].id
                   && (k != key ==> t.cache.entries[k] == s.cache.entries[k]))
             && (key in t.cache.entries ==> !t.cache.entries[key].refreshing)
    ensures RefreshesOk(t)
  {
    forall k | k in s.cache.entries
      ensures s.cache.entries[k].id == s.refreshes[i].entry <==> k == s.refreshes[i].key
      ensures k == s.refreshes[i].key ==> s.cache.entries[k].refreshing
    {
      NotInstalled(s, i, k);
    }
    hide EntriesOk, StillInstalled;
    RefreshEnded(s, t, i);
    hide RefreshesOk;
  }

  lemma CommitRefreshKeeps(s: Sys, i: nat, r: Fetch, now: int)
    requires Inv(s) && i < |s.refreshes| && s.refreshes[i].phase.Running? && Matches(s.refreshes[i].key, r)
    ensures Inv(CommitRefresh(s, i, r, now))
  {
    hide Inv, CacheOk, RefreshesOk, FlightsOk, EntriesOk, Refreshed, StillInstalled, Matches;
    InvParts(s);
    var t, w := CommitRefresh(s, i, r, now), s.refreshes[i];
    if StillInstalled(s.cache, w) {
      RefreshedCache(s.cache, w, r, now, s.gate.lifecycleEnded);
      ReleasedRefreshes(s, t, i);
    } else {
      UntouchedRefreshes(s, t, i);
    }
    CommittedRefresh(s, t, i);
  }

  lemma RefreshClosed(s: Sys, t: Sys, i: nat)
    requires RefreshesOk(s) && i < |s.refreshes| && s.refreshes[i].phase.Closing? && t.cache == s.cache
    requires t.refreshes == s.refreshes[i := s.refreshes[i].(phase := Gone)]
    ensures RefreshesOk(t)
  {
    forall k | k in t.cache.entries && t.cache.entries[k].refreshing ensures Held(t, k) {
      assert Held(s, k);
      var j: nat :| j < |s.refreshes| && Holds(s.refreshes[j], k, s.cache.entries[k]);
      assert Holds(t.refreshes[j], k, t.cache.entries[k]);
    }
  }

  lemma CloseRefreshKeeps(s: Sys, i: nat)
    requires Inv(s) && i < |s.refreshes| && s.refreshes[i].phase.Closing?
    ensures Inv(Act(s, RefreshClose(i)))
  {
    hide CacheOk, FlightsOk, WaitersOk, RefreshesOk, Joined, DirectFetches, DirectWorkers, FlightWorkers,
         RefreshWorkers, RunningRefreshes;
    var t := Act(s, RefreshClose(i));
    RefreshClosed(s, t, i);
    RefreshCount(s.refreshes, i, s.refreshes[i].(phase := Gone));
    WaitersFrame(s, t);
    FlightsFrame(s, t);
  }

  // ---- flights ----

  lemma StartedWaiters(s: Sys, id: nat, key: Key, t: Sys)
    requires WaitersOk(s) && id in s.calls && s.calls[id].Admit?
    requires t == Go(StartFlight(s, key), id, Await(key, |s.table|))
    ensures WaitersOk(t)
  {
    var n := |s.table|;
    hide Joined;
    forall f: nat | f < |t.table| ensures WaiterOk(t, f) {
      JoinedCount(s.calls, id, Await(key, n), f);
      if f < n {
        assert WaiterOk(s, f) && t.table[f] == s.table[f];
      } else {
        NoneJoined(s);
      }
    }
  }

  // Nobody has joined a flight that does not exist yet.
  lemma NoneJoined(s: Sys)
    requires WaitersOk(s)
    ensures Joined(s.calls, |s.table|) == {}
  {
  }

  lemma StartedFlights(s: Sys, key: Key)
    requires FlightsOk(s) && key !in s.flights && key !in s.cache.entries
    ensures FlightsOk(StartFlight(s, key))
  {
    var t := StartFlight(s, key);
    assert forall f: nat :: f < |s.table| ==> t.table[f] == s.table[f];
  }

  lemma StartKeeps(s: Sys, id: nat, key: Key, ttl: int)
    requires Inv(s) && id in s.calls && s.calls[id].Admit? && key !in s.flights && key !in s.cache.entries
    requires !s.gate.closing && s.gate.foreground < MAX_FOREGROUND
    ensures Inv(Go(StartFlight(s, key), id, Await(key, |s.table|)))
  {
    hide CacheOk, FlightsOk, WaitersOk, RefreshesOk, ShutdownsOk, Joined, DirectFetches, DirectWorkers,
         FlightWorkers, RefreshWorkers, RunningRefreshes;
    var u := StartFlight(s, key);
    var t := Go(u, id, Await(key, |s.table|));
    StartedWaiters(s, id, key, t);
    StartedFlights(s, key);
    FlightsFrame(u, t);
    FlightPush(s.table, Flight(key, 1, false, Running, Failed));
    DirectCount(s.calls, id, Await(key, |s.table|));
    RefreshesFrame(s, t);
    ShutdownsFrame(s, t, id);
    assert |t.flights| == |s.flights| + 1;
  }

  lemma JoinedWaiters(s: Sys, id: nat, key: Key, f: nat)
    requires WaitersOk(s) && id in s.calls && s.calls[id].Admit?
    requires f < |s.table| && !s.table[f].abandoned && s.table[f].key == key
    ensures WaitersOk(Go(JoinFlight(s, f), id, Await(key, f)))
  {
    var t := Go(JoinFlight(s, f), id, Await(key, f));
    hide Joined;
    forall g: nat | g < |t.table| ensures WaiterOk(t, g) {
      assert WaiterOk(s, g);
      JoinedCount(s.calls, id, Await(key, f), g);
    }
  }

  // Only the waiters of one flight change.
  lemma SameFlights(s: Sys, t: Sys, f: nat, x: Flight)
    requires FlightsOk(s) && f < |s.table| && t.table == s.table[f := x] && t.flights == s.flights
    requires x.key == s.table[f].key && x.phase == s.table[f].phase && x.result == s.table[f].result
    requires t.cache == s.cache
    ensures FlightsOk(t)
  {
    assert forall g: nat :: g < |s.table| && g != f ==> t.table[g] == s.table[g];
  }

  lemma JoinKeeps(s: Sys, id: nat, key: Key)
    requires Inv(s) && id in s.calls && s.calls[id].Admit? && key in s.flights
    requires s.flights[key] < |s.table| && !s.table[s.flights[key]].abandoned
    ensures var f := s.flights[key]; Inv(Go(JoinFlight(s, f), id, Await(key, f)))
  {
    hide CacheOk, FlightsOk, WaitersOk, RefreshesOk, ShutdownsOk, Joined, DirectFetches, DirectWorkers,
         FlightWorkers, RefreshWorkers, RunningRefreshes;
    var f := s.flights[key];
    var t := Go(JoinFlight(s, f), id, Await(key, f));
    var x := s.table[f].(waiters := s.table[f].waiters + 1);
    Mapped(s, key);
    JoinedWaiters(s, id, key, f);
    SameFlights(s, t, f, x);
    FlightCount(s.table, f, x);
    DirectCount(s.calls, id, Await(key, f));
    RefreshesFrame(s, t);
    ShutdownsFrame(s, t, id);
  }

  lemma LeftWaiters(s: Sys, id: nat, f: nat)
    requires WaitersOk(s) && id in s.calls && s.calls[id] == Leave(f)
    ensures WaitersOk(StepLeave(s, id, f))
  {
    var t := StepLeave(s, id, f);
    assert id in Joined(s.calls, f);
    hide Joined;
    forall g: nat | g < |t.table| ensures WaiterOk(t, g) {
      assert WaiterOk(s, g);
      JoinedCount(s.calls, id, Returned(Canceled), g);
    }
  }

  lemma LeaveKeeps(s: Sys, id: nat, f: nat)
    requires Inv(s) && id in s.calls && s.calls[id] == Leave(f)
    ensures Inv(StepLeave(s, id, f))
  {
    hide CacheOk, FlightsOk, WaitersOk, RefreshesOk, ShutdownsOk, Joined, DirectFetches, DirectWorkers,
         FlightWorkers, RefreshWorkers, RunningRefreshes;
    var t := StepLeave(s, id, f);
    Calling(s, id);
    var x := t.table[f];
    LeftWaiters(s, id, f);
    SameFlights(s, t, f, x);
    FlightCount(s.table, f, x);
    DirectCount(s.calls, id, Returned(Canceled));
    RefreshesFrame(s, t);
    ShutdownsFrame(s, t, id);
  }

  lemma PhasedWaiters(s: Sys, t: Sys, f: nat, x: Flight)
    requires WaitersOk(s) && f < |s.table| && t.table == s.table[f := x] && t.calls == s.calls
    requires x.waiters == s.table[f].waiters && x.abandoned == s.table[f].abandoned && !x.phase.Running?
    requires x.key == s.table[f].key
    ensures WaitersOk(t)
  {
    hide Joined;
    forall g: nat | g < |t.table| ensures WaiterOk(t, g) { assert WaiterOk(s, g); }
  }

  // An entry is replaced only by a new one that no worker holds.
  lemma RefreshesStored(s: Sys, t: Sys)
    requires RefreshesOk(s) && t.refreshes == s.refreshes && s.cache.nextId <= t.cache.nextId
    requires forall k :: k in t.cache.entries ==>
               || (k in s.cache.entries && t.cache.entries[k] == s.cache.entries[k])
               || (t.cache.entries[k].id >= s.cache.nextId && !t.cache.entries[k].refreshing)
    ensures RefreshesOk(t)
  {
    forall k | k in t.cache.entries && t.cache.entries[k].refreshing ensures Held(t, k) { assert Held(s, k); }
  }

  lemma CommittedFlights(s: Sys, t: Sys, f: nat, x: Flight)
    requires FlightsOk(s) && f < |s.table| && s.table[f].phase.Running?
    requires t.table == s.table[f := x] && t.flights == s.flights - {s.table[f].key}
    requires x.key == s.table[f].key && !x.phase.Running? && Matches(x.key, x.result)
    requires forall k :: k in t.cache.entries ==> k in s.cache.entries || k == x.key
    ensures FlightsOk(t) && |t.flights| == |s.flights| - 1
  {
    CardRemove(s.flights, s.table[f].key);
    assert forall g: nat :: g < |s.table| && g != f ==> t.table[g] == s.table[g];
  }

  // A flight commits with this cache.
  lemma CommitKeeps(s: Sys, t: Sys, f: nat, x: Flight)
    requires Inv(s) && f < |s.table| && s.table[f].phase.Running?
    requires t == s.(cache := t.cache, table := s.table[f := x], flights := s.flights - {s.table[f].key},
                     gate := s.gate.(foreground := s.gate.foreground - 1))
    requires x == s.table[f].(phase := Closing, result := x.result) && Matches(x.key, x.result)
    requires CacheOk(t.cache) && s.cache.nextId <= t.cache.nextId
    requires forall k :: k in t.cache.entries ==>
               || (k in s.cache.entries && t.cache.entries[k] == s.cache.entries[k])
               || (k == x.key && t.cache.entries[k].id == s.cache.nextId && !t.cache.entries[k].refreshing)
    ensures Inv(t)
  {
    hide CacheOk, Matches, Joined, DirectFetches, DirectWorkers, FlightWorkers, RefreshWorkers, RunningRefreshes,
         FlightsOk, WaitersOk, RefreshesOk;
    CommittedFlights(s, t, f, x);
    PhasedWaiters(s, t, f, x);
    RefreshesStored(s, t);
    FlightCount(s.table, f, x);
  }

  lemma CommitFlightKeeps(s: Sys, f: nat, r: Fetch, now: int)
    requires Inv(s) && f < |s.table| && s.table[f].phase.Running? && Matches(s.table[f].key, r)
    ensures Inv(CommitFlight(s, f, r, now))
  {
    hide Inv, CacheOk, Store, Answers;
    var k := s.table[f].key;
    Flying(s, f);
    InvParts(s);
    if r.Found? { StoreAdds(s.cache, k, r.prompt, now); }
    CommitKeeps(s, CommitFlight(s, f, r, now), f, s.table[f].(phase := Closing, result := r));
  }

  lemma CloseFlightKeeps(s: Sys, f: nat)
    requires Inv(s) && f < |s.table| && s.table[f].phase.Closing?
    ensures Inv(Act(s, FlightClose(f)))
  {
    hide CacheOk, FlightsOk, WaitersOk, RefreshesOk, Joined, DirectFetches, DirectWorkers, FlightWorkers,
         RefreshWorkers, RunningRefreshes;
    var t, x := Act(s, FlightClose(f)), s.table[f].(phase := Gone);
    PhasedWaiters(s, t, f, x);
    ClosedFlights(s, t, f, x);
    RefreshesFrame(s, t);
    FlightCount(s.table, f, x);
  }

  lemma ClosedFlights(s: Sys, t: Sys, f: nat, x: Flight)
    requires FlightsOk(s) && f < |s.table| && !s.table[f].phase.Running? && !x.phase.Running?
    requires t.table == s.table[f := x] && t.flights == s.flights && t.cache == s.cache
    requires x.key == s.table[f].key && x.result == s.table[f].result
    ensures FlightsOk(t)
  {
    assert forall g: nat :: g < |s.table| && g != f ==> t.table[g] == s.table[g];
  }

  // ---- direct fetches and shutdown ----

  /** A step of a direct fetch: its own program point and the counters. */
  lemma DirectKeeps(s: Sys, t: Sys, id: nat, pc: Pc)
    requires Inv(s) && id in s.calls && !s.calls[id].Await? && !s.calls[id].Leave?
    requires t == Go(s.(gate := t.gate), id, pc) && !pc.Await? && !pc.Leave? && !pc.WaitOut?
    requires t.gate.foreground == s.gate.foreground - One(FetchesDirectly(s.calls[id])) + One(FetchesDirectly(pc))
    requires t.gate.foreground <= MAX_FOREGROUND && t.gate.refreshing == s.gate.refreshing
    requires t.gate.wg == s.gate.wg - One(WorksDirectly(s.calls[id])) + One(WorksDirectly(pc))
    requires t.gate.closing == s.gate.closing && (t.gate.wg > s.gate.wg ==> !s.gate.closing)
    requires pc.DirectSettle? || pc.DirectClose? || pc.Returned? ==> OutcomeOk(pc.out)
    requires ShutdownOk(t, pc)
    ensures Inv(t)
  {
    hide Joined, DirectFetches, DirectWorkers, FlightWorkers, RefreshWorkers, RunningRefreshes, CacheOk,
         WaitersOk, RefreshesOk, FlightsOk, ShutdownsOk;
    DirectCount(s.calls, id, pc);
    if WorksDirectly(s.calls[id]) { Working(s.calls, id); }
    RefreshesFrame(s, t);
    FlightsFrame(s, t);
    DirectWaiters(s, t, id, pc);
    ShutdownsFrame(s, t, id);
  }

  lemma DirectWaiters(s: Sys, t: Sys, id: nat, pc: Pc)
    requires WaitersOk(s) && id in s.calls && !s.calls[id].Await? && !s.calls[id].Leave?
    requires t.table == s.table && t.calls == s.calls[id := pc] && !pc.Await? && !pc.Leave? && !pc.WaitOut?
    ensures WaitersOk(t)
  {
    hide Joined;
    forall f: nat | f < |t.table| ensures WaiterOk(t, f) {
      assert WaiterOk(s, f);
      JoinedCount(s.calls, id, pc, f);
    }
  }

  lemma GateKeeps(s: Sys, gate: Gate)
    requires Inv(s) && gate.refreshing == s.gate.refreshing && gate.foreground == s.gate.foreground
    requires gate.wg == s.gate.wg && (s.gate.closing ==> gate.closing)
    ensures Inv(s.(gate := gate))
  {
    hide Joined, DirectFetches, DirectWorkers, FlightWorkers, RefreshWorkers, RunningRefreshes, CacheOk,
         WaitersOk, RefreshesOk, FlightsOk;
    var t := s.(gate := gate);
    RefreshesFrame(s, t);
    FlightsFrame(s, t);
    WaitersFrame(s, t);
  }

  // ---- every step ----

  // Steps between points that hold nothing.
  lemma Quietly(s: Sys, id: nat, pc: Pc)
    requires Inv(s) && id in s.calls && !WorksDirectly(s.calls[id]) && !s.calls[id].Await? && !s.calls[id].Leave?
    requires !WorksDirectly(pc) && !pc.Await? && !pc.Leave? && !pc.WaitOut?
    requires ShutdownOk(s, pc) && (pc.Returned? ==> OutcomeOk(pc.out))
    ensures Inv(Go(s, id, pc))
  {
    hide Inv, OutcomeOk;
    PlainKeeps(s, id, pc);
  }

  lemma MissedKeeps(s: Sys, id: nat, key: Key, ttl: int)
    requires Inv(s) && id in s.calls && s.calls[id] == Missed(key, ttl)
    ensures Inv(StepMissed(s, id, key, ttl))
  {
    hide Inv;
    Quietly(s, id, if id in s.ended then Returned(Canceled) else Admit(key, ttl));
  }

  lemma AdmitKeeps(s: Sys, id: nat, key: Key, ttl: int)
    requires Inv(s) && id in s.calls && s.calls[id] == Admit(key, ttl)
    ensures Inv(StepAdmit(s, id, key, ttl))
  {
    hide Inv, StartFlight, JoinFlight;
    if key in s.flights { Mapped(s, key); }
    if key in s.cache.entries {
      Quietly(s, id, Get(key, ttl));
    } else if !s.gate.closing && key in s.flights {
      if s.table[s.flights[key]].abandoned {
        PlainKeeps(s, id, WaitOut(key, ttl, s.flights[key]));
      } else {
        JoinKeeps(s, id, key);
      }
    } else if !s.gate.closing && s.gate.foreground < MAX_FOREGROUND {
      StartKeeps(s, id, key, ttl);
    } else {
      Quietly(s, id, Refused);
    }
  }

  lemma WaitOutKeeps(s: Sys, id: nat, key: Key, ttl: int, f: nat)
    requires Inv(s) && id in s.calls && s.calls[id] == WaitOut(key, ttl, f)
    ensures Inv(StepWaitOut(s, id, key, ttl, f))
  {
    hide Inv;
    Quietly(s, id, if id in s.ended then Returned(Canceled) else Get(key, ttl));
  }

  lemma AwaitKeeps(s: Sys, id: nat, key: Key, f: nat, alternative: bool)
    requires Inv(s) && id in s.calls && s.calls[id] == Await(key, f)
    ensures Inv(StepAwait(s, id, key, f, alternative))
  {
    hide Inv, Answers;
    Calling(s, id);
    Flying(s, f);
    if id in s.ended && (alternative || !Done(s, f)) {
      PlainKeeps(s, id, Leave(f));
    } else if Done(s, f) {
      var out := if id in s.ended then Canceled
                 else if s.table[f].result.Found? then Fetched(key, s.table[f].result.prompt) else Fallback;
      PlainKeeps(s, id, Returned(out));
    }
  }

  lemma RefusedKeeps(s: Sys, id: nat)
    requires Inv(s) && id in s.calls && s.calls[id].Refused?
    ensures Inv(StepRefused(s, id))
  {
    hide Inv;
    Quietly(s, id, Returned(if id in s.ended then Canceled else Fallback));
  }

  lemma GetKeeps(s: Sys, id: nat, key: Key, ttl: int, now: int, later: int)
    requires Inv(s) && id in s.calls && s.calls[id] == Get(key, ttl)
    ensures Inv(StepGet(s, id, key, ttl, now, later))
  {
    hide HitKey, Inv, Answers;
    if key in s.cache.entries {
      Cached(s, key);
        var e := s.cache.entries[key];
      HitKeeps(s, key, ttl, now, later);
      Quietly(HitKey(s, key, ttl, now, later), id, Returned(Hit(key, e.master, now - e.fetchedAt > ttl)));
    } else {
        Quietly(s, id, Missed(key, ttl));
    }
  }

  lemma ShutdownKeeps(s: Sys, id: nat)
    requires Inv(s) && id in s.calls && s.calls[id].Shutdown?
    ensures Inv(StepShutdown(s, id))
  {
    hide Inv;
    var gate := s.gate.(closing := true);
    GateKeeps(s, gate);
    Quietly(s.(gate := gate), id, ShutdownCancel);
  }

  lemma ShutdownCancelKeeps(s: Sys, id: nat)
    requires Inv(s) && id in s.calls && s.calls[id].ShutdownCancel?
    ensures Inv(StepShutdownCancel(s, id))
  {
    hide Inv;
    Calling(s, id);
    var gate := s.gate.(lifecycleEnded := true);
    GateKeeps(s, gate);
    Quietly(s.(gate := gate), id, ShutdownWait);
  }

  lemma ShutdownWaitKeeps(s: Sys, id: nat, alternative: bool)
    requires Inv(s) && id in s.calls && s.calls[id].ShutdownWait?
    ensures Inv(StepShutdownWait(s, id, alternative))
  {
    hide Inv;
    Calling(s, id);
    if s.gate.wg == 0 { Quietly(s, id, ShutdownNil); }
    Quietly(s, id, ShutdownFailed);
  }

  lemma DirectBeginKeeps(s: Sys, id: nat, key: Key)
    requires Inv(s) && id in s.calls && s.calls[id] == Direct(key)
    ensures Inv(StepDirect(s, id, key))
  {
    hide Inv;
    Quietly(s, id, if id in s.ended then Returned(Canceled) else DirectAdmit(key));
  }

  lemma DirectAdmitKeeps(s: Sys, id: nat, key: Key)
    requires Inv(s) && id in s.calls && s.calls[id] == DirectAdmit(key)
    ensures Inv(StepDirectAdmit(s, id, key))
  {
    hide Inv;
    Calling(s, id);
    if s.gate.closing || s.gate.foreground >= MAX_FOREGROUND {
      Quietly(s, id, Refused);
    } else {
      DirectKeeps(s, StepDirectAdmit(s, id, key), id, DirectFetch(key));
    }
  }

  lemma SettleKeeps(s: Sys, id: nat, out: Outcome)
    requires Inv(s) && id in s.calls && s.calls[id] == DirectSettle(out)
    ensures Inv(StepSettle(s, id, out))
  {
    hide Inv, OutcomeOk;
    Calling(s, id);
    DirectKeeps(s, StepSettle(s, id, out), id, DirectClose(out));
  }

  lemma CloseKeeps(s: Sys, id: nat, out: Outcome)
    requires Inv(s) && id in s.calls && s.calls[id] == DirectClose(out)
    ensures Inv(StepClose(s, id, out))
  {
    hide Inv, OutcomeOk;
    Calling(s, id);
    DirectKeeps(s, StepClose(s, id, out), id, Returned(out));
  }

  lemma StepKeeps(s: Sys, a: Action)
    requires Inv(s) && a.Step? && a.id in s.calls
    ensures Inv(StepCall(s, a))
  {
    var id, pc := a.id, s.calls[a.id];
    hide Inv, StepGet, StepMissed, StepAdmit, StepWaitOut, StepAwait, StepLeave, StepRefused, StepDirect,
         StepDirectAdmit, StepSettle, StepClose, StepShutdown, StepShutdownCancel, StepShutdownWait;
    if pc.Get? { GetKeeps(s, id, pc.key, pc.ttl, a.now, a.later); }
    if pc.Missed? { MissedKeeps(s, id, pc.key, pc.ttl); }
    if pc.Admit? { AdmitKeeps(s, id, pc.key, pc.ttl); }
    if pc.WaitOut? { WaitOutKeeps(s, id, pc.key, pc.ttl, pc.flight); }
    if pc.Await? { AwaitKeeps(s, id, pc.key, pc.flight, a.alternative); }
    if pc.Leave? { LeaveKeeps(s, id, pc.flight); }
    if pc.Refused? { RefusedKeeps(s, id); }
    if pc.Direct? { DirectBeginKeeps(s, id, pc.key); }
    if pc.DirectAdmit? { DirectAdmitKeeps(s, id, pc.key); }
    if pc.DirectSettle? { SettleKeeps(s, id, pc.out); }
    if pc.DirectClose? { CloseKeeps(s, id, pc.out); }
    if pc.Shutdown? { ShutdownKeeps(s, id); }
    if pc.ShutdownCancel? { ShutdownCancelKeeps(s, id); }
    if pc.ShutdownWait? { ShutdownWaitKeeps(s, id, a.alternative); }
  }

  lemma FetchedKeeps(s: Sys, id: nat, key: Key, r: Fetch)
    requires Inv(s) && id in s.calls && s.calls[id] == DirectFetch(key) && Matches(key, r)
    ensures Inv(SettleDirect(s, id, key, r))
  {
    hide Inv, Answers;
    var pc := SettleDirect(s, id, key, r).calls[id];
    Calling(s, id);
    DirectKeeps(s, SettleDirect(s, id, key, r), id, pc);
  }

  lemma EndedKeeps(s: Sys, ended: set<nat>)
    requires Inv(s)
    ensures Inv(s.(ended := ended))
  {
    hide Joined, DirectFetches, DirectWorkers, FlightWorkers, RefreshWorkers, RunningRefreshes, CacheOk,
         WaitersOk, RefreshesOk, FlightsOk;
    var t := s.(ended := ended);
    RefreshesFrame(s, t);
    FlightsFrame(s, t);
    WaitersFrame(s, t);
  }

  /** One step of anyone keeps the invariant. */
  lemma ActKeeps(s: Sys, a: Action)
    requires Inv(s)
    ensures Inv(Act(s, a))
  {
    hide Inv, StepCall, SettleDirect, CommitFlight, CommitRefresh, Matches;
    match a
    case Call(id, pc) =>
      if id !in s.calls && Begins(pc) { PlainKeeps(s, id, pc); }
    case EndContext(id) => EndedKeeps(s, s.ended + {id});
    case Step(id, _, _, _) => if id in s.calls { StepKeeps(s, a); }
    case DirectFetched(id, r) =>
      if id in s.calls && s.calls[id].DirectFetch? && Matches(s.calls[id].key, r) {
        FetchedKeeps(s, id, s.calls[id].key, r);
      }
    case FlightCommit(f, r, now) =>
      if f < |s.table| && s.table[f].phase.Running? && Matches(s.table[f].key, r) { CommitFlightKeeps(s, f, r, now); }
    case FlightClose(f) => if f < |s.table| && s.table[f].phase.Closing? { CloseFlightKeeps(s, f); }
    case RefreshCommit(i, r, now) =>
      if i < |s.refreshes| && s.refreshes[i].phase.Running? && Matches(s.refreshes[i].key, r) {
        CommitRefreshKeeps(s, i, r, now);
      }
    case RefreshClose(i) => if i < |s.refreshes| && s.refreshes[i].phase.Closing? { CloseRefreshKeeps(s, i); }
  }

  lemma StartHolds()
    ensures Inv(START)
  {
  }

  lemma {:induction false} RunKeeps(s: Sys, actions: seq<Action>)
    requires Inv(s)
    ensures Inv(Run(s, actions))
    decreases |actions|
  {
    hide Inv, Act;
    if actions != [] {
      ActKeeps(s, actions[0]);
      RunKeeps(Act(s, actions[0]), actions[1..]);
    }
  }
}
