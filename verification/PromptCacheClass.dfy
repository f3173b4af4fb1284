/** The cache object and its critical sections (prompt_cache.go). Each method
    is the corresponding step of `PromptCache` on `View()`. Entries are values
    under an identity number; the recency list is a sequence. */
module PromptCacheClass {
  import opened PromptCache

  datatype Admission = ShutDown | Full | Abandoned(flight: nat) | Member(flight: nat)

  class Cache {
    var entries: map<Key, Entry>
    var lru: seq<Key>
    var nextId: nat
    ghost var used: map<Key, nat>
    ghost var clock: nat

    var flights: map<Key, nat>
    var table: seq<Flight>
    var refreshes: seq<Refresh>

    var closing: bool
    var lifecycleEnded: bool
    var refreshing: int
    var foreground: int
    var wg: int

    constructor ()
      ensures View() == START
    {
      entries, lru, nextId, used, clock := map[], [], 0, map[], 0;
      flights, table, refreshes := map[], [], [];
      closing, lifecycleEnded, refreshing, foreground, wg := false, false, 0, 0, 0;
    }

    ghost function Entries(): PromptCache.Cache
      reads this`entries, this`lru, this`used, this`clock, this`nextId
    {
      PromptCache.Cache(entries, lru, used, clock, nextId)
    }

    /** The shared state, without the calls. */
    ghost function View(): Sys
      reads this
    {
      Sys(Entries(), Gate(closing, lifecycleEnded, refreshing, foreground, wg), flights, table, refreshes, map[], {})
    }

    method RemoveEntry(key: Key)
      modifies this`entries, this`lru
      ensures Entries() == PromptCache.RemoveEntry(old(Entries()), key)
    {
      if key in entries {
        lru := Without(lru, key);
        entries := entries - {key};
      }
    }

    /** Installs a fresh entry and evicts from the back of the list. */
    method Store(key: Key, master: Prompt, now: int)
      modifies this`entries, this`lru, this`used, this`clock, this`nextId
      ensures Entries() == PromptCache.Store(old(Entries()), key, master, now)
    {
      entries := entries[key := Entry(nextId, master, now, 1, false, 0)];
      lru := [key] + lru;
      nextId := nextId + 1;
      used, clock := used[key := clock], clock + 1;
      while |entries| > MAX_ENTRIES
        invariant Trim(Entries()) == PromptCache.Store(old(Entries()), key, master, now)
        decreases |entries|
      {
        if lru == [] || lru[|lru| - 1] !in entries { return; }
        ghost var n := |entries|;
        Shrinks(entries, lru[|lru| - 1]);
        RemoveEntry(lru[|lru| - 1]);
      }
    }

    /** A stale entry is refreshed once at a time, within the cap. */
    method MaybeRefresh(key: Key, now: int)
      requires key in entries
      modifies this`entries, this`refreshing, this`wg, this`refreshes
      ensures View() == PromptCache.MaybeRefresh(old(View()), key, now)
    {
      var e := entries[key];
      if e.refreshing || closing || refreshing >= MAX_REFRESHES { return; }
      if now < e.cooldownUntil { return; }
      entries := entries[key := e.(refreshing := true)];
      refreshing := refreshing + 1;
      wg := wg + 1;
      refreshes := refreshes + [Refresh(key, e.id, e.generation, Running)];
    }

    /** The lookup of a call: a hit is the most recent use of its key. */
    method Lookup(key: Key, ttl: int, now: int, later: int) returns (hit: bool, prompt: Option<Prompt>, stale: bool)
      modifies this
      ensures hit <==> key in old(entries)
      ensures !hit ==> View() == old(View())
      ensures hit ==> View() == HitKey(old(View()), key, ttl, now, later)
      ensures hit ==> prompt == Some(old(entries)[key].master) && stale == (now - old(entries)[key].fetchedAt > ttl)
    {
      hit, prompt, stale := key in entries, None, false;
      if hit {
        lru := [key] + Without(lru, key);
        used, clock := used[key := clock], clock + 1;
        prompt := Some(entries[key].master);
        if now - entries[key].fetchedAt > ttl {
          stale := true;
          MaybeRefresh(key, later);
        }
      }
    }

    method JoinOrStart(key: Key) returns (a: Admission)
      requires key in flights ==> flights[key] < |table|
      modifies this`flights, this`table, this`foreground, this`wg
      ensures a.ShutDown? <==> old(closing)
      ensures match a
              case ShutDown => View() == old(View())
              case Full => View() == old(View()) && key !in flights && foreground >= MAX_FOREGROUND
              case Abandoned(f) => View() == old(View()) && key in flights && flights[key] == f && table[f].abandoned
              case Member(f) =>
                if key in old(flights)
                then f == old(flights)[key] && !old(table)[f].abandoned && View() == JoinFlight(old(View()), f)
                else f == |old(table)| && old(foreground) < MAX_FOREGROUND && View() == StartFlight(old(View()), key)
    {
      if closing { return ShutDown; }
      if key in flights {
        var f := flights[key];
        if table[f].abandoned { return Abandoned(f); }
        table := table[f := table[f].(waiters := table[f].waiters + 1)];
        return Member(f);
      }
      if foreground >= MAX_FOREGROUND { return Full; }
      a := Member(|table|);
      flights := flights[key := |table|];
      table := table + [Flight(key, 1, false, Running, Failed)];
      foreground, wg := foreground + 1, wg + 1;
    }

    method CommitFlight(f: nat, r: Fetch, now: int)
      requires f < |table|
      modifies this
      ensures View() == PromptCache.CommitFlight(old(View()), f, r, now)
    {
      hide PromptCache.Store;
      var key := table[f].key;
      if r.Found? {
        Store(key, r.prompt, now);
      }
      table := table[f := table[f].(phase := Closing, result := r)];
      flights := flights - {key};
      foreground := foreground - 1;
    }

    /** The last departure abandons the flight. */
    method Leave(f: nat)
      requires f < |table|
      modifies this`table
      ensures View() == LeaveFlight(old(View()), f)
    {
      var left := table[f].waiters - 1;
      table := table[f := table[f].(waiters := left)];
      if left == 0 {
        table := table[f := table[f].(abandoned := true)];
      }
    }

    /** Applies a refresh only to the very entry it was started for. */
    method CommitRefresh(i: nat, r: Fetch, now: int)
      requires i < |refreshes|
      modifies this
      ensures View() == PromptCache.CommitRefresh(old(View()), i, r, now)
    {
      var w := refreshes[i];
      refreshes := refreshes[i := w.(phase := Closing)];
      refreshing := refreshing - 1;
      if w.key !in entries || entries[w.key].id != w.entry || entries[w.key].generation != w.generation { return; }
      var e := entries[w.key].(refreshing := false);
      if r.Found? {
        entries := entries[w.key := e.(master := r.prompt, fetchedAt := now, generation := e.generation + 1)];
      } else if r.NotFound? {
        RemoveEntry(w.key);
      } else if lifecycleEnded {
        entries := entries[w.key := e];
      } else {
        entries := entries[w.key := e.(cooldownUntil := now + REFRESH_COOLDOWN)];
      }
    }

    method BeginShutdown()
      modifies this`closing, this`lifecycleEnded
      ensures View() == old(View()).(gate := old(View()).gate.(closing := true, lifecycleEnded := true))
    {
      closing := true;
      lifecycleEnded := true;
    }
  }

  lemma Shrinks(m: map<Key, Entry>, key: Key)
    requires key in m
    ensures |m - {key}| < |m|
  {
    assert m.Keys == (m - {key}).Keys + {key};
  }
}
