/** The entry store of the prompt cache: recency order and eviction. */
module PromptCacheStore {
  import opened PromptCache

  lemma {:induction false} WithoutIs(keys: seq<Key>, key: Key) returns (i: nat)
    ensures i <= |keys| && key !in keys[..i]
    ensures i == |keys| ==> key !in keys && Without(keys, key) == keys
    ensures i < |keys| ==> keys[i] == key && Without(keys, key) == keys[..i] + keys[i + 1..]
    decreases |keys|
  {
    if keys == [] || keys[0] == key {
      i := 0;
    } else {
      var j := WithoutIs(keys[1..], key);
      i := j + 1;
      assert keys == [keys[0]] + keys[1..] && keys[..i] == [keys[0]] + keys[1..][..j];
      if i < |keys| { assert keys[1..][j + 1..] == keys[i + 1..]; }
    }
  }

  // Where the elements of the shorter list sit in the longer one.
  function Back(i: nat, n: nat): nat { if n < i then n else n + 1 }

  lemma WithoutKeeps(keys: seq<Key>, key: Key)
    requires Distinct(keys)
    ensures Distinct(Without(keys, key))
    ensures forall k :: k in Without(keys, key) <==> k in keys && k != key
    ensures |Without(keys, key)| == |keys| - (if key in keys then 1 else 0)
  {
    var i := WithoutIs(keys, key);
    var w := Without(keys, key);
    if i < |keys| {
      forall k | k in keys && k != key ensures k in w {
        var n :| 0 <= n < |keys| && keys[n] == k;
        assert w[if n < i then n else n - 1] == k;
      }
      forall n | 0 <= n < |w| ensures w[n] == keys[Back(i, n)] && w[n] != key { }
      forall m, n | 0 <= m < n < |w| ensures w[m] != w[n] { assert keys[Back(i, m)] != keys[Back(i, n)]; }
    }
  }

  lemma WithoutSorted(c: Cache, key: Key)
    requires ByLastUse(c)
    ensures var w := Without(c.lru, key);
            ByLastUse(c.(lru := w))
  {
    var i := WithoutIs(c.lru, key);
    var w := Without(c.lru, key);
    if i < |c.lru| {
      var t := c.(lru := w);
      assert forall k :: UsedAt(t, k) == UsedAt(c, k);
      forall m, n | 0 <= m < n < |w| ensures UsedAt(t, w[m]) > UsedAt(t, w[n]) {
        assert w[m] == c.lru[Back(i, m)] && w[n] == c.lru[Back(i, n)];
      }
    }
  }

  lemma RemoveEntries(c: Cache, key: Key)
    requires EntriesOk(c)
    ensures EntriesOk(RemoveEntry(c, key))
  {
    hide Without;
    var r := RemoveEntry(c, key);
    forall k | k in r.entries ensures EntryOk(r, k) { assert EntryOk(c, k); }
  }

  lemma CardRemove<V>(m: map<Key, V>, key: Key)
    requires key in m
    ensures |m - {key}| == |m| - 1
  {
    assert m.Keys == (m - {key}).Keys + {key};
  }

  lemma SameRecent(c: Cache, d: Cache, k: Key)
    requires Recent(c, k) && d.used == c.used && d.clock == c.clock
    ensures Recent(d, k)
  {
  }

  lemma RemoveAfter<V>(m: map<Key, V>, key: Key, v: V, victim: Key)
    requires victim != key
    ensures m[key := v] - {victim} == (m - {victim})[key := v]
  {
  }

  lemma RemoveOk(c: Cache, key: Key)
    requires ListOk(c) && EntriesOk(c)
    ensures ListOk(RemoveEntry(c, key)) && EntriesOk(RemoveEntry(c, key))
    ensures key in c.entries ==> |RemoveEntry(c, key).entries| == |c.entries| - 1
  {
    hide Without, Distinct, ByLastUse, EntriesOk, Recent;
    RemoveEntries(c, key);
    if key in c.entries {
      var r := RemoveEntry(c, key);
      WithoutKeeps(c.lru, key);
      WithoutSorted(c, key);
      SameOrder(c.(lru := r.lru), r);
      CardRemove(c.entries, key);
      forall k | k in r.entries ensures Recent(r, k) { SameRecent(c, r, k); }
    }
  }

  lemma SameOrder(c: Cache, d: Cache)
    requires ByLastUse(c) && d.lru == c.lru && d.used == c.used
    ensures ByLastUse(d)
  {
    assert forall k :: UsedAt(d, k) == UsedAt(c, k);
  }

  /** A use moves the key to the front and changes nothing else. */
  lemma TouchOk(c: Cache, key: Key)
    requires CacheOk(c) && key in c.entries
    ensures CacheOk(Touch(c, key))
  {
    var t := Touch(c, key);
    WithoutKeeps(c.lru, key);
    WithoutSorted(c, key);
    var w := Without(c.lru, key);
    hide Without, Distinct, ByLastUse;
    assert t.lru == [key] + w;
    Pushed(c.(lru := w), t, key);
    forall k | k in t.entries ensures EntryOk(t, k) && Recent(t, k) { assert EntryOk(c, k) && Recent(c, k); }
  }

  // A key just used, in front of a list in order of last use.
  lemma Pushed(c: Cache, t: Cache, key: Key)
    requires t.lru == [key] + c.lru && Distinct(c.lru) && key !in c.lru && ByLastUse(c)
    requires t.used == c.used[key := c.clock] && forall k :: k in c.lru ==> Recent(c, k)
    ensures Distinct(t.lru) && ByLastUse(t)
    ensures forall k :: k in t.lru <==> k == key || k in c.lru
  {
    var w := c.lru;
    forall k | k in w ensures UsedAt(t, k) == UsedAt(c, k) < UsedAt(t, key) { assert Recent(c, k); }
    forall i, j | 0 <= i < j < |t.lru| ensures t.lru[i] != t.lru[j] && UsedAt(t, t.lru[i]) > UsedAt(t, t.lru[j]) {
      assert t.lru[j] == w[j - 1] && w[j - 1] in w;
      if i > 0 { assert t.lru[i] == w[i - 1] && w[i - 1] in w; }
    }
    forall k | k in w ensures k in t.lru { var n :| 0 <= n < |w| && w[n] == k; assert t.lru[n + 1] == k; }
  }

  lemma PushEntries(c: Cache, key: Key, master: Prompt, now: int)
    requires EntriesOk(c) && key !in c.entries && Answers(key, master)
    ensures EntriesOk(PushEntry(c, key, master, now))
  {
    var p := PushEntry(c, key, master, now);
    hide Answers;
    forall k | k in p.entries ensures EntryOk(p, k) { if k != key { assert EntryOk(c, k); } }
    assert forall k :: k in c.entries ==> EntryOk(c, k);
  }

  lemma PushOk(c: Cache, key: Key, master: Prompt, now: int)
    requires CacheOk(c) && key !in c.entries && Answers(key, master)
    ensures var p := PushEntry(c, key, master, now);
            ListOk(p) && EntriesOk(p) && |p.entries| == |c.entries| + 1
  {
    hide Answers, EntriesOk, Distinct, ByLastUse;
    var p := PushEntry(c, key, master, now);
    PushEntries(c, key, master, now);
    forall k | k in c.lru ensures Recent(c, k) { assert k in c.entries; }
    Pushed(c, p, key);
    forall k | k in p.entries ensures Recent(p, k) { assert k in c.entries ==> Recent(c, k); }
  }

  ghost predicate Oldest(c: Cache, k: Key) {
    && k in c.entries && k in c.used
    && forall l :: l in c.entries && l != k ==> l in c.used && c.used[k] < c.used[l]
  }

  // The back of the list is the least recently used key.
  lemma BackIsOldest(c: Cache)
    requires ListOk(c) && c.lru != []
    ensures var b := c.lru[|c.lru| - 1];
            Oldest(c, b)
  {
    var b := c.lru[|c.lru| - 1];
    assert b in c.lru;
    assert Recent(c, b);
    forall k | k in c.entries && k != b ensures k in c.used && c.used[b] < c.used[k] {
      assert Recent(c, k) && Recent(c, b) && k in c.lru;
      var i :| 0 <= i < |c.lru| && c.lru[i] == k;
      assert UsedAt(c, c.lru[i]) > UsedAt(c, c.lru[|c.lru| - 1]);
    }
  }

  // One key too many: the trim removes the back of the list and stops.
  lemma TrimOne(p: Cache)
    requires ListOk(p) && EntriesOk(p) && |p.entries| == MAX_ENTRIES + 1
    ensures Trim(p) == RemoveEntry(p, p.lru[|p.lru| - 1]) && CacheOk(Trim(p))
  {
    var b := p.lru[|p.lru| - 1];
    assert b in p.lru;
    RemoveOk(p, b);
    hide ListOk, EntriesOk, RemoveEntry;
  }

  lemma StoreFull(c: Cache, key: Key, master: Prompt, now: int)
    requires CacheOk(c) && key !in c.entries && Answers(key, master) && |c.entries| == MAX_ENTRIES
    ensures var t, victim := Store(c, key, master, now), c.lru[|c.lru| - 1];
            && CacheOk(t) && Oldest(c, victim) && t.nextId == c.nextId + 1
            && t.entries == (c.entries - {victim})[key := Entry(c.nextId, master, now, 1, false, 0)]
  {
    var p, victim := PushEntry(c, key, master, now), c.lru[|c.lru| - 1];
    PushOk(c, key, master, now);
    BackIsOldest(c);
    assert p.lru[|p.lru| - 1] == victim;
    TrimOne(p);
    hide ListOk, EntriesOk, Trim, Without, Oldest;
    RemoveAfter(c.entries, key, Entry(c.nextId, master, now, 1, false, 0), victim);
  }

  lemma StoreRoom(c: Cache, key: Key, master: Prompt, now: int)
    requires CacheOk(c) && key !in c.entries && Answers(key, master) && |c.entries| < MAX_ENTRIES
    ensures CacheOk(Store(c, key, master, now)) && Store(c, key, master, now) == PushEntry(c, key, master, now)
  {
    PushOk(c, key, master, now);
    hide ListOk, EntriesOk;
  }

  /** Storing keeps the store well formed and evicts at most one key: none
      below the cap, and at the cap the one whose last use is oldest. */
  lemma StoreEvictsOldest(c: Cache, key: Key, master: Prompt, now: int)
    requires CacheOk(c) && key !in c.entries && Answers(key, master)
    ensures CacheOk(Store(c, key, master, now))
    ensures var t := Store(c, key, master, now);
            && key in t.entries && t.entries[key] == Entry(c.nextId, master, now, 1, false, 0)
            && t.nextId == c.nextId + 1
            && (|c.entries| < MAX_ENTRIES ==> t.entries == c.entries[key := t.entries[key]])
            && (|c.entries| == MAX_ENTRIES ==>
                  exists victim :: Oldest(c, victim) && t.entries == (c.entries - {victim})[key := t.entries[key]])
  {
    if |c.entries| == MAX_ENTRIES {
      StoreFull(c, key, master, now);
    } else {
      StoreRoom(c, key, master, now);
    }
    hide CacheOk, Store, Without, Oldest;
  }

  /** Every entry of the new store is an old one, unchanged, or the new one. */
  lemma StoreAdds(c: Cache, key: Key, master: Prompt, now: int)
    requires CacheOk(c) && key !in c.entries && Answers(key, master)
    ensures var t := Store(c, key, master, now);
            && CacheOk(t) && t.nextId == c.nextId + 1
            && forall k :: k in t.entries ==>
                 || (k in c.entries && t.entries[k] == c.entries[k])
                 || (k == key && t.entries[k].id == c.nextId && !t.entries[k].refreshing)
  {
    hide CacheOk, Store, Oldest, Answers;
    StoreEvictsOldest(c, key, master, now);
    Capped(c);
  }

  lemma Capped(c: Cache)
    requires CacheOk(c)
    ensures |c.entries| <= MAX_ENTRIES
  {
  }
}
