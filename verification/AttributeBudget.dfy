/** The byte budget of one observation's attributes (observation.go): what is
    accepted at the start, by updates and by recorded errors. */
module AttributeBudget {

  const MAX_ERROR_MESSAGE: nat := 0x1_0000
  const MAX_BYTES: nat := 0x20_0000
  const MAX_DATA_BYTES: nat := MAX_BYTES - MAX_ERROR_MESSAGE - 0x400
  const MAX_METADATA: nat := 32
  const MAX_ERROR_EVENTS: nat := 8
  const OVERHEAD: nat := 16

  function LevelKey(): string { "langfuse.observation.level" }

  function StatusKey(): string { "langfuse.observation.status_message" }

  function MetadataPrefix(): string { "langfuse.observation.metadata." }

  lemma KeyBytes()
    ensures |LevelKey()| == 26 && |StatusKey()| == 35 && LevelKey() != StatusKey()
  {
  }

  predicate IsReserved(key: string) { key == LevelKey() || key == StatusKey() }

  predicate IsMetadata(key: string) { MetadataPrefix() <= key }

  // An attribute; only the size of its value matters here.
  datatype Item = Item(key: string, valueBytes: nat)

  function Size(item: Item): nat { |item.key| + OVERHEAD + item.valueBytes }

  function At(sizes: map<string, nat>, key: string): nat { if key in sizes then sizes[key] else 0 }

  ghost function Sum(sizes: map<string, nat>): nat
    decreases |sizes|
  {
    if sizes == map[] then 0
    else
      var k :| k in sizes;
      sizes[k] + Sum(sizes - {k})
  }

  lemma {:induction false} SumWithout(sizes: map<string, nat>, key: string)
    requires key in sizes
    ensures Sum(sizes) == sizes[key] + Sum(sizes - {key})
    decreases |sizes|
  {
    var k :| k in sizes && Sum(sizes) == sizes[k] + Sum(sizes - {k});
    if k != key {
      Smaller(sizes, k);
      Smaller(sizes, key);
      SumWithout(sizes - {k}, key);
      SumWithout(sizes - {key}, k);
      assert sizes - {k} - {key} == sizes - {key} - {k};
    }
  }

  lemma Smaller(sizes: map<string, nat>, key: string)
    requires key in sizes
    ensures |sizes - {key}| < |sizes|
  {
    assert sizes.Keys == (sizes - {key}).Keys + {key};
  }

  /** Recording a key replaces its size in the sum. */
  lemma SumUpdate(sizes: map<string, nat>, key: string, size: nat)
    ensures Sum(sizes[key := size]) == Sum(sizes) - At(sizes, key) + size
  {
    SumWithout(sizes[key := size], key);
    assert sizes[key := size] - {key} == sizes - {key};
    if key in sizes { SumWithout(sizes, key); } else { assert sizes - {key} == sizes; }
  }

  function Reserved(sizes: map<string, nat>): nat { At(sizes, LevelKey()) + At(sizes, StatusKey()) }

  /** The sizes recorded add up to the bytes used, and both caps hold. */
  ghost predicate Fits(sizes: map<string, nat>, used: int) {
    && used == Sum(sizes) && used <= MAX_BYTES
    && used - Reserved(sizes) <= MAX_DATA_BYTES
  }

  /** Level and status are within what the other attributes leave to them. */
  predicate ReservedFits(sizes: map<string, nat>) {
    && At(sizes, LevelKey()) <= |LevelKey()| + OVERHEAD + 7
    && At(sizes, StatusKey()) <= |StatusKey()| + OVERHEAD + MAX_ERROR_MESSAGE
  }

  /** Levels are one of four words; a status is bounded by its caller. */
  predicate Allowed(item: Item) {
    && (item.key == LevelKey() ==> item.valueBytes <= 7)
    && (item.key == StatusKey() ==> item.valueBytes <= MAX_ERROR_MESSAGE)
  }

  function Metadata(key: string): (k: string)
    requires IsMetadata(key)
    ensures key == MetadataPrefix() + k
  {
    key[|MetadataPrefix()|..]
  }

  function TrimMetadata(key: string): string { if IsMetadata(key) then Metadata(key) else key }

  /** The names that accepted attributes trim to. */
  function TrimmedKeys(items: seq<Item>): set<string> { set x <- items :: TrimMetadata(x.key) }

  predicate TrimsTo(name: string, key: string) {
    name == MetadataPrefix() + key || (name == key && !IsMetadata(key))
  }

  /** A name is trimmed to from the metadata attribute of that key, and also
      from a plain attribute of that very name. */
  lemma TrimIs(name: string, key: string)
    ensures TrimMetadata(name) == key <==> TrimsTo(name, key)
  {
    if name == MetadataPrefix() + key { assert name[|MetadataPrefix()|..] == key; }
  }

  /** A staged key is counted exactly when its metadata attribute was accepted,
      or an accepted attribute that is no metadata has that very name. */
  lemma CountedIff(filtered: seq<Item>, staged: set<string>, key: string)
    ensures key in staged * TrimmedKeys(filtered) <==>
            key in staged && exists x :: x in filtered && TrimsTo(x.key, key)
  {
    hide TrimMetadata, TrimsTo;
    forall x: Item ensures TrimMetadata(x.key) == key <==> TrimsTo(x.key, key) {
      TrimIs(x.key, key);
    }
  }

  lemma TwoReserved()
    ensures |LevelKey()| + OVERHEAD + 7 + |StatusKey()| + OVERHEAD + MAX_ERROR_MESSAGE <= MAX_BYTES - MAX_DATA_BYTES
  {
    KeyBytes();
  }

  // ---- which items are accepted ----

  /** Whether recording the item keeps both caps. */
  ghost predicate Room(sizes: map<string, nat>, item: Item) {
    var next := sizes[item.key := Size(item)];
    Sum(next) <= MAX_BYTES && Sum(next) - Reserved(next) <= MAX_DATA_BYTES
  }

  function Recorded(sizes: map<string, nat>, items: seq<Item>): map<string, nat> {
    if items == [] then sizes
    else
      var last := items[|items| - 1];
      Recorded(sizes, items[..|items| - 1])[last.key := Size(last)]
  }

  /** Each item in turn, if there is room for it then. */
  ghost function Fit(sizes: map<string, nat>, items: seq<Item>): seq<Item> {
    if items == [] then []
    else
      var before, last := Fit(sizes, items[..|items| - 1]), items[|items| - 1];
      if Room(Recorded(sizes, before), last) then before + [last] else before
  }

  lemma {:induction false} FitSnoc(sizes: map<string, nat>, items: seq<Item>, i: nat)
    requires i < |items|
    ensures Fit(sizes, items[..i + 1]) ==
            var before := Fit(sizes, items[..i]);
            before + if Room(Recorded(sizes, before), items[i]) then [items[i]] else []
  {
    assert items[..i + 1][..i] == items[..i];
  }

  /** The budget once the first `i` items have been offered. */
  ghost predicate Fitted(sizes: map<string, nat>, items: seq<Item>, i: nat, now: map<string, nat>, filtered: seq<Item>,
                         omitted: bool)
    requires i <= |items|
  {
    && filtered == Fit(sizes, items[..i]) && now == Recorded(sizes, filtered)
    && |filtered| <= i && (omitted <==> |filtered| < i)
  }

  lemma NoneFit(sizes: map<string, nat>, items: seq<Item>)
    ensures Fitted(sizes, items, 0, sizes, [], false)
  {
  }

  lemma FitStep(sizes: map<string, nat>, items: seq<Item>, i: nat, now: map<string, nat>, filtered: seq<Item>,
                omitted: bool)
    requires i < |items| && Fitted(sizes, items, i, now, filtered, omitted)
    ensures if Room(now, items[i])
            then Fitted(sizes, items, i + 1, now[items[i].key := Size(items[i])], filtered + [items[i]], omitted)
            else Fitted(sizes, items, i + 1, now, filtered, true)
  {
    FitSnoc(sizes, items, i);
    RecordedSnoc(sizes, filtered, items[i]);
    hide Room, Recorded, Fit;
  }

  lemma AllFitted(sizes: map<string, nat>, items: seq<Item>, now: map<string, nat>, filtered: seq<Item>, omitted: bool)
    requires Fitted(sizes, items, |items|, now, filtered, omitted)
    ensures filtered == Fit(sizes, items) && now == Recorded(sizes, filtered) && (omitted <==> |filtered| < |items|)
  {
    assert items[..|items|] == items;
  }

  lemma RecordedSnoc(sizes: map<string, nat>, items: seq<Item>, item: Item)
    ensures Recorded(sizes, items + [item]) == Recorded(sizes, items)[item.key := Size(item)]
  {
    assert (items + [item])[..|items|] == items;
  }

  // Whatever is recorded, there is room for a level and a status.
  lemma RoomForReserved(sizes: map<string, nat>, item: Item)
    requires Fits(sizes, Sum(sizes)) && ReservedFits(sizes) && Allowed(item)
    requires IsReserved(item.key)
    ensures Room(sizes, item)
  {
    SumUpdate(sizes, item.key, Size(item));
    TwoReserved();
    KeyBytes();
  }

  lemma RecordedFits(sizes: map<string, nat>, item: Item)
    requires ReservedFits(sizes) && Allowed(item) && Room(sizes, item)
    ensures var next := sizes[item.key := Size(item)]; Fits(next, Sum(next)) && ReservedFits(next)
  {
    KeyBytes();
  }

  /** Both caps hold after any list of items, accepted items keep their order,
      and neither the level nor the status is ever left out. */
  lemma {:induction false} FitIs(sizes: map<string, nat>, items: seq<Item>)
    requires Fits(sizes, Sum(sizes)) && ReservedFits(sizes) && forall x :: x in items ==> Allowed(x)
    ensures var filtered := Fit(sizes, items);
            && Fits(Recorded(sizes, filtered), Sum(Recorded(sizes, filtered)))
            && ReservedFits(Recorded(sizes, filtered))
            && (forall x :: x in filtered ==> x in items)
            && (forall x :: x in items && (IsReserved(x.key)) ==> x in filtered)
            && |filtered| <= |items| && (|filtered| == |items| <==> filtered == items)
            && ((forall x :: x in items ==> IsReserved(x.key)) ==> filtered == items)
    decreases |items|
  {
    if items != [] {
      var init, last := items[..|items| - 1], items[|items| - 1];
      assert items == init + [last];
      FitIs(sizes, init);
      var before := Fit(sizes, init);
      var now := Recorded(sizes, before);
      assert Fits(now, Sum(now)) && ReservedFits(now);
      RecordedSnoc(sizes, before, last);
      if IsReserved(last.key) { RoomForReserved(now, last); }
      hide Fits, ReservedFits, Room, Allowed, Recorded;
      if Room(now, last) { RecordedFits(now, last); }
    }
  }

  lemma ErrorItems(sizes: map<string, nat>, messageBytes: nat)
    requires messageBytes <= MAX_ERROR_MESSAGE
    ensures var items := [Item(LevelKey(), 5), Item(StatusKey(), messageBytes)];
            && (forall x :: x in items ==> Allowed(x) && IsReserved(x.key))
            && Recorded(sizes, items) ==
               sizes[LevelKey() := |LevelKey()| + OVERHEAD + 5][StatusKey() := |StatusKey()| + OVERHEAD + messageBytes]
  {
    KeyBytes();
    hide LevelKey, StatusKey;
    var items := [Item(LevelKey(), 5), Item(StatusKey(), messageBytes)];
    RecordedSnoc(sizes, [], items[0]);
    RecordedSnoc(sizes, [items[0]], items[1]);
    assert items == [items[0]] + [items[1]] && [] + [items[0]] == [items[0]];
  }

  function MetadataKeys(items: seq<Item>): set<string> { set x <- items | IsMetadata(x.key) :: Metadata(x.key) }

  /** Every metadata key recorded is counted. */
  predicate Counted(sizes: map<string, nat>, metadata: set<string>) {
    forall k :: k in sizes && IsMetadata(k) ==> Metadata(k) in metadata
  }

  lemma NothingFits()
    ensures Fits(map[], 0) && ReservedFits(map[])
  {
  }

  lemma NoneCounted()
    ensures Counted(map[], {})
  {
  }

  lemma KeysGrow(a: seq<Item>, b: seq<Item>)
    requires forall x :: x in a ==> x in b
    ensures MetadataKeys(a) <= MetadataKeys(b)
  {
    hide MetadataPrefix;
  }

  lemma NoKeys(keys: set<string>)
    ensures {} + keys == keys
  {
  }

  // What is recorded next is counted with its own keys.
  lemma {:induction false} AllCounted(sizes: map<string, nat>, metadata: set<string>, items: seq<Item>)
    requires Counted(sizes, metadata)
    ensures Counted(Recorded(sizes, items), metadata + MetadataKeys(items))
    decreases |items|
  {
    hide MetadataPrefix;
    if items != [] {
      var init, last := items[..|items| - 1], items[|items| - 1];
      AllCounted(sizes, metadata, init);
      assert items == init + [last];
      KeysGrow(init, items);
    }
  }

  lemma CountedMore(sizes: map<string, nat>, a: set<string>, b: set<string>)
    requires Counted(sizes, a) && a <= b
    ensures Counted(sizes, b)
  {
    hide MetadataPrefix;
  }

  lemma CountedWithin(sizes: map<string, nat>, metadata: set<string>, items: seq<Item>, keys: set<string>)
    requires Counted(sizes, metadata) && metadata <= keys
    requires forall x :: x in items && IsMetadata(x.key) ==> Metadata(x.key) in keys
    ensures Counted(Recorded(sizes, items), keys)
  {
    hide MetadataPrefix, Counted, Recorded;
    AllCounted(sizes, metadata, items);
    CountedMore(Recorded(sizes, items), metadata + MetadataKeys(items), keys);
  }

  lemma NoMetadata(messageBytes: nat)
    ensures forall x :: x in [Item(LevelKey(), 5), Item(StatusKey(), messageBytes)] ==> !IsMetadata(x.key)
  {
    assert LevelKey()[21] != MetadataPrefix()[21] && StatusKey()[21] != MetadataPrefix()[21];
  }

  predicate NewMetadata(metadata: set<string>, item: Item) { IsMetadata(item.key) && Metadata(item.key) !in metadata }

  /** The candidates of an update and the metadata keys it stages: new keys
      are admitted up to the lifetime cap. */
  function Stage(metadata: set<string>, items: seq<Item>): (r: (seq<Item>, set<string>)) {
    if items == [] then ([], {})
    else
      var (candidates, staged) := Stage(metadata, items[..|items| - 1]);
      var item := items[|items| - 1];
      if !NewMetadata(metadata, item) || Metadata(item.key) in staged then (candidates + [item], staged)
      else if |metadata| + |staged| >= MAX_METADATA then (candidates, staged)
      else (candidates + [item], staged + {Metadata(item.key)})
  }

  lemma {:induction false} StageIs(metadata: set<string>, items: seq<Item>)
    requires |metadata| <= MAX_METADATA && forall x :: x in items ==> Allowed(x)
    ensures var (candidates, staged) := Stage(metadata, items);
            && metadata !! staged && |metadata + staged| <= MAX_METADATA
            && (forall x :: x in candidates ==> x in items && Allowed(x))
            && (forall x :: x in candidates && IsMetadata(x.key) ==> Metadata(x.key) in metadata + staged)
            && (forall x :: x in items && !(IsMetadata(x.key)) ==> x in candidates)
    decreases |items|
  {
    if items != [] {
      var init, item := items[..|items| - 1], items[|items| - 1];
      assert items == init + [item];
      StageIs(metadata, init);
      var (candidates, staged) := Stage(metadata, init);
      assert |metadata + staged| == |metadata| + |staged|;
      if NewMetadata(metadata, item) {
        assert metadata + (staged + {Metadata(item.key)}) == (metadata + staged) + {Metadata(item.key)};
      }
    }
  }

  /** A metadata key named like the level, too large to be accepted, is counted
      by the level that is accepted in the same update. */
  lemma OmittedKeyIsCounted()
    ensures var items := [Item(MetadataPrefix() + LevelKey(), MAX_BYTES), Item(LevelKey(), 5)];
            var staged, filtered := Stage({}, items).1, Fit(map[], items);
            && filtered == [items[1]] && staged == {LevelKey()} && !IsMetadata(LevelKey())
            && LevelKey() in staged * TrimmedKeys(filtered)
  {
    var big, level := Item(MetadataPrefix() + LevelKey(), MAX_BYTES), Item(LevelKey(), 5);
    var items := [big, level];
    LevelIsPlain();
    StageTwo(big, level, LevelKey());
    FitSecond(big, level);
    hide *;
    TrimIs(level.key, LevelKey());
    CountedIff([level], {LevelKey()}, LevelKey());
    assert level in [level];
  }

  lemma LevelIsPlain()
    ensures !IsMetadata(LevelKey()) && IsMetadata(MetadataPrefix() + LevelKey())
    ensures Metadata(MetadataPrefix() + LevelKey()) == LevelKey()
    ensures MetadataPrefix() + LevelKey() != LevelKey() && !IsReserved(MetadataPrefix() + LevelKey())
  {
    assert LevelKey()[21] != MetadataPrefix()[21];
    assert |MetadataPrefix() + LevelKey()| > |LevelKey()| && |MetadataPrefix() + LevelKey()| > |StatusKey()|;
  }

  lemma StageSnoc(metadata: set<string>, items: seq<Item>, item: Item)
    ensures Stage(metadata, items + [item]) ==
            var (candidates, staged) := Stage(metadata, items);
            if !NewMetadata(metadata, item) || Metadata(item.key) in staged then (candidates + [item], staged)
            else if |metadata| + |staged| >= MAX_METADATA then (candidates, staged)
            else (candidates + [item], staged + {Metadata(item.key)})
  {
    assert (items + [item])[..|items|] == items;
  }

  lemma StageTwo(a: Item, b: Item, key: string)
    requires IsMetadata(a.key) && Metadata(a.key) == key && !IsMetadata(b.key)
    ensures Stage({}, [a, b]) == ([a, b], {key})
  {
    hide IsMetadata, Metadata;
    StageSnoc({}, [], a);
    StageSnoc({}, [a], b);
    assert Stage({}, []) == ([], {});
    hide Stage;
    assert [] + [a] == [a] && [a] + [b] == [a, b] && {} + {key} == {key};
  }

  lemma FitSecond(a: Item, b: Item)
    requires a.valueBytes >= MAX_BYTES && b == Item(LevelKey(), 5)
    ensures Fit(map[], [a, b]) == [b]
  {
    assert [a, b][..1] == [a] && [a][..0] == [];
    NothingFits();
    SumUpdate(map[], a.key, Size(a));
    assert Fit(map[], [a]) == [] by { hide LevelKey, StatusKey; }
    RoomForReserved(map[], b);
    hide Room, Sum;
    assert Recorded(map[], []) == map[];
  }

  /** What an update of a live observation accepts, records and counts. */
  ghost predicate Updated(sizes: map<string, nat>, metadata: set<string>, items: seq<Item>, filtered: seq<Item>,
                          sizesNow: map<string, nat>, metadataNow: set<string>) {
    var (candidates, staged) := Stage(metadata, items);
    && filtered == Fit(sizes, candidates) && sizesNow == Recorded(sizes, filtered)
    && metadataNow == metadata + staged * TrimmedKeys(filtered)
  }

  predicate Within(items: seq<Item>, keys: set<string>) {
    forall x :: x in items && IsMetadata(x.key) ==> Metadata(x.key) in keys
  }

  predicate AllAllowed(items: seq<Item>) { forall x :: x in items ==> Allowed(x) }

  predicate StagedOk(metadata: set<string>, staged: set<string>, candidates: seq<Item>) {
    |metadata + staged| <= MAX_METADATA && Within(candidates, metadata + staged) && AllAllowed(candidates)
  }

  lemma StagedIsOk(metadata: set<string>, items: seq<Item>)
    requires |metadata| <= MAX_METADATA && AllAllowed(items)
    ensures StagedOk(metadata, Stage(metadata, items).1, Stage(metadata, items).0)
  {
    hide Stage, IsMetadata, Allowed, Metadata;
    StageIs(metadata, items);
  }

  lemma AllowedIs(metadata: set<string>, staged: set<string>, candidates: seq<Item>)
    requires StagedOk(metadata, staged, candidates)
    ensures AllAllowed(candidates)
  {
    hide Within, AllAllowed;
  }

  lemma StaysWithin(metadata: set<string>, staged: set<string>, candidates: seq<Item>, filtered: seq<Item>)
    requires StagedOk(metadata, staged, candidates) && forall x :: x in filtered ==> x in candidates
    ensures Within(filtered, metadata + staged) && |metadata + staged| <= MAX_METADATA
  {
    hide AllAllowed, IsMetadata, Metadata;
  }

  lemma KeysCounted(sizes: map<string, nat>, metadata: set<string>, staged: set<string>, filtered: seq<Item>,
                    keys: set<string>)
    requires Counted(sizes, metadata) && |metadata + staged| <= MAX_METADATA
    requires keys == metadata + staged * TrimmedKeys(filtered)
    requires Within(filtered, keys)
    ensures |keys| <= MAX_METADATA && Counted(Recorded(sizes, filtered), keys)
  {
    hide Counted, Recorded, TrimmedKeys, IsMetadata, Metadata;
    CountedWithin(sizes, metadata, filtered, keys);
    Subset(keys, metadata + staged);
  }

  class Observation {
    var attributeSizes: map<string, nat>
    var attributeBytes: int
    var metadataKeys: set<string>
    var errorEvents: nat
    var ended: bool

    ghost predicate Valid()
      reads this
    {
      && Fits(attributeSizes, attributeBytes) && ReservedFits(attributeSizes)
      && |metadataKeys| <= MAX_METADATA && errorEvents <= MAX_ERROR_EVENTS && Counted(attributeSizes, metadataKeys)
    }

    /** Accepts each item for which there is room. The level and the status
        are always accepted. */
    method FitBudget(items: seq<Item>) returns (filtered: seq<Item>, omitted: bool)
      requires Fits(attributeSizes, attributeBytes) && ReservedFits(attributeSizes) && AllAllowed(items)
      modifies this`attributeSizes, this`attributeBytes
      ensures Fits(attributeSizes, attributeBytes) && ReservedFits(attributeSizes)
      ensures filtered == Fit(old(attributeSizes), items) && attributeSizes == Recorded(old(attributeSizes), filtered)
      ensures omitted <==> filtered != items
      ensures forall x :: x in filtered ==> x in items
      ensures forall x :: x in items && (IsReserved(x.key)) ==> x in filtered
      ensures (forall x :: x in items ==> IsReserved(x.key)) ==> filtered == items
    {
      ghost var sizes := attributeSizes;
      assert attributeBytes == Sum(sizes);
      hide *;
      NoneFit(attributeSizes, items);
      filtered, omitted := [], false;
      for i := 0 to |items|
        invariant Fits(attributeSizes, attributeBytes) && ReservedFits(attributeSizes)
        invariant Fitted(sizes, items, i, attributeSizes, filtered, omitted)
      {
        FitStep(sizes, items, i, attributeSizes, filtered, omitted);
        var accepted := Accept(items[i]);
        if accepted {
          filtered := filtered + [items[i]];
        } else {
          omitted := true;
        }
      }
      AllFitted(sizes, items, attributeSizes, filtered, omitted);
      FitIs(sizes, items);
    }

    method Accept(item: Item) returns (accepted: bool)
      requires Fits(attributeSizes, attributeBytes) && ReservedFits(attributeSizes) && Allowed(item)
      modifies this`attributeSizes, this`attributeBytes
      ensures Fits(attributeSizes, attributeBytes) && ReservedFits(attributeSizes)
      ensures accepted ==> attributeSizes == old(attributeSizes)[item.key := Size(item)]
      ensures !accepted ==> attributeSizes == old(attributeSizes) && attributeBytes == old(attributeBytes)
      ensures accepted <==> Room(old(attributeSizes), item)
    {
      var size, previous := Size(item), At(attributeSizes, item.key);
      var next := attributeBytes - previous + size;
      var reserved: int := Reserved(attributeSizes);
      if IsReserved(item.key) {
        reserved := reserved - previous + size;
      }
      ghost var sizes := attributeSizes[item.key := size];
      SumUpdate(attributeSizes, item.key, size);
      TwoReserved();
      KeyBytes();
      assert reserved == Reserved(sizes) && next == Sum(sizes);
      accepted := next <= MAX_BYTES && next - reserved <= MAX_DATA_BYTES;
      if accepted {
        attributeBytes := next;
        attributeSizes := attributeSizes[item.key := size];
      }
    }

    /** The start attributes, of which the builder keeps at most 32 metadata
        keys; those recorded count against the lifetime cap. */
    constructor (items: seq<Item>)
      requires forall x :: x in items ==> Allowed(x)
      requires |MetadataKeys(items)| <= MAX_METADATA
      ensures Valid() && !ended && attributeSizes == Recorded(map[], Fit(map[], items))
      ensures metadataKeys == MetadataKeys(Fit(map[], items))
    {
      attributeSizes, attributeBytes, metadataKeys, errorEvents, ended := map[], 0, {}, 0, false;
      new;
      NothingFits();
      var filtered, omitted := FitBudget(items);
      hide *;
      metadataKeys := CollectKeys(filtered);
      KeysGrow(filtered, items);
      Subset(metadataKeys, MetadataKeys(items));
      NoneCounted();
      AllCounted(map[], {}, filtered);
      NoKeys(MetadataKeys(filtered));
    }

    static method CollectKeys(items: seq<Item>) returns (keys: set<string>)
      ensures keys == MetadataKeys(items)
    {
      hide MetadataPrefix;
      keys := {};
      for i := 0 to |items|
        invariant keys == MetadataKeys(items[..i])
      {
        assert items[..i + 1] == items[..i] + [items[i]];
        if IsMetadata(items[i].key) {
          keys := keys + {Metadata(items[i].key)};
        }
      }
      assert items[..|items|] == items;
    }

    /** Stages new metadata keys up to the lifetime cap, then fits the budget; a
        staged key counts once an accepted attribute trims to it. */
    method Update(items: seq<Item>) returns (filtered: seq<Item>)
      requires Valid() && AllAllowed(items)
      modifies this`attributeSizes, this`attributeBytes, this`metadataKeys
      ensures Valid()
      ensures old(ended) ==>
                filtered == [] && attributeSizes == old(attributeSizes) && metadataKeys == old(metadataKeys)
      ensures !old(ended) ==>
                Updated(old(attributeSizes), old(metadataKeys), items, filtered, attributeSizes, metadataKeys)
    {
      hide Fits, ReservedFits, Fit, Recorded, Stage, StagedOk, Within, AllAllowed, Counted, TrimmedKeys, IsReserved,
           IsMetadata, LevelKey, StatusKey, MetadataPrefix, Metadata, Allowed;
      if ended { return []; }
      ghost var sizes, before := attributeSizes, metadataKeys;
      StagedIsOk(metadataKeys, items);
      var (candidates, staged) := Stage(metadataKeys, items);
      AllowedIs(metadataKeys, staged, candidates);
      var omitted;
      filtered, omitted := FitBudget(candidates);
      StaysWithin(before, staged, candidates, filtered);
      CountStaged(filtered, staged);
      KeysCounted(sizes, before, staged, filtered, metadataKeys);
    }

    method CountStaged(filtered: seq<Item>, staged: set<string>)
      requires Within(filtered, metadataKeys + staged)
      modifies this`metadataKeys
      ensures metadataKeys == old(metadataKeys) + staged * TrimmedKeys(filtered) && Within(filtered, metadataKeys)
    {
      hide MetadataPrefix, TrimMetadata, IsMetadata;
      ghost var before := metadataKeys;
      for i := 0 to |filtered|
        invariant metadataKeys == before + staged * TrimmedKeys(filtered[..i])
      {
        var key := TrimMetadata(filtered[i].key);
        assert filtered[..i + 1] == filtered[..i] + [filtered[i]];
        assert TrimmedKeys(filtered[..i + 1]) == TrimmedKeys(filtered[..i]) + {key};
        if key in staged {
          metadataKeys := metadataKeys + {key};
        }
      }
      assert filtered[..|filtered|] == filtered;
      forall x | x in filtered && IsMetadata(x.key) ensures Metadata(x.key) in metadataKeys {
        TrimIs(x.key, Metadata(x.key));
        assert Metadata(x.key) in TrimmedKeys(filtered);
      }
    }

    /** Reserves one of the error events before the application is called. */
    method ReserveError() returns (ok: bool)
      requires Valid()
      modifies this`errorEvents
      ensures Valid() && ok == (!ended && old(errorEvents) < MAX_ERROR_EVENTS)
      ensures errorEvents == old(errorEvents) + (if ok then 1 else 0)
    {
      ok := !ended && errorEvents < MAX_ERROR_EVENTS;
      if ok { errorEvents := errorEvents + 1; }
    }

    /** Records the level and the message of a reserved error. Whatever came
        before, neither is ever omitted. */
    method RecordError(messageBytes: nat) returns (omitted: bool)
      requires Valid() && messageBytes <= MAX_ERROR_MESSAGE
      modifies this`attributeSizes, this`attributeBytes
      ensures Valid() && !omitted
      ensures old(ended) ==> attributeSizes == old(attributeSizes)
      ensures !old(ended) ==>
                attributeSizes == old(attributeSizes)[LevelKey() := |LevelKey()| + OVERHEAD + 5]
                                                     [StatusKey() := |StatusKey()| + OVERHEAD + messageBytes]
    {
      omitted := false;
      if ended { return; }
      ErrorItems(attributeSizes, messageBytes);
      NoMetadata(messageBytes);
      hide Fits, ReservedFits, Fit, Recorded, Allowed, LevelKey, StatusKey, MetadataPrefix, Counted;
      CountedWithin(attributeSizes, metadataKeys, [Item(LevelKey(), 5), Item(StatusKey(), messageBytes)], metadataKeys);
      var filtered;
      filtered, omitted := FitBudget([Item(LevelKey(), 5), Item(StatusKey(), messageBytes)]);
    }

    method End() returns (won: bool)
      requires Valid()
      modifies this`ended
      ensures Valid() && ended && won == !old(ended)
    {
      won := !ended;
      ended := true;
    }
  }

  lemma {:induction false} Subset(a: set<string>, b: set<string>)
    requires a <= b
    ensures |a| <= |b|
    decreases |a|
  {
    if a != {} {
      var x :| x in a;
      Subset(a - {x}, b - {x});
      assert a == (a - {x}) + {x} && b == (b - {x}) + {x};
    }
  }
}
