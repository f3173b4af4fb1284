/** Trace state as the source updates it: an import visits the members of the
    bag in any order, then projects the accepted layer (baggage.go,
    context.go). The result is `TraceState.Import`. */
module TraceStateClass {
  import opened BoundedKeys
  import opened TraceState
  import opened TraceStateLaws
  import opened BaggageExport

  // ---- one more member ----

  lemma OneMoreField(s: State, bag: map<string, string>, key: string, value: string, f: Field)
    requires key !in bag
    ensures Confirmed(s, bag[key := value], f) <==>
            Confirmed(s, bag, f) || (Parse(key) == Scalar(f) && ValidFor(f, value) && Replaceable(s, f))
    ensures Confirmed(s, bag, f) ==> FieldName(f) in bag && bag[key := value][FieldName(f)] == bag[FieldName(f)]
    ensures Parse(key) == Scalar(f) ==> FieldName(f) == key && !Confirmed(s, bag, f)
  {
    ParseNames(key, f, "");
    hide Parse, FieldName, ValidFor, Replaceable;
  }

  lemma OfferedIs(s: State, bag: map<string, string>)
    ensures forall x :: x in OfferedMeta(s, bag) <==> OffersMeta(s, bag, x)
    ensures forall x :: x in OfferedMeta(s, bag) ==>
              MetaName(x) in bag && OfferedMeta(s, bag)[x] == Text(bag[MetaName(x)])
  {
    forall x ensures x in OfferedMeta(s, bag) <==> OffersMeta(s, bag, x) {
      ParseNames("", Name, x);
      hide Parse, MetaName, WireKey, WireValue, LocalKeys;
    }
    hide Parse, MetaName, WireKey, WireValue, LocalKeys, OffersMeta;
  }

  lemma OneMoreOffer(s: State, bag: map<string, string>, key: string, value: string, x: string)
    requires key !in bag
    ensures OffersMeta(s, bag[key := value], x) <==>
            OffersMeta(s, bag, x) || (Parse(key) == Meta(x) && WireKey(x) && WireValue(value) && x !in LocalKeys(s))
    ensures OffersMeta(s, bag, x) ==> MetaName(x) in bag && bag[key := value][MetaName(x)] == bag[MetaName(x)]
    ensures Parse(key) == Meta(x) ==> MetaName(x) == key
  {
    ParseNames(key, Name, x);
    hide Parse, MetaName, WireKey, WireValue, LocalKeys;
  }

  lemma OneMoreMeta(s: State, bag: map<string, string>, key: string, value: string)
    requires key !in bag
    ensures OfferedMeta(s, bag[key := value]) ==
            if Parse(key).Meta? && WireKey(Parse(key).suffix) && WireValue(value) && Parse(key).suffix !in LocalKeys(s)
            then OfferedMeta(s, bag)[Parse(key).suffix := Text(value)] else OfferedMeta(s, bag)
  {
    hide *;
    var next := bag[key := value];
    OfferedIs(s, bag);
    OfferedIs(s, next);
    forall x
      ensures OffersMeta(s, next, x) <==>
              OffersMeta(s, bag, x) || (Parse(key) == Meta(x) && WireKey(x) && WireValue(value) && x !in LocalKeys(s))
      ensures OffersMeta(s, bag, x) ==> MetaName(x) in bag && next[MetaName(x)] == bag[MetaName(x)]
      ensures Parse(key) == Meta(x) ==> MetaName(x) == key
    {
      OneMoreOffer(s, bag, key, value, x);
    }
    var n := Parse(key);
    var want := if n.Meta? && WireKey(n.suffix) && WireValue(value) && n.suffix !in LocalKeys(s)
                then OfferedMeta(s, bag)[n.suffix := Text(value)] else OfferedMeta(s, bag);
    assert OfferedMeta(s, next).Keys == want.Keys;
    assert OfferedMeta(s, next) == want;
  }

  lemma OneMoreName(bag: map<string, string>, key: string, value: string)
    ensures HasNamespace(bag[key := value]) <==> HasNamespace(bag) || !Parse(key).Foreign?
  {
    hide Parse;
    var next := bag[key := value];
    assert key in next;
    assert forall k :: k in bag ==> k in next;
  }

  predicate DistinctItems(items: seq<Item>) { forall i, j :: 0 <= i < j < |items| ==> items[i].key != items[j].key }

  lemma {:induction false} MapOfSnoc(items: seq<Item>, i: nat)
    requires i < |items| && DistinctItems(items)
    ensures MapOf(items[..i + 1]) == MapOf(items[..i])[items[i].key := items[i].value]
    ensures items[i].key !in MapOf(items[..i])
  {
    assert items[..i + 1][..i] == items[..i];
    MapOfKeys(items[..i], items[i].key);
  }

  lemma {:induction false} MapOfKeys(items: seq<Item>, key: string)
    requires forall i :: 0 <= i < |items| ==> items[i].key != key
    ensures key !in MapOf(items)
    decreases |items|
  {
    if items != [] { MapOfKeys(items[..|items| - 1], key); }
  }

  // ---- normalizing ----

  /** The keys of a map, in whatever order the iteration yields them. */
  method KeysInSomeOrder<V>(m: map<string, V>) returns (order: seq<string>)
    ensures DistinctKeys(order) && Elements(order) == m.Keys
  {
    order := [];
    var left := m.Keys;
    while left != {}
      invariant DistinctKeys(order) && Elements(order) !! left && Elements(order) + left == m.Keys
      decreases |left|
    {
      var k :| k in left;
      assert k !in Elements(order);
      left := left - {k};
      order := order + [k];
      assert Elements(order) == Elements(order[..|order| - 1]) + {k} by { assert order == order[..|order| - 1] + [k]; }
    }
  }

  lemma ChosenKeys(cfg: Config, masked: map<string, Value>, existing: set<string>, order: seq<string>,
                   keys: seq<string>, n: nat)
    requires Elements(order) == masked.Keys && n <= |keys|
    requires Smallest(keys[..n], ExistingKeys(order, cfg.utf8, existing), |order|)
    requires Smallest(keys[n..], NewKeys(order, cfg.utf8, existing), MAX_METADATA - Clamp(|existing|))
    ensures forall k :: k in keys <==> k in Chosen(cfg, masked.Keys, existing)
  {
    hide *;
    var valid, cap := ValidKeys(cfg, masked.Keys), MAX_METADATA - Clamp(|existing|);
    SplitKeys(cfg, order, masked.Keys, existing);
    CardAtMost(order, |order|, cfg.utf8, existing);
    assert order[..|order|] == order;
    AllKept(keys[..n], valid * existing, |order|);
    SmallestOfIs(valid - existing, cap);
    SelectionIsUnique(keys[n..], SmallestOf(valid - existing, cap), valid - existing, cap);
    assert keys == keys[..n] + keys[n..];
    ChosenParts(cfg, masked.Keys, existing);
    forall k ensures k in keys <==> k in Chosen(cfg, masked.Keys, existing) {
      InElements(keys[..n], k);
      InElements(keys[n..], k);
    }
  }

  lemma InElements(keys: seq<string>, k: string)
    ensures k in keys <==> k in Elements(keys)
  {
  }

  lemma SplitKeys(cfg: Config, order: seq<string>, keys: set<string>, existing: set<string>)
    requires Elements(order) == keys
    ensures ExistingKeys(order, cfg.utf8, existing) == ValidKeys(cfg, keys) * existing
    ensures NewKeys(order, cfg.utf8, existing) == ValidKeys(cfg, keys) - existing
  {
    hide MetadataKey;
    assert forall k :: k in order <==> k in Elements(order);
  }

  lemma ChosenParts(cfg: Config, keys: set<string>, existing: set<string>)
    ensures var valid := ValidKeys(cfg, keys);
            Chosen(cfg, keys, existing) ==
            valid * existing + Elements(SmallestOf(valid - existing, MAX_METADATA - Clamp(|existing|)))
  {
    hide ValidKeys, SmallestOf, Elements;
  }

  method TraceMetadata(cfg: Config, values: map<string, Value>, existing: set<string>) returns (n: Normalized)
    ensures n == Normalize(cfg, values, existing)
  {
    n := Normalized(map[], {});
    if values == map[] { return; }
    var result := cfg.mask(values);
    if result.None? { return; }
    var masked := result.value;
    var order := KeysInSomeOrder(masked);
    var keys, replaced, invalid, truncated := BoundedMetadataKeys(order, cfg.utf8, existing, |existing|);
    ChosenKeys(cfg, masked, existing, order, keys, replaced);
    ghost var chosen := Chosen(cfg, masked.Keys, existing);
    ChosenIs(cfg, masked.Keys, existing);
    hide Smallest, MetadataKey, Chosen, Encoded;
    n := EncodeAll(cfg, masked, keys);
    assert Elements(keys) == chosen;
  }

  lemma EncodedMore(cfg: Config, masked: map<string, Value>, chosen: set<string>, key: string)
    requires key in masked
    ensures var n, m := Encoded(cfg, masked, chosen), Encoded(cfg, masked, chosen + {key});
            && m.values == (if Kept(cfg, masked[key]) then n.values[key := Encode(cfg, masked[key]).value]
                            else n.values)
            && m.strings == (if Kept(cfg, masked[key]) && masked[key].Text? then n.strings + {key} else n.strings)
  {
    hide Encode;
  }

  method EncodeAll(cfg: Config, masked: map<string, Value>, keys: seq<string>) returns (n: Normalized)
    requires forall k :: k in keys ==> k in masked
    ensures n == Encoded(cfg, masked, Elements(keys))
  {
    n := Normalized(map[], {});
    assert n == Encoded(cfg, masked, Elements(keys[..0]));
    for i := 0 to |keys|
      invariant n == Encoded(cfg, masked, Elements(keys[..i]))
    {
      var key := keys[i];
      EncodedMore(cfg, masked, Elements(keys[..i]), key);
      assert Elements(keys[..i + 1]) == Elements(keys[..i]) + {key} by { assert keys[..i + 1] == keys[..i] + [key]; }
      hide Encoded, Encode, Elements;
      var encoded := Encode(cfg, masked[key]);
      if encoded.Some? && cfg.runes(encoded.value) <= MAX_RUNES {
        n := n.(values := n.values[key := encoded.value]);
        if masked[key].Text? {
          n := n.(strings := n.strings + {key});
        }
      }
    }
    assert keys[..|keys|] == keys;
  }

  // ---- the object ----

  function WithAdded(m: map<string, string>, n: map<string, string>, added: set<string>): map<string, string>
    requires added <= n.Keys
  {
    map k | k in m.Keys + added :: if k in added then n[k] else m[k]
  }

  class MutableState {
    var fields: map<Field, string>       // set fields only
    var metadata: map<string, string>
    var wireMetadata: set<string>
    var accepted: set<Origin>

    constructor ()
      ensures View() == EMPTY
    {
      fields, metadata, wireMetadata, accepted := map[], map[], {}, {};
    }

    ghost function Value(f: Field): string
      reads this`fields
    {
      if f in fields then fields[f] else ""
    }

    ghost function View(): State
      reads this
    {
      State(Value(Name), Value(User), Value(Session), Value(Version), Value(Environment), metadata, wireMetadata,
            accepted)
    }

    /** A field is replaceable when it is empty or came from an earlier import. */
    method AcceptScalar(f: Field, value: string) returns (confirmed: bool)
      modifies this`fields, this`accepted
      ensures confirmed == Accepts(f, value, old(fields), old(accepted))
      ensures fields == if confirmed then old(fields)[f := value] else old(fields)
      ensures accepted == if confirmed then old(accepted) + {OfField(f)} else old(accepted)
    {
      confirmed := ValidFor(f, value) && (f !in fields || fields[f] == "" || OfField(f) in accepted);
      if confirmed {
        fields := fields[f := value];
        accepted := accepted + {OfField(f)};
      }
    }

    /** Fields accepted from an earlier namespace that this one does not
        confirm are retired. */
    method RetireFields(confirmed: set<Field>)
      modifies this`fields, this`accepted
      ensures forall f :: Value(f) == if f !in confirmed && OfField(f) in old(accepted) then "" else old(Value(f))
      ensures accepted == set o <- old(accepted) | o.OfKey? || o.field in confirmed
    {
      var left := Fields();
      assert forall f: Field :: f in left by { AllFields(); }
      while left != {}
        invariant left <= Fields()
        invariant forall f ::
          Value(f) == if f !in left && f !in confirmed && OfField(f) in old(accepted) then "" else old(Value(f))
        invariant accepted == set o <- old(accepted) | o.OfKey? || o.field in confirmed || o.field in left
        decreases |left|
      {
        var f :| f in left;
        left := left - {f};
        if f !in confirmed && OfField(f) in accepted {
          fields := fields - {f};
          accepted := accepted - {OfField(f)};
        }
      }
    }

    /** Metadata keys accepted from an earlier namespace are retired unless
        this one has just normalized them. */
    method RetireKeys(normalized: set<string>)
      modifies this`metadata, this`wireMetadata, this`accepted
      ensures metadata == KeptMetadata(old(metadata), old(accepted), normalized)
      ensures wireMetadata == KeptWire(old(wireMetadata), old(accepted), normalized)
      ensures accepted == KeptOrigins(old(accepted), normalized)
    {
      var left := accepted;
      ghost var seen: set<Origin> := {};
      hide KeptMetadata, KeptWire, KeptSeen;
      NoneRetired(metadata, wireMetadata, accepted, normalized);
      while left != {}
        invariant left + seen == old(accepted) && left !! seen
        invariant metadata == KeptMetadata(old(metadata), seen, normalized)
        invariant wireMetadata == KeptWire(old(wireMetadata), seen, normalized)
        invariant accepted == KeptSeen(old(accepted), seen, normalized)
        decreases |left|
      {
        var o :| o in left;
        RetireOne(old(metadata), old(wireMetadata), old(accepted), seen, normalized, o);
        left, seen := left - {o}, seen + {o};
        if o.OfKey? && o.key !in normalized {
          metadata := metadata - {o.key};
          wireMetadata := wireMetadata - {o.key};
          accepted := accepted - {o};
        }
      }
      AllSeen(accepted, old(accepted), seen, normalized);
    }

    /** Sets one imported key. */
    method SetKey(key: string, value: string, isText: bool)
      modifies this`metadata, this`wireMetadata, this`accepted
      ensures metadata == old(metadata)[key := value]
      ensures wireMetadata == if isText then old(wireMetadata) + {key} else old(wireMetadata) - {key}
      ensures accepted == old(accepted) + {OfKey(key)}
    {
      metadata := metadata[key := value];
      accepted := accepted + {OfKey(key)};
      if isText {
        wireMetadata := wireMetadata + {key};
      } else {
        wireMetadata := wireMetadata - {key};
      }
    }

    /** Adds the normalized keys that are not local. The cap is never reached
        when the keys were chosen to fit. */
    method AddKeys(n: Normalized) returns (truncated: bool)
      requires n.strings <= n.values.Keys
      requires |metadata.Keys + n.values.Keys| <= MAX_METADATA
      modifies this`metadata, this`wireMetadata, this`accepted
      ensures !truncated
      ensures AddedSoFar(old(metadata), old(wireMetadata), old(accepted), n,
                         ToAdd(old(metadata).Keys, old(accepted), n), metadata, wireMetadata, accepted)
    {
      hide *;
      truncated := false;
      var left := n.values.Keys;
      ghost var m, w, o := metadata, wireMetadata, accepted;
      ghost var done: set<string> := {};
      NoneAdded(m, w, o, n);
      while left != {}
        invariant left <= n.values.Keys && !truncated && done == ToAdd(m.Keys, o, n) - left
        invariant AddedSoFar(m, w, o, n, done, metadata, wireMetadata, accepted)
        decreases |left|
      {
        var k :| k in left;
        left := left - {k};
        AddOne(m, w, o, n, done, metadata, wireMetadata, accepted, k);
        if k in metadata && OfKey(k) !in accepted {
          assert done == ToAdd(m.Keys, o, n) - left;
          continue;
        }
        if k !in metadata { RoomLeft(metadata.Keys, m.Keys + n.values.Keys, k); }
        if k !in metadata && |metadata| >= MAX_METADATA {
          truncated := true;
          continue;
        }
        SetKey(k, n.values[k], k in n.strings);
        done := done + {k};
        assert done == ToAdd(m.Keys, o, n) - left;
      }
      assert done == ToAdd(m.Keys, o, n);
    }

    /** Normalizes imported metadata against the local keys, retires what this
        namespace no longer confirms, and adds the rest. */
    method MergeImportedMetadata(cfg: Config, imported: map<string, TraceState.Value>, hasNamespace: bool)
      requires wireMetadata <= metadata.Keys && |metadata| <= MAX_METADATA
      requires forall k :: OfKey(k) in accepted ==> k in metadata
      requires hasNamespace || imported == map[]
      modifies this`metadata, this`wireMetadata, this`accepted
      ensures !hasNamespace ==> View() == old(View())
      ensures hasNamespace ==>
                View() == ImportMetadata(old(View()), Normalize(cfg, imported, LocalKeys(old(View()))))
    {
      ghost var s := View();
      hide Normalize, ImportMetadata, LocalKeys, LocalMetadata, WithAdded, ToAdd, OfKeys, AddedSoFar, KeptMetadata,
           KeptWire, KeptOrigins, Get, MetadataKey;
      var staged := metadata.Keys;
      if hasNamespace && accepted != {} {
        staged := LocalMetadata(metadata, accepted);
      }
      LocalAre(s);
      var n := TraceMetadata(cfg, imported, staged);
      NormalizeIs(cfg, imported, staged);
      NothingNormalized(cfg, staged);
      if hasNamespace {
        CardSubset(staged, metadata.Keys);
        NormalizeCard(cfg, imported, staged);
        RetireKeys(n.values.Keys);
        ghost var m, w, o := metadata, wireMetadata, accepted;
        Projected(s, n, m, w, o);
        var truncated := AddKeys(n);
        ProjectedDone(s, n, m, w, o, metadata, wireMetadata, accepted);
      }
    }

    /** One member of the scan. */
    method ScanMember(key: string, value: string, confirmed: set<Field>, imported: map<string, TraceState.Value>,
                      hasNamespace: bool, ghost s: State, ghost bag: map<string, string>)
      returns (fieldsNow: set<Field>, keysNow: map<string, TraceState.Value>, found: bool)
      requires key !in bag && metadata == s.metadata
      requires Scanned(s, bag, fields, accepted, confirmed, imported, hasNamespace)
      modifies this`fields, this`accepted
      ensures Scanned(s, bag[key := value], fields, accepted, fieldsNow, keysNow, found)
    {
      hide *;
      ScanStep(s, bag, key, value, fields, accepted, confirmed, imported, hasNamespace);
      LocalSeen(s, bag, fields, accepted, confirmed, imported, hasNamespace, Parse(key));
      fieldsNow, keysNow, found := confirmed, imported, hasNamespace;
      var parsed := Parse(key);
      if !parsed.Foreign? {
        found := true;
      }
      if parsed.Scalar? {
        var accepts := AcceptScalar(parsed.field, value);
        if accepts { fieldsNow := fieldsNow + {parsed.field}; }
      } else if parsed.Meta? {
        var local := parsed.suffix in metadata && OfKey(parsed.suffix) !in accepted;
        if WireKey(parsed.suffix) && WireValue(value) && !local {
          keysNow := keysNow[parsed.suffix := Text(value)];
        }
      }
    }

    /** The scan of an import: the scalars of the bag are applied at once, its
        metadata is collected. */
    method ScanMembers(members: seq<Item>)
      returns (confirmed: set<Field>, imported: map<string, TraceState.Value>, hasNamespace: bool)
      requires DistinctItems(members)
      modifies this`fields, this`accepted
      ensures Scanned(old(View()), MapOf(members), fields, accepted, confirmed, imported, hasNamespace)
    {
      confirmed, imported, hasNamespace := {}, map[], false;
      ghost var s := View();
      assert s.accepted == accepted && s.metadata == metadata;
      ViewValues();
      hide *;
      NothingScanned(s, fields);
      assert members[..0] == [];
      for i := 0 to |members|
        invariant Scanned(s, MapOf(members[..i]), fields, accepted, confirmed, imported, hasNamespace)
      {
        var key, value := members[i].key, members[i].value;
        MapOfSnoc(members, i);
        confirmed, imported, hasNamespace :=
          ScanMember(key, value, confirmed, imported, hasNamespace, s, MapOf(members[..i]));
      }
      assert members[..|members|] == members;
    }

    lemma ViewValues()
      ensures forall f :: Value(f) == Get(View(), f)
      ensures forall f :: Value(f) == ValueOf(fields, f)
    {
    }

    /** Applies the Langfuse members of a bag, whatever the order they are
        visited in. */
    method Import(cfg: Config, members: seq<Item>)
      requires DistinctItems(members) && Wf(cfg, View())
      modifies this
      ensures View() == TraceState.Import(cfg, old(View()), MapOf(members))
    {
      hide Wf, MapOf, OfferedMeta, HasNamespace, ImportFields, ImportMetadata, Normalize, LocalKeys, Get;
      ghost var s, bag := View(), MapOf(members);
      var imported, hasNamespace := ScanAndRetire(members);
      Mergeable(cfg, s, bag);
      assert metadata == View().metadata && wireMetadata == View().wire && accepted == View().accepted;
      MergeImportedMetadata(cfg, imported, hasNamespace);
    }

    /** The fields of an import: scanned, and those not confirmed retired. */
    method ScanAndRetire(members: seq<Item>) returns (imported: map<string, TraceState.Value>, hasNamespace: bool)
      requires DistinctItems(members)
      modifies this`fields, this`accepted
      ensures View() == if hasNamespace then ImportFields(old(View()), MapOf(members)) else old(View())
      ensures imported == OfferedMeta(old(View()), MapOf(members)) && (hasNamespace <==> HasNamespace(MapOf(members)))
      ensures hasNamespace ==> LocalKeys(View()) == LocalKeys(old(View()))
    {
      hide MapOf, Confirmed, FieldName, OfferedMeta, HasNamespace, ImportFields, LocalKeys;
      ghost var s, bag := View(), MapOf(members);
      var confirmed;
      confirmed, imported, hasNamespace := ScanMembers(members);
      if hasNamespace {
        RetireFields(confirmed);
      }
      ViewValues();
      FieldsDone(s, View(), bag, confirmed, hasNamespace);
    }
  }

  // What an import of the fields leaves can be merged into.
  lemma Mergeable(cfg: Config, s: State, bag: map<string, string>)
    requires Wf(cfg, s)
    ensures var u := if HasNamespace(bag) then ImportFields(s, bag) else s;
            && u.wire <= u.metadata.Keys && |u.metadata| <= MAX_METADATA
            && forall k :: OfKey(k) in u.accepted ==> k in u.metadata
    ensures !HasNamespace(bag) ==> OfferedMeta(s, bag) == map[]
  {
    hide Confirmed, ImportedField, MetadataKey, ValidEnvironment, Get;
    if !HasNamespace(bag) {
      forall suffix ensures !OffersMeta(s, bag, suffix) { ParseNames("", Name, suffix); }
    }
  }

  /** What retiring leaves: everything but the accepted keys that were not
      normalized again. */
  function KeptMetadata(m: map<string, string>, accepted: set<Origin>, normalized: set<string>): map<string, string> {
    m - (set k <- m.Keys | OfKey(k) in accepted && k !in normalized)
  }

  function KeptWire(wire: set<string>, accepted: set<Origin>, normalized: set<string>): set<string> {
    set k <- wire | OfKey(k) !in accepted || k in normalized
  }

  function KeptOrigins(accepted: set<Origin>, normalized: set<string>): set<Origin> {
    set o <- accepted | o.OfField? || o.key in normalized
  }

  function KeptSeen(accepted: set<Origin>, seen: set<Origin>, normalized: set<string>): set<Origin> {
    set o <- accepted | o !in seen || o.OfField? || o.key in normalized
  }

  lemma NoneRetired(m: map<string, string>, wire: set<string>, accepted: set<Origin>, normalized: set<string>)
    ensures m == KeptMetadata(m, {}, normalized) && wire == KeptWire(wire, {}, normalized)
    ensures accepted == KeptSeen(accepted, {}, normalized)
  {
  }

  lemma RetireOne(m: map<string, string>, wire: set<string>, accepted: set<Origin>, seen: set<Origin>,
                  normalized: set<string>, o: Origin)
    ensures var drops := o.OfKey? && o.key !in normalized;
            && KeptMetadata(m, seen + {o}, normalized) ==
               (if drops then KeptMetadata(m, seen, normalized) - {o.key} else KeptMetadata(m, seen, normalized))
            && KeptWire(wire, seen + {o}, normalized) ==
               (if drops then KeptWire(wire, seen, normalized) - {o.key} else KeptWire(wire, seen, normalized))
            && KeptSeen(accepted, seen + {o}, normalized) ==
               (if drops then KeptSeen(accepted, seen, normalized) - {o} else KeptSeen(accepted, seen, normalized))
  {
  }

  lemma AllSeen(now: set<Origin>, accepted: set<Origin>, seen: set<Origin>, normalized: set<string>)
    requires seen == accepted && now == KeptSeen(accepted, seen, normalized)
    ensures now == KeptOrigins(accepted, normalized)
  {
  }

  function OfFields(fields: set<Field>): set<Origin> { set f <- fields :: OfField(f) }

  function ValueOf(fields: map<Field, string>, f: Field): string { if f in fields then fields[f] else "" }

  predicate Accepts(f: Field, value: string, fields: map<Field, string>, accepted: set<Origin>) {
    ValidFor(f, value) && (ValueOf(fields, f) == "" || OfField(f) in accepted)
  }

  /** What the scan has established when `bag` has been visited from `s`. */
  ghost predicate Scanned(s: State, bag: map<string, string>, fields: map<Field, string>, accepted: set<Origin>,
                          confirmed: set<Field>, imported: map<string, TraceState.Value>, hasNamespace: bool)
  {
    && (forall f :: f in confirmed <==> Confirmed(s, bag, f))
    && (forall f :: ValueOf(fields, f) == if Confirmed(s, bag, f) then bag[FieldName(f)] else Get(s, f))
    && accepted == s.accepted + OfFields(confirmed)
    && imported == OfferedMeta(s, bag) && (hasNamespace <==> HasNamespace(bag))
  }

  lemma NothingScanned(s: State, fields: map<Field, string>)
    requires forall f :: ValueOf(fields, f) == Get(s, f)
    ensures MapOf([]) == map[] && Scanned(s, map[], fields, s.accepted, {}, map[], false)
  {
    hide Get;
    assert forall suffix :: !OffersMeta(s, map[], suffix);
    assert OfferedMeta(s, map[]) == map[];
  }

  // One scalar member: it confirms its field when it is valid and the field
  // is replaceable.
  lemma ScanField(s: State, bag: map<string, string>, key: string, value: string, fields: map<Field, string>,
                  accepted: set<Origin>, confirmed: set<Field>, f: Field)
    requires key !in bag
    requires forall g :: g in confirmed <==> Confirmed(s, bag, g)
    requires ValueOf(fields, f) == if Confirmed(s, bag, f) then bag[FieldName(f)] else Get(s, f)
    requires accepted == s.accepted + OfFields(confirmed)
    ensures Confirmed(s, bag[key := value], f) <==>
            Confirmed(s, bag, f) || (Parse(key) == Scalar(f) && Accepts(f, value, fields, accepted))
    ensures Parse(key) == Scalar(f) ==> key == FieldName(f) && !Confirmed(s, bag, f)
    ensures Confirmed(s, bag, f) ==> FieldName(f) in bag && bag[key := value][FieldName(f)] == bag[FieldName(f)]
  {
    OneMoreField(s, bag, key, value, f);
    hide Confirmed, Parse, FieldName, ValidFor, Get;
    assert OfField(f) in accepted <==> OfField(f) in s.accepted || f in confirmed;
  }

  lemma ScanStep(s: State, bag: map<string, string>, key: string, value: string, fields: map<Field, string>,
                 accepted: set<Origin>, confirmed: set<Field>, imported: map<string, TraceState.Value>,
                 hasNamespace: bool)
    requires key !in bag && Scanned(s, bag, fields, accepted, confirmed, imported, hasNamespace)
    ensures var member := Parse(key);
            var takes := member.Scalar? && Accepts(member.field, value, fields, accepted);
            var offers := member.Meta? && WireKey(member.suffix) && WireValue(value) && member.suffix !in LocalKeys(s);
            Scanned(s, bag[key := value], if takes then fields[member.field := value] else fields,
                    if takes then accepted + {OfField(member.field)} else accepted,
                    if takes then confirmed + {member.field} else confirmed,
                    if offers then imported[member.suffix := Text(value)] else imported,
                    hasNamespace || !member.Foreign?)
  {
    ScanFields(s, bag, key, value, fields, accepted, confirmed);
    OneMoreMeta(s, bag, key, value);
    OneMoreName(bag, key, value);
    var member := Parse(key);
    if member.Scalar? { OneMoreOrigin(confirmed, member.field); }
    hide Confirmed, Parse, FieldName, Get, OfferedMeta, HasNamespace, WireKey, WireValue, Accepts, LocalKeys, OfFields,
         ValueOf;
  }

  // All fields across one member.
  lemma ScanFields(s: State, bag: map<string, string>, key: string, value: string, fields: map<Field, string>,
                   accepted: set<Origin>, confirmed: set<Field>)
    requires key !in bag
    requires forall f :: f in confirmed <==> Confirmed(s, bag, f)
    requires forall f :: ValueOf(fields, f) == if Confirmed(s, bag, f) then bag[FieldName(f)] else Get(s, f)
    requires accepted == s.accepted + OfFields(confirmed)
    ensures var next, member := bag[key := value], Parse(key);
            var takes := member.Scalar? && Accepts(member.field, value, fields, accepted);
            && (forall f :: f in (if takes then confirmed + {member.field} else confirmed) <==> Confirmed(s, next, f))
            && (forall f :: ValueOf(if takes then fields[member.field := value] else fields, f) ==
                            if Confirmed(s, next, f) then next[FieldName(f)] else Get(s, f))
  {
    hide Confirmed, Parse, FieldName, Get, Accepts, OfFields;
    forall f
      ensures Confirmed(s, bag[key := value], f) <==>
              Confirmed(s, bag, f) || (Parse(key) == Scalar(f) && Accepts(f, value, fields, accepted))
      ensures Parse(key) == Scalar(f) ==> FieldName(f) == key && !Confirmed(s, bag, f)
      ensures Confirmed(s, bag, f) ==> FieldName(f) in bag && bag[key := value][FieldName(f)] == bag[FieldName(f)]
    {
      ScanField(s, bag, key, value, fields, accepted, confirmed, f);
      NamedNext(bag, key, value, f);
    }
  }

  lemma OneMoreOrigin(fields: set<Field>, f: Field)
    ensures OfFields(fields + {f}) == OfFields(fields) + {OfField(f)}
  {
  }

  lemma NamedNext(bag: map<string, string>, key: string, value: string, f: Field)
    ensures key == FieldName(f) ==> bag[key := value][FieldName(f)] == value
  {
  }

  // The metadata test of the scan is a test for local keys.
  lemma LocalSeen(s: State, bag: map<string, string>, fields: map<Field, string>, accepted: set<Origin>,
                  confirmed: set<Field>, imported: map<string, TraceState.Value>, hasNamespace: bool, member: Member)
    requires Scanned(s, bag, fields, accepted, confirmed, imported, hasNamespace)
    ensures member.Meta? ==>
              (member.suffix !in LocalKeys(s) <==> member.suffix !in s.metadata || OfKey(member.suffix) in accepted)
  {
    hide Confirmed, OfferedMeta, HasNamespace, Get, FieldName;
  }

  lemma SameFields(u: State, v: State)
    requires forall f :: Get(u, f) == Get(v, f)
    requires u.metadata == v.metadata && u.wire == v.wire && u.accepted == v.accepted
    ensures u == v
  {
    assert u.name == Get(u, Name) && u.user == Get(u, User) && u.session == Get(u, Session);
    assert u.version == Get(u, Version) && u.environment == Get(u, Environment);
    assert v.name == Get(v, Name) && v.user == Get(v, User) && v.session == Get(v, Session);
    assert v.version == Get(v, Version) && v.environment == Get(v, Environment);
  }

  lemma NoneConfirmed(s: State, bag: map<string, string>)
    requires !HasNamespace(bag)
    ensures forall f :: !Confirmed(s, bag, f)
  {
    forall f ensures !Confirmed(s, bag, f) {
      ParseNames("", f, "");
      hide Parse, FieldName, ValidFor, Replaceable;
      assert FieldName(f) !in bag;
    }
  }

  // The scan and the retirement of fields together are `ImportFields`.
  lemma FieldsDone(s: State, u: State, bag: map<string, string>, confirmed: set<Field>, hasNamespace: bool)
    requires forall f :: f in confirmed <==> Confirmed(s, bag, f)
    requires u.metadata == s.metadata && u.wire == s.wire && (hasNamespace <==> HasNamespace(bag))
    requires hasNamespace ==>
               && (forall f :: Get(u, f) == ImportedField(s, bag, f))
               && u.accepted == set o <- s.accepted + OfFields(confirmed) | o.OfKey? || o.field in confirmed
    requires !hasNamespace ==>
               (forall f :: Get(u, f) == if Confirmed(s, bag, f) then bag[FieldName(f)] else Get(s, f))
               && u.accepted == s.accepted + OfFields(confirmed)
    ensures u == if hasNamespace then ImportFields(s, bag) else s
    ensures hasNamespace ==> LocalKeys(u) == LocalKeys(s)
  {
    if hasNamespace {
      AllFields();
      hide ImportedField, Confirmed, HasNamespace;
      var v := ImportFields(s, bag);
      assert forall f :: Get(v, f) == ImportedField(s, bag, f);
      assert u.accepted == v.accepted;
      hide ImportFields, Get;
      SameFields(u, v);
    } else {
      NoneConfirmed(s, bag);
      hide Confirmed, HasNamespace;
      assert u.accepted == s.accepted;
      SameFields(u, s);
    }
  }

  function ToAdd(keys: set<string>, accepted: set<Origin>, n: Normalized): set<string> {
    set k <- n.values.Keys | k !in keys || OfKey(k) in accepted
  }

  function OfKeys(keys: set<string>): set<Origin> { set k <- keys :: OfKey(k) }

  /** The three collections once the keys `done` have been added. */
  ghost predicate AddedSoFar(m: map<string, string>, w: set<string>, o: set<Origin>, n: Normalized, done: set<string>,
                             metadata: map<string, string>, wire: set<string>, accepted: set<Origin>)
  {
    && done <= n.values.Keys && metadata == WithAdded(m, n.values, done)
    && wire == (w - done) + (n.strings * done) && accepted == o + OfKeys(done)
  }

  lemma NoneAdded(m: map<string, string>, w: set<string>, o: set<Origin>, n: Normalized)
    ensures AddedSoFar(m, w, o, n, {}, m, w, o)
    ensures ToAdd(m.Keys, o, n) - n.values.Keys == {}
  {
  }

  lemma AddOne(m: map<string, string>, w: set<string>, o: set<Origin>, n: Normalized, done: set<string>,
               metadata: map<string, string>, wire: set<string>, accepted: set<Origin>, k: string)
    requires AddedSoFar(m, w, o, n, done, metadata, wire, accepted) && k in n.values && k !in done
    ensures k in ToAdd(m.Keys, o, n) <==> k !in metadata || OfKey(k) in accepted
    ensures metadata.Keys <= m.Keys + n.values.Keys
    ensures AddedSoFar(m, w, o, n, done + {k}, metadata[k := n.values[k]],
                       if k in n.strings then wire + {k} else wire - {k}, accepted + {OfKey(k)})
  {
    hide WithAdded, OfKeys, ToAdd;
    OneMoreKey(m, w, o, n, done, k);
    InToAdd(m.Keys, o, n, k);
  }

  lemma InToAdd(keys: set<string>, accepted: set<Origin>, n: Normalized, k: string)
    ensures ToAdd(keys, accepted, n) <= n.values.Keys
    ensures k in ToAdd(keys, accepted, n) <==> k in n.values && (k !in keys || OfKey(k) in accepted)
  {
  }

  lemma OneMoreKey(m: map<string, string>, w: set<string>, o: set<Origin>, n: Normalized, done: set<string>, k: string)
    requires done <= n.values.Keys && k in n.values && k !in done
    ensures k in WithAdded(m, n.values, done) <==> k in m
    ensures OfKey(k) in o + OfKeys(done) <==> OfKey(k) in o
    ensures WithAdded(m, n.values, done).Keys <= m.Keys + n.values.Keys
    ensures WithAdded(m, n.values, done)[k := n.values[k]] == WithAdded(m, n.values, done + {k})
    ensures (w - (done + {k})) + (n.strings * (done + {k})) ==
            if k in n.strings then ((w - done) + (n.strings * done)) + {k} else ((w - done) + (n.strings * done)) - {k}
    ensures o + OfKeys(done + {k}) == (o + OfKeys(done)) + {OfKey(k)}
  {
  }

  lemma AllFields()
    ensures forall f: Field :: f in Fields()
  {
    forall f: Field ensures f in Fields() {
      match f
      case Name =>
      case User =>
      case Session =>
      case Version =>
      case Environment =>
    }
  }

  function LocalMetadata(m: map<string, string>, accepted: set<Origin>): set<string> {
    set k <- m.Keys | OfKey(k) !in accepted
  }

  lemma LocalAre(s: State)
    ensures LocalMetadata(s.metadata, s.accepted) == LocalKeys(s) <= s.metadata.Keys
    ensures s.accepted == {} ==> s.metadata.Keys == LocalKeys(s)
  {
  }

  lemma NothingNormalized(cfg: Config, existing: set<string>)
    ensures Normalize(cfg, map[], existing) == Normalized(map[], {})
  {
  }

  lemma ProjectedDone(s: State, n: Normalized, m: map<string, string>, w: set<string>, o: set<Origin>,
                      metadata: map<string, string>, wire: set<string>, accepted: set<Origin>)
    requires AddedSoFar(m, w, o, n, ToAdd(m.Keys, o, n), metadata, wire, accepted)
    requires var added, t := ToAdd(m.Keys, o, n), ImportMetadata(s, n);
             && added <= n.values.Keys && t.metadata == WithAdded(m, n.values, added)
             && t.wire == (w - added) + (n.strings * added) && t.accepted == o + OfKeys(added)
    ensures ImportMetadata(s, n) == s.(metadata := metadata, wire := wire, accepted := accepted)
  {
    hide WithAdded, ToAdd, OfKeys, LocalKeys;
  }

  // The state after retiring and adding is the projection of the import.
  lemma Projected(s: State, n: Normalized, metadata: map<string, string>, wire: set<string>, accepted: set<Origin>)
    requires s.wire <= s.metadata.Keys && n.strings <= n.values.Keys
    requires metadata == KeptMetadata(s.metadata, s.accepted, n.values.Keys)
    requires wire == KeptWire(s.wire, s.accepted, n.values.Keys)
    requires accepted == KeptOrigins(s.accepted, n.values.Keys)
    requires forall k :: OfKey(k) in s.accepted ==> k in s.metadata
    ensures metadata.Keys + n.values.Keys == LocalKeys(s) + n.values.Keys
    ensures var added, t := ToAdd(metadata.Keys, accepted, n), ImportMetadata(s, n);
            && added == n.values.Keys - LocalKeys(s)
            && t.metadata == WithAdded(metadata, n.values, added)
            && t.wire == (wire - added) + (n.strings * added)
            && t.accepted == accepted + OfKeys(added)
  {
    var added, t := ToAdd(metadata.Keys, accepted, n), ImportMetadata(s, n);
    assert forall k :: k in metadata <==> k in s.metadata && (k in LocalKeys(s) || k in n.values.Keys);
    assert added == n.values.Keys - LocalKeys(s);
    assert t.metadata.Keys == WithAdded(metadata, n.values, added).Keys;
  }

  lemma RoomLeft(keys: set<string>, all: set<string>, k: string)
    requires keys <= all && k in all && k !in keys && |all| <= MAX_METADATA
    ensures |keys| < MAX_METADATA
  {
    CardSubset(keys + {k}, all);
  }
}
