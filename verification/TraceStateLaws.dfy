/** Laws of trace state: local values win, the last import wins, and the
    bounds hold over every history. */
module TraceStateLaws {
  import opened BoundedKeys
  import opened TraceState

  lemma CardDisjoint<T>(a: set<T>, b: set<T>)
    requires a !! b
    ensures |a + b| == |a| + |b|
  {
  }

  /** Normalizing admits at most as many new keys as still fit. */
  lemma NormalizeIs(cfg: Config, values: map<string, Value>, existing: set<string>)
    ensures var n := Normalize(cfg, values, existing);
            && n.strings <= n.values.Keys
            && (forall k :: k in n.values ==> MetadataKey(k, cfg.utf8) && cfg.runes(n.values[k]) <= MAX_RUNES)
            && (|existing| <= MAX_METADATA ==> |n.values.Keys - existing| <= MAX_METADATA - |existing|)
  {
    hide MetadataKey, Encode;
    var n := Normalize(cfg, values, existing);
    if values != map[] && cfg.mask(values).Some? {
      var masked := cfg.mask(values).value;
      var valid := ValidKeys(cfg, masked.Keys);
      var new0 := SmallestOf(valid - existing, MAX_METADATA - Clamp(|existing|));
      SmallestOfIs(valid - existing, MAX_METADATA - Clamp(|existing|));
      ChosenIs(cfg, masked.Keys, existing);
      AscendingCard(new0);
      assert n.values.Keys <= Chosen(cfg, masked.Keys, existing);
      assert n.values.Keys - existing <= Elements(new0);
      CardSubset(n.values.Keys - existing, Elements(new0));
    }
  }

  lemma ChosenIs(cfg: Config, keys: set<string>, existing: set<string>)
    ensures forall k :: k in Chosen(cfg, keys, existing) ==> MetadataKey(k, cfg.utf8) && k in keys
  {
    hide MetadataKey;
    var valid := ValidKeys(cfg, keys);
    var cap := MAX_METADATA - Clamp(|existing|);
    SmallestOfIs(valid - existing, cap);
    var picked := SmallestOf(valid - existing, cap);
    forall k | k in picked ensures k in valid {
      var i :| 0 <= i < |picked| && picked[i] == k;
    }
  }

  lemma NormalizeCard(cfg: Config, values: map<string, Value>, existing: set<string>)
    requires |existing| <= MAX_METADATA
    ensures |existing + Normalize(cfg, values, existing).values.Keys| <= MAX_METADATA
  {
    NormalizeIs(cfg, values, existing);
    var keys := Normalize(cfg, values, existing).values.Keys;
    hide Normalize;
    CardDisjoint(existing, keys - existing);
    assert existing + keys == existing + (keys - existing);
  }

  // ---- import ----

  lemma AfterImport(cfg: Config, s: State, bag: map<string, string>, f: Field)
    requires HasNamespace(bag)
    ensures Get(Import(cfg, s, bag), f) == ImportedField(s, bag, f)
    ensures OfField(f) in Import(cfg, s, bag).accepted <==> Confirmed(s, bag, f)
  {
    hide Normalize, OfferedMeta, Parse, HasNamespace, ImportedField, Confirmed;
    assert f in Fields();
  }

  lemma ImportedMetadata(s: State, n: Normalized)
    requires n.strings <= n.values.Keys
    ensures var t, local := ImportMetadata(s, n), LocalKeys(s);
            && LocalKeys(t) == local && t.metadata.Keys == local + n.values.Keys
            && (forall k :: k in local ==> t.metadata[k] == s.metadata[k] && (k in t.wire <==> k in s.wire))
            && (forall k :: k in t.metadata && k !in local ==> k in n.values && t.metadata[k] == n.values[k])
            && (forall k :: OfKey(k) in t.accepted <==> k in n.values.Keys - local)
            && (forall f :: OfField(f) in t.accepted <==> OfField(f) in s.accepted)
            && t.wire <= t.metadata.Keys
  {
    var t := ImportMetadata(s, n);
    assert forall k :: k in LocalKeys(s) ==> OfKey(k) !in t.accepted && k in t.metadata;
  }

  lemma ImportedFields(s: State, bag: map<string, string>)
    ensures var u := ImportFields(s, bag);
            && LocalKeys(u) == LocalKeys(s) && u.metadata == s.metadata && u.wire == s.wire
  {
    hide ImportedField, Confirmed;
  }

  /** The local layer is untouched by any import. */
  lemma LocalLayerStays(cfg: Config, s: State, bag: map<string, string>)
    requires Wf(cfg, s)
    ensures var t := Import(cfg, s, bag);
            && LocalKeys(t) == LocalKeys(s)
            && (forall k :: k in LocalKeys(s) ==> t.metadata[k] == s.metadata[k] && (k in t.wire <==> k in s.wire))
            && (forall f :: OfField(f) !in s.accepted && Get(s, f) != "" ==>
                  Get(t, f) == Get(s, f) && OfField(f) !in t.accepted)
  {
    hide Wf, Normalize, OfferedMeta, HasNamespace, ImportFields, ImportMetadata;
    if HasNamespace(bag) {
      var n := Normalize(cfg, OfferedMeta(s, bag), LocalKeys(s));
      NormalizeIs(cfg, OfferedMeta(s, bag), LocalKeys(s));
      ImportedFields(s, bag);
      ImportedMetadata(ImportFields(s, bag), n);
      forall f ensures ImportedField(s, bag, f) == Get(Import(cfg, s, bag), f)
               ensures OfField(f) in Import(cfg, s, bag).accepted <==> Confirmed(s, bag, f) {
        AfterImport(cfg, s, bag, f);
      }
      hide Import, Offered, LocalKeys;
    }
  }

  /** What an import leaves of the metadata: the local keys and the keys just
      normalized, at most 32 together. */
  lemma ImportedKeys(cfg: Config, s: State, bag: map<string, string>)
    requires Wf(cfg, s) && HasNamespace(bag)
    ensures var t, local, n := Import(cfg, s, bag), LocalKeys(s), Normalize(cfg, OfferedMeta(s, bag), LocalKeys(s));
            && t.metadata.Keys == local + n.values.Keys && |t.metadata| <= MAX_METADATA && t.wire <= t.metadata.Keys
            && (forall k :: k in local ==> t.metadata[k] == s.metadata[k])
            && (forall k :: k in t.metadata && k !in local ==> k in n.values && t.metadata[k] == n.values[k])
            && (forall k :: OfKey(k) in t.accepted <==> k in n.values.Keys - local)
  {
    hide Normalize, OfferedMeta, HasNamespace, ImportFields, ImportMetadata, MetadataKey, ValidEnvironment;
    var local, t := LocalKeys(s), Import(cfg, s, bag);
    NormalizeIs(cfg, OfferedMeta(s, bag), local);
    CardSubset(local, s.metadata.Keys);
    NormalizeCard(cfg, OfferedMeta(s, bag), local);
    ImportedFields(s, bag);
    ImportedMetadata(ImportFields(s, bag), Normalize(cfg, OfferedMeta(s, bag), local));
    assert |t.metadata| == |t.metadata.Keys|;
  }

  // A field is accepted only with a value, and an environment is valid.
  lemma ImportedFieldKeeps(cfg: Config, s: State, bag: map<string, string>, f: Field)
    requires HasNamespace(bag)
    requires OfField(f) in s.accepted ==> Get(s, f) != ""
    requires f.Environment? && Get(s, f) != "" ==> ValidEnvironment(Get(s, f))
    ensures var t := Import(cfg, s, bag);
            && (OfField(f) in t.accepted ==> Get(t, f) != "")
            && (f.Environment? && Get(t, f) != "" ==> ValidEnvironment(Get(t, f)))
  {
    hide Import, ValidEnvironment, FieldName;
    AfterImport(cfg, s, bag, f);
  }

  /** Imports keep states well formed. */
  lemma ImportKeeps(cfg: Config, s: State, bag: map<string, string>)
    requires Wf(cfg, s)
    ensures Wf(cfg, Import(cfg, s, bag))
  {
    hide HasNamespace, Import, ImportFields, ImportMetadata, FieldsKept, MetadataKept;
    if HasNamespace(bag) {
      ImportedFieldsKept(cfg, s, bag);
      ImportedMetadataKept(cfg, s, bag);
      KeptIsWf(cfg, Import(cfg, s, bag));
    } else {
      SameImportState(cfg, s, bag);
      hide Wf;
    }
  }

  // The two halves of being well formed.
  ghost predicate FieldsKept(t: State) {
    forall f :: (OfField(f) in t.accepted ==> Get(t, f) != "") &&
                (f.Environment? && Get(t, f) != "" ==> ValidEnvironment(Get(t, f)))
  }

  ghost predicate MetadataKept(cfg: Config, t: State) {
    && (forall k :: OfKey(k) in t.accepted ==> k in t.metadata) && t.wire <= t.metadata.Keys
    && (forall k :: k in t.metadata ==> MetadataKey(k, cfg.utf8) && cfg.runes(t.metadata[k]) <= MAX_RUNES)
    && |t.metadata| <= MAX_METADATA
  }

  lemma KeptIsWf(cfg: Config, t: State)
    requires FieldsKept(t) && MetadataKept(cfg, t)
    ensures Wf(cfg, t)
  {
    assert t.environment == Get(t, Environment);
    hide MetadataKey, ValidEnvironment, Get;
  }

  lemma SameImportState(cfg: Config, s: State, bag: map<string, string>)
    requires !HasNamespace(bag)
    ensures Import(cfg, s, bag) == s
  {
    hide HasNamespace;
  }

  lemma ImportedFieldsKept(cfg: Config, s: State, bag: map<string, string>)
    requires Wf(cfg, s) && HasNamespace(bag)
    ensures FieldsKept(Import(cfg, s, bag))
  {
    assert s.environment == Get(s, Environment);
    hide HasNamespace, Import, MetadataKey, ValidEnvironment, Get;
    var t := Import(cfg, s, bag);
    forall f ensures (OfField(f) in t.accepted ==> Get(t, f) != "") &&
                     (f.Environment? && Get(t, f) != "" ==> ValidEnvironment(Get(t, f))) {
      ImportedFieldKeeps(cfg, s, bag, f);
    }
  }

  lemma ImportedMetadataKept(cfg: Config, s: State, bag: map<string, string>)
    requires Wf(cfg, s) && HasNamespace(bag)
    ensures MetadataKept(cfg, Import(cfg, s, bag))
  {
    hide Normalize, OfferedMeta, HasNamespace, Import, MetadataKey, ValidEnvironment, Get, LocalKeys;
    var t, n := Import(cfg, s, bag), Normalize(cfg, OfferedMeta(s, bag), LocalKeys(s));
    ImportedKeys(cfg, s, bag);
    NormalizeIs(cfg, OfferedMeta(s, bag), LocalKeys(s));
    LocalAreMetadata(s);
    forall k | k in t.metadata ensures MetadataKey(k, cfg.utf8) && cfg.runes(t.metadata[k]) <= MAX_RUNES {
      assert k in LocalKeys(s) || k in n.values;
    }
  }

  lemma LocalAreMetadata(s: State)
    ensures LocalKeys(s) <= s.metadata.Keys
  {
  }

  // What an import reads of a state is what an earlier import leaves alone.
  lemma SameImportedField(cfg: Config, s: State, t: State, bag: map<string, string>, f: Field)
    requires OfField(f) !in s.accepted && Get(s, f) != "" ==> Get(t, f) == Get(s, f) && OfField(f) !in t.accepted
    requires Replaceable(s, f) ==> Replaceable(t, f)
    requires OfField(f) in t.accepted ==> Get(t, f) != ""
    requires OfField(f) in s.accepted ==> Get(s, f) != ""
    requires Replaceable(s, f) && OfField(f) !in t.accepted ==> Get(t, f) == ""
    ensures ImportedField(t, bag, f) == ImportedField(s, bag, f) && (Confirmed(t, bag, f) <==> Confirmed(s, bag, f))
  {
  }

  lemma SameOffers(s: State, t: State, bag: map<string, string>)
    requires LocalKeys(s) == LocalKeys(t)
    ensures OfferedMeta(s, bag) == OfferedMeta(t, bag)
  {
    hide Parse, WireKey, WireValue, LocalKeys, MetaName;
  }

  lemma SameImport(s: State, t: State, bag: map<string, string>, n: Normalized)
    requires LocalKeys(s) == LocalKeys(t) && s.wire * LocalKeys(s) == t.wire * LocalKeys(t)
    requires forall k :: k in LocalKeys(s) ==> s.metadata[k] == t.metadata[k]
    requires forall f :: ImportedField(s, bag, f) == ImportedField(t, bag, f)
    requires forall f :: Confirmed(s, bag, f) <==> Confirmed(t, bag, f)
    ensures ImportMetadata(ImportFields(s, bag), n) == ImportMetadata(ImportFields(t, bag), n)
  {
    hide ImportedField, Confirmed;
    var a, b := ImportMetadata(ImportFields(s, bag), n), ImportMetadata(ImportFields(t, bag), n);
    assert LocalKeys(ImportFields(s, bag)) == LocalKeys(s);
    assert LocalKeys(ImportFields(t, bag)) == LocalKeys(t);
    hide LocalKeys;
    assert a.metadata == b.metadata;
    assert a.wire == b.wire;
    assert a.accepted == b.accepted;
  }

  /** The last import wins: a namespace imported after another leaves what it
      would have left alone. */
  lemma LastImportWins(cfg: Config, s: State, first: map<string, string>, last: map<string, string>)
    requires Wf(cfg, s) && HasNamespace(first) && HasNamespace(last)
    ensures Import(cfg, Import(cfg, s, first), last) == Import(cfg, s, last)
  {
    var t := Import(cfg, s, first);
    LocalLayerStays(cfg, s, first);
    ImportKeeps(cfg, s, first);
    forall f
      ensures ImportedField(s, last, f) == ImportedField(t, last, f)
      ensures Confirmed(s, last, f) <==> Confirmed(t, last, f)
    {
      AfterImport(cfg, s, first, f);
      hide HasNamespace, Import, ValidFor, Offered;
      SameImportedField(cfg, s, t, last, f);
    }
    SameOffers(s, t, last);
    hide Normalize, OfferedMeta, HasNamespace, ImportedField, Confirmed, ImportFields, ImportMetadata, MetadataKey,
         LocalKeys;
    assert s.wire * LocalKeys(s) == t.wire * LocalKeys(t);
    SameImport(s, t, last, Normalize(cfg, OfferedMeta(s, last), LocalKeys(s)));
  }

  // ---- local calls and histories ----

  lemma MergedFieldKeeps(cfg: Config, s: State, f: Field, value: string)
    requires Wf(cfg, s)
    ensures Wf(cfg, MergedField(cfg, s, f, value))
    ensures MergedField(cfg, s, f, value).metadata == s.metadata
  {
    hide MetadataKey, ValidEnvironment;
    var t := MergedField(cfg, s, f, value);
    assert forall g :: g != f ==> Get(t, g) == Get(s, g);
    assert ValidEnvironment(value) ==> value != "" by { EnvironmentSet(value); }
  }

  lemma EnvironmentSet(value: string)
    ensures ValidEnvironment(value) ==> value != ""
  {
  }

  lemma MergedMetadata(s: State, n: Normalized)
    requires n.strings <= n.values.Keys && s.wire <= s.metadata.Keys
    requires forall k :: OfKey(k) in s.accepted ==> k in s.metadata
    ensures var t := MergeMetadata(s, n);
            && t.metadata.Keys == s.metadata.Keys + n.values.Keys && t.wire <= t.metadata.Keys
            && (forall k :: k in t.metadata ==> t.metadata[k] == if k in n.values then n.values[k] else s.metadata[k])
            && (forall k :: OfKey(k) in t.accepted ==> k in t.metadata)
            && (forall f :: OfField(f) in t.accepted ==> OfField(f) in s.accepted) && forall f :: Get(t, f) == Get(s, f)
  {
  }

  lemma MergeMetadataKeeps(cfg: Config, s: State, metadata: map<string, Value>)
    requires Wf(cfg, s)
    ensures Wf(cfg, MergeMetadata(s, Normalize(cfg, metadata, s.metadata.Keys)))
  {
    hide Normalize, MetadataKey, ValidEnvironment, MergeMetadata, Get;
    var n := Normalize(cfg, metadata, s.metadata.Keys);
    var t := MergeMetadata(s, n);
    NormalizeIs(cfg, metadata, s.metadata.Keys);
    MergedMetadata(s, n);
    MergedCard(cfg, s, metadata);
    SameEnvironment(s, t);
    forall k | k in t.metadata ensures MetadataKey(k, cfg.utf8) && cfg.runes(t.metadata[k]) <= MAX_RUNES {
      assert k in n.values || k in s.metadata.Keys;
    }
  }

  lemma SameEnvironment(s: State, t: State)
    requires Get(t, Environment) == Get(s, Environment)
    ensures t.environment == s.environment
  {
  }

  lemma MergedCard(cfg: Config, s: State, metadata: map<string, Value>)
    requires |s.metadata| <= MAX_METADATA
    ensures |MergeMetadata(s, Normalize(cfg, metadata, s.metadata.Keys)).metadata| <= MAX_METADATA
  {
    hide Normalize;
    var n := Normalize(cfg, metadata, s.metadata.Keys);
    NormalizeCard(cfg, metadata, s.metadata.Keys);
    assert (s.metadata + n.values).Keys == s.metadata.Keys + n.values.Keys;
    assert |s.metadata + n.values| == |(s.metadata + n.values).Keys|;
  }

  lemma MergeKeeps(cfg: Config, s: State, values: map<Field, string>, metadata: map<string, Value>)
    requires Wf(cfg, s)
    ensures Wf(cfg, Merge(cfg, s, values, metadata))
  {
    hide Wf, MergedField, MergeMetadata, Normalize;
    var a := if Name in values then MergedField(cfg, s, Name, values[Name]) else s;
    if Name in values { MergedFieldKeeps(cfg, s, Name, values[Name]); }
    var b := if User in values then MergedField(cfg, a, User, values[User]) else a;
    if User in values { MergedFieldKeeps(cfg, a, User, values[User]); }
    var c := if Session in values then MergedField(cfg, b, Session, values[Session]) else b;
    if Session in values { MergedFieldKeeps(cfg, b, Session, values[Session]); }
    var d := if Version in values then MergedField(cfg, c, Version, values[Version]) else c;
    if Version in values { MergedFieldKeeps(cfg, c, Version, values[Version]); }
    var e := if Environment in values then MergedField(cfg, d, Environment, values[Environment]) else d;
    if Environment in values { MergedFieldKeeps(cfg, d, Environment, values[Environment]); }
    MergeMetadataKeeps(cfg, e, metadata);
  }

  datatype Call =
    | WithTraceAttributes(values: map<Field, string>, metadata: map<string, Value>)
    | FromBaggage(bag: map<string, string>)

  ghost function Apply(cfg: Config, s: State, call: Call): State {
    match call
    case WithTraceAttributes(values, metadata) => Merge(cfg, s, values, metadata)
    case FromBaggage(bag) => Import(cfg, s, bag)
  }

  ghost function History(cfg: Config, calls: seq<Call>): State {
    if calls == [] then EMPTY else Apply(cfg, History(cfg, calls[..|calls| - 1]), calls[|calls| - 1])
  }

  /** Over every history: at most 32 metadata keys, every key valid, every
      value short, and only set fields are accepted. */
  lemma {:induction false} HistoryIsWellFormed(cfg: Config, calls: seq<Call>)
    ensures Wf(cfg, History(cfg, calls))
    decreases |calls|
  {
    if calls != [] {
      HistoryIsWellFormed(cfg, calls[..|calls| - 1]);
      hide Wf, Merge, Import;
      var s := History(cfg, calls[..|calls| - 1]);
      match calls[|calls| - 1]
      case WithTraceAttributes(values, metadata) => MergeKeeps(cfg, s, values, metadata);
      case FromBaggage(bag) => ImportKeeps(cfg, s, bag);
    }
  }

  /** A value set by a local call stays through any later imports. */
  lemma {:induction false} LocalValuesWin(cfg: Config, s: State, bags: seq<map<string, string>>, f: Field, k: string)
    requires Wf(cfg, s)
    ensures var t := Imports(cfg, s, bags);
            && Wf(cfg, t)
            && (OfField(f) !in s.accepted && Get(s, f) != "" ==> Get(t, f) == Get(s, f) && OfField(f) !in t.accepted)
            && (k in LocalKeys(s) ==> k in LocalKeys(t) && t.metadata[k] == s.metadata[k])
    decreases |bags|
  {
    hide Wf, Import;
    if bags != [] {
      var u := Imports(cfg, s, bags[..|bags| - 1]);
      LocalValuesWin(cfg, s, bags[..|bags| - 1], f, k);
      LocalLayerStays(cfg, u, bags[|bags| - 1]);
      ImportKeeps(cfg, u, bags[|bags| - 1]);
    }
  }

  ghost function Imports(cfg: Config, s: State, bags: seq<map<string, string>>): State {
    if bags == [] then s else Import(cfg, Imports(cfg, s, bags[..|bags| - 1]), bags[|bags| - 1])
  }
}
