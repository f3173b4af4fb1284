/** Exporting trace state as W3C baggage within the header budget (baggage.go),
    and reading it back. */
module BaggageExport {
  import opened BoundedKeys
  import opened TraceState
  import opened TraceStateLaws

  const MAX_MEMBERS: nat := 64
  const MAX_BYTES: nat := 8192

  datatype Item = Item(key: string, value: string)

  // ---- the budget ----

  /** The header: the rendered members with a comma between neighbours.
      `size` is the rendered size of one member. */
  function Bytes(items: seq<Item>, size: Item -> nat): nat {
    if items == [] then 0
    else Bytes(items[..|items| - 1], size) + size(items[|items| - 1]) + (if |items| > 1 then 1 else 0)
  }

  predicate Fits(items: seq<Item>, next: Item, size: Item -> nat) {
    |items| < MAX_MEMBERS && Bytes(items, size) + size(next) + (if items == [] then 0 else 1) <= MAX_BYTES
  }

  /** Whole members in order, up to the first that does not fit. */
  function Fill(items: seq<Item>, more: seq<Item>, size: Item -> nat): seq<Item>
    decreases |more|
  {
    if more == [] || !Fits(items, more[0], size) then items else Fill(items + [more[0]], more[1..], size)
  }

  /** Filling appends a prefix of what is offered, stops only where the next
      member does not fit, and never exceeds the budget. */
  lemma {:induction false} FillIs(items: seq<Item>, more: seq<Item>, size: Item -> nat) returns (n: nat)
    requires |items| <= MAX_MEMBERS && Bytes(items, size) <= MAX_BYTES
    ensures n <= |more| && Fill(items, more, size) == items + more[..n]
    ensures n < |more| ==> !Fits(items + more[..n], more[n], size)
    ensures |Fill(items, more, size)| <= MAX_MEMBERS && Bytes(Fill(items, more, size), size) <= MAX_BYTES
    decreases |more|
  {
    if more == [] || !Fits(items, more[0], size) {
      n := 0;
      assert items + more[..0] == items;
    } else {
      var next := items + [more[0]];
      assert next[..|items|] == items;
      var m := FillIs(next, more[1..], size);
      n := m + 1;
      assert next + more[1..][..m] == items + more[..n];
    }
  }

  // ---- what is offered, in order of priority ----

  function ScalarItem(s: State, f: Field): seq<Item> {
    if WireValue(Get(s, f)) then [Item(FieldName(f), Get(s, f))] else []
  }

  const PRIORITY: seq<Field> := [Environment, Session, User, Name, Version]

  function ScalarItems(s: State, fields: seq<Field>): seq<Item> {
    if fields == [] then [] else ScalarItem(s, fields[0]) + ScalarItems(s, fields[1..])
  }

  predicate WireMeta(s: State, key: string) { key in s.metadata && WireKey(key) && WireValue(s.metadata[key]) }

  function MetaItems(s: State, keys: seq<string>): seq<Item> {
    if keys == [] then []
    else
      var k := keys[|keys| - 1];
      MetaItems(s, keys[..|keys| - 1]) + (if WireMeta(s, k) then [Item(MetaName(k), s.metadata[k])] else [])
  }

  // The claim, when the current trace holds one.
  function ClaimItem(claim: Option<string>): seq<Item> {
    if claim.Some? && WireValue(claim.value) then [Item(ClaimName(), claim.value)] else []
  }

  /** Claim, environment, session, user, name, version, then metadata by key.
      Values outside the wire domain are left out. */
  ghost function OwnItems(s: State, claim: Option<string>): seq<Item> {
    ClaimItem(claim) + (ScalarItems(s, PRIORITY) + MetaItems(s, SmallestOf(s.wire, |s.wire|)))
  }

  function ForeignItems(bag: map<string, string>, keys: seq<string>, size: Item -> nat): seq<Item> {
    if keys == [] then []
    else
      var k := keys[|keys| - 1];
      ForeignItems(bag, keys[..|keys| - 1], size) +
      (if k in bag && Parse(k).Foreign? && size(Item(k, bag[k])) > 0 then [Item(k, bag[k])] else [])
  }

  /** The outbound members: foreign ones first, by key. */
  ghost function Export(s: State, claim: Option<string>, bag: map<string, string>, size: Item -> nat): seq<Item> {
    Fill(Fill([], ForeignItems(bag, SmallestOf(bag.Keys, |bag|), size), size), OwnItems(s, claim), size)
  }

  /** The header is within the W3C budget, and of the Langfuse members exactly
      a prefix in priority order survives. */
  lemma ExportIsBounded(s: State, claim: Option<string>, bag: map<string, string>, size: Item -> nat)
    returns (foreign: nat, own: nat)
    ensures var all, f := Export(s, claim, bag, size), ForeignItems(bag, SmallestOf(bag.Keys, |bag|), size);
            && |all| <= MAX_MEMBERS && Bytes(all, size) <= MAX_BYTES
            && foreign <= |f| && own <= |OwnItems(s, claim)|
            && all == f[..foreign] + OwnItems(s, claim)[..own]
            && (own < |OwnItems(s, claim)| ==> !Fits(all, OwnItems(s, claim)[own], size))
  {
    hide Fill, OwnItems, ForeignItems, Fits;
    var f := ForeignItems(bag, SmallestOf(bag.Keys, |bag|), size);
    foreign := FillIs([], f, size);
    assert [] + f[..foreign] == f[..foreign];
    own := FillIs(f[..foreign], OwnItems(s, claim), size);
  }

  /** Builds the outbound members as the source does: the foreign members
      sorted by key, then its own in order of priority, into one list and a
      running total, each group cut at its first member that does not fit. */
  method WireBaggageMembers(s: State, claim: Option<string>, bag: map<string, string>, size: Item -> nat)
    returns (members: seq<Item>)
    ensures members == Export(s, claim, bag, size)
  {
    hide Fill, MetaItems, ForeignItems, SmallestOf, ScalarItems, ClaimItem;
    var foreign := ForeignMembers(bag, size);
    members := [];
    var totalBytes := 0;
    members, totalBytes := Group(members, totalBytes, foreign, size);
    var metadata := MetadataMembers(s);
    members, totalBytes := Group(members, totalBytes, ClaimItem(claim) + (ScalarItems(s, PRIORITY) + metadata), size);
  }

  method ForeignMembers(bag: map<string, string>, size: Item -> nat) returns (foreign: seq<Item>)
    ensures foreign == ForeignItems(bag, SmallestOf(bag.Keys, |bag|), size)
  {
    hide SmallestOf;
    var keys := SortedKeys(bag.Keys);
    assert |bag| == |bag.Keys|;
    foreign := [];
    for i := 0 to |keys|
      invariant foreign == ForeignItems(bag, keys[..i], size)
    {
      assert keys[..i + 1][..i] == keys[..i];
      if keys[i] in bag && Parse(keys[i]).Foreign? && size(Item(keys[i], bag[keys[i]])) > 0 {
        foreign := foreign + [Item(keys[i], bag[keys[i]])];
      }
    }
    assert keys[..|keys|] == keys;
  }

  method MetadataMembers(s: State) returns (metadata: seq<Item>)
    ensures metadata == MetaItems(s, SmallestOf(s.wire, |s.wire|))
  {
    hide SmallestOf;
    var keys := SortedKeys(s.wire);
    metadata := [];
    for i := 0 to |keys|
      invariant metadata == MetaItems(s, keys[..i])
    {
      assert keys[..i + 1][..i] == keys[..i];
      if WireMeta(s, keys[i]) {
        metadata := metadata + [Item(MetaName(keys[i]), s.metadata[keys[i]])];
      }
    }
    assert keys[..|keys|] == keys;
  }

  /** sort.Strings of the keys of a map. */
  method SortedKeys(keys: set<string>) returns (order: seq<string>)
    ensures order == SmallestOf(keys, |keys|)
  {
    hide *;
    var sorted := new string[|keys|];
    var n: nat, left := 0, keys;
    ghost var seen: set<string> := {};
    NothingKept(|keys|);
    assert sorted[..n] == [];
    while left != {}
      invariant seen + left == keys && seen !! left && n <= sorted.Length == |keys|
      invariant Smallest(sorted[..n], seen, |keys|)
      decreases |left|
    {
      var k :| k in left;
      var over;
      n, over := Keep(sorted, n, |keys|, k, seen);
      left, seen := left - {k}, seen + {k};
    }
    assert seen == keys;
    order := sorted[..n];
    SmallestOfIs(keys, |keys|);
    SelectionIsUnique(order, SmallestOf(keys, |keys|), keys, |keys|);
  }

  method Group(items: seq<Item>, bytes: nat, more: seq<Item>, size: Item -> nat)
    returns (members: seq<Item>, totalBytes: nat)
    requires bytes == Bytes(items, size)
    ensures members == Fill(items, more, size) && totalBytes == Bytes(members, size)
  {
    members, totalBytes := items, bytes;
    var exhausted := false;
    for i := 0 to |more|
      invariant totalBytes == Bytes(members, size)
      invariant Fill(items, more, size) == if exhausted then members else Fill(members, more[i..], size)
    {
      if !exhausted {
        var need := size(more[i]) + (if |members| > 0 then 1 else 0);
        if |members| < MAX_MEMBERS && totalBytes + need <= MAX_BYTES {
          assert (members + [more[i]])[..|members|] == members;
          assert more[i..][1..] == more[i + 1..];
          totalBytes := totalBytes + need;
          members := members + [more[i]];
        } else {
          exhausted := true;
        }
      }
    }
  }

  // ---- the round trip ----

  function MapOf(items: seq<Item>): map<string, string> {
    if items == [] then map[] else MapOf(items[..|items| - 1])[items[|items| - 1].key := items[|items| - 1].value]
  }

  // The value a state gives a member name.
  predicate Says(s: State, item: Item) {
    match Parse(item.key)
    case Scalar(f) => item.value == Get(s, f) && WireValue(item.value)
    case Meta(k) => k in s.wire && WireMeta(s, k) && item.value == s.metadata[k]
    case _ => true
  }

  ghost predicate AllSay(s: State, items: seq<Item>) { forall i :: 0 <= i < |items| ==> Says(s, items[i]) }

  lemma SayTogether(s: State, a: seq<Item>, b: seq<Item>)
    requires AllSay(s, a) && AllSay(s, b)
    ensures AllSay(s, a + b)
    ensures forall x :: x in a || x in b ==> x in a + b
  {
    hide Says;
    assert forall i :: 0 <= i < |b| ==> (a + b)[|a| + i] == b[i];
    assert forall i :: 0 <= i < |a| ==> (a + b)[i] == a[i];
  }

  lemma {:induction false} ScalarsSay(s: State, fields: seq<Field>)
    ensures AllSay(s, ScalarItems(s, fields))
    ensures forall f :: f in fields && WireValue(Get(s, f)) ==> Item(FieldName(f), Get(s, f)) in ScalarItems(s, fields)
    decreases |fields|
  {
    hide Says, AllSay, WireValue, Get, FieldName;
    if fields != [] {
      var head, more := ScalarItem(s, fields[0]), ScalarItems(s, fields[1..]);
      ScalarSays(s, fields[0]);
      ScalarsSay(s, fields[1..]);
      SayTogether(s, head, more);
      assert fields == [fields[0]] + fields[1..];
    } else {
      NoneSay(s);
    }
  }

  lemma NoneSay(s: State)
    ensures AllSay(s, [])
  {
  }

  lemma {:induction false} MapSays(s: State, items: seq<Item>)
    requires AllSay(s, items)
    ensures forall k :: k in MapOf(items) ==> Says(s, Item(k, MapOf(items)[k]))
    ensures forall i :: 0 <= i < |items| ==> items[i].key in MapOf(items)
    decreases |items|
  {
    hide Says;
    if items != [] {
      var init := items[..|items| - 1];
      assert forall i :: 0 <= i < |init| ==> init[i] == items[i];
      MapSays(s, init);
      forall i | 0 <= i < |items| ensures items[i].key in MapOf(items) {
        if i < |init| { assert init[i].key in MapOf(init); }
      }
    }
  }

  lemma {:induction false} MetaSays(s: State, keys: seq<string>)
    requires forall i :: 0 <= i < |keys| ==> keys[i] in s.wire
    ensures AllSay(s, MetaItems(s, keys))
    ensures forall i :: 0 <= i < |keys| && WireMeta(s, keys[i]) ==>
              Item(MetaName(keys[i]), s.metadata[keys[i]]) in MetaItems(s, keys)
    decreases |keys|
  {
    if keys != [] {
      var init, k := keys[..|keys| - 1], keys[|keys| - 1];
      MetaSays(s, init);
      ParseNames(MetaName(k), Name, k);
      hide Parse, MetaName, WireMeta;
      assert forall i :: 0 <= i < |init| ==> init[i] == keys[i];
    }
  }

  lemma {:induction false} ForeignSays(s: State, bag: map<string, string>, keys: seq<string>, size: Item -> nat)
    ensures AllSay(s, ForeignItems(bag, keys, size))
    decreases |keys|
  {
    hide Parse;
    if keys != [] { ForeignSays(s, bag, keys[..|keys| - 1], size); }
  }

  lemma ScalarSays(s: State, f: Field)
    ensures AllSay(s, ScalarItem(s, f))
  {
    ParseNames("", f, "");
    hide Parse, FieldName, WireValue;
  }

  lemma OwnSays(s: State, claim: Option<string>)
    requires s.wire <= s.metadata.Keys
    ensures AllSay(s, OwnItems(s, claim))
    ensures forall f :: WireValue(Get(s, f)) ==> Item(FieldName(f), Get(s, f)) in OwnItems(s, claim)
    ensures forall k :: k in s.wire && WireMeta(s, k) ==> Item(MetaName(k), s.metadata[k]) in OwnItems(s, claim)
  {
    hide Says, AllSay, WireValue, FieldName, MetaName, MetaItems, ScalarItems, ClaimItem, Smallest, WireKey, Get;
    var keys := SmallestOf(s.wire, |s.wire|);
    SmallestOfIs(s.wire, |s.wire|);
    AllKept(keys, s.wire, |s.wire|);
    assert forall k :: k in keys <==> k in Elements(keys);
    MetaSays(s, keys);
    ScalarsSay(s, PRIORITY);
    ClaimSays(s, claim);
    var scalars, metas := ScalarItems(s, PRIORITY), MetaItems(s, keys);
    SayTogether(s, scalars, metas);
    SayTogether(s, ClaimItem(claim), scalars + metas);
    forall k | k in s.wire && WireMeta(s, k) ensures Item(MetaName(k), s.metadata[k]) in metas {
      assert k in Elements(keys);
      var i :| 0 <= i < |keys| && keys[i] == k;
    }
    forall f ensures f in PRIORITY { ListsAll(f); }
  }

  lemma ListsAll(f: Field)
    ensures f in PRIORITY
  {
    assert PRIORITY[0] == Environment && PRIORITY[1] == Session && PRIORITY[2] == User && PRIORITY[3] == Name &&
           PRIORITY[4] == Version;
  }

  lemma ClaimSays(s: State, claim: Option<string>)
    ensures AllSay(s, ClaimItem(claim))
  {
    assert Parse(ClaimName()).Claim?;
    hide ClaimName, WireValue, Parse;
  }

  /** What a fresh context has received after a lossless hop. */
  ghost predicate Received(s: State, t: State) {
    && (forall f :: Get(t, f) == if WireValue(Get(s, f)) then Get(s, f) else "")
    && (forall f :: OfField(f) in t.accepted <==> WireValue(Get(s, f)))
    && (forall k :: k in t.metadata <==> k in s.wire && WireMeta(s, k))
    && (forall k :: k in t.metadata ==> t.metadata[k] == s.metadata[k])
    && t.wire == t.metadata.Keys
    && (forall k :: OfKey(k) in t.accepted <==> k in t.metadata)
  }

  ghost predicate Printable(value: string) { forall i :: 0 <= i < |value| ==> WireByte(value[i]) }

  /** No masking, and text functions that agree with ASCII. */
  ghost predicate Plain(cfg: Config) {
    && (forall m :: cfg.mask(m) == Some(m))
    && (forall v :: Printable(v) ==> cfg.utf8(v) && cfg.runes(v) <= |v|)
  }

  // The bag holds exactly the wire-domain values of the state.
  ghost predicate Carries(s: State, bag: map<string, string>) {
    && (forall f :: FieldName(f) in bag <==> WireValue(Get(s, f)))
    && (forall f :: FieldName(f) in bag ==> bag[FieldName(f)] == Get(s, f))
    && (forall k :: MetaName(k) in bag <==> k in s.wire && WireMeta(s, k))
    && (forall k :: MetaName(k) in bag ==> bag[MetaName(k)] == s.metadata[k])
  }

  lemma ExportCarries(s: State, claim: Option<string>, bag: map<string, string>, size: Item -> nat, foreign: nat)
    requires s.wire <= s.metadata.Keys
    requires var f := ForeignItems(bag, SmallestOf(bag.Keys, |bag|), size);
             foreign <= |f| && Export(s, claim, bag, size) == f[..foreign] + OwnItems(s, claim)
    ensures Carries(s, MapOf(Export(s, claim, bag, size)))
  {
    hide Export, OwnItems, ForeignItems, MapOf, AllSay, Says, WireKey, WireValue, Get, FieldName, MetaName;
    var f, all := ForeignItems(bag, SmallestOf(bag.Keys, |bag|), size), Export(s, claim, bag, size);
    OwnSays(s, claim);
    ForeignSays(s, bag, SmallestOf(bag.Keys, |bag|), size);
    SayPrefix(s, f, foreign);
    SayTogether(s, f[..foreign], OwnItems(s, claim));
    MapSays(s, all);
    var r := MapOf(all);
    forall g ensures FieldName(g) in r <==> WireValue(Get(s, g))
             ensures FieldName(g) in r ==> r[FieldName(g)] == Get(s, g) {
      FieldSaid(s, r, g);
      if WireValue(Get(s, g)) { Listed(all, foreign, OwnItems(s, claim), Item(FieldName(g), Get(s, g)), r); }
    }
    forall k ensures MetaName(k) in r <==> k in s.wire && WireMeta(s, k)
             ensures MetaName(k) in r ==> r[MetaName(k)] == s.metadata[k] {
      MetaSaid(s, r, k);
      if k in s.wire && WireMeta(s, k) {
        Listed(all, foreign, OwnItems(s, claim), Item(MetaName(k), s.metadata[k]), r);
      }
    }
  }

  lemma SayPrefix(s: State, items: seq<Item>, n: nat)
    requires AllSay(s, items) && n <= |items|
    ensures AllSay(s, items[..n])
  {
    hide Says;
  }

  lemma Listed(all: seq<Item>, foreign: nat, own: seq<Item>, item: Item, r: map<string, string>)
    requires foreign <= |all| && all[foreign..] == own && item in own
    requires forall i :: 0 <= i < |all| ==> all[i].key in r
    ensures item.key in r
  {
    var i :| 0 <= i < |own| && own[i] == item;
    assert all[foreign + i] == item;
  }

  lemma FieldSaid(s: State, r: map<string, string>, f: Field)
    requires forall k :: k in r ==> Says(s, Item(k, r[k]))
    ensures FieldName(f) in r ==> WireValue(Get(s, f)) && r[FieldName(f)] == Get(s, f)
  {
    ParseNames("", f, "");
    hide Parse, FieldName, WireValue, Get;
    if FieldName(f) in r { assert Says(s, Item(FieldName(f), r[FieldName(f)])); }
  }

  lemma MetaSaid(s: State, r: map<string, string>, k: string)
    requires forall k :: k in r ==> Says(s, Item(k, r[k]))
    ensures MetaName(k) in r ==> k in s.wire && WireMeta(s, k) && r[MetaName(k)] == s.metadata[k]
  {
    ParseNames("", Name, k);
    hide Parse, MetaName, WireValue, WireKey;
    if MetaName(k) in r { assert Says(s, Item(MetaName(k), r[MetaName(k)])); }
  }

  /** Export then import: with no masking and no budget drop, a fresh context
      receives exactly the sender's wire-domain fields and text metadata. */
  lemma RoundTrip(cfg: Config, s: State, claim: Option<string>, bag: map<string, string>, size: Item -> nat,
                  foreign: nat)
    requires Wf(cfg, s) && Plain(cfg)
    requires var f := ForeignItems(bag, SmallestOf(bag.Keys, |bag|), size);
             foreign <= |f| && Export(s, claim, bag, size) == f[..foreign] + OwnItems(s, claim)
    ensures Received(s, Import(cfg, EMPTY, MapOf(Export(s, claim, bag, size))))
  {
    ExportCarries(s, claim, bag, size, foreign);
    hide Export, OwnItems, ForeignItems, MapOf, Carries, Received, Wf, Plain;
    ImportCarried(cfg, s, MapOf(Export(s, claim, bag, size)));
  }

  lemma CarriedFields(cfg: Config, s: State, bag: map<string, string>)
    requires Carries(s, bag) && (s.environment != "" ==> ValidEnvironment(s.environment))
    ensures forall f :: ImportedField(EMPTY, bag, f) == if WireValue(Get(s, f)) then Get(s, f) else ""
    ensures forall f :: Confirmed(EMPTY, bag, f) <==> WireValue(Get(s, f))
  {
    hide FieldName, MetaName, WireMeta, ValidEnvironment;
    assert Get(s, Environment) == s.environment;
    assert forall f :: Get(EMPTY, f) == "";
    assert forall f :: WireValue(Get(s, f)) ==> Get(s, f) != "";
    hide WireValue;
  }

  lemma CarriedMeta(s: State, bag: map<string, string>)
    requires Carries(s, bag)
    ensures var m := OfferedMeta(EMPTY, bag);
            && (forall k :: k in m <==> k in s.wire && WireMeta(s, k))
            && (forall k :: k in m ==> m[k] == Text(s.metadata[k]))
  {
    hide FieldName, WireValue, WireKey;
    forall k ensures k in OfferedMeta(EMPTY, bag) <==> k in s.wire && WireMeta(s, k) {
      ParseNames(MetaName(k), Name, k);
      hide Parse, MetaName;
      assert MetaName(k) in bag ==> Parse(MetaName(k)).Meta? && Parse(MetaName(k)).suffix == k;
    }
  }

  lemma NothingCarried(s: State, bag: map<string, string>)
    requires Carries(s, bag) && !HasNamespace(bag)
    ensures forall f :: !WireValue(Get(s, f))
    ensures forall k :: k in s.wire ==> !WireMeta(s, k)
  {
    hide WireValue, WireMeta;
    forall f ensures FieldName(f) !in bag { ParseNames("", f, ""); }
    forall k ensures MetaName(k) !in bag { ParseNames("", Name, k); }
  }

  // Metadata that is already within the bounds is normalized to itself.
  lemma PlainNormalize(cfg: Config, s: State, m: map<string, Value>)
    requires Wf(cfg, s) && Plain(cfg)
    requires forall k :: k in m ==> k in s.metadata && WireValue(s.metadata[k]) && m[k] == Text(s.metadata[k])
    ensures var n := Normalize(cfg, m, {});
            && n.values.Keys == m.Keys && n.strings == m.Keys && forall k :: k in m ==> n.values[k] == s.metadata[k]
  {
    hide MetadataKey, Printable, WireValue, Chosen, ValidEnvironment;
    assert m.Keys <= s.metadata.Keys;
    CardSubset(m.Keys, s.metadata.Keys);
    ChosenAll(cfg, m.Keys);
    forall k | k in m ensures Kept(cfg, m[k]) && Encode(cfg, m[k]) == Some(s.metadata[k]) {
      PrintableValue(s.metadata[k]);
    }
  }

  // Up to 32 valid keys are all chosen.
  lemma ChosenAll(cfg: Config, keys: set<string>)
    requires |keys| <= MAX_METADATA && forall k :: k in keys ==> MetadataKey(k, cfg.utf8)
    ensures Chosen(cfg, keys, {}) == keys
  {
    hide MetadataKey, Smallest, SmallestOf, Elements;
    assert ValidKeys(cfg, keys) == keys;
    SmallestOfIs(keys, MAX_METADATA);
    AllKept(SmallestOf(keys, MAX_METADATA), keys, MAX_METADATA);
    var none: set<string> := {};
    assert keys - none == keys && keys * none == none && Clamp(|none|) == 0;
  }

  lemma PrintableValue(value: string)
    requires WireValue(value)
    ensures Printable(value) && |value| <= MAX_VALUE
  {
  }

  // The fields and the metadata of an import into a fresh context.
  lemma FreshImport(cfg: Config, bag: map<string, string>)
    requires HasNamespace(bag)
    ensures var t, n := Import(cfg, EMPTY, bag), Normalize(cfg, OfferedMeta(EMPTY, bag), {});
            && (forall f :: Get(t, f) == ImportedField(EMPTY, bag, f))
            && (forall f :: OfField(f) in t.accepted <==> Confirmed(EMPTY, bag, f))
            && t.metadata == n.values && t.wire == n.strings
            && (forall k :: OfKey(k) in t.accepted <==> k in n.values)
  {
    hide HasNamespace, OfferedMeta, Normalize, ImportedField, Confirmed, ImportFields;
    var t, n := Import(cfg, EMPTY, bag), Normalize(cfg, OfferedMeta(EMPTY, bag), {});
    assert LocalKeys(EMPTY) == {};
    ImportedFields(EMPTY, bag);
    forall f ensures Get(t, f) == ImportedField(EMPTY, bag, f)
             ensures OfField(f) in t.accepted <==> Confirmed(EMPTY, bag, f) {
      AfterImport(cfg, EMPTY, bag, f);
    }
    assert t == ImportMetadata(ImportFields(EMPTY, bag), n);
    hide Get, Import, LocalKeys;
  }

  lemma ImportCarried(cfg: Config, s: State, bag: map<string, string>)
    requires Wf(cfg, s) && Plain(cfg) && Carries(s, bag)
    ensures Received(s, Import(cfg, EMPTY, bag))
  {
    hide Plain, Carries, HasNamespace, OfferedMeta, WireKey, WireValue, Import, Normalize, ImportedField, Confirmed;
    var t, m := Import(cfg, EMPTY, bag), OfferedMeta(EMPTY, bag);
    if HasNamespace(bag) {
      CarriedFields(cfg, s, bag);
      CarriedMeta(s, bag);
      PlainNormalize(cfg, s, m);
      FreshImport(cfg, bag);
      hide Wf, WireMeta, Get;
    } else {
      NothingCarried(s, bag);
      EmptyImport(cfg, bag);
      hide Wf, WireMeta;
    }
  }

  lemma EmptyImport(cfg: Config, bag: map<string, string>)
    requires !HasNamespace(bag)
    ensures Import(cfg, EMPTY, bag) == EMPTY && forall f :: Get(EMPTY, f) == ""
  {
    hide Normalize, OfferedMeta;
  }
}
