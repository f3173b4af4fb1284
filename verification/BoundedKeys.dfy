/** Bounded selection of attribute keys (internal/attributes/attributes.go):
    the loops that keep the smallest keys of a map while visiting it in an
    arbitrary order, inserting in place. */
module BoundedKeys {

  const MAX_METADATA: nat := 32
  const MAX_USAGE: nat := 64
  const MAX_KEY_BYTES: nat := 200

  // ---- the order of strings ----

  /** Bytewise lexicographic order, strict. */
  predicate Before(a: string, b: string)
    decreases |a|
  {
    b != "" && (a == "" || a[0] < b[0] || (a[0] == b[0] && Before(a[1..], b[1..])))
  }

  lemma {:induction false} BeforeTotal(a: string, b: string)
    ensures a == b || Before(a, b) || Before(b, a)
    ensures !(Before(a, b) && Before(b, a))
    decreases |a|
  {
    if a != "" && b != "" {
      BeforeTotal(a[1..], b[1..]);
      if a[0] == b[0] && a[1..] == b[1..] { assert a == [a[0]] + a[1..] && b == [b[0]] + b[1..]; }
    }
  }

  lemma {:induction false} BeforeTransitive(a: string, b: string, c: string)
    requires Before(a, b) && Before(b, c)
    ensures Before(a, c)
    decreases |a|
  {
    if a != "" && a[0] == b[0] && b[0] == c[0] { BeforeTransitive(a[1..], b[1..], c[1..]); }
  }

  predicate Ascending(keys: seq<string>) { forall i, j :: 0 <= i < j < |keys| ==> Before(keys[i], keys[j]) }

  /** `keys` are the `cap` smallest of `all`, in order. */
  ghost predicate Smallest(keys: seq<string>, all: set<string>, cap: nat) {
    && Ascending(keys)
    && (forall i :: 0 <= i < |keys| ==> keys[i] in all)
    && |keys| == (if |all| <= cap then |all| else cap)
    && (forall k, i :: k in all && k !in keys && 0 <= i < |keys| ==> Before(keys[i], k))
  }

  lemma {:induction false} AscendingCard(keys: seq<string>)
    requires Ascending(keys)
    ensures |Elements(keys)| == |keys|
    decreases |keys|
  {
    if keys != [] {
      var init, last := keys[..|keys| - 1], keys[|keys| - 1];
      AscendingCard(init);
      forall i | 0 <= i < |init| ensures init[i] != last { BeforeTotal(init[i], last); assert Before(keys[i], last); }
      assert Elements(keys) == Elements(init) + {last} by {
        assert keys == init + [last];
      }
    }
  }

  function Elements(keys: seq<string>): set<string> { set k <- keys }

  /** The selection is a function of the keys alone, whatever the order they
      were visited in. */
  lemma SelectionIsUnique(a: seq<string>, b: seq<string>, all: set<string>, cap: nat)
    requires Smallest(a, all, cap) && Smallest(b, all, cap)
    ensures a == b
  {
    AscendingCard(a);
    AscendingCard(b);
    forall k | k in a ensures k in b { NoneExtra(a, b, k, all, cap); }
    SubsetSameSize(a, b);
    AscendingSame(a, b);
  }

  lemma NoneExtra(a: seq<string>, b: seq<string>, k: string, all: set<string>, cap: nat)
    requires Smallest(a, all, cap) && Smallest(b, all, cap) && k in a
    requires |Elements(a)| == |Elements(b)|
    ensures k in b
  {
    if k !in b {
      var l := Missing(b, a, k);
      LargerThanAll(b, k, all, cap);
      LargerThanAll(a, l, all, cap);
      BeforeTotal(k, l);
    }
  }

  // An element of `a` that `b` lacks, when `b` has one that `a` lacks.
  lemma Missing(a: seq<string>, b: seq<string>, x: string) returns (k: string)
    requires |Elements(a)| == |Elements(b)| && x in b && x !in a
    ensures k in a && k !in b
  {
    var others := Elements(b) - {x};
    assert Elements(b) == others + {x};
    if Elements(a) <= others { CardSubset(Elements(a), others); }
    k :| k in Elements(a) && k !in others;
  }

  lemma {:induction false} CardSubset<T>(a: set<T>, b: set<T>)
    requires a <= b
    ensures |a| <= |b| && (|a| == |b| ==> a == b)
    decreases |a|
  {
    if a != {} {
      var x :| x in a;
      CardSubset(a - {x}, b - {x});
      assert a == (a - {x}) + {x} && b == (b - {x}) + {x};
    }
  }

  lemma LargerThanAll(keys: seq<string>, k: string, all: set<string>, cap: nat)
    requires Smallest(keys, all, cap) && k in all && k !in keys
    ensures forall l :: l in keys ==> Before(l, k)
  {
    forall l | l in keys ensures Before(l, k) {
      var i :| 0 <= i < |keys| && keys[i] == l;
    }
  }

  lemma SubsetSameSize(a: seq<string>, b: seq<string>)
    requires |Elements(a)| == |Elements(b)| && forall k :: k in a ==> k in b
    ensures Elements(a) == Elements(b)
  {
    assert Elements(a) <= Elements(b);
    CardSubset(Elements(a), Elements(b));
  }

  lemma LastIsLargest(keys: seq<string>, k: string)
    requires Ascending(keys) && k in keys
    ensures k == keys[|keys| - 1] || Before(k, keys[|keys| - 1])
  {
    var i :| 0 <= i < |keys| && keys[i] == k;
  }

  lemma NoElements(keys: seq<string>)
    ensures keys == [] <==> Elements(keys) == {}
  {
    if keys != [] { assert keys[0] in Elements(keys); }
  }

  lemma DropLast(keys: seq<string>)
    requires Ascending(keys) && keys != []
    ensures var init, last := keys[..|keys| - 1], keys[|keys| - 1];
            Ascending(init) && last in Elements(keys) && Elements(init) == Elements(keys) - {last}
  {
    var init, last := keys[..|keys| - 1], keys[|keys| - 1];
    assert keys == init + [last];
    forall i | 0 <= i < |init| ensures init[i] != last { assert Before(keys[i], last); BeforeTotal(keys[i], last); }
    hide Ascending, Before;
    assert Elements(keys) == Elements(init) + {last};
  }

  lemma {:induction false} AscendingSame(a: seq<string>, b: seq<string>)
    requires Ascending(a) && Ascending(b) && Elements(a) == Elements(b)
    ensures a == b
    decreases |a|
  {
    hide Ascending, Before;
    NoElements(a);
    NoElements(b);
    if a != [] {
      DropLast(a);
      var x := a[|a| - 1];
      DropLast(b);
      var y := b[|b| - 1];
      LastIsLargest(a, y);
      LastIsLargest(b, x);
      BeforeTotal(x, y);
      AscendingSame(a[..|a| - 1], b[..|b| - 1]);
      assert a == a[..|a| - 1] + [x] && b == b[..|b| - 1] + [y];
    }
  }

  // ---- the loops ----

  /** sort.SearchStrings: the first index whose key is not before `key`. */
  method SearchStrings(keys: array<string>, n: nat, key: string) returns (index: nat)
    requires n <= keys.Length && Ascending(keys[..n])
    ensures index <= n
    ensures forall i :: 0 <= i < index ==> Before(keys[i], key)
    ensures forall i :: index <= i < n ==> !Before(keys[i], key)
  {
    var lo, hi := 0, n;
    while lo < hi
      invariant lo <= hi <= n
      invariant forall i :: 0 <= i < lo ==> Before(keys[i], key)
      invariant forall i :: hi <= i < n ==> !Before(keys[i], key)
    {
      var mid := (lo + hi) / 2;
      if Before(keys[mid], key) {
        forall i | 0 <= i < mid ensures Before(keys[i], key) {
          assert keys[..n][i] == keys[i] && keys[..n][mid] == keys[mid];
          BeforeTransitive(keys[i], keys[mid], key);
        }
        lo := mid + 1;
      } else {
        forall i | mid < i < n ensures !Before(keys[i], key) {
          assert keys[..n][i] == keys[i] && keys[..n][mid] == keys[mid];
          if Before(keys[i], key) { BeforeTransitive(keys[mid], keys[i], key); }
        }
        hi := mid;
      }
    }
    index := lo;
  }

  /** Shifts `keys[index..n]` up by one and writes the key into the gap. */
  method InsertAt(keys: array<string>, n: nat, index: nat, key: string)
    requires index <= n < keys.Length
    modifies keys
    ensures keys[..n + 1] == old(keys[..index]) + [key] + old(keys[index..n])
  {
    var i := n;
    while i > index
      invariant index <= i <= n
      invariant forall k :: 0 <= k <= i ==> keys[k] == old(keys[k])
      invariant forall k :: i < k <= n ==> keys[k] == old(keys[k - 1])
    {
      keys[i] := keys[i - 1];
      i := i - 1;
    }
    keys[index] := key;
  }

  function Insert(keys: seq<string>, index: nat, key: string): seq<string>
    requires index <= |keys|
  {
    keys[..index] + [key] + keys[index..]
  }

  predicate Place(keys: seq<string>, index: nat, key: string) {
    && index <= |keys|
    && (forall i :: 0 <= i < index ==> Before(keys[i], key))
    && (forall i :: index <= i < |keys| ==> Before(key, keys[i]))
  }

  lemma InsertKeeps(keys: seq<string>, index: nat, key: string)
    requires Ascending(keys) && Place(keys, index, key)
    ensures Ascending(Insert(keys, index, key))
    ensures Elements(Insert(keys, index, key)) == Elements(keys) + {key}
  {
    var r := Insert(keys, index, key);
    forall i, j | 0 <= i < j < |r| ensures Before(r[i], r[j]) {
      var x, y := if i < index then i else i - 1, if j < index then j else j - 1;
      if i != index { assert r[i] == keys[x]; }
      if j != index { assert r[j] == keys[y]; }
    }
    assert keys == keys[..index] + keys[index..];
  }

  // Below the cap every key seen is kept.
  lemma AllKept(keys: seq<string>, all: set<string>, cap: nat)
    requires Smallest(keys, all, cap) && |all| <= cap
    ensures Elements(keys) == all
  {
    AscendingCard(keys);
    hide Ascending, Before;
    assert Elements(keys) <= all;
    CardSubset(Elements(keys), all);
  }

  lemma KeepRoom(keys: seq<string>, all: set<string>, cap: nat, index: nat, key: string)
    requires Smallest(keys, all, cap) && |all| < cap && key !in all && Place(keys, index, key)
    ensures Smallest(Insert(keys, index, key), all + {key}, cap)
  {
    AllKept(keys, all, cap);
    InsertKeeps(keys, index, key);
    var r := Insert(keys, index, key);
    hide Ascending, Before, Insert, Place;
    assert |r| == |keys| + 1 by { InsertLength(keys, index, key); }
    forall i | 0 <= i < |r| ensures r[i] in all + {key} { assert r[i] in Elements(r); }
    forall k | k in all + {key} ensures k in r { assert k in Elements(r); }
  }

  lemma InsertLength(keys: seq<string>, index: nat, key: string)
    requires index <= |keys|
    ensures |Insert(keys, index, key)| == |keys| + 1
  {
  }

  lemma KeepLarger(keys: seq<string>, all: set<string>, cap: nat, key: string)
    requires Smallest(keys, all, cap) && cap <= |all| && key !in all && Place(keys, |keys|, key)
    ensures Smallest(keys, all + {key}, cap)
  {
    assert |all + {key}| == |all| + 1;
  }

  lemma StillBefore(keys: seq<string>, index: nat, key: string, k: string)
    requires Ascending(keys) && Place(keys, index, key) && index < |keys|
    requires k == key || (k in keys && k != keys[|keys| - 1])
    ensures Before(k, keys[|keys| - 1])
  {
    var last := keys[|keys| - 1];
    if k == key {
      LastIsLargest(keys, keys[index]);
      if keys[index] != last { BeforeTransitive(key, keys[index], last); }
    } else {
      LastIsLargest(keys, k);
    }
  }

  // What the shortened, extended list holds.
  lemma Replaced(keys: seq<string>, index: nat, key: string)
    requires Ascending(keys) && index < |keys| && Place(keys, index, key)
    ensures var n := |keys| - 1;
            var r := Insert(keys[..n], index, key);
            && Ascending(r) && |r| == |keys|
            && forall k :: k in r <==> k == key || (k in keys && k != keys[n])
  {
    var n := |keys| - 1;
    var r := Insert(keys[..n], index, key);
    DropLast(keys);
    assert Place(keys[..n], index, key);
    InsertKeeps(keys[..n], index, key);
    hide Insert, Ascending, Place;
    forall k ensures k in r <==> k == key || (k in keys && k != keys[n]) {
      assert k in r <==> k in Elements(r);
      assert k in keys[..n] <==> k in Elements(keys[..n]);
      assert k in keys <==> k in Elements(keys);
    }
  }

  // The largest kept key gives way to a smaller one.
  lemma KeepSmaller(keys: seq<string>, all: set<string>, cap: nat, index: nat, key: string)
    requires Smallest(keys, all, cap) && cap <= |all| && key !in all && index < cap && Place(keys, index, key)
    ensures Smallest(Insert(keys[..cap - 1], index, key), all + {key}, cap)
  {
    var r, last := Insert(keys[..cap - 1], index, key), keys[cap - 1];
    Replaced(keys, index, key);
    assert |all + {key}| == |all| + 1;
    hide Insert, Before, Ascending, Place;
    forall i | 0 <= i < |r| ensures r[i] in all + {key} && Before(r[i], last) {
      assert r[i] in r;
      StillBefore(keys, index, key, r[i]);
    }
    forall k, i | k in all + {key} && k !in r && 0 <= i < |r| ensures Before(r[i], k) {
      if k != last {
        assert Before(keys[cap - 1], k);
        BeforeTransitive(r[i], last, k);
      }
    }
    hide Smallest;
    IsSmallest(r, all + {key}, cap);
  }

  lemma IsSmallest(keys: seq<string>, all: set<string>, cap: nat)
    requires Ascending(keys) && |keys| == cap <= |all|
    requires forall i :: 0 <= i < |keys| ==> keys[i] in all
    requires forall k, i :: k in all && k !in keys && 0 <= i < |keys| ==> Before(keys[i], k)
    ensures Smallest(keys, all, cap)
  {
  }

  /** One key of the visit: kept in place if it is among the smallest so far. */
  method Keep(keys: array<string>, n: nat, cap: nat, key: string, ghost all: set<string>) returns (m: nat, over: bool)
    requires n <= cap == keys.Length && Smallest(keys[..n], all, cap) && key !in all
    modifies keys
    ensures m <= cap && Smallest(keys[..m], all + {key}, cap)
    ensures |all + {key}| == |all| + 1 && (over <==> |all + {key}| > cap)
  {
    hide Ascending, Before;
    assert |all + {key}| == |all| + 1;
    var index := SearchStrings(keys, n, key);
    ghost var was := keys[..n];
    assert Place(was, index, key) by {
      forall i | index <= i < n ensures Before(key, was[i]) { assert was[i] in all; BeforeTotal(key, was[i]); }
    }
    if n < cap {
      InsertAt(keys, n, index, key);
      assert was[..index] == old(keys[..index]) && was[index..] == old(keys[index..n]);
      assert keys[..n + 1] == Insert(was, index, key);
      KeepRoom(was, all, cap, index, key);
      return n + 1, false;
    }
    if index >= cap || cap == 0 {
      KeepLarger(was, all, cap, key);
      return n, true;
    }
    InsertAt(keys, cap - 1, index, key);
    assert was[..cap - 1][..index] == old(keys[..index]) && was[..cap - 1][index..] == old(keys[index..cap - 1]);
    assert keys[..cap] == Insert(was[..cap - 1], index, key);
    KeepSmaller(was, all, cap, index, key);
    return n, true;
  }

  // ---- the two selections ----

  predicate UsageKey(key: string, utf8: string -> bool) { key != "" && utf8(key) && |key| <= MAX_KEY_BYTES }

  /** The dot-separated parts of a key. */
  function Segments(key: string): seq<string> {
    var i := Dot(key);
    if i == |key| then [key] else [key[..i]] + Segments(key[i + 1..])
  }

  function Dot(key: string): (i: nat)
    ensures i <= |key| && (i < |key| ==> key[i] == '.')
  {
    if key == "" || key[0] == '.' then 0 else 1 + Dot(key[1..])
  }

  const BLOCKED: set<string> := {"", "__proto__", "constructor", "prototype"}

  predicate MetadataKey(key: string, utf8: string -> bool) {
    UsageKey(key, utf8) && forall i :: 0 <= i < |Segments(key)| ==> Segments(key)[i] !in BLOCKED
  }

  predicate DistinctKeys(keys: seq<string>) { forall i, j :: 0 <= i < j < |keys| ==> keys[i] != keys[j] }

  function UsageKeys(order: seq<string>, utf8: string -> bool): set<string> { set k <- order | UsageKey(k, utf8) }

  lemma UsageKeysSnoc(order: seq<string>, i: nat, utf8: string -> bool)
    requires i < |order| && DistinctKeys(order)
    ensures UsageKeys(order[..i + 1], utf8) ==
            UsageKeys(order[..i], utf8) + (if UsageKey(order[i], utf8) then {order[i]} else {})
    ensures order[i] !in UsageKeys(order[..i], utf8)
  {
    hide UsageKey;
    assert order[..i + 1] == order[..i] + [order[i]];
  }

  /** The usage keys kept of a map visited in `order`: the smallest valid ones,
      sorted, whatever the order. */
  method BoundedUsageKeys(order: seq<string>, utf8: string -> bool)
    returns (keys: seq<string>, invalid: bool, truncated: bool)
    requires DistinctKeys(order)
    ensures Smallest(keys, UsageKeys(order, utf8), MAX_USAGE)
    ensures invalid <==> exists i :: 0 <= i < |order| && !UsageKey(order[i], utf8)
    ensures truncated <==> |UsageKeys(order, utf8)| > MAX_USAGE
  {
    hide UsageKey, Smallest, UsageKeys, DistinctKeys;
    NoneYet(order, utf8, {});
    var kept := new string[MAX_USAGE];
    var n: nat := 0;
    NothingKept(MAX_USAGE);
    assert kept[..n] == [];
    invalid, truncated := false, false;
    for i := 0 to |order|
      invariant n <= MAX_USAGE && Smallest(kept[..n], UsageKeys(order[..i], utf8), MAX_USAGE)
      invariant invalid <==> exists j :: 0 <= j < i && !UsageKey(order[j], utf8)
      invariant truncated <==> |UsageKeys(order[..i], utf8)| > MAX_USAGE
    {
      UsageKeysSnoc(order, i, utf8);
      if !UsageKey(order[i], utf8) {
        invalid := true;
        continue;
      }
      ghost var all := UsageKeys(order[..i], utf8);
      var over;
      n, over := Keep(kept, n, MAX_USAGE, order[i], all);
      truncated := truncated || over;
    }
    assert order[..|order|] == order;
    keys := kept[..n];
  }

  lemma NothingKept(cap: nat)
    ensures Smallest([], {}, cap)
  {
  }

  function ExistingKeys(order: seq<string>, utf8: string -> bool, existing: set<string>): set<string> {
    set k <- order | MetadataKey(k, utf8) && k in existing
  }

  function NewKeys(order: seq<string>, utf8: string -> bool, existing: set<string>): set<string> {
    set k <- order | MetadataKey(k, utf8) && k !in existing
  }

  predicate AnyInvalid(order: seq<string>, n: nat, utf8: string -> bool)
    requires n <= |order|
  {
    exists i :: 0 <= i < n && !MetadataKey(order[i], utf8)
  }

  lemma MetadataSnoc(order: seq<string>, i: nat, utf8: string -> bool, existing: set<string>)
    requires i < |order| && DistinctKeys(order)
    ensures ExistingKeys(order[..i + 1], utf8, existing) == ExistingKeys(order[..i], utf8, existing) +
            (if MetadataKey(order[i], utf8) && order[i] in existing then {order[i]} else {})
    ensures NewKeys(order[..i + 1], utf8, existing) == NewKeys(order[..i], utf8, existing) +
            (if MetadataKey(order[i], utf8) && order[i] !in existing then {order[i]} else {})
    ensures order[i] !in ExistingKeys(order[..i], utf8, existing) && order[i] !in NewKeys(order[..i], utf8, existing)
    ensures AnyInvalid(order, i + 1, utf8) <==> AnyInvalid(order, i, utf8) || !MetadataKey(order[i], utf8)
  {
    hide MetadataKey;
    assert order[..i + 1] == order[..i] + [order[i]];
  }

  lemma NoneYet(order: seq<string>, utf8: string -> bool, existing: set<string>)
    ensures UsageKeys(order[..0], utf8) == {}
    ensures ExistingKeys(order[..0], utf8, existing) == {} && NewKeys(order[..0], utf8, existing) == {}
    ensures !AnyInvalid(order, 0, utf8)
  {
  }

  function Clamp(count: int): (n: nat)
    ensures n <= MAX_METADATA
  {
    if count < 0 then 0 else if count > MAX_METADATA then MAX_METADATA else count
  }

  lemma CardAtMost(order: seq<string>, i: nat, utf8: string -> bool, existing: set<string>)
    requires i <= |order|
    ensures |ExistingKeys(order[..i], utf8, existing)| <= i
    decreases i
  {
    hide MetadataKey;
    if i > 0 {
      CardAtMost(order, i - 1, utf8, existing);
      var a, b := ExistingKeys(order[..i], utf8, existing), ExistingKeys(order[..i - 1], utf8, existing);
      assert order[..i] == order[..i - 1] + [order[i - 1]];
      assert a <= b + {order[i - 1]};
      CardSubset(a, b + {order[i - 1]});
    }
  }

  /** What the first `i` keys have left: the two selections and the flags. */
  ghost predicate Visited(order: seq<string>, i: nat, utf8: string -> bool, existing: set<string>, cap: nat,
                          replacements: seq<string>, newKeys: seq<string>, invalid: bool, truncated: bool)
    requires i <= |order|
  {
    && Smallest(replacements, ExistingKeys(order[..i], utf8, existing), |order|)
    && Smallest(newKeys, NewKeys(order[..i], utf8, existing), cap)
    && (invalid <==> AnyInvalid(order, i, utf8))
    && (truncated <==> |NewKeys(order[..i], utf8, existing)| > cap)
  }

  lemma NoneVisited(order: seq<string>, utf8: string -> bool, existing: set<string>, cap: nat)
    ensures Visited(order, 0, utf8, existing, cap, [], [], false, false)
  {
    NoneYet(order, utf8, existing);
    NothingKept(cap);
    NothingKept(|order|);
  }

  lemma VisitNext(order: seq<string>, i: nat, utf8: string -> bool, existing: set<string>, cap: nat, a: seq<string>,
                  b: seq<string>, invalid: bool, truncated: bool)
    requires i < |order| && DistinctKeys(order) && Visited(order, i, utf8, existing, cap, a, b, invalid, truncated)
    ensures Smallest(a, ExistingKeys(order[..i], utf8, existing), |order|)
    ensures Smallest(b, NewKeys(order[..i], utf8, existing), cap)
    ensures order[i] !in ExistingKeys(order[..i], utf8, existing) && order[i] !in NewKeys(order[..i], utf8, existing)
    ensures !MetadataKey(order[i], utf8) ==> Visited(order, i + 1, utf8, existing, cap, a, b, true, truncated)
  {
    MetadataSnoc(order, i, utf8, existing);
    hide Smallest, ExistingKeys, NewKeys, AnyInvalid, MetadataKey, DistinctKeys;
  }

  lemma VisitExisting(order: seq<string>, i: nat, utf8: string -> bool, existing: set<string>, cap: nat, a: seq<string>,
                      b: seq<string>, invalid: bool, truncated: bool, now: seq<string>)
    requires i < |order| && DistinctKeys(order) && Visited(order, i, utf8, existing, cap, a, b, invalid, truncated)
    requires MetadataKey(order[i], utf8) && order[i] in existing
    requires Smallest(now, ExistingKeys(order[..i], utf8, existing) + {order[i]}, |order|)
    ensures Visited(order, i + 1, utf8, existing, cap, now, b, invalid, truncated)
  {
    MetadataSnoc(order, i, utf8, existing);
    hide Smallest, ExistingKeys, NewKeys, AnyInvalid, MetadataKey, DistinctKeys;
  }

  lemma VisitNew(order: seq<string>, i: nat, utf8: string -> bool, existing: set<string>, cap: nat, a: seq<string>,
                 b: seq<string>, invalid: bool, truncated: bool, now: seq<string>, over: bool)
    requires i < |order| && DistinctKeys(order) && Visited(order, i, utf8, existing, cap, a, b, invalid, truncated)
    requires MetadataKey(order[i], utf8) && order[i] !in existing
    requires var all := NewKeys(order[..i], utf8, existing) + {order[i]};
             Smallest(now, all, cap) && |all| == |NewKeys(order[..i], utf8, existing)| + 1 && (over <==> |all| > cap)
    ensures Visited(order, i + 1, utf8, existing, cap, a, now, invalid, truncated || over)
  {
    MetadataSnoc(order, i, utf8, existing);
    hide Smallest, ExistingKeys, NewKeys, AnyInvalid, MetadataKey, DistinctKeys;
  }

  lemma AllVisited(order: seq<string>, utf8: string -> bool, existing: set<string>, cap: nat, a: seq<string>,
                   b: seq<string>, invalid: bool, truncated: bool)
    requires Visited(order, |order|, utf8, existing, cap, a, b, invalid, truncated)
    ensures Smallest(a, ExistingKeys(order, utf8, existing), |order|)
    ensures Smallest(b, NewKeys(order, utf8, existing), cap)
    ensures (invalid <==> AnyInvalid(order, |order|, utf8)) && (truncated <==> |NewKeys(order, utf8, existing)| > cap)
  {
    assert order[..|order|] == order;
  }

  /** The metadata keys kept of a map visited in `order`: every valid key that
      exists already, sorted, then the smallest new ones that still fit. The
      first `replaced` keys are the existing ones. */
  method BoundedMetadataKeys(order: seq<string>, utf8: string -> bool, existing: set<string>, existingCount: int)
    returns (keys: seq<string>, replaced: nat, invalid: bool, truncated: bool)
    requires DistinctKeys(order)
    ensures replaced <= |keys|
    ensures Smallest(keys[..replaced], ExistingKeys(order, utf8, existing), |order|)
    ensures Smallest(keys[replaced..], NewKeys(order, utf8, existing), MAX_METADATA - Clamp(existingCount))
    ensures invalid <==> AnyInvalid(order, |order|, utf8)
    ensures truncated <==> |NewKeys(order, utf8, existing)| > MAX_METADATA - Clamp(existingCount)
  {
    hide *;
    var capacity := MAX_METADATA - Clamp(existingCount);
    var replacements := new string[|order|];
    var newKeys := new string[capacity];
    var m: nat, n: nat := 0, 0;
    NoneVisited(order, utf8, existing, capacity);
    assert replacements[..m] == [] && newKeys[..n] == [];
    invalid, truncated := false, false;
    for i := 0 to |order|
      invariant m <= |order| && n <= capacity
      invariant Visited(order, i, utf8, existing, capacity, replacements[..m], newKeys[..n], invalid, truncated)
    {
      ghost var a, b := replacements[..m], newKeys[..n];
      VisitNext(order, i, utf8, existing, capacity, a, b, invalid, truncated);
      if !MetadataKey(order[i], utf8) {
        invalid := true;
      } else if order[i] in existing {
        m := KeepExisting(replacements, m, order[i], ExistingKeys(order[..i], utf8, existing), newKeys, n);
        VisitExisting(order, i, utf8, existing, capacity, a, b, invalid, truncated, replacements[..m]);
      } else {
        var over;
        n, over := KeepNew(newKeys, n, capacity, order[i], NewKeys(order[..i], utf8, existing), replacements, m);
        VisitNew(order, i, utf8, existing, capacity, a, b, invalid, truncated, newKeys[..n], over);
        truncated := truncated || over;
      }
    }
    AllVisited(order, utf8, existing, capacity, replacements[..m], newKeys[..n], invalid, truncated);
    keys, replaced := replacements[..m] + newKeys[..n], m;
    SplitBack(replacements[..m], newKeys[..n]);
  }

  method KeepExisting(keys: array<string>, n: nat, key: string, ghost all: set<string>,
                      ghost other: array<string>, ghost k: nat)
    returns (m: nat)
    requires n <= keys.Length && Smallest(keys[..n], all, keys.Length) && key !in all && other != keys
    requires k <= other.Length
    modifies keys
    ensures m <= keys.Length && Smallest(keys[..m], all + {key}, keys.Length) && other[..k] == old(other[..k])
  {
    var over;
    m, over := Keep(keys, n, keys.Length, key, all);
  }

  method KeepNew(keys: array<string>, n: nat, cap: nat, key: string, ghost all: set<string>,
                 ghost other: array<string>, ghost k: nat)
    returns (m: nat, over: bool)
    requires n <= cap == keys.Length && Smallest(keys[..n], all, cap) && key !in all && other != keys
    requires k <= other.Length
    modifies keys
    ensures m <= cap && Smallest(keys[..m], all + {key}, cap) && other[..k] == old(other[..k])
    ensures |all + {key}| == |all| + 1 && (over <==> |all + {key}| > cap)
  {
    m, over := Keep(keys, n, cap, key, all);
  }

  lemma SplitBack(a: seq<string>, b: seq<string>)
    ensures (a + b)[..|a|] == a && (a + b)[|a|..] == b
  {
  }

  /** Visiting the same map in another order selects the same keys. */
  lemma OrderIsIrrelevant(a: seq<string>, b: seq<string>, utf8: string -> bool, existing: set<string>,
                          keysA: seq<string>, keysB: seq<string>, cap: nat)
    requires Elements(a) == Elements(b)
    requires || (Smallest(keysA, UsageKeys(a, utf8), cap) && Smallest(keysB, UsageKeys(b, utf8), cap))
             || (Smallest(keysA, NewKeys(a, utf8, existing), cap) && Smallest(keysB, NewKeys(b, utf8, existing), cap))
    ensures keysA == keysB
  {
    hide UsageKey, MetadataKey, Smallest;
    assert forall k :: k in a <==> k in Elements(a);
    assert forall k :: k in b <==> k in Elements(b);
    assert UsageKeys(a, utf8) == UsageKeys(b, utf8) && NewKeys(a, utf8, existing) == NewKeys(b, utf8, existing);
    if Smallest(keysA, UsageKeys(a, utf8), cap) && Smallest(keysB, UsageKeys(b, utf8), cap) {
      SelectionIsUnique(keysA, keysB, UsageKeys(a, utf8), cap);
    } else {
      SelectionIsUnique(keysA, keysB, NewKeys(a, utf8, existing), cap);
    }
  }

  // ---- the selection as a function ----

  ghost predicate Least(k: string, all: set<string>) { k in all && forall l :: l in all && l != k ==> Before(k, l) }

  lemma {:induction false} LeastExists(all: set<string>) returns (k: string)
    requires all != {}
    ensures Least(k, all)
    decreases |all|
  {
    var x :| x in all;
    var rest := all - {x};
    k := x;
    if rest != {} {
      var l := LeastExists(rest);
      BeforeTotal(x, l);
      if Before(l, x) { k := l; }
      forall m | m in all && m != k ensures Before(k, m) {
        if k == x && m != l { BeforeTransitive(x, l, m); }
      }
    }
  }

  /** The `cap` smallest of `all`, one after the other. */
  ghost function SmallestOf(all: set<string>, cap: nat): seq<string>
    decreases cap
  {
    if cap == 0 || all == {} then []
    else
      assert exists k :: Least(k, all) by { var k := LeastExists(all); }
      var k :| Least(k, all);
      [k] + SmallestOf(all - {k}, cap - 1)
  }

  lemma {:induction false} SmallestOfIs(all: set<string>, cap: nat)
    ensures Smallest(SmallestOf(all, cap), all, cap)
    decreases cap
  {
    if cap > 0 && all != {} {
      var r := SmallestOf(all, cap);
      var k, rest := r[0], r[1..];
      assert exists l :: Least(l, all) by { var l := LeastExists(all); }
      assert Least(k, all) && rest == SmallestOf(all - {k}, cap - 1);
      SmallestOfIs(all - {k}, cap - 1);
      SmallestCons(k, rest, all, cap);
      assert r == [k] + rest;
    }
  }

  lemma SmallestCons(k: string, rest: seq<string>, all: set<string>, cap: nat)
    requires cap > 0 && Least(k, all) && Smallest(rest, all - {k}, cap - 1)
    ensures Smallest([k] + rest, all, cap)
  {
    var r := [k] + rest;
    assert |all - {k}| == |all| - 1;
    hide Before;
    forall i, j | 0 <= i < j < |r| ensures Before(r[i], r[j]) {
      if i == 0 { assert r[j] == rest[j - 1]; } else { assert r[i] == rest[i - 1] && r[j] == rest[j - 1]; }
    }
    forall l, i | l in all && l !in r && 0 <= i < |r| ensures Before(r[i], l) {
      assert l != r[0];
      if i > 0 { assert r[i] == rest[i - 1] && l !in rest; }
    }
  }
}
