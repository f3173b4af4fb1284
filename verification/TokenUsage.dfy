/** Token accounting in 64-bit arithmetic (internal/attributes/attributes.go):
    inclusive totals become exclusive buckets. */
module TokenUsage {
  import opened BoundedKeys

  const MAX_INT64: int := 0x7fff_ffff_ffff_ffff
  const MIN_INT64: int := -0x8000_0000_0000_0000

  predicate Int64(x: int) { MIN_INT64 <= x <= MAX_INT64 }

  function CheckedAdd(a: int, b: int): (r: (int, bool))
    requires Int64(a) && Int64(b)
    ensures r.1 <==> !Int64(a + b)
    ensures Int64(r.0) && (!r.1 ==> r.0 == a + b)
  {
    if (b > 0 && a > MAX_INT64 - b) || (b < 0 && a < MIN_INT64 - b) then (0, true) else (a + b, false)
  }

  /** Exact up to the largest value for counts; an underflow saturates upwards
      as well. */
  function SaturatingAdd(a: int, b: int): (r: int)
    requires Int64(a) && Int64(b)
    ensures Int64(r) && (0 <= a && 0 <= b ==> r == if a + b <= MAX_INT64 then a + b else MAX_INT64)
  {
    var (sum, overflow) := CheckedAdd(a, b);
    if !overflow then sum else MAX_INT64
  }

  /** Exact whenever the difference is representable. */
  function SaturatingSub(a: int, b: int): (r: int)
    requires Int64(a) && Int64(b)
    ensures Int64(r) && (Int64(a - b) && b != MIN_INT64 ==> r == a - b)
  {
    if b == MIN_INT64 then MAX_INT64
    else
      var (result, overflow) := CheckedAdd(a, -b);
      if !overflow then result else MIN_INT64
  }

  function Max(a: int, b: int): int { if a > b then a else b }

  function Base(value: int): int { if value < 0 then 0 else value }

  const CANONICAL: set<string> :=
    {"input", "output", "total", "input_cached_tokens", "input_cache_creation", "output_reasoning_tokens"}

  /** A detail that is reported. */
  predicate Accepted(details: map<string, int>, key: string) {
    key in details && details[key] >= 0 && key !in CANONICAL
  }

  /** Sum of the accepted details of one direction, without a width. */
  function DetailSum(details: map<string, int>, keys: seq<string>, prefix: string): int {
    if keys == [] then 0
    else DetailSum(details, keys[..|keys| - 1], prefix) +
         (var k := keys[|keys| - 1]; if Accepted(details, k) && prefix <= k then details[k] else 0)
  }

  lemma {:induction false} DetailSumSnoc(details: map<string, int>, keys: seq<string>, i: nat, prefix: string)
    requires i < |keys|
    ensures DetailSum(details, keys[..i + 1], prefix) == DetailSum(details, keys[..i], prefix) +
            (if Accepted(details, keys[i]) && prefix <= keys[i] then details[keys[i]] else 0)
  {
    assert keys[..i + 1][..i] == keys[..i];
  }

  lemma {:induction false} DetailSumNonNegative(details: map<string, int>, keys: seq<string>, prefix: string)
    ensures DetailSum(details, keys, prefix) >= 0
    decreases |keys|
  {
    if keys != [] { DetailSumNonNegative(details, keys[..|keys| - 1], prefix); }
  }

  // The unbounded sum, clipped at the largest value.
  function Clip(x: int): int { if x <= MAX_INT64 then x else MAX_INT64 }

  /** Clipping after every addition clips once. */
  lemma ClipAdd(x: int, y: int)
    requires 0 <= x && 0 <= y <= MAX_INT64
    ensures Int64(Clip(x)) && SaturatingAdd(Clip(x), y) == Clip(x + y)
  {
  }

  /** The base bucket is what the unbounded arithmetic says, whatever the
      clipping of the subsets. */
  lemma BaseIsExact(total: int, subsets: int)
    requires 0 <= total <= MAX_INT64 && 0 <= subsets
    ensures Int64(Clip(subsets))
    ensures Max(SaturatingSub(total, Clip(subsets)), 0) == Max(total - subsets, 0)
    ensures Max(SaturatingSub(total, Clip(subsets)), 0) + subsets == Max(total, subsets)
  {
  }

  /** What the buckets must be, in unbounded arithmetic. */
  ghost predicate Exact(counts: map<string, int>, input: int, output: int, cacheRead: int, cacheCreation: int,
                        reasoning: int, details: map<string, int>, keys: seq<string>)
  {
    var inputSubsets := cacheRead + cacheCreation + DetailSum(details, keys, "input_");
    var outputSubsets := reasoning + DetailSum(details, keys, "output_");
    && "input" in counts && counts["input"] == Max(input - inputSubsets, 0)
    && "output" in counts && counts["output"] == Max(output - outputSubsets, 0)
    && ("total" in counts <==> input + output <= MAX_INT64)
    && ("total" in counts ==> counts["total"] == input + output)
    && ("input_cached_tokens" in counts <==> cacheRead != 0)
    && ("input_cached_tokens" in counts ==> counts["input_cached_tokens"] == cacheRead)
    && ("input_cache_creation" in counts <==> cacheCreation != 0)
    && ("input_cache_creation" in counts ==> counts["input_cache_creation"] == cacheCreation)
    && ("output_reasoning_tokens" in counts <==> reasoning != 0)
    && ("output_reasoning_tokens" in counts ==> counts["output_reasoning_tokens"] == reasoning)
    && (forall k :: k !in CANONICAL ==> (k in counts <==> k in keys && Accepted(details, k)))
    && (forall k :: k !in CANONICAL && k in counts ==> counts[k] == details[k])
  }

  function Bucket(counts: map<string, int>, key: string): int { if key in counts then counts[key] else 0 }

  /** Each direction's buckets add up to its total, or to its subsets when they
      claim more. */
  lemma BucketsAddUp(counts: map<string, int>, input: int, output: int, cacheRead: int, cacheCreation: int,
                     reasoning: int, details: map<string, int>, keys: seq<string>)
    requires Exact(counts, input, output, cacheRead, cacheCreation, reasoning, details, keys)
    ensures Bucket(counts, "input") + Bucket(counts, "input_cached_tokens") + Bucket(counts, "input_cache_creation") +
            DetailSum(details, keys, "input_") ==
            Max(input, cacheRead + cacheCreation + DetailSum(details, keys, "input_"))
    ensures Bucket(counts, "output") + Bucket(counts, "output_reasoning_tokens") +
            DetailSum(details, keys, "output_") ==
            Max(output, reasoning + DetailSum(details, keys, "output_"))
  {
    hide DetailSum;
  }

  /** The buckets of one usage record: `order` is the order in which the detail
      map was visited, `keys` the details considered. */
  method NormalizeUsage(inputTokens: int, outputTokens: int, cacheReadInputTokens: int, cacheCreationInputTokens: int,
                        reasoningOutputTokens: int, details: map<string, int>, order: seq<string>, utf8: string -> bool)
    returns (counts: map<string, int>, keys: seq<string>)
    requires Int64(inputTokens) && Int64(outputTokens) && Int64(cacheReadInputTokens)
    requires Int64(cacheCreationInputTokens) && Int64(reasoningOutputTokens)
    requires DistinctKeys(order) && Elements(order) == details.Keys
    requires forall k :: k in details ==> Int64(details[k])
    ensures Smallest(keys, UsageKeys(order, utf8), MAX_USAGE)
    ensures Exact(counts, Base(inputTokens), Base(outputTokens), Base(cacheReadInputTokens),
                  Base(cacheCreationInputTokens), Base(reasoningOutputTokens), details, keys)
  {
    var input, output := Base(inputTokens), Base(outputTokens);
    var cacheRead, cacheCreation := Base(cacheReadInputTokens), Base(cacheCreationInputTokens);
    var reasoning := Base(reasoningOutputTokens);
    var invalid, truncated;
    keys, invalid, truncated := BoundedUsageKeys(order, utf8);
    FromTheMap(keys, order, utf8);
    var extraInput, extraOutput;
    counts, extraInput, extraOutput := Details(details, keys);
    Subsets(cacheRead, cacheCreation, details, keys, "input_");
    Subsets(reasoning, 0, details, keys, "output_");
    hide Smallest, UsageKeys, DetailSum, SaturatingAdd, Clip;
    var inputSubsets := SaturatingAdd(SaturatingAdd(cacheRead, cacheCreation), extraInput);
    var outputSubsets := SaturatingAdd(reasoning, extraOutput);
    BaseIsExact(input, cacheRead + cacheCreation + DetailSum(details, keys, "input_"));
    BaseIsExact(output, reasoning + DetailSum(details, keys, "output_"));
    counts := Assemble(counts, input, output, cacheRead, cacheCreation, reasoning, inputSubsets, outputSubsets);
  }

  lemma FromTheMap(keys: seq<string>, order: seq<string>, utf8: string -> bool)
    requires Smallest(keys, UsageKeys(order, utf8), MAX_USAGE)
    ensures forall k :: k in keys ==> k in Elements(order)
  {
    hide UsageKey, Ascending, Before;
    forall k | k in keys ensures k in Elements(order) {
      var i :| 0 <= i < |keys| && keys[i] == k;
      assert keys[i] in UsageKeys(order, utf8);
    }
  }

  // The saturating sum of all subsets is their clipped unbounded sum.
  lemma Subsets(a: int, b: int, details: map<string, int>, keys: seq<string>, prefix: string)
    requires 0 <= a <= MAX_INT64 && 0 <= b <= MAX_INT64
    ensures var sum := DetailSum(details, keys, prefix);
            && 0 <= sum && Int64(Clip(sum)) && Int64(Clip(a + b + sum))
            && SaturatingAdd(SaturatingAdd(a, b), Clip(sum)) == Clip(a + b + sum)
            && (b == 0 ==> SaturatingAdd(a, Clip(sum)) == Clip(a + b + sum))
  {
    DetailSumNonNegative(details, keys, prefix);
    hide DetailSum;
  }

  method Assemble(details: map<string, int>, input: int, output: int, cacheRead: int, cacheCreation: int,
                  reasoning: int, inputSubsets: int, outputSubsets: int)
    returns (counts: map<string, int>)
    requires 0 <= input <= MAX_INT64 && 0 <= output <= MAX_INT64 && Int64(inputSubsets) && Int64(outputSubsets)
    requires forall k :: k in details ==> k !in CANONICAL
    ensures "input" in counts && counts["input"] == Max(SaturatingSub(input, inputSubsets), 0)
    ensures "output" in counts && counts["output"] == Max(SaturatingSub(output, outputSubsets), 0)
    ensures if input + output <= MAX_INT64 then "total" in counts && counts["total"] == input + output
            else "total" !in counts
    ensures cacheRead == Bucket(counts, "input_cached_tokens") && ("input_cached_tokens" in counts <==> cacheRead != 0)
    ensures cacheCreation == Bucket(counts, "input_cache_creation")
    ensures "input_cache_creation" in counts <==> cacheCreation != 0
    ensures reasoning == Bucket(counts, "output_reasoning_tokens")
    ensures "output_reasoning_tokens" in counts <==> reasoning != 0
    ensures forall k :: k !in CANONICAL ==> (k in counts <==> k in details) && (k in counts ==> counts[k] == details[k])
  {
    hide SaturatingSub, Max;
    counts := details["input" := Max(SaturatingSub(input, inputSubsets), 0)];
    counts := counts["output" := Max(SaturatingSub(output, outputSubsets), 0)];
    if cacheRead != 0 {
      counts := counts["input_cached_tokens" := cacheRead];
    }
    if cacheCreation != 0 {
      counts := counts["input_cache_creation" := cacheCreation];
    }
    if reasoning != 0 {
      counts := counts["output_reasoning_tokens" := reasoning];
    }
    var (total, overflow) := CheckedAdd(input, output);
    if !overflow {
      counts := counts["total" := total];
    }
  }

  /** The accepted details, and the clipped sum of each direction. */
  method Details(details: map<string, int>, keys: seq<string>)
    returns (counts: map<string, int>, extraInput: int, extraOutput: int)
    requires forall k :: k in details ==> Int64(details[k])
    requires forall k :: k in keys ==> k in details
    ensures forall k :: k in counts <==> k in keys && Accepted(details, k)
    ensures forall k :: k in counts ==> k in details && counts[k] == details[k]
    ensures extraInput == Clip(DetailSum(details, keys, "input_"))
    ensures extraOutput == Clip(DetailSum(details, keys, "output_"))
  {
    counts, extraInput, extraOutput := map[], 0, 0;
    for i := 0 to |keys|
      invariant forall k :: k in counts <==> k in keys[..i] && Accepted(details, k)
      invariant forall k :: k in counts ==> k in details && counts[k] == details[k]
      invariant extraInput == Clip(DetailSum(details, keys[..i], "input_"))
      invariant extraOutput == Clip(DetailSum(details, keys[..i], "output_"))
    {
      var key := keys[i];
      DetailSumSnoc(details, keys, i, "input_");
      DetailSumSnoc(details, keys, i, "output_");
      DetailSumNonNegative(details, keys[..i], "input_");
      DetailSumNonNegative(details, keys[..i], "output_");
      assert keys[..i + 1] == keys[..i] + [key];
      hide DetailSum;
      var value := details[key];
      if value < 0 { continue; }
      if key in CANONICAL { continue; }
      counts := counts[key := value];
      if "input_" <= key {
        ClipAdd(DetailSum(details, keys[..i], "input_"), value);
        extraInput := SaturatingAdd(extraInput, value);
      }
      if "output_" <= key {
        ClipAdd(DetailSum(details, keys[..i], "output_"), value);
        extraOutput := SaturatingAdd(extraOutput, value);
      }
    }
    assert keys[..|keys|] == keys;
  }
}
