/** The fixed-bucket latency histogram against the list of recorded samples. */
module Latency {

  const MAX_UINT64: nat := 0xFFFF_FFFF_FFFF_FFFF
  const MAX_INT64: nat := 0x7FFF_FFFF_FFFF_FFFF

  /** Upper bounds of the buckets; the last one takes everything. */
  type Table = t: seq<nat> | ValidTable(t) witness [MAX_UINT64]

  ghost predicate ValidTable(t: seq<nat>) {
    && |t| > 0 && t[|t| - 1] == MAX_UINT64
    && forall i, j | 0 <= i < j < |t| :: t[i] < t[j]
  }

  /** Bucket i is the one whose bounds enclose the value. */
  predicate Covers(t: seq<nat>, i: int, value: nat) {
    0 <= i < |t| && value <= t[i] && (i > 0 ==> t[i - 1] < value)
  }

  lemma CoverUnique(t: Table, i: int, j: int, value: nat)
    requires Covers(t, i, value) && Covers(t, j, value)
    ensures i == j
  {
    assert forall k, l | 0 <= k <= l < |t| :: t[k] <= t[l];
  }

  method BucketIndex(t: seq<nat>, value: nat) returns (index: nat)
    requires ValidTable(t)
    ensures value <= MAX_UINT64 ==> Covers(t, index, value) && forall j | Covers(t, j, value) :: j == index
    ensures value > MAX_UINT64 ==> index == |t| - 1
  {
    var low, high := 0, |t|;
    while low < high
      invariant 0 <= low <= high <= |t|
      invariant forall i | 0 <= i < low :: t[i] < value
      invariant forall i | high <= i < |t| :: value <= t[i]
    {
      var middle := (low + high) / 2;
      if value <= t[middle] {
        high := middle;
      } else {
        low := middle + 1;
      }
    }
    index := if low == |t| then |t| - 1 else low;
    forall j | value <= MAX_UINT64 && Covers(t, j, value)
      ensures j == index
    {
      CoverUnique(t, index, j, value);
    }
  }

  // ----- counting samples

  function InBucket(t: seq<nat>, samples: seq<nat>, i: int): nat {
    if samples == [] then 0
    else InBucket(t, samples[..|samples| - 1], i) + if Covers(t, i, samples[|samples| - 1]) then 1 else 0
  }

  function AtMost(samples: seq<nat>, limit: nat): (r: nat)
    ensures r <= |samples|
  {
    if samples == [] then 0
    else AtMost(samples[..|samples| - 1], limit) + if samples[|samples| - 1] <= limit then 1 else 0
  }

  function SumThrough(counts: seq<nat>, n: nat): nat
    requires n <= |counts|
  {
    if n == 0 then 0 else SumThrough(counts, n - 1) + counts[n - 1]
  }

  ghost predicate InRange(samples: seq<nat>) {
    forall k | 0 <= k < |samples| :: samples[k] <= MAX_UINT64
  }

  /** The counts are those of the samples. */
  ghost predicate Histogram(t: seq<nat>, samples: seq<nat>, counts: seq<nat>) {
    |counts| == |t| && forall i | 0 <= i < |t| :: counts[i] == InBucket(t, samples, i)
  }

  /** The samples at most the bound of bucket n - 1, one bucket at a time. */
  lemma {:induction false} BelowBound(t: Table, samples: seq<nat>, i: nat)
    requires InRange(samples) && i < |t|
    ensures AtMost(samples, t[i]) == (if i == 0 then 0 else AtMost(samples, t[i - 1])) + InBucket(t, samples, i)
  {
    if samples != [] {
      BelowBound(t, samples[..|samples| - 1], i);
    }
  }

  lemma {:induction false} CumulativeCount(t: Table, samples: seq<nat>, counts: seq<nat>, i: nat)
    requires InRange(samples) && Histogram(t, samples, counts) && i < |t|
    ensures SumThrough(counts, i + 1) == AtMost(samples, t[i])
  {
    BelowBound(t, samples, i);
    if i > 0 {
      CumulativeCount(t, samples, counts, i - 1);
    }
  }

  lemma {:induction false} AllAtMost(samples: seq<nat>)
    requires InRange(samples)
    ensures AtMost(samples, MAX_UINT64) == |samples|
  {
    if samples != [] {
      AllAtMost(samples[..|samples| - 1]);
    }
  }

  /** Recording into one histogram what was recorded into two adds the
      counts. */
  lemma {:induction false} CountsAdd(t: seq<nat>, a: seq<nat>, b: seq<nat>, i: int)
    ensures InBucket(t, a + b, i) == InBucket(t, a, i) + InBucket(t, b, i)
  {
    if b == [] {
      assert a + b == a;
    } else {
      assert (a + b)[..|a + b| - 1] == a + b[..|b| - 1];
      CountsAdd(t, a, b[..|b| - 1], i);
    }
  }

  lemma MergedHistogram(t: seq<nat>, a: seq<nat>, b: seq<nat>, left: seq<nat>, right: seq<nat>, merged: seq<nat>)
    requires Histogram(t, a, left) && Histogram(t, b, right) && |merged| == |t|
    requires forall i | 0 <= i < |t| :: merged[i] == left[i] + right[i]
    ensures Histogram(t, a + b, merged)
  {
    forall i | 0 <= i < |t|
      ensures merged[i] == InBucket(t, a + b, i)
    {
      CountsAdd(t, a, b, i);
    }
  }

  // ----- ranks

  ghost predicate Sorted(s: seq<nat>) {
    forall i, j | 0 <= i < j < |s| :: s[i] <= s[j]
  }

  ghost predicate SortedCopy(s: seq<nat>, samples: seq<nat>) {
    Sorted(s) && multiset(s) == multiset(samples)
  }

  lemma {:induction false} AtMostAdds(a: seq<nat>, b: seq<nat>, limit: nat)
    ensures AtMost(a + b, limit) == AtMost(a, limit) + AtMost(b, limit)
  {
    if b == [] {
      assert a + b == a;
    } else {
      assert (a + b)[..|a + b| - 1] == a + b[..|b| - 1];
      AtMostAdds(a, b[..|b| - 1], limit);
    }
  }

  lemma WithoutOne(s: seq<nat>, k: nat, limit: nat)
    requires k < |s|
    ensures multiset(s[..k] + s[k + 1..]) == multiset(s) - multiset{s[k]}
    ensures AtMost(s, limit) == AtMost(s[..k] + s[k + 1..], limit) + if s[k] <= limit then 1 else 0
  {
    assert s == s[..k] + ([s[k]] + s[k + 1..]);
    AtMostAdds(s[..k], [s[k]] + s[k + 1..], limit);
    AtMostAdds([s[k]], s[k + 1..], limit);
    AtMostAdds(s[..k], s[k + 1..], limit);
    assert [s[k]][..0] == [];
  }

  /** How many samples lie below a limit does not depend on their order. */
  lemma {:induction false} CountIgnoresOrder(s: seq<nat>, samples: seq<nat>, limit: nat)
    requires multiset(s) == multiset(samples)
    ensures AtMost(s, limit) == AtMost(samples, limit) && |s| == |samples|
    decreases |s|
  {
    if s == [] {
      assert |multiset(samples)| == 0;
    } else {
      var last := s[|s| - 1];
      assert last in multiset(s);
      var k :| 0 <= k < |samples| && samples[k] == last;
      WithoutOne(samples, k, limit);
      assert s == s[..|s| - 1] + [last];
      CountIgnoresOrder(s[..|s| - 1], samples[..k] + samples[k + 1..], limit);
    }
  }

  lemma {:induction false} SortedCount(s: seq<nat>, limit: nat, k: nat)
    requires Sorted(s) && 1 <= k <= |s|
    ensures AtMost(s, limit) >= k <==> s[k - 1] <= limit
  {
    var last := |s| - 1;
    if k < |s| {
      SortedCount(s[..last], limit, k);
    } else if last > 0 {
      SortedCount(s[..last], limit, last);
    }
  }

  // ----- percentiles

  function Ceil(x: real): int {
    -((-x).Floor)
  }

  lemma CeilRoundsUp(x: real, k: int)
    ensures k >= Ceil(x) <==> k as real >= x
  {
  }

  /** The first n buckets hold a sample, and the share of the samples that the
      percentile asks for. */
  predicate Reached(counts: seq<nat>, n: nat, samples: nat, percentile: real)
    requires n <= |counts|
  {
    SumThrough(counts, n) >= 1 && SumThrough(counts, n) as real >= samples as real * percentile
  }

  predicate FirstReached(counts: seq<nat>, i: int, samples: nat, percentile: real) {
    0 <= i < |counts| && Reached(counts, i + 1, samples, percentile) && !Reached(counts, i, samples, percentile)
  }

  lemma {:induction false} SumThroughGrows(counts: seq<nat>, i: nat, n: nat)
    requires i <= n <= |counts|
    ensures SumThrough(counts, i) <= SumThrough(counts, n)
  {
    if i < n {
      SumThroughGrows(counts, i, n - 1);
    }
  }

  /** The bound of the first bucket at which the share is reached. */
  method PercentileLatency(t: seq<nat>, counts: seq<nat>, samples: nat, percentile: real) returns (bound: nat)
    requires ValidTable(t) && |counts| == |t| && 0.0 <= percentile <= 1.0
    ensures samples == 0 ==> bound == 0
    ensures samples > 0 && Reached(counts, |counts|, samples, percentile) ==>
              exists i :: FirstReached(counts, i, samples, percentile) && bound == t[i]
    ensures samples > 0 && !Reached(counts, |counts|, samples, percentile) ==> bound == t[|t| - 1]
  {
    if samples == 0 {
      return 0;
    }
    var threshold := Ceil(samples as real * percentile);
    if threshold == 0 {
      threshold := 1;
    }
    CeilRoundsUp(samples as real * percentile, 0);
    var cumulative := 0;
    for i := 0 to |counts|
      invariant cumulative == SumThrough(counts, i) && !Reached(counts, i, samples, percentile)
    {
      cumulative := cumulative + counts[i];
      CeilRoundsUp(samples as real * percentile, cumulative);
      if cumulative >= threshold {
        assert FirstReached(counts, i, samples, percentile);
        SumThroughGrows(counts, i + 1, |counts|);
        return t[i];
      }
    }
    return t[|t| - 1];
  }

  /** At least one of the samples, and the share that the percentile asks for,
      are at most the limit. */
  predicate Share(samples: seq<nat>, limit: nat, percentile: real) {
    AtMost(samples, limit) >= 1 && AtMost(samples, limit) as real >= |samples| as real * percentile
  }

  predicate BoundsShare(t: seq<nat>, samples: seq<nat>, percentile: real, i: int) {
    0 <= i < |t| && Share(samples, t[i], percentile) && (i > 0 ==> !Share(samples, t[i - 1], percentile))
  }

  /** The bound reported for a percentile is the smallest of the table under
      which the share of the samples lies. */
  ghost predicate ReportsPercentile(t: seq<nat>, samples: seq<nat>, percentile: real, bound: nat) {
    if samples == [] then bound == 0 else exists i :: BoundsShare(t, samples, percentile, i) && bound == t[i]
  }

  lemma ReachedIsShare(t: Table, samples: seq<nat>, counts: seq<nat>, percentile: real, i: int)
    requires InRange(samples) && Histogram(t, samples, counts) && FirstReached(counts, i, |samples|, percentile)
    ensures BoundsShare(t, samples, percentile, i)
  {
    CumulativeCount(t, samples, counts, i);
    if i > 0 {
      CumulativeCount(t, samples, counts, i - 1);
    }
  }

  lemma WholeIsReached(t: Table, samples: seq<nat>, counts: seq<nat>, percentile: real)
    requires InRange(samples) && Histogram(t, samples, counts) && samples != [] && percentile <= 1.0
    ensures Reached(counts, |counts|, |samples|, percentile)
  {
    CumulativeCount(t, samples, counts, |t| - 1);
    AllAtMost(samples);
    assert |samples| as real * (1.0 - percentile) >= 0.0;
  }

  /** What the histogram reports for a percentile is true of the samples. */
  lemma PercentileIsExactToBucket(t: Table, samples: seq<nat>, counts: seq<nat>, percentile: real, bound: nat)
    requires InRange(samples) && Histogram(t, samples, counts) && percentile <= 1.0
    requires samples == [] ==> bound == 0
    requires samples != [] && Reached(counts, |counts|, |samples|, percentile) ==>
               exists i :: FirstReached(counts, i, |samples|, percentile) && bound == t[i]
    ensures ReportsPercentile(t, samples, percentile, bound)
  {
    hide Reached, Share, InRange;
    if samples != [] {
      WholeIsReached(t, samples, counts, percentile);
      var i :| FirstReached(counts, i, |samples|, percentile) && bound == t[i];
      ReachedIsShare(t, samples, counts, percentile, i);
    }
  }

  /** k samples are the least that make up the share, and at least one. */
  predicate IsRank(k: nat, n: nat, percentile: real) {
    1 <= k <= n && k as real >= n as real * percentile && (k > 1 ==> (k - 1) as real < n as real * percentile)
  }

  lemma {:induction false} AtMostGrows(samples: seq<nat>, a: nat, b: nat)
    requires a <= b
    ensures AtMost(samples, a) <= AtMost(samples, b)
  {
    if samples != [] {
      AtMostGrows(samples[..|samples| - 1], a, b);
    }
  }

  /** The bound reported is that of the bucket which holds the sample of that
      rank. */
  lemma PercentileHoldsRank(t: Table, samples: seq<nat>, percentile: real, bound: nat, s: seq<nat>, k: nat)
    requires InRange(samples) && samples != [] && SortedCopy(s, samples) && IsRank(k, |samples|, percentile)
    requires ReportsPercentile(t, samples, percentile, bound)
    ensures |s| == |samples|
    ensures exists i :: Covers(t, i, s[k - 1]) && bound == t[i]
  {
    var i :| BoundsShare(t, samples, percentile, i) && bound == t[i];
    CountIgnoresOrder(s, samples, t[i]);
    RankWithin(AtMost(samples, t[i]), k, |samples|, percentile);
    SortedCount(s, t[i], k);
    if i > 0 {
      CountIgnoresOrder(s, samples, t[i - 1]);
      RankWithin(AtMost(samples, t[i - 1]), k, |samples|, percentile);
      SortedCount(s, t[i - 1], k);
    }
    assert Covers(t, i, s[k - 1]);
  }

  lemma RankWithin(m: nat, k: nat, n: nat, percentile: real)
    requires IsRank(k, n, percentile)
    ensures m >= k <==> m >= 1 && m as real >= n as real * percentile
  {
  }
}
