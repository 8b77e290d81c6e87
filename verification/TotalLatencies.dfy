/** The latencies of a distributed run: the totals say of the samples of all
    workers what one worker would say that had recorded them all. */
module TotalLatencies {
  import opened Latency
  import A = Aggregate
  import S = Stats

  const TOTAL_LATENCY: nat := 19

  /** A latency is a duration. */
  ghost predicate Durations(recorded: seq<nat>) {
    forall k | 0 <= k < |recorded| :: recorded[k] <= MAX_INT64
  }

  /** The snapshot is that of a worker that has recorded these latencies. */
  ghost predicate Presents(s: A.Snapshot, t: seq<nat>, recorded: seq<nat>) {
    && A.Shaped(s) && Durations(recorded) && Histogram(t, recorded, s.buckets)
    && s.counters[A.SAMPLES] == |recorded| && s.counters[TOTAL_LATENCY] == S.Sum(recorded)
    && s.least == A.Shown(S.Smallest(recorded, MAX_UINT64)) && s.most == S.Largest(recorded)
  }

  /** The latencies of the first n workers, worker after worker. */
  function Together(recorded: seq<seq<nat>>, n: nat): seq<nat>
    requires n <= |recorded|
  {
    if n == 0 then [] else Together(recorded, n - 1) + recorded[n - 1]
  }

  ghost predicate AllPresent(list: seq<A.Snapshot>, t: seq<nat>, recorded: seq<seq<nat>>) {
    |list| == |recorded| && forall i | 0 <= i < |list| :: Presents(list[i], t, recorded[i])
  }

  lemma {:induction false} SmallestIsSample(recorded: seq<nat>)
    requires Durations(recorded) && recorded != []
    ensures S.Smallest(recorded, MAX_UINT64) <= MAX_INT64
  {
    var last := |recorded| - 1;
    S.SmallestBelow(recorded[..last]);
    if last > 0 {
      SmallestIsSample(recorded[..last]);
    }
  }

  /** The extremes of the total are those of all samples. */
  lemma {:induction false} EndsOfAll(list: seq<A.Snapshot>, t: seq<nat>, recorded: seq<seq<nat>>)
    requires AllPresent(list, t, recorded)
    ensures A.AllShaped(list)
    ensures A.Least(list) == S.Smallest(Together(recorded, |recorded|), MAX_UINT64)
    ensures A.Most(list) == S.Largest(Together(recorded, |recorded|))
  {
    forall i | 0 <= i < |list|
      ensures A.Shaped(list[i])
    {
      assert Presents(list[i], t, recorded[i]);
    }
    if list != [] {
      var last := |list| - 1;
      EndsOfAll(list[..last], t, recorded[..last]);
      TogetherPrefix(recorded, last, last);
      assert Presents(list[last], t, recorded[last]);
      S.SmallestAppended(Together(recorded, last), recorded[last]);
      S.LargestAppended(Together(recorded, last), recorded[last]);
      S.SmallestBelow(Together(recorded, last));
      if recorded[last] != [] {
        SmallestIsSample(recorded[last]);
      }
    }
  }

  lemma {:induction false} TogetherPrefix(recorded: seq<seq<nat>>, m: nat, n: nat)
    requires n <= m <= |recorded|
    ensures Together(recorded[..m], n) == Together(recorded, n)
  {
    if n > 0 {
      TogetherPrefix(recorded, m, n - 1);
    }
  }

  lemma {:induction false} TogetherDurations(recorded: seq<seq<nat>>, n: nat)
    requires n <= |recorded| && forall i | 0 <= i < |recorded| :: Durations(recorded[i])
    ensures Durations(Together(recorded, n))
  {
    if n > 0 {
      TogetherDurations(recorded, n - 1);
      assert Durations(recorded[n - 1]);
    }
  }

  /** Counters, histogram and sum of the total are those of all samples. */
  lemma {:induction false} CountsOfAll(list: seq<A.Snapshot>, t: seq<nat>, recorded: seq<seq<nat>>)
    requires AllPresent(list, t, recorded) && |t| == A.LATENCY_BUCKETS
    ensures A.AllShaped(list)
    ensures var all, total := Together(recorded, |recorded|), A.Exact(list);
            && Histogram(t, all, total.buckets)
            && total.counters[A.SAMPLES] == |all| && total.counters[TOTAL_LATENCY] == S.Sum(all)
  {
    forall i | 0 <= i < |list|
      ensures A.Shaped(list[i])
    {
      assert Presents(list[i], t, recorded[i]);
    }
    if list != [] {
      hide A.Exact, Histogram;
      var last := |list| - 1;
      CountsOfAll(list[..last], t, recorded[..last]);
      TogetherPrefix(recorded, last, last);
      assert list == list[..last] + [list[last]];
      assert Presents(list[last], t, recorded[last]);
      A.ExactAppended(list[..last], list[last]);
      S.SumAppended(Together(recorded, last), recorded[last]);
      MergedHistogram(t, Together(recorded, last), recorded[last],
                      A.Exact(list[..last]).buckets, list[last].buckets, A.Exact(list).buckets);
    }
  }

  /** If every worker presents what it has recorded, the total presents what
      they have recorded together. */
  lemma TotalPresentsAll(list: seq<A.Snapshot>, t: seq<nat>, recorded: seq<seq<nat>>)
    requires AllPresent(list, t, recorded) && |t| == A.LATENCY_BUCKETS
    ensures A.AllShaped(list) && Presents(A.Exact(list), t, Together(recorded, |recorded|))
  {
    CountsOfAll(list, t, recorded);
    EndsOfAll(list, t, recorded);
    forall i | 0 <= i < |recorded|
      ensures Durations(recorded[i])
    {
      assert Presents(list[i], t, recorded[i]);
    }
    TogetherDurations(recorded, |recorded|);
  }

  /** The totals of the workers, and their percentiles: exact to the bucket for
      the samples of all workers. */
  method AggregateLatencies(list: seq<A.Snapshot>, t: seq<nat>, ghost recorded: seq<seq<nat>>)
    returns (total: A.Snapshot, p95: nat, p99: nat, p999: nat)
    requires ValidTable(t) && |t| == A.LATENCY_BUCKETS && AllPresent(list, t, recorded) && A.AllShaped(list)
    ensures A.Fits(A.Exact(list)) ==>
              var all := Together(recorded, |recorded|);
              && Presents(total, t, all)
              && ReportsPercentile(t, all, 0.95, p95) && ReportsPercentile(t, all, 0.99, p99)
              && ReportsPercentile(t, all, 0.999, p999)
  {
    total := A.AggregateSnapshots(list);
    TotalPresentsAll(list, t, recorded);
    ghost var all := if A.Fits(A.Exact(list)) then Together(recorded, |recorded|) else [];
    p95 := TotalPercentile(t, total, 0.95, all);
    p99 := TotalPercentile(t, total, 0.99, all);
    p999 := TotalPercentile(t, total, 0.999, all);
  }

  method TotalPercentile(t: seq<nat>, total: A.Snapshot, percentile: real, ghost all: seq<nat>) returns (bound: nat)
    requires ValidTable(t) && A.Shaped(total) && |t| == A.LATENCY_BUCKETS && 0.0 <= percentile <= 1.0
    ensures Presents(total, t, all) ==> ReportsPercentile(t, all, percentile, bound)
  {
    bound := PercentileLatency(t, total.buckets, total.counters[A.SAMPLES], percentile);
    if Presents(total, t, all) {
      PercentileIsExactToBucket(t, all, total.buckets, percentile, bound);
    }
  }
}
