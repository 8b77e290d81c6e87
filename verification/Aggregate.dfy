/** Cumulative metrics of a distributed run: replies are validated worker by
    worker, and what was last accepted is added up. */
module Aggregate {

  const MAX_UINT64: nat := 0xFFFF_FFFF_FFFF_FFFF

  /** The scalar counters of a snapshot, by position: total, successful and
      failed requests, latency samples, then timeout, DNS, TLS, refused and
      other failures, assertion failures and their six kinds, capture and
      template failures, dropped iterations, total latency, bytes read and
      written. */
  const TOTAL: nat := 0
  const SUCCESS: nat := 1
  const FAILED: nat := 2
  const SAMPLES: nat := 3
  const COUNTERS: nat := 22

  const LATENCY_BUCKETS: nat := 1024
  const HTTP_STATUSES: nat := 600

  /** `least` and `most` are the smallest and the largest latency, 0 without
      samples. */
  datatype Snapshot = Snapshot(counters: seq<nat>, buckets: seq<nat>, statuses: seq<nat>, least: nat, most: nat)

  predicate Shaped(s: Snapshot) {
    |s.counters| == COUNTERS && |s.buckets| == LATENCY_BUCKETS && |s.statuses| == HTTP_STATUSES
  }

  function Zeros(n: nat): (r: seq<nat>)
    ensures |r| == n && forall k | 0 <= k < n :: r[k] == 0
  {
    seq(n, _ => 0)
  }

  function Sum(v: seq<nat>): nat {
    if v == [] then 0 else Sum(v[..|v| - 1]) + v[|v| - 1]
  }

  // ----- validation

  /** The sum of the values, or the largest counter if that is less. */
  method BucketTotal(v: seq<nat>) returns (total: nat)
    ensures total == if Sum(v) <= MAX_UINT64 then Sum(v) else MAX_UINT64
  {
    total := 0;
    for k := 0 to |v|
      invariant total == Sum(v[..k]) <= MAX_UINT64
    {
      assert v[..k + 1][..k] == v[..k];
      if MAX_UINT64 - total < v[k] {
        SumGrows(v, k + 1);
        return MAX_UINT64;
      }
      total := total + v[k];
    }
    assert v[..|v|] == v;
  }

  lemma {:induction false} SumGrows(v: seq<nat>, n: nat)
    requires n <= |v|
    ensures Sum(v[..n]) <= Sum(v)
    decreases |v|
  {
    if n < |v| {
      SumGrows(v[..|v| - 1], n);
      assert v[..|v| - 1][..n] == v[..n];
    } else {
      assert v[..n] == v;
    }
  }

  /** What a cumulative snapshot must satisfy. */
  ghost predicate Consistent(s: Snapshot)
    requires Shaped(s)
  {
    && s.counters[SUCCESS] <= s.counters[TOTAL]
    && s.counters[FAILED] <= s.counters[TOTAL]
    && s.counters[SAMPLES] <= s.counters[TOTAL]
    && Sum(s.buckets) <= s.counters[SAMPLES]
    && Sum(s.statuses) <= s.counters[TOTAL]
  }

  /** What validation checks: the sums stop at the largest counter. */
  ghost predicate Validated(s: Snapshot)
    requires Shaped(s)
  {
    && s.counters[SUCCESS] <= s.counters[TOTAL]
    && s.counters[FAILED] <= s.counters[TOTAL]
    && s.counters[SAMPLES] <= s.counters[TOTAL]
    && (Sum(s.buckets) <= s.counters[SAMPLES] || (Sum(s.buckets) > MAX_UINT64 && s.counters[SAMPLES] >= MAX_UINT64))
    && (Sum(s.statuses) <= s.counters[TOTAL] || (Sum(s.statuses) > MAX_UINT64 && s.counters[TOTAL] >= MAX_UINT64))
  }

  method ValidateSnapshot(s: Snapshot) returns (ok: bool)
    requires Shaped(s)
    ensures ok <==> Validated(s)
  {
    if s.counters[SUCCESS] > s.counters[TOTAL] || s.counters[FAILED] > s.counters[TOTAL]
       || s.counters[SAMPLES] > s.counters[TOTAL] {
      return false;
    }
    var bucketTotal := BucketTotal(s.buckets);
    if bucketTotal > s.counters[SAMPLES] {
      return false;
    }
    var statusTotal := BucketTotal(s.statuses);
    return statusTotal <= s.counters[TOTAL];
  }

  /** Below the largest counter validation decides consistency; at it a sum
      that overflows goes unnoticed. */
  lemma ValidatedIsConsistent(s: Snapshot)
    requires Shaped(s) && s.counters[TOTAL] < MAX_UINT64
    ensures Validated(s) <==> Consistent(s)
  {
  }

  predicate InCounters(s: Snapshot) {
    forall k | 0 <= k < |s.counters| :: s.counters[k] <= MAX_UINT64
  }

  predicate SumsFit(s: Snapshot) {
    Sum(s.buckets) <= MAX_UINT64 && Sum(s.statuses) <= MAX_UINT64
  }

  /** Validation lets an inconsistent snapshot pass exactly when a sum leaves
      the range of the counters. */
  lemma ValidationIsExact(s: Snapshot)
    requires Shaped(s) && InCounters(s)
    ensures Consistent(s) <==> Validated(s) && SumsFit(s)
  {
    assert s.counters[SAMPLES] <= MAX_UINT64 && s.counters[TOTAL] <= MAX_UINT64;
  }

  /** Two full buckets: their sum passes every counter, and validation. */
  lemma OverflowGoesUnnoticed()
    ensures exists s :: Shaped(s) && InCounters(s) && Validated(s) && !Consistent(s)
  {
    var counters := seq(COUNTERS, k => if k == TOTAL || k == SAMPLES then MAX_UINT64 else 0);
    var buckets := [MAX_UINT64, MAX_UINT64] + Zeros(LATENCY_BUCKETS - 2);
    var s := Snapshot(counters, buckets, Zeros(HTTP_STATUSES), 0, 0);
    assert buckets[..2][..1] == [MAX_UINT64] && buckets[..2][..1][..0] == [];
    assert Sum(buckets[..2]) == Sum(buckets[..2][..1]) + MAX_UINT64 == 2 * MAX_UINT64;
    SumGrows(buckets, 2);
    SumZeros(s.statuses);
    assert Validated(s) && !Consistent(s);
  }

  predicate NoneDecreases(before: seq<nat>, after: seq<nat>) {
    |before| == |after| && forall k | 0 <= k < |before| :: before[k] <= after[k]
  }

  predicate Monotonic(before: Snapshot, after: Snapshot) {
    && NoneDecreases(before.counters, after.counters)
    && NoneDecreases(before.buckets, after.buckets)
    && NoneDecreases(before.statuses, after.statuses)
  }

  method MovesForward(before: seq<nat>, after: seq<nat>) returns (ok: bool)
    requires |before| == |after|
    ensures ok <==> NoneDecreases(before, after)
  {
    for k := 0 to |after|
      invariant forall j | 0 <= j < k :: before[j] <= after[j]
    {
      if after[k] < before[k] {
        return false;
      }
    }
    return true;
  }

  method ValidateMonotonic(before: Snapshot, after: Snapshot) returns (ok: bool)
    requires Shaped(before) && Shaped(after)
    ensures ok <==> Monotonic(before, after)
  {
    ok := MovesForward(before.counters, after.counters);
    if ok {
      ok := MovesForward(before.buckets, after.buckets);
    }
    if ok {
      ok := MovesForward(before.statuses, after.statuses);
    }
  }

  // ----- adding up

  function Wrap(x: nat): nat {
    x % (MAX_UINT64 + 1)
  }

  /** Entry k of all the vectors added up. */
  function Column(rows: seq<seq<nat>>, k: nat): nat
    requires forall i | 0 <= i < |rows| :: k < |rows[i]|
  {
    if rows == [] then 0 else Column(rows[..|rows| - 1], k) + rows[|rows| - 1][k]
  }

  ghost predicate Rows(rows: seq<seq<nat>>, n: nat) {
    forall i | 0 <= i < |rows| :: |rows[i]| == n
  }

  function Columns(rows: seq<seq<nat>>, n: nat): (r: seq<nat>)
    requires Rows(rows, n)
    ensures |r| == n && forall k | 0 <= k < n :: r[k] == Column(rows, k)
  {
    seq(n, k requires 0 <= k < n => Column(rows, k))
  }

  lemma WrapAdds(a: nat, b: nat)
    ensures Wrap(Wrap(a) + b) == Wrap(a + b)
  {
  }

  /** Add a vector in place, with the arithmetic of the machine. */
  method AddInto(target: array<nat>, next: seq<nat>, ghost rows: seq<seq<nat>>)
    requires target.Length == |next| && Rows(rows, |next|)
    requires forall k | 0 <= k < target.Length :: target[k] == Wrap(Column(rows, k))
    modifies target
    ensures Rows(rows + [next], |next|)
    ensures forall k | 0 <= k < target.Length :: target[k] == Wrap(Column(rows + [next], k))
  {
    assert (rows + [next])[..|rows|] == rows;
    for k := 0 to target.Length
      invariant forall j | 0 <= j < k :: target[j] == Wrap(Column(rows + [next], j))
      invariant forall j | k <= j < target.Length :: target[j] == Wrap(Column(rows, j))
    {
      WrapAdds(Column(rows, k), next[k]);
      target[k] := Wrap(target[k] + next[k]);
    }
  }

  function CounterRows(list: seq<Snapshot>): (r: seq<seq<nat>>)
    ensures |r| == |list| && forall i | 0 <= i < |list| :: r[i] == list[i].counters
  {
    seq(|list|, i requires 0 <= i < |list| => list[i].counters)
  }

  function BucketRows(list: seq<Snapshot>): (r: seq<seq<nat>>)
    ensures |r| == |list| && forall i | 0 <= i < |list| :: r[i] == list[i].buckets
  {
    seq(|list|, i requires 0 <= i < |list| => list[i].buckets)
  }

  function StatusRows(list: seq<Snapshot>): (r: seq<seq<nat>>)
    ensures |r| == |list| && forall i | 0 <= i < |list| :: r[i] == list[i].statuses
  {
    seq(|list|, i requires 0 <= i < |list| => list[i].statuses)
  }

  ghost predicate AllShaped(list: seq<Snapshot>) {
    forall i | 0 <= i < |list| :: Shaped(list[i])
  }

  /** The smallest latency of the snapshots with samples, or the largest
      number. */
  function Least(list: seq<Snapshot>): nat
    requires forall i | 0 <= i < |list| :: Shaped(list[i])
  {
    if list == [] then MAX_UINT64
    else
      var last, least := list[|list| - 1], Least(list[..|list| - 1]);
      assert Shaped(last);
      if last.counters[SAMPLES] > 0 && last.least < least then last.least else least
  }

  function Most(list: seq<Snapshot>): nat
    requires forall i | 0 <= i < |list| :: Shaped(list[i])
  {
    if list == [] then 0
    else
      var last, most := list[|list| - 1], Most(list[..|list| - 1]);
      assert Shaped(last);
      if last.counters[SAMPLES] > 0 && last.most > most then last.most else most
  }

  function Shown(least: nat): nat {
    if least == MAX_UINT64 then 0 else least
  }

  /** What would be shown if counters had no limit. */
  ghost function Exact(list: seq<Snapshot>): (s: Snapshot)
    requires AllShaped(list)
    ensures Shaped(s)
  {
    Snapshot(Columns(CounterRows(list), COUNTERS), Columns(BucketRows(list), LATENCY_BUCKETS),
             Columns(StatusRows(list), HTTP_STATUSES), Shown(Least(list)), Most(list))
  }

  lemma RowsAppended(list: seq<Snapshot>, s: Snapshot)
    ensures CounterRows(list + [s])[..|list|] == CounterRows(list)
    ensures BucketRows(list + [s])[..|list|] == BucketRows(list)
    ensures StatusRows(list + [s])[..|list|] == StatusRows(list)
  {
  }

  /** One more snapshot adds its entries. */
  lemma ExactAppended(list: seq<Snapshot>, s: Snapshot)
    requires AllShaped(list) && Shaped(s)
    ensures AllShaped(list + [s])
    ensures forall k | 0 <= k < COUNTERS :: Exact(list + [s]).counters[k] == Exact(list).counters[k] + s.counters[k]
    ensures forall k | 0 <= k < LATENCY_BUCKETS :: Exact(list + [s]).buckets[k] == Exact(list).buckets[k] + s.buckets[k]
    ensures forall k | 0 <= k < HTTP_STATUSES ::
              Exact(list + [s]).statuses[k] == Exact(list).statuses[k] + s.statuses[k]
  {
    RowsAppended(list, s);
  }

  ghost predicate Small(v: seq<nat>) {
    forall k | 0 <= k < |v| :: v[k] <= MAX_UINT64
  }

  /** No counter of the total overflows. */
  ghost predicate Fits(s: Snapshot) {
    Small(s.counters) && Small(s.buckets) && Small(s.statuses)
  }

  lemma WrapIsExact(wrapped: seq<nat>, exact: seq<nat>)
    requires |wrapped| == |exact| && Small(exact)
    requires forall k | 0 <= k < |exact| :: wrapped[k] == Wrap(exact[k])
    ensures wrapped == exact
  {
    forall k | 0 <= k < |exact|
      ensures wrapped[k] == exact[k]
    {
    }
  }

  method AddRows(rows: seq<seq<nat>>, n: nat) returns (total: seq<nat>)
    requires Rows(rows, n)
    ensures |total| == n && forall k | 0 <= k < n :: total[k] == Wrap(Column(rows, k))
  {
    var target := new nat[n](_ => 0);
    for i := 0 to |rows|
      invariant Rows(rows[..i], n)
      invariant forall k | 0 <= k < n :: target[k] == Wrap(Column(rows[..i], k))
    {
      assert rows[..i + 1] == rows[..i] + [rows[i]];
      AddInto(target, rows[i], rows[..i]);
    }
    assert rows[..|rows|] == rows;
    total := target[..];
  }

  method LatencyEnds(list: seq<Snapshot>) returns (least: nat, most: nat)
    requires AllShaped(list)
    ensures least == Shown(Least(list)) && most == Most(list)
  {
    least, most := MAX_UINT64, 0;
    for i := 0 to |list|
      invariant least == Least(list[..i]) && most == Most(list[..i])
    {
      var next := list[i];
      assert list[..i + 1][..i] == list[..i];
      if next.counters[SAMPLES] > 0 {
        least := if next.least < least then next.least else least;
        most := if next.most > most then next.most else most;
      }
    }
    assert list[..|list|] == list;
    if least == MAX_UINT64 {
      least := 0;
    }
  }

  method AggregateSnapshots(list: seq<Snapshot>) returns (total: Snapshot)
    requires AllShaped(list)
    ensures Shaped(total) && (Fits(Exact(list)) ==> total == Exact(list))
    ensures total.least == Exact(list).least && total.most == Exact(list).most
  {
    var counters := AddRows(CounterRows(list), COUNTERS);
    var buckets := AddRows(BucketRows(list), LATENCY_BUCKETS);
    var statuses := AddRows(StatusRows(list), HTTP_STATUSES);
    var least, most := LatencyEnds(list);
    total := Snapshot(counters, buckets, statuses, least, most);
    if Fits(Exact(list)) {
      WrapIsExact(counters, Exact(list).counters);
      WrapIsExact(buckets, Exact(list).buckets);
      WrapIsExact(statuses, Exact(list).statuses);
    }
  }

  // ----- totals of consistent snapshots

  lemma {:induction false} ColumnOrder(rows: seq<seq<nat>>, j: nat, k: nat)
    requires forall i | 0 <= i < |rows| :: j < |rows[i]| && k < |rows[i]| && rows[i][j] <= rows[i][k]
    ensures Column(rows, j) <= Column(rows, k)
  {
    if rows != [] {
      ColumnOrder(rows[..|rows| - 1], j, k);
    }
  }

  lemma {:induction false} SumAdds(a: seq<nat>, b: seq<nat>, c: seq<nat>)
    requires |a| == |b| == |c| && forall k | 0 <= k < |a| :: c[k] == a[k] + b[k]
    ensures Sum(c) == Sum(a) + Sum(b)
  {
    if a != [] {
      SumAdds(a[..|a| - 1], b[..|b| - 1], c[..|c| - 1]);
    }
  }

  lemma {:induction false} SumZeros(v: seq<nat>)
    requires forall k | 0 <= k < |v| :: v[k] == 0
    ensures Sum(v) == 0
  {
    if v != [] {
      SumZeros(v[..|v| - 1]);
    }
  }

  /** Rows whose sums are bounded by an entry of other rows. */
  lemma {:induction false} ColumnsBounded(rows: seq<seq<nat>>, n: nat, bounds: seq<seq<nat>>, j: nat)
    requires Rows(rows, n) && |rows| == |bounds|
    requires forall i | 0 <= i < |rows| :: j < |bounds[i]| && Sum(rows[i]) <= bounds[i][j]
    ensures Sum(Columns(rows, n)) <= Column(bounds, j)
  {
    if rows == [] {
      SumZeros(Columns(rows, n));
    } else {
      var last := |rows| - 1;
      ColumnsBounded(rows[..last], n, bounds[..last], j);
      SumAdds(Columns(rows[..last], n), rows[last], Columns(rows, n));
    }
  }

  /** Totals of consistent snapshots are consistent. */
  lemma ExactIsConsistent(list: seq<Snapshot>)
    requires AllShaped(list) && forall i | 0 <= i < |list| :: Consistent(list[i])
    ensures Consistent(Exact(list))
  {
    var counters := CounterRows(list);
    ColumnOrder(counters, SUCCESS, TOTAL);
    ColumnOrder(counters, FAILED, TOTAL);
    ColumnOrder(counters, SAMPLES, TOTAL);
    ColumnsBounded(BucketRows(list), LATENCY_BUCKETS, counters, SAMPLES);
    ColumnsBounded(StatusRows(list), HTTP_STATUSES, counters, TOTAL);
  }
}
