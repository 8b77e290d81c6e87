/** The totals of request steps: what the workers report for a step is added
    up, entry by entry. */
module StepSums {
  import opened Aggregate
  import opened StepTotals

  /** One number of a step. */
  datatype Field = CounterOf(k: nat) | BucketOf(k: nat) | StatusOf(code: int)

  predicate FieldValid(f: Field) {
    match f
    case CounterOf(k) => k < STEP_COUNTERS
    case BucketOf(k) => k < LATENCY_BUCKETS
    case StatusOf(_) => true
  }

  function InRow(row: StepRow, f: Field): nat
    requires RowShaped(row) && FieldValid(f)
  {
    match f
    case CounterOf(k) => row.counters[k]
    case BucketOf(k) => row.buckets[k]
    case StatusOf(code) => CountOf(row.statuses, code)
  }

  datatype StepTotal = StepTotal(name: string, counters: seq<nat>, buckets: seq<nat>, statuses: map<int, nat>)

  predicate TotalShaped(total: StepTotal) {
    |total.counters| == STEP_COUNTERS && |total.buckets| == LATENCY_BUCKETS
  }

  function Counted(statuses: map<int, nat>, code: int): nat {
    if code in statuses then statuses[code] else 0
  }

  function InTotal(total: StepTotal, f: Field): nat
    requires TotalShaped(total) && FieldValid(f)
  {
    match f
    case CounterOf(k) => total.counters[k]
    case BucketOf(k) => total.buckets[k]
    case StatusOf(code) => Counted(total.statuses, code)
  }

  function NewTotal(name: string): (r: StepTotal)
    ensures TotalShaped(r) && forall f | FieldValid(f) :: InTotal(r, f) == 0
  {
    StepTotal(name, Zeros(STEP_COUNTERS), Zeros(LATENCY_BUCKETS), map[])
  }

  // ----- adding

  method AddVectors(target: seq<nat>, next: seq<nat>) returns (more: seq<nat>)
    requires |target| == |next|
    ensures |more| == |target| && forall k | 0 <= k < |more| :: more[k] == Wrap(target[k] + next[k])
  {
    more := [];
    for k := 0 to |target|
      invariant |more| == k && forall j | 0 <= j < k :: more[j] == Wrap(target[j] + next[j])
    {
      more := more + [Wrap(target[k] + next[k])];
    }
  }

  lemma SmallWraps(x: nat)
    requires x <= MAX_UINT64
    ensures Wrap(x) == x
  {
  }

  method AddStatuses(target: map<int, nat>, next: seq<StatusCount>) returns (more: map<int, nat>)
    requires forall code :: Counted(target, code) <= MAX_UINT64
    ensures forall code :: Counted(more, code) == Wrap(Counted(target, code) + CountOf(next, code))
  {
    hide Wrap;
    forall code
      ensures Counted(target, code) == Wrap(Counted(target, code) + CountOf(next[..0], code))
    {
      SmallWraps(Counted(target, code));
    }
    more := target;
    for k := 0 to |next|
      invariant forall code :: Counted(more, code) == Wrap(Counted(target, code) + CountOf(next[..k], code))
    {
      var code := next[k].code;
      assert next[..k + 1][..k] == next[..k];
      WrapAdds(Counted(target, code) + CountOf(next[..k], code), next[k].count);
      more := more[code := Wrap(Counted(more, code) + next[k].count)];
    }
    assert next[..|next|] == next;
  }

  ghost predicate WithinCounters(total: StepTotal) {
    TotalShaped(total) && forall f | FieldValid(f) :: InTotal(total, f) <= MAX_UINT64
  }

  method AddStep(target: StepTotal, next: StepRow) returns (more: StepTotal)
    requires WithinCounters(target) && RowShaped(next)
    ensures WithinCounters(more) && more.name == target.name
    ensures forall f | FieldValid(f) :: InTotal(more, f) == Wrap(InTotal(target, f) + InRow(next, f))
  {
    var counters := AddVectors(target.counters, next.counters);
    var buckets := AddVectors(target.buckets, next.buckets);
    assert forall code :: Counted(target.statuses, code) == InTotal(target, StatusOf(code));
    var statuses := AddStatuses(target.statuses, next.statuses);
    more := StepTotal(target.name, counters, buckets, statuses);
  }

  // ----- the totals of many rows

  function RowsSum(rows: seq<StepRow>, n: nat, id: string, f: Field): nat
    requires n <= |rows| && FieldValid(f) && forall k | 0 <= k < |rows| :: RowShaped(rows[k])
  {
    if n == 0 then 0
    else RowsSum(rows, n - 1, id, f) + if rows[n - 1].id == id then InRow(rows[n - 1], f) else 0
  }

  ghost predicate ListsShaped(lists: seq<seq<StepRow>>) {
    forall i | 0 <= i < |lists| :: RowsShaped(lists[i])
  }

  /** What all workers report for a step, without a limit. */
  ghost function ListsSum(lists: seq<seq<StepRow>>, n: nat, id: string, f: Field): nat
    requires n <= |lists| && FieldValid(f) && ListsShaped(lists)
  {
    if n == 0 then 0 else ListsSum(lists, n - 1, id, f) + RowsSum(lists[n - 1], |lists[n - 1]|, id, f)
  }

  ghost predicate AllWithin(totals: map<string, StepTotal>) {
    forall id | id in totals :: WithinCounters(totals[id])
  }

  ghost function TotalIn(totals: map<string, StepTotal>, id: string, f: Field): nat
    requires AllWithin(totals) && FieldValid(f)
  {
    if id in totals then InTotal(totals[id], f) else 0
  }

  ghost predicate Adds(totals: map<string, StepTotal>, lists: seq<seq<StepRow>>, i: nat, k: nat)
    requires ListsShaped(lists) && (i < |lists| ==> k <= |lists[i]|) && i <= |lists|
  {
    && AllWithin(totals)
    && forall id, f | FieldValid(f) ::
         TotalIn(totals, id, f)
         == Wrap(ListsSum(lists, i, id, f) + if i < |lists| then RowsSum(lists[i], k, id, f) else 0)
  }

  lemma RowAdds(totals: map<string, StepTotal>, lists: seq<seq<StepRow>>, i: nat, k: nat, more: StepTotal)
    requires ListsShaped(lists) && i < |lists| && k < |lists[i]| && Adds(totals, lists, i, k) && WithinCounters(more)
    requires forall f | FieldValid(f) ::
               RowShaped(lists[i][k])
               && InTotal(more, f) == Wrap(TotalIn(totals, lists[i][k].id, f) + InRow(lists[i][k], f))
    ensures Adds(totals[lists[i][k].id := more], lists, i, k + 1)
  {
    var row := lists[i][k];
    assert RowShaped(row);
    forall id, f | FieldValid(f)
      ensures TotalIn(totals[row.id := more], id, f)
           == Wrap(ListsSum(lists, i, id, f) + RowsSum(lists[i], k + 1, id, f))
    {
      WrapAdds(ListsSum(lists, i, id, f) + RowsSum(lists[i], k, id, f), InRow(row, f));
    }
  }

  lemma ListAdded(totals: map<string, StepTotal>, lists: seq<seq<StepRow>>, i: nat)
    requires ListsShaped(lists) && i < |lists| && Adds(totals, lists, i, |lists[i]|)
    ensures Adds(totals, lists, i + 1, 0)
  {
    forall id, f | FieldValid(f)
      ensures TotalIn(totals, id, f)
           == Wrap(ListsSum(lists, i + 1, id, f) + if i + 1 < |lists| then RowsSum(lists[i + 1], 0, id, f) else 0)
    {
    }
  }

  method AggregateSteps(lists: seq<seq<StepRow>>) returns (totals: map<string, StepTotal>)
    requires ListsShaped(lists)
    ensures AllWithin(totals)
    ensures forall id, f | FieldValid(f) :: TotalIn(totals, id, f) == Wrap(ListsSum(lists, |lists|, id, f))
  {
    hide WithinCounters, InTotal, InRow, NewTotal;
    totals := map[];
    for i := 0 to |lists|
      invariant Adds(totals, lists, i, 0)
    {
      for k := 0 to |lists[i]|
        invariant Adds(totals, lists, i, k)
      {
        var row := lists[i][k];
        NewIsWithin(row.name);
        var current := if row.id in totals then totals[row.id] else NewTotal(row.name);
        var more := AddStep(current, row);
        RowAdds(totals, lists, i, k, more);
        totals := totals[row.id := more];
      }
      ListAdded(totals, lists, i);
    }
  }

  lemma NewIsWithin(name: string)
    ensures WithinCounters(NewTotal(name))
  {
  }

  // ----- growth and balance

  /** The same steps, and no number is smaller; status counts are compared only
      if `all` is set. */
  ghost predicate StepsGrow(before: seq<StepRow>, after: seq<StepRow>, all: bool) {
    && RowsShaped(before) && RowsShaped(after) && |before| == |after|
    && (forall k | 0 <= k < |before| :: before[k].id == after[k].id && before[k].name == after[k].name)
    && (forall k, f | 0 <= k < |before| && FieldValid(f) && (all || !f.StatusOf?) ::
          InRow(before[k], f) <= InRow(after[k], f))
  }

  ghost predicate AllCountedLast(rows: seq<StepRow>) {
    forall k | 0 <= k < |rows| :: CountedLast(rows[k].statuses)
  }

  lemma ForwardGrows(before: seq<StepRow>, after: seq<StepRow>, all: bool)
    requires RowsShaped(before) && RowsShaped(after) && StepsForward(before, after)
    requires all ==> AllCountedLast(before)
    ensures StepsGrow(before, after, all)
  {
    forall k, f | 0 <= k < |before| && FieldValid(f) && (all || !f.StatusOf?)
      ensures InRow(before[k], f) <= InRow(after[k], f)
    {
      assert RowForward(before[k], after[k]);
      if f.StatusOf? {
        StatusesMustGrow(before, k, f.code);
        StatusesGrow(before[k].statuses, after[k].statuses, f.code);
      }
    }
    forall k | 0 <= k < |before|
      ensures before[k].id == after[k].id && before[k].name == after[k].name
    {
      assert RowForward(before[k], after[k]);
    }
  }

  lemma StatusesMustGrow(rows: seq<StepRow>, k: nat, code: int)
    requires k < |rows| && AllCountedLast(rows)
    ensures LastCount(rows[k].statuses, code) == CountOf(rows[k].statuses, code)
  {
    assert CountedLast(rows[k].statuses);
  }

  lemma GrowStays(rows: seq<StepRow>, all: bool)
    requires RowsShaped(rows)
    ensures StepsGrow(rows, rows, all)
  {
  }

  lemma GrowAdds(a: seq<StepRow>, b: seq<StepRow>, c: seq<StepRow>, all: bool)
    requires StepsGrow(a, b, all) && StepsGrow(b, c, all)
    ensures StepsGrow(a, c, all)
  {
    forall k, f | 0 <= k < |a| && FieldValid(f) && (all || !f.StatusOf?)
      ensures InRow(a[k], f) <= InRow(c[k], f)
    {
      assert InRow(a[k], f) <= InRow(b[k], f);
    }
  }

  lemma {:induction false} SumsGrow(before: seq<StepRow>, after: seq<StepRow>, all: bool, n: nat, id: string, f: Field)
    requires StepsGrow(before, after, all) && n <= |before| && FieldValid(f) && (all || !f.StatusOf?)
    ensures RowsSum(before, n, id, f) <= RowsSum(after, n, id, f)
  {
    if n > 0 {
      SumsGrow(before, after, all, n - 1, id, f);
      assert InRow(before[n - 1], f) <= InRow(after[n - 1], f);
      assert before[n - 1].id == after[n - 1].id;
    }
  }

  lemma {:induction false} CountWithinTotal(statuses: seq<StatusCount>, code: int)
    ensures CountOf(statuses, code) <= StatusTotal(statuses)
  {
    if statuses != [] {
      CountWithinTotal(statuses[..|statuses| - 1], code);
    }
  }

  /** What a valid row never counts more often than requests. */
  predicate Bounded(f: Field) {
    f == CounterOf(SUCCESS) || f == CounterOf(FAILED) || f == CounterOf(SAMPLES) || f.StatusOf?
  }

  lemma {:induction false} SumsBounded(rows: seq<StepRow>, n: nat, id: string, f: Field)
    requires n <= |rows| && AllRowsValid(rows) && RowsShaped(rows) && Bounded(f)
    ensures RowsSum(rows, n, id, f) <= RowsSum(rows, n, id, CounterOf(TOTAL))
  {
    if n > 0 {
      SumsBounded(rows, n - 1, id, f);
      assert RowValid(rows[n - 1]);
      if f.StatusOf? {
        CountWithinTotal(rows[n - 1].statuses, f.code);
      }
    }
  }

  /** The totals of a step have no more successes, failures, samples and
      answers of one status than requests. */
  lemma {:induction false} TotalsBounded(lists: seq<seq<StepRow>>, n: nat, id: string, f: Field)
    requires n <= |lists| && ListsShaped(lists) && Bounded(f)
    requires forall i | 0 <= i < |lists| :: AllRowsValid(lists[i])
    ensures ListsSum(lists, n, id, f) <= ListsSum(lists, n, id, CounterOf(TOTAL))
  {
    if n > 0 {
      TotalsBounded(lists, n - 1, id, f);
      SumsBounded(lists[n - 1], |lists[n - 1]|, id, f);
    }
  }
}
