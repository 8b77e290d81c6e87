/** The counters of request steps that workers report, and their totals by
    step. */
module StepTotals {
  import opened Aggregate

  /** Step counters stand in the order of the snapshot counters, without
      dropped iterations and bytes. */
  const STEP_COUNTERS: nat := 19

  datatype StatusCount = StatusCount(code: int, count: nat)

  datatype StepRow = StepRow(id: string, name: string, counters: seq<nat>, buckets: seq<nat>,
                             statuses: seq<StatusCount>)

  datatype StepName = StepName(id: string, name: string)

  predicate RowShaped(row: StepRow) {
    |row.counters| == STEP_COUNTERS && |row.buckets| == LATENCY_BUCKETS
  }

  ghost predicate RowsShaped(rows: seq<StepRow>) {
    forall k | 0 <= k < |rows| :: RowShaped(rows[k])
  }

  function NamesOf(rows: seq<StepRow>): seq<StepName> {
    seq(|rows|, k requires 0 <= k < |rows| => StepName(rows[k].id, rows[k].name))
  }

  // ----- status counts

  predicate Lists(statuses: seq<StatusCount>, code: int) {
    exists k :: 0 <= k < |statuses| && statuses[k].code == code
  }

  function CountOf(statuses: seq<StatusCount>, code: int): nat {
    if statuses == [] then 0
    else
      var last := statuses[|statuses| - 1];
      CountOf(statuses[..|statuses| - 1], code) + if last.code == code then last.count else 0
  }

  /** The count listed last for a code, or 0. */
  function LastCount(statuses: seq<StatusCount>, code: int): nat {
    if statuses == [] then 0
    else
      var last := statuses[|statuses| - 1];
      if last.code == code then last.count else LastCount(statuses[..|statuses| - 1], code)
  }

  function FirstCount(statuses: seq<StatusCount>, code: int): nat {
    if statuses == [] then 0
    else if statuses[0].code == code then statuses[0].count
    else FirstCount(statuses[1..], code)
  }

  function StatusTotal(statuses: seq<StatusCount>): nat {
    if statuses == [] then 0 else StatusTotal(statuses[..|statuses| - 1]) + statuses[|statuses| - 1].count
  }

  // ----- validation

  predicate CodesValid(statuses: seq<StatusCount>) {
    forall k | 0 <= k < |statuses| :: 100 <= statuses[k].code < HTTP_STATUSES
  }

  ghost predicate RowValid(row: StepRow) {
    && RowShaped(row)
    && row.counters[SUCCESS] <= row.counters[TOTAL] && row.counters[FAILED] <= row.counters[TOTAL]
    && row.counters[SAMPLES] <= row.counters[TOTAL]
    && (Sum(row.buckets) <= row.counters[SAMPLES]
        || (Sum(row.buckets) > MAX_UINT64 && row.counters[SAMPLES] >= MAX_UINT64))
    && CodesValid(row.statuses) && StatusTotal(row.statuses) <= MAX_UINT64
    && StatusTotal(row.statuses) <= row.counters[TOTAL]
  }

  ghost predicate AllRowsValid(rows: seq<StepRow>) {
    forall k | 0 <= k < |rows| :: RowValid(rows[k])
  }

  lemma {:induction false} StatusTotalGrows(statuses: seq<StatusCount>, n: nat)
    requires n <= |statuses|
    ensures StatusTotal(statuses[..n]) <= StatusTotal(statuses)
    decreases |statuses|
  {
    if n < |statuses| {
      StatusTotalGrows(statuses[..|statuses| - 1], n);
      assert statuses[..|statuses| - 1][..n] == statuses[..n];
    } else {
      assert statuses[..n] == statuses;
    }
  }

  method ValidateStatuses(statuses: seq<StatusCount>) returns (ok: bool, total: nat)
    ensures ok <==> CodesValid(statuses) && StatusTotal(statuses) <= MAX_UINT64
    ensures ok ==> total == StatusTotal(statuses)
  {
    total := 0;
    for k := 0 to |statuses|
      invariant CodesValid(statuses[..k]) && total == StatusTotal(statuses[..k]) <= MAX_UINT64
    {
      var status := statuses[k];
      assert statuses[..k + 1][..k] == statuses[..k];
      if status.code < 100 || status.code >= HTTP_STATUSES || MAX_UINT64 - total < status.count {
        StatusTotalGrows(statuses, k + 1);
        return false, total;
      }
      total := total + status.count;
    }
    assert statuses[..|statuses|] == statuses;
    return true, total;
  }

  method ValidateStep(row: StepRow) returns (ok: bool)
    requires RowShaped(row)
    ensures ok <==> RowValid(row)
  {
    if row.counters[SUCCESS] > row.counters[TOTAL] || row.counters[FAILED] > row.counters[TOTAL]
       || row.counters[SAMPLES] > row.counters[TOTAL] {
      return false;
    }
    var bucketTotal := BucketTotal(row.buckets);
    if bucketTotal > row.counters[SAMPLES] {
      return false;
    }
    var statusTotal;
    ok, statusTotal := ValidateStatuses(row.statuses);
    ok := ok && statusTotal <= row.counters[TOTAL];
  }

  method ValidateSteps(rows: seq<StepRow>) returns (ok: bool)
    requires RowsShaped(rows)
    ensures ok <==> AllRowsValid(rows)
  {
    for k := 0 to |rows|
      invariant forall j | 0 <= j < k :: RowValid(rows[j])
    {
      ok := ValidateStep(rows[k]);
      if !ok {
        return;
      }
    }
    return true;
  }

  // ----- what may follow what

  /** Every code is listed again, the first time with no less than the last
      time before. */
  ghost predicate StatusesForward(before: seq<StatusCount>, after: seq<StatusCount>) {
    forall code | Lists(before, code) :: Lists(after, code) && FirstCount(after, code) >= LastCount(before, code)
  }

  ghost predicate RowForward(before: StepRow, after: StepRow) {
    && before.id == after.id && before.name == after.name
    && NoneDecreases(before.counters, after.counters) && NoneDecreases(before.buckets, after.buckets)
    && StatusesForward(before.statuses, after.statuses)
  }

  ghost predicate StepsForward(before: seq<StepRow>, after: seq<StepRow>) {
    |before| == |after| && forall k | 0 <= k < |before| :: RowForward(before[k], after[k])
  }

  lemma ListsOneMore(statuses: seq<StatusCount>, k: nat, code: int)
    requires k < |statuses|
    ensures Lists(statuses[..k + 1], code) <==> Lists(statuses[..k], code) || statuses[k].code == code
  {
    var more := statuses[..k + 1];
    assert more == statuses[..k] + [statuses[k]];
    if j :| 0 <= j < |more| && more[j].code == code {
      assert j < k ==> statuses[..k][j].code == code;
    }
    if j :| 0 <= j < k && statuses[..k][j].code == code {
      assert more[j].code == code;
    }
    assert more[k] == statuses[k];
  }

  lemma {:induction false} FirstIsAt(statuses: seq<StatusCount>, k: nat)
    requires k < |statuses| && !Lists(statuses[..k], statuses[k].code)
    ensures FirstCount(statuses, statuses[k].code) == statuses[k].count
    decreases k
  {
    if k > 0 {
      assert statuses[..k][0].code != statuses[k].code;
      var between := statuses[1..][..k - 1];
      forall j | 0 <= j < k - 1
        ensures between[j].code != statuses[k].code
      {
        assert statuses[..k][j + 1].code != statuses[k].code;
      }
      FirstIsAt(statuses[1..], k - 1);
    }
  }

  ghost predicate Remembers(previous: map<int, nat>, statuses: seq<StatusCount>) {
    forall code :: (code in previous <==> Lists(statuses, code))
                   && (code in previous ==> previous[code] == LastCount(statuses, code))
  }

  method RememberStatuses(statuses: seq<StatusCount>) returns (previous: map<int, nat>)
    ensures Remembers(previous, statuses)
  {
    previous := map[];
    for k := 0 to |statuses|
      invariant Remembers(previous, statuses[..k])
    {
      assert statuses[..k + 1][..k] == statuses[..k];
      forall code
        ensures Lists(statuses[..k + 1], code) <==> Lists(statuses[..k], code) || statuses[k].code == code
      {
        ListsOneMore(statuses, k, code);
      }
      previous := previous[statuses[k].code := statuses[k].count];
    }
    assert statuses[..|statuses|] == statuses;
  }

  /** What is left of the remembered codes once the first n have been seen
      again. */
  ghost predicate Left(previous: map<int, nat>, before: seq<StatusCount>, after: seq<StatusCount>, n: nat)
    requires n <= |after|
  {
    && (forall code :: code in previous <==> Lists(before, code) && !Lists(after[..n], code))
    && (forall code | code in previous :: previous[code] == LastCount(before, code))
    && (forall code | Lists(before, code) && Lists(after[..n], code) ::
          FirstCount(after, code) >= LastCount(before, code))
  }

  lemma LeftNext(previous: map<int, nat>, before: seq<StatusCount>, after: seq<StatusCount>, n: nat)
    requires n < |after| && Left(previous, before, after, n)
    ensures after[n].code in previous && after[n].count < previous[after[n].code] ==> !StatusesForward(before, after)
    ensures !(after[n].code in previous && after[n].count < previous[after[n].code]) ==>
              Left(previous - {after[n].code}, before, after, n + 1)
  {
    var code := after[n].code;
    if code in previous {
      FirstIsAt(after, n);
    }
    forall c
      ensures Lists(after[..n + 1], c) <==> Lists(after[..n], c) || c == code
    {
      ListsOneMore(after, n, c);
    }
  }

  lemma NothingLeft(previous: map<int, nat>, before: seq<StatusCount>, after: seq<StatusCount>)
    requires Left(previous, before, after, |after|)
    ensures |previous| == 0 <==> StatusesForward(before, after)
  {
    assert after[..|after|] == after;
    if StatusesForward(before, after) {
      assert forall code :: code !in previous;
      assert previous == map[];
    }
  }

  method StatusesMoveForward(before: seq<StatusCount>, after: seq<StatusCount>) returns (ok: bool)
    ensures ok <==> StatusesForward(before, after)
  {
    var previous := RememberStatuses(before);
    for n := 0 to |after|
      invariant Left(previous, before, after, n)
    {
      LeftNext(previous, before, after, n);
      if after[n].code in previous && after[n].count < previous[after[n].code] {
        return false;
      }
      previous := previous - {after[n].code};
    }
    assert after[..|after|] == after;
    NothingLeft(previous, before, after);
    ok := |previous| == 0;
  }

  method StepMovesForward(before: StepRow, after: StepRow) returns (ok: bool)
    requires RowShaped(before) && RowShaped(after)
    ensures ok <==> RowForward(before, after)
  {
    ok := before.id == after.id && before.name == after.name;
    if ok {
      ok := MovesForward(before.counters, after.counters);
    }
    if ok {
      ok := MovesForward(before.buckets, after.buckets);
    }
    if ok {
      ok := StatusesMoveForward(before.statuses, after.statuses);
    }
  }

  method StepsMoveForward(before: seq<StepRow>, after: seq<StepRow>) returns (ok: bool)
    requires RowsShaped(before) && RowsShaped(after)
    ensures ok <==> StepsForward(before, after)
  {
    if |before| != |after| {
      return false;
    }
    for k := 0 to |after|
      invariant forall j | 0 <= j < k :: RowForward(before[j], after[j])
    {
      ok := StepMovesForward(before[k], after[k]);
      if !ok {
        return;
      }
    }
    return true;
  }

  // ----- codes that are listed more than once

  /** Nothing was listed for a code before its last count. */
  ghost predicate CountedLast(statuses: seq<StatusCount>) {
    forall code :: LastCount(statuses, code) == CountOf(statuses, code)
  }

  lemma {:induction false} NotListed(statuses: seq<StatusCount>, code: int)
    requires !Lists(statuses, code)
    ensures CountOf(statuses, code) == LastCount(statuses, code) == FirstCount(statuses, code) == 0
  {
    if statuses != [] {
      var last := |statuses| - 1;
      assert statuses[last].code != code && statuses[0].code != code;
      forall j | 0 <= j < last
        ensures statuses[..last][j].code != code && statuses[1..][j].code != code
      {
      }
      NotListed(statuses[..last], code);
      FirstUnlisted(statuses, code);
    }
  }

  lemma {:induction false} FirstUnlisted(statuses: seq<StatusCount>, code: int)
    requires !Lists(statuses, code)
    ensures FirstCount(statuses, code) == 0
  {
    if statuses != [] {
      assert statuses[0].code != code;
      forall j | 0 <= j < |statuses| - 1
        ensures statuses[1..][j].code != code
      {
      }
      FirstUnlisted(statuses[1..], code);
    }
  }

  lemma {:induction false} CountSplits(a: seq<StatusCount>, b: seq<StatusCount>, code: int)
    ensures CountOf(a + b, code) == CountOf(a, code) + CountOf(b, code)
    ensures StatusTotal(a + b) == StatusTotal(a) + StatusTotal(b)
  {
    if b == [] {
      assert a + b == a;
    } else {
      assert (a + b)[..|a + b| - 1] == a + b[..|b| - 1];
      CountSplits(a, b[..|b| - 1], code);
    }
  }

  lemma {:induction false} FirstCounts(statuses: seq<StatusCount>, code: int)
    ensures FirstCount(statuses, code) <= CountOf(statuses, code)
  {
    if statuses != [] {
      assert statuses == [statuses[0]] + statuses[1..];
      CountSplits([statuses[0]], statuses[1..], code);
      assert [statuses[0]][..0] == [];
      FirstCounts(statuses[1..], code);
    }
  }

  lemma StatusesGrow(before: seq<StatusCount>, after: seq<StatusCount>, code: int)
    requires StatusesForward(before, after) && LastCount(before, code) == CountOf(before, code)
    ensures CountOf(before, code) <= CountOf(after, code)
  {
    if Lists(before, code) {
      FirstCounts(after, code);
    } else {
      NotListed(before, code);
    }
  }

  /** Each code once, with its last count. */
  function Lasts(statuses: seq<StatusCount>): seq<StatusCount> {
    if statuses == [] then []
    else
      var rest := Lasts(statuses[1..]);
      if Lists(rest, statuses[0].code) then rest else [statuses[0]] + rest
  }

  lemma LastOfFirst(statuses: seq<StatusCount>, code: int)
    requires statuses != []
    ensures Lists(statuses, code) <==> statuses[0].code == code || Lists(statuses[1..], code)
    ensures LastCount(statuses, code) == if Lists(statuses[1..], code) then LastCount(statuses[1..], code)
                                         else if statuses[0].code == code then statuses[0].count else 0
  {
    if j :| 0 <= j < |statuses| && statuses[j].code == code {
      assert j > 0 ==> statuses[1..][j - 1].code == code;
    }
    if j :| 0 <= j < |statuses| - 1 && statuses[1..][j].code == code {
      assert statuses[j + 1].code == code;
    }
    LastOfTail(statuses, code);
  }

  lemma {:induction false} LastOfTail(statuses: seq<StatusCount>, code: int)
    requires statuses != []
    ensures LastCount(statuses, code) == if Lists(statuses[1..], code) then LastCount(statuses[1..], code)
                                         else if statuses[0].code == code then statuses[0].count else 0
  {
    var last := |statuses| - 1;
    if last == 0 {
      assert statuses[..0] == [] && statuses[1..] == [];
    } else {
      var rest := statuses[1..];
      assert rest[..last - 1] == statuses[..last][1..] && rest[last - 1] == statuses[last];
      ListsOneMore(rest, last - 1, code);
      assert rest[..last] == rest;
      LastOfTail(statuses[..last], code);
    }
  }

  lemma {:induction false} LastsFacts(statuses: seq<StatusCount>, code: int)
    ensures Lists(Lasts(statuses), code) <==> Lists(statuses, code)
    ensures FirstCount(Lasts(statuses), code) == CountOf(Lasts(statuses), code) == LastCount(statuses, code)
    ensures StatusTotal(Lasts(statuses)) <= StatusTotal(statuses)
    ensures CodesValid(statuses) ==> CodesValid(Lasts(statuses))
  {
    if statuses != [] {
      var head, rest := statuses[0], Lasts(statuses[1..]);
      LastsFacts(statuses[1..], code);
      LastsFacts(statuses[1..], head.code);
      LastOfFirst(statuses, code);
      assert statuses == [head] + statuses[1..];
      CountSplits([head], statuses[1..], code);
      CountSplits([head], rest, code);
      assert [head][..0] == [] && ([head] + rest)[1..] == rest;
      if !Lists(statuses[1..], code) {
        NotListed(statuses[1..], code);
      }
      if !Lists(rest, head.code) {
        LastOfFirst([head] + rest, code);
        NotListed(rest, head.code);
        assert ([head] + rest)[0] == head;
      }
    }
  }

  /** The checks keep the counts of a row from going back, whatever valid row
      is accepted after it, exactly if nothing was listed before a last
      count. */
  lemma CountsForwardExactly(before: StepRow)
    requires RowValid(before)
    ensures CountedLast(before.statuses) <==>
            forall after, code | RowValid(after) && RowForward(before, after) ::
              CountOf(before.statuses, code) <= CountOf(after.statuses, code)
  {
    if CountedLast(before.statuses) {
      forall after, code | RowValid(after) && RowForward(before, after)
        ensures CountOf(before.statuses, code) <= CountOf(after.statuses, code)
      {
        StatusesGrow(before.statuses, after.statuses, code);
      }
    } else {
      var code :| LastCount(before.statuses, code) != CountOf(before.statuses, code);
      var after := before.(statuses := Lasts(before.statuses));
      LastsFollow(before);
      LastsFacts(before.statuses, code);
      LastsAtMost(before.statuses, code);
      assert CountOf(after.statuses, code) < CountOf(before.statuses, code);
    }
  }

  lemma {:induction false} LastsAtMost(statuses: seq<StatusCount>, code: int)
    ensures LastCount(statuses, code) <= CountOf(statuses, code)
  {
    if statuses != [] {
      LastsAtMost(statuses[..|statuses| - 1], code);
    }
  }

  lemma LastsFollow(before: StepRow)
    requires RowValid(before)
    ensures var after := before.(statuses := Lasts(before.statuses)); RowValid(after) && RowForward(before, after)
  {
    LastsFacts(before.statuses, 0);
    forall code | Lists(before.statuses, code)
      ensures Lists(Lasts(before.statuses), code)
      ensures FirstCount(Lasts(before.statuses), code) >= LastCount(before.statuses, code)
    {
      LastsFacts(before.statuses, code);
    }
  }

  /** A code listed twice, and then once with the smaller count. */
  lemma RepeatedCodeGoesBack()
    ensures exists before, after, code ::
              RowValid(before) && RowValid(after) && RowForward(before, after)
              && CountOf(after.statuses, code) < CountOf(before.statuses, code)
  {
    var statuses := [StatusCount(200, 5), StatusCount(200, 1)];
    var counters := seq(STEP_COUNTERS, k => if k == TOTAL then 6 else 0);
    var before := StepRow("r", "r", counters, Zeros(LATENCY_BUCKETS), statuses);
    SumZeros(before.buckets);
    assert statuses[..1] == [StatusCount(200, 5)] && statuses[..1][..0] == [];
    assert CountOf(statuses, 200) == CountOf(statuses[..1], 200) + 1 == 6;
    assert StatusTotal(statuses) == StatusTotal(statuses[..1]) + 1 == 6;
    assert RowValid(before) && !CountedLast(before.statuses);
    CountsForwardExactly(before);
  }
}
