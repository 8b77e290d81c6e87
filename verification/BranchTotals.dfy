/** The counters of branch routes that workers report, and their totals by
    route. */
module BranchTotals {
  import opened Aggregate

  datatype Descriptor = Descriptor(branchID: string, routeID: string, name: string)

  /** Routes are told apart by the ids of branch and route. */
  datatype Key = Key(branchID: string, routeID: string)

  datatype Counts = Counts(selections: nat, total: nat, success: nat, failed: nat)

  datatype BranchRow = BranchRow(route: Descriptor, counts: Counts)

  function KeyOf(row: BranchRow): Key {
    Key(row.route.branchID, row.route.routeID)
  }

  predicate CountsValid(c: Counts) {
    c.success <= c.total && c.failed == c.total - c.success
  }

  predicate NoLess(before: Counts, after: Counts) {
    && before.selections <= after.selections && before.total <= after.total
    && before.success <= after.success && before.failed <= after.failed
  }

  ghost predicate RowsValid(rows: seq<BranchRow>) {
    forall k | 0 <= k < |rows| :: CountsValid(rows[k].counts)
  }

  /** The same routes, and no counter went back. */
  ghost predicate RowsForward(before: seq<BranchRow>, after: seq<BranchRow>) {
    && |before| == |after|
    && forall k | 0 <= k < |before| :: before[k].route == after[k].route && NoLess(before[k].counts, after[k].counts)
  }

  method ValidateRows(rows: seq<BranchRow>) returns (ok: bool)
    ensures ok <==> RowsValid(rows)
  {
    for k := 0 to |rows|
      invariant forall j | 0 <= j < k :: CountsValid(rows[j].counts)
    {
      var c := rows[k].counts;
      if c.success > c.total || c.failed != c.total - c.success {
        return false;
      }
    }
    return true;
  }

  method ValidateForward(before: seq<BranchRow>, after: seq<BranchRow>) returns (ok: bool)
    ensures ok <==> RowsForward(before, after)
  {
    if |before| != |after| {
      return false;
    }
    for k := 0 to |after|
      invariant forall j | 0 <= j < k :: before[j].route == after[j].route && NoLess(before[j].counts, after[j].counts)
    {
      if before[k].route != after[k].route || !NoLess(before[k].counts, after[k].counts) {
        return false;
      }
    }
    return true;
  }

  function RoutesOf(rows: seq<BranchRow>): (r: seq<Descriptor>)
    ensures |r| == |rows| && forall k | 0 <= k < |rows| :: r[k] == rows[k].route
  {
    seq(|rows|, k requires 0 <= k < |rows| => rows[k].route)
  }

  // ----- totals

  function Nothing(): Counts {
    Counts(0, 0, 0, 0)
  }

  function Plus(a: Counts, b: Counts): Counts {
    Counts(a.selections + b.selections, a.total + b.total, a.success + b.success, a.failed + b.failed)
  }

  function Wrapped(c: Counts): Counts {
    Counts(Wrap(c.selections), Wrap(c.total), Wrap(c.success), Wrap(c.failed))
  }

  lemma NothingAdds()
    ensures forall c :: Plus(c, Nothing()) == c
  {
  }

  lemma PlusGroups(a: Counts, b: Counts, c: Counts)
    ensures Plus(a, Plus(b, c)) == Plus(Plus(a, b), c)
  {
  }

  lemma WrappedAdds(a: Counts, b: Counts)
    ensures Wrapped(Plus(Wrapped(a), b)) == Wrapped(Plus(a, b))
  {
    WrapAdds(a.selections, b.selections);
    WrapAdds(a.total, b.total);
    WrapAdds(a.success, b.success);
    WrapAdds(a.failed, b.failed);
  }

  /** The counters of one route in the first n rows of one worker. */
  function InRows(rows: seq<BranchRow>, n: nat, key: Key): Counts
    requires n <= |rows|
  {
    if n == 0 then Nothing()
    else
      var before := InRows(rows, n - 1, key);
      if KeyOf(rows[n - 1]) == key then Plus(before, rows[n - 1].counts) else before
  }

  /** The counters of one route at all workers, without a limit. */
  function InLists(lists: seq<seq<BranchRow>>, n: nat, key: Key): Counts
    requires n <= |lists|
  {
    if n == 0 then Nothing() else Plus(InLists(lists, n - 1, key), InRows(lists[n - 1], |lists[n - 1]|, key))
  }

  function WithRow(totals: map<Key, Counts>, row: BranchRow): map<Key, Counts> {
    var key := KeyOf(row);
    totals[key := Wrapped(Plus(if key in totals then totals[key] else Nothing(), row.counts))]
  }

  /** What the map says of a route. */
  function TotalOf(totals: map<Key, Counts>, key: Key): Counts {
    if key in totals then totals[key] else Nothing()
  }

  lemma RowAdds(totals: map<Key, Counts>, row: BranchRow, key: Key, before: Counts)
    requires TotalOf(totals, key) == Wrapped(before)
    ensures TotalOf(WithRow(totals, row), key)
         == Wrapped(if KeyOf(row) == key then Plus(before, row.counts) else before)
  {
    WrappedAdds(before, row.counts);
  }

  method AddList(totals: map<Key, Counts>, lists: seq<seq<BranchRow>>, i: nat) returns (more: map<Key, Counts>)
    requires i < |lists| && forall key :: TotalOf(totals, key) == Wrapped(InLists(lists, i, key))
    ensures forall key :: TotalOf(more, key) == Wrapped(InLists(lists, i + 1, key))
  {
    hide Wrapped, WithRow, Plus;
    assert forall key :: Plus(InLists(lists, i, key), Nothing()) == InLists(lists, i, key) by {
      NothingAdds();
    }
    more := totals;
    for k := 0 to |lists[i]|
      invariant forall key :: TotalOf(more, key) == Wrapped(Plus(InLists(lists, i, key), InRows(lists[i], k, key)))
    {
      forall key
        ensures TotalOf(WithRow(more, lists[i][k]), key)
             == Wrapped(Plus(InLists(lists, i, key), InRows(lists[i], k + 1, key)))
      {
        PlusGroups(InLists(lists, i, key), InRows(lists[i], k, key), lists[i][k].counts);
        RowAdds(more, lists[i][k], key, Plus(InLists(lists, i, key), InRows(lists[i], k, key)));
      }
      more := WithRow(more, lists[i][k]);
    }
  }

  method AggregateBranches(lists: seq<seq<BranchRow>>) returns (totals: map<Key, Counts>)
    ensures forall key :: TotalOf(totals, key) == Wrapped(InLists(lists, |lists|, key))
  {
    totals := map[];
    for i := 0 to |lists|
      invariant forall key :: TotalOf(totals, key) == Wrapped(InLists(lists, i, key))
    {
      totals := AddList(totals, lists, i);
    }
  }

  // ----- totals of valid rows

  lemma {:induction false} RowsBalance(rows: seq<BranchRow>, n: nat, key: Key)
    requires n <= |rows| && RowsValid(rows)
    ensures CountsValid(InRows(rows, n, key))
  {
    if n > 0 {
      RowsBalance(rows, n - 1, key);
      assert CountsValid(rows[n - 1].counts);
    }
  }

  /** Totals of valid rows are valid. */
  lemma {:induction false} TotalsBalance(lists: seq<seq<BranchRow>>, n: nat, key: Key)
    requires n <= |lists| && forall i | 0 <= i < |lists| :: RowsValid(lists[i])
    ensures CountsValid(InLists(lists, n, key))
  {
    if n > 0 {
      TotalsBalance(lists, n - 1, key);
      RowsBalance(lists[n - 1], |lists[n - 1]|, key);
    }
  }

  lemma {:induction false} RowsGrow(before: seq<BranchRow>, after: seq<BranchRow>, n: nat, key: Key)
    requires RowsForward(before, after) && n <= |before|
    ensures NoLess(InRows(before, n, key), InRows(after, n, key))
  {
    if n > 0 {
      RowsGrow(before, after, n - 1, key);
      assert before[n - 1].route == after[n - 1].route;
    }
  }

  predicate FitsCounters(c: Counts) {
    c.selections <= MAX_UINT64 && c.total <= MAX_UINT64 && c.success <= MAX_UINT64 && c.failed <= MAX_UINT64
  }

  lemma WrappedIsExact(c: Counts)
    requires FitsCounters(c)
    ensures Wrapped(c) == c
  {
  }
}
