/** The snapshots of a distributed run: whatever the workers answer, the
    totals that are shown never go back and stay consistent. */
module RunMetrics {
  import opened Aggregate
  import opened BranchTotals
  import opened StepTotals
  import opened StepSums
  import opened Options
  import W = WorkerProtocol

  /** A response without a state names one that does not exist. */
  datatype Reply = NoReply | Response(state: Option<W.WorkerState>, snapshot: Snapshot, steps: seq<StepRow>,
                                      branches: seq<BranchRow>)

  datatype RunWorker = RunWorker(last: Snapshot, lastSteps: seq<StepRow>, lastBranches: seq<BranchRow>,
                                 hasSnapshot: bool, reachable: bool, stale: bool, state: W.WorkerState)

  datatype Result = Result(snapshot: Snapshot, steps: map<string, StepTotal>, branches: map<Key, Counts>,
                           partial: bool, allTerminal: bool)

  datatype Descriptors = Descriptors(steps: seq<StepName>, routes: seq<Descriptor>)

  /** The steps and routes that all workers must report, once one has. */
  type Known = Option<Descriptors>

  ghost predicate ReplyShaped(reply: Reply) {
    reply.Response? ==> Shaped(reply.snapshot) && RowsShaped(reply.steps)
  }

  ghost predicate WorkerValid(w: RunWorker) {
    && RowsShaped(w.lastSteps)
    && (w.hasSnapshot ==>
          && Shaped(w.last) && Validated(w.last) && AllRowsValid(w.lastSteps) && RowsValid(w.lastBranches))
  }

  function DescriptorsOf(reply: Reply): Descriptors
    requires reply.Response?
  {
    Descriptors(NamesOf(reply.steps), RoutesOf(reply.branches))
  }

  /** A response counts if it is valid, does not go back and is about the known
      steps and routes. */
  ghost predicate Accepts(w: RunWorker, reply: Reply, known: Known)
    requires ReplyShaped(reply)
  {
    && reply.Response? && reply.state.Some? && Validated(reply.snapshot)
    && AllRowsValid(reply.steps) && RowsValid(reply.branches)
    && (w.hasSnapshot ==>
          && Monotonic(w.last, reply.snapshot) && StepsForward(w.lastSteps, reply.steps)
          && RowsForward(w.lastBranches, reply.branches))
    && (known.Some? ==> DescriptorsOf(reply) == known.value)
  }

  ghost predicate Updated(w: RunWorker, reply: Reply, known: Known, v: RunWorker)
    requires ReplyShaped(reply)
  {
    if Accepts(w, reply, known)
    then v == RunWorker(reply.snapshot, reply.steps, reply.branches, true, true, false, reply.state.value)
    else v == w.(reachable := reply.Response?, stale := true)
  }

  /** The first response accepted makes its steps and routes known. */
  ghost function Learned(w: RunWorker, reply: Reply, known: Known): Known
    requires ReplyShaped(reply)
  {
    if known.None? && Accepts(w, reply, known) then Some(DescriptorsOf(reply)) else known
  }

  /** What is known once the first n replies have been looked at. */
  ghost function KnownAfter(workers: seq<RunWorker>, replies: seq<Reply>, known: Known, n: nat): Known
    requires n <= |workers| == |replies| && forall i | 0 <= i < |replies| :: ReplyShaped(replies[i])
  {
    if n == 0 then known
    else Learned(workers[n - 1], replies[n - 1], KnownAfter(workers, replies, known, n - 1))
  }

  /** What the workers last reported, leaving out those that never did. */
  function Reported(workers: seq<RunWorker>): seq<Snapshot> {
    if workers == [] then []
    else
      var last := workers[|workers| - 1];
      Reported(workers[..|workers| - 1]) + if last.hasSnapshot then [last.last] else []
  }

  function ReportedBranches(workers: seq<RunWorker>): seq<seq<BranchRow>> {
    if workers == [] then []
    else
      var last := workers[|workers| - 1];
      ReportedBranches(workers[..|workers| - 1]) + if last.hasSnapshot then [last.lastBranches] else []
  }

  function ReportedSteps(workers: seq<RunWorker>): seq<seq<StepRow>> {
    if workers == [] then []
    else
      var last := workers[|workers| - 1];
      ReportedSteps(workers[..|workers| - 1]) + if last.hasSnapshot then [last.lastSteps] else []
  }

  predicate NeedsAttention(w: RunWorker) {
    !w.reachable || w.stale || w.state == W.Failed
  }

  ghost predicate AllValid(workers: seq<RunWorker>) {
    forall i | 0 <= i < |workers| :: WorkerValid(workers[i])
  }

  lemma {:induction false} ReportedShaped(workers: seq<RunWorker>)
    requires AllValid(workers)
    ensures AllShaped(Reported(workers))
    ensures forall i | 0 <= i < |Reported(workers)| :: Validated(Reported(workers)[i])
  {
    if workers != [] {
      ReportedShaped(workers[..|workers| - 1]);
      assert WorkerValid(workers[|workers| - 1]);
    }
  }

  // ----- growth

  /** Status counts of steps are compared only if `all` is set. */
  ghost predicate Grows(before: RunWorker, after: RunWorker, all: bool) {
    before.hasSnapshot ==>
      && after.hasSnapshot && Monotonic(before.last, after.last)
      && StepsGrow(before.lastSteps, after.lastSteps, all) && RowsForward(before.lastBranches, after.lastBranches)
  }

  ghost predicate AllGrow(before: seq<RunWorker>, after: seq<RunWorker>, all: bool) {
    |before| == |after| && forall i | 0 <= i < |before| :: Grows(before[i], after[i], all)
  }

  /** No status code of a step is listed again after it was counted. */
  ghost predicate Plain(workers: seq<RunWorker>) {
    forall i | 0 <= i < |workers| :: AllCountedLast(workers[i].lastSteps)
  }

  ghost predicate PlainReply(reply: Reply) {
    reply.Response? ==> AllCountedLast(reply.steps)
  }

  /** The last worker adds its own entries, if it has reported. */
  lemma {:induction false} LastWorkerAdds(workers: seq<RunWorker>)
    requires workers != [] && AllValid(workers)
    ensures AllShaped(Reported(workers)) && AllShaped(Reported(workers[..|workers| - 1]))
    ensures var w, rest := workers[|workers| - 1], Reported(workers[..|workers| - 1]);
            if w.hasSnapshot
            then Shaped(w.last) && Reported(workers) == rest + [w.last]
            else Exact(Reported(workers)) == Exact(rest)
  {
    var w, rest := workers[|workers| - 1], Reported(workers[..|workers| - 1]);
    ReportedShaped(workers);
    ReportedShaped(workers[..|workers| - 1]);
    assert WorkerValid(w);
    assert !w.hasSnapshot ==> Reported(workers) == rest;
  }

  /** What more the last worker has reported shows in the totals. */
  lemma AddedGrows(before: seq<Snapshot>, after: seq<Snapshot>, s: Snapshot, t: Snapshot)
    requires AllShaped(before) && AllShaped(after) && Monotonic(Exact(before), Exact(after))
    requires Shaped(t)
    ensures AllShaped(after + [t]) && Monotonic(Exact(before), Exact(after + [t]))
    ensures Shaped(s) && Monotonic(s, t) ==>
              AllShaped(before + [s]) && Monotonic(Exact(before + [s]), Exact(after + [t]))
  {
    hide Exact;
    ExactAppended(after, t);
    if Shaped(s) {
      ExactAppended(before, s);
    }
  }

  lemma {:induction false} TotalsGrow(before: seq<RunWorker>, after: seq<RunWorker>, all: bool)
    requires AllValid(before) && AllValid(after) && AllGrow(before, after, all)
    ensures AllShaped(Reported(before)) && AllShaped(Reported(after))
    ensures Monotonic(Exact(Reported(before)), Exact(Reported(after)))
  {
    if before == [] {
      NeverBack(Exact(Reported(before)).counters);
    } else {
      hide Exact, Reported, WorkerValid, Monotonic, Shaped;
      var last := |before| - 1;
      TotalsGrow(before[..last], after[..last], all);
      LastWorkerAdds(before);
      LastWorkerAdds(after);
      assert Grows(before[last], after[last], all);
      if after[last].hasSnapshot {
        AddedGrows(Reported(before[..last]), Reported(after[..last]), before[last].last, after[last].last);
      }
    }
  }

  // ----- branches

  /** The counters of one route in all that was reported. */
  function BranchOf(workers: seq<RunWorker>, key: Key): Counts {
    InLists(ReportedBranches(workers), |ReportedBranches(workers)|, key)
  }

  lemma {:induction false} InListsAppended(lists: seq<seq<BranchRow>>, rows: seq<BranchRow>, n: nat, key: Key)
    requires n <= |lists|
    ensures InLists(lists + [rows], n, key) == InLists(lists, n, key)
  {
    if n > 0 {
      InListsAppended(lists, rows, n - 1, key);
      assert (lists + [rows])[n - 1] == lists[n - 1];
    }
  }

  /** The last worker adds its own rows, if it has reported. */
  lemma LastBranchAdds(workers: seq<RunWorker>, key: Key)
    requires workers != []
    ensures var w, rest := workers[|workers| - 1], workers[..|workers| - 1];
            BranchOf(workers, key)
            == if w.hasSnapshot then Plus(BranchOf(rest, key), InRows(w.lastBranches, |w.lastBranches|, key))
               else BranchOf(rest, key)
  {
    var w, lists := workers[|workers| - 1], ReportedBranches(workers[..|workers| - 1]);
    if w.hasSnapshot {
      InListsAppended(lists, w.lastBranches, |lists|, key);
      assert ReportedBranches(workers) == lists + [w.lastBranches];
    } else {
      assert ReportedBranches(workers) == lists;
    }
  }

  lemma {:induction false} BranchTotalsGrow(before: seq<RunWorker>, after: seq<RunWorker>, all: bool, key: Key)
    requires AllGrow(before, after, all)
    ensures NoLess(BranchOf(before, key), BranchOf(after, key))
  {
    if before != [] {
      var last := |before| - 1;
      BranchTotalsGrow(before[..last], after[..last], all, key);
      LastBranchAdds(before, key);
      LastBranchAdds(after, key);
      assert Grows(before[last], after[last], all);
      if before[last].hasSnapshot {
        RowsGrow(before[last].lastBranches, after[last].lastBranches, |before[last].lastBranches|, key);
      }
    }
  }

  lemma {:induction false} BranchTotalsBalance(workers: seq<RunWorker>, key: Key)
    requires AllValid(workers)
    ensures CountsValid(BranchOf(workers, key))
  {
    if workers != [] {
      var last := |workers| - 1;
      BranchTotalsBalance(workers[..last], key);
      LastBranchAdds(workers, key);
      assert WorkerValid(workers[last]);
      if workers[last].hasSnapshot {
        RowsBalance(workers[last].lastBranches, |workers[last].lastBranches|, key);
      }
    }
  }

  ghost predicate BranchesShow(totals: map<Key, Counts>, workers: seq<RunWorker>) {
    forall key :: TotalOf(totals, key) == Wrapped(BranchOf(workers, key))
  }

  // ----- request steps

  lemma {:induction false} StepsReported(workers: seq<RunWorker>)
    requires AllValid(workers)
    ensures ListsShaped(ReportedSteps(workers))
    ensures forall i | 0 <= i < |ReportedSteps(workers)| :: AllRowsValid(ReportedSteps(workers)[i])
  {
    if workers != [] {
      StepsReported(workers[..|workers| - 1]);
      assert WorkerValid(workers[|workers| - 1]);
    }
  }

  /** One number of one step in all that was reported. */
  ghost function StepOf(workers: seq<RunWorker>, id: string, f: Field): nat
    requires AllValid(workers) && FieldValid(f)
  {
    StepsReported(workers);
    ListsSum(ReportedSteps(workers), |ReportedSteps(workers)|, id, f)
  }

  lemma {:induction false} ListsSumAppended(lists: seq<seq<StepRow>>, rows: seq<StepRow>, n: nat, id: string, f: Field)
    requires n <= |lists| && ListsShaped(lists) && RowsShaped(rows) && FieldValid(f)
    ensures ListsShaped(lists + [rows]) && ListsSum(lists + [rows], n, id, f) == ListsSum(lists, n, id, f)
  {
    assert ListsShaped(lists + [rows]);
    if n > 0 {
      ListsSumAppended(lists, rows, n - 1, id, f);
      assert (lists + [rows])[n - 1] == lists[n - 1];
    }
  }

  /** The last worker adds its own rows, if it has reported. */
  lemma LastStepAdds(workers: seq<RunWorker>, id: string, f: Field)
    requires workers != [] && AllValid(workers) && FieldValid(f)
    ensures var w, rest := workers[|workers| - 1], workers[..|workers| - 1];
            && AllValid(rest) && RowsShaped(w.lastSteps)
            && StepOf(workers, id, f)
               == if w.hasSnapshot then StepOf(rest, id, f) + RowsSum(w.lastSteps, |w.lastSteps|, id, f)
                  else StepOf(rest, id, f)
  {
    var w, lists := workers[|workers| - 1], ReportedSteps(workers[..|workers| - 1]);
    assert WorkerValid(w);
    StepsReported(workers[..|workers| - 1]);
    if w.hasSnapshot {
      ListsSumAppended(lists, w.lastSteps, |lists|, id, f);
      assert ReportedSteps(workers) == lists + [w.lastSteps];
    } else {
      assert ReportedSteps(workers) == lists;
    }
  }

  lemma {:induction false} StepTotalsGrow(before: seq<RunWorker>, after: seq<RunWorker>, all: bool, id: string,
                                          f: Field)
    requires AllValid(before) && AllValid(after) && AllGrow(before, after, all)
    requires FieldValid(f) && (all || !f.StatusOf?)
    ensures StepOf(before, id, f) <= StepOf(after, id, f)
  {
    if before != [] {
      var last := |before| - 1;
      LastStepAdds(before, id, f);
      LastStepAdds(after, id, f);
      StepTotalsGrow(before[..last], after[..last], all, id, f);
      assert Grows(before[last], after[last], all);
      if before[last].hasSnapshot {
        SumsGrow(before[last].lastSteps, after[last].lastSteps, all, |before[last].lastSteps|, id, f);
      }
    }
  }

  ghost predicate StepsShow(totals: map<string, StepTotal>, workers: seq<RunWorker>)
    requires AllValid(workers)
  {
    AllWithin(totals) && forall id, f | FieldValid(f) :: TotalIn(totals, id, f) == Wrap(StepOf(workers, id, f))
  }

  // ----- what is shown

  lemma {:induction false} PartOfTotal(list: seq<Snapshot>, i: nat, k: nat)
    requires AllShaped(list) && i < |list| && k < COUNTERS
    ensures list[i].counters[k] <= Exact(list).counters[k]
    decreases |list|
  {
    var last := |list| - 1;
    assert list == list[..last] + [list[last]];
    ExactAppended(list[..last], list[last]);
    if i < last {
      PartOfTotal(list[..last], i, k);
    }
  }

  lemma TotalsConsistent(workers: seq<RunWorker>)
    requires AllValid(workers)
    ensures AllShaped(Reported(workers))
    ensures Exact(Reported(workers)).counters[TOTAL] < MAX_UINT64 ==> Consistent(Exact(Reported(workers)))
  {
    ReportedShaped(workers);
    var list := Reported(workers);
    if Exact(list).counters[TOTAL] < MAX_UINT64 {
      forall i | 0 <= i < |list|
        ensures Consistent(list[i])
      {
        PartOfTotal(list, i, TOTAL);
        ValidatedIsConsistent(list[i]);
      }
      ExactIsConsistent(list);
    }
  }

  /** What is shown for the workers: the totals, unless a counter overflows. */
  ghost predicate Shows(total: Snapshot, workers: seq<RunWorker>)
    requires AllValid(workers)
  {
    ReportedShaped(workers);
    Shaped(total) && (Fits(Exact(Reported(workers))) ==> total == Exact(Reported(workers)))
  }

  class Run {
    const workers: array<RunWorker>
    var known: Known

    ghost predicate Valid()
      reads this, workers
    {
      AllValid(workers[..])
    }

    constructor (count: nat)
      ensures Valid() && fresh(workers) && workers.Length == count && Reported(workers[..]) == [] && known == None
    {
      var silent := RunWorker(Snapshot([], [], [], 0, 0), [], [], false, true, false, W.Scheduled);
      workers := new RunWorker[count](_ => silent);
      known := None;
      new;
      NothingReported(workers[..]);
    }

    /** The checks on a response, in the order of the source. */
    method Check(worker: RunWorker, reply: Reply) returns (ok: bool)
      requires reply.Response? && ReplyShaped(reply) && WorkerValid(worker)
      ensures ok <==> Accepts(worker, reply, known)
    {
      ok := reply.state.Some?;
      if ok {
        ok := ValidateSnapshot(reply.snapshot);
      }
      if ok {
        ok := ValidateSteps(reply.steps);
      }
      if ok {
        ok := ValidateRows(reply.branches);
      }
      if ok && worker.hasSnapshot {
        ok := ValidateMonotonic(worker.last, reply.snapshot);
        if ok {
          ok := StepsMoveForward(worker.lastSteps, reply.steps);
        }
        if ok {
          ok := ValidateForward(worker.lastBranches, reply.branches);
        }
      }
      ok := ok && (known.Some? ==> DescriptorsOf(reply) == known.value);
    }

    method TakeReply(index: nat, reply: Reply, ghost all: bool)
      requires Valid() && index < workers.Length && ReplyShaped(reply)
      requires all ==> Plain(workers[..]) && PlainReply(reply)
      modifies workers, this`known
      ensures Valid() && Updated(old(workers[index]), reply, old(known), workers[index])
      ensures known == Learned(old(workers[index]), reply, old(known))
      ensures Grows(old(workers[index]), workers[index], all) && (all ==> Plain(workers[..]))
      ensures forall i | 0 <= i < workers.Length && i != index :: workers[i] == old(workers[i])
    {
      var worker := workers[index];
      assert WorkerValid(worker);
      match reply {
        case NoReply =>
          workers[index] := worker.(reachable := false, stale := true);
        case Response(state, snapshot, steps, branches) =>
          var ok := Check(worker, reply);
          if ok {
            if known.None? {
              known := Some(DescriptorsOf(reply));
            }
            if worker.hasSnapshot {
              ForwardGrows(worker.lastSteps, steps, all);
            }
            workers[index] := RunWorker(snapshot, steps, branches, true, true, false, state.value);
          } else {
            workers[index] := worker.(reachable := true, stale := true);
          }
      }
      StandsStill(worker, all);
    }

    /** One round of replies, one for each worker. */
    method TakeSnapshot(replies: seq<Reply>, ghost all: bool) returns (result: Result)
      requires Valid() && |replies| == workers.Length
      requires forall i | 0 <= i < |replies| :: ReplyShaped(replies[i])
      requires all ==> Plain(workers[..]) && forall i | 0 <= i < |replies| :: PlainReply(replies[i])
      modifies workers, this`known
      ensures Valid() && AllGrow(old(workers[..]), workers[..], all) && (all ==> Plain(workers[..]))
      ensures forall i | 0 <= i < workers.Length ::
                Updated(old(workers[i]), replies[i], KnownAfter(old(workers[..]), replies, old(known), i), workers[i])
      ensures known == KnownAfter(old(workers[..]), replies, old(known), workers.Length)
      ensures Shows(result.snapshot, workers[..]) && StepsShow(result.steps, workers[..])
      ensures BranchesShow(result.branches, workers[..])
      ensures result.partial <==> exists i :: 0 <= i < workers.Length && NeedsAttention(workers[i])
      ensures result.allTerminal <==> forall i | 0 <= i < workers.Length :: W.Terminal(workers[i].state)
    {
      hide Updated, Learned, KnownAfter, Grows, Shows, StepsShow, BranchesShow, AllValid, RoundTo, Plain, PlainReply;
      ghost var before, knownBefore := workers[..], known;
      RoundBegins(before, replies, knownBefore, all);
      for index := 0 to workers.Length
        invariant Valid() && known == KnownAfter(before, replies, knownBefore, index) && (all ==> Plain(workers[..]))
        invariant RoundTo(before, replies, knownBefore, workers[..], index, all)
      {
        ghost var now := workers[..];
        TakeReply(index, replies[index], all);
        assert workers[..] == now[index := workers[index]];
        RoundNext(before, replies, knownBefore, now, index, workers[index], all);
      }
      RoundEnds(before, replies, knownBefore, workers[..], all);
      result := Collect();
    }

    method Collect() returns (result: Result)
      requires Valid()
      ensures Shows(result.snapshot, workers[..]) && StepsShow(result.steps, workers[..])
      ensures BranchesShow(result.branches, workers[..])
      ensures result.partial <==> exists i :: 0 <= i < workers.Length && NeedsAttention(workers[i])
      ensures result.allTerminal <==> forall i | 0 <= i < workers.Length :: W.Terminal(workers[i].state)
    {
      var responses: seq<Snapshot>, steps: seq<seq<StepRow>>, branches: seq<seq<BranchRow>> := [], [], [];
      var partial, allTerminal := false, true;
      for index := 0 to workers.Length
        invariant responses == Reported(workers[..index]) && steps == ReportedSteps(workers[..index])
        invariant branches == ReportedBranches(workers[..index])
        invariant partial <==> exists i :: 0 <= i < index && NeedsAttention(workers[i])
        invariant allTerminal <==> forall i | 0 <= i < index :: W.Terminal(workers[i].state)
      {
        var worker := workers[index];
        assert workers[..index + 1][..index] == workers[..index];
        if worker.hasSnapshot {
          responses := responses + [worker.last];
          steps := steps + [worker.lastSteps];
          branches := branches + [worker.lastBranches];
        }
        partial := partial || NeedsAttention(worker);
        allTerminal := allTerminal && W.Terminal(worker.state);
      }
      assert workers[..workers.Length] == workers[..];
      ReportedShaped(workers[..]);
      StepsReported(workers[..]);
      var total := AggregateSnapshots(responses);
      var stepTotals := AggregateSteps(steps);
      var branchTotals := AggregateBranches(branches);
      result := Result(total, stepTotals, branchTotals, partial, allTerminal);
    }

    /** Any number of rounds.  As far as the last totals fit the counters, the
        totals shown never went back, and each was consistent; status counts of
        steps, if no reply listed a code again. */
    method Watch(rounds: seq<seq<Reply>>)
      returns (totals: seq<Snapshot>, steps: seq<map<string, StepTotal>>, branches: seq<map<Key, Counts>>)
      requires Valid()
      requires forall r | 0 <= r < |rounds| ::
                 |rounds[r]| == workers.Length && forall i | 0 <= i < workers.Length :: ReplyShaped(rounds[r][i])
      modifies workers, this`known
      ensures Valid() && |totals| == |steps| == |branches| == |rounds|
      ensures Roomy(workers[..]) ==> NeverBackwards(totals)
      ensures forall id, f | FieldValid(f) && StepOf(workers[..], id, f) <= MAX_UINT64
                && (f.StatusOf? ==> old(Plain(workers[..])) && PlainRounds(rounds)) ::
                StepNeverBackwards(steps, id, f)
      ensures forall key | FitsCounters(BranchOf(workers[..], key)) :: RouteNeverBackwards(branches, key)
    {
      hide AllGrow, AllValid, Shows, StepsShow, BranchesShow, Updated, KnownAfter, Roomy, NeverBackwards,
           StepNeverBackwards, RouteNeverBackwards, StepOf, BranchOf, Plain, PlainReply, FieldValid, FitsCounters;
      totals, steps, branches := [], [], [];
      ghost var history: seq<seq<RunWorker>>, all := [], Plain(workers[..]) && PlainRounds(rounds);
      for r := 0 to |rounds|
        invariant Valid() && |totals| == |steps| == |branches| == |history| == r && (all ==> Plain(workers[..]))
        invariant forall k | 0 <= k < r ::
                    && |history[k]| == workers.Length && AllValid(history[k]) && Shows(totals[k], history[k])
                    && StepsShow(steps[k], history[k]) && BranchesShow(branches[k], history[k])
        invariant forall k, l | 0 <= k <= l < r :: AllGrow(history[k], history[l], all)
        invariant forall k | 0 <= k < r :: AllGrow(history[k], workers[..], all)
      {
        ghost var before := workers[..];
        var result := TakeSnapshot(rounds[r], all);
        forall k | 0 <= k < r
          ensures AllGrow(history[k], workers[..], all)
        {
          GrowthAdds(history[k], before, workers[..], all);
        }
        GrowthStays(workers[..], all);
        totals := totals + [result.snapshot];
        steps := steps + [result.steps];
        branches := branches + [result.branches];
        history := history + [workers[..]];
      }
      if Roomy(workers[..]) {
        HistoryForward(totals, history, workers[..], all);
      }
      forall id, f | FieldValid(f) && StepOf(workers[..], id, f) <= MAX_UINT64 && (f.StatusOf? ==> all)
        ensures StepNeverBackwards(steps, id, f)
      {
        StepForward(steps, history, workers[..], all, id, f);
      }
      forall key | FitsCounters(BranchOf(workers[..], key))
        ensures RouteNeverBackwards(branches, key)
      {
        RouteForward(branches, history, workers[..], all, key);
      }
    }
  }

  ghost predicate PlainRounds(rounds: seq<seq<Reply>>) {
    forall r, i | 0 <= r < |rounds| && 0 <= i < |rounds[r]| :: PlainReply(rounds[r][i])
  }

  /** The first n replies of a round have been looked at. */
  ghost predicate RoundTo(before: seq<RunWorker>, replies: seq<Reply>, known: Known, now: seq<RunWorker>, n: nat,
                          all: bool)
    requires |before| == |replies| && forall i | 0 <= i < |replies| :: ReplyShaped(replies[i])
  {
    && |now| == |before| && n <= |now|
    && (forall i | 0 <= i < n ::
          && Updated(before[i], replies[i], KnownAfter(before, replies, known, i), now[i])
          && Grows(before[i], now[i], all))
    && (forall i | n <= i < |now| :: now[i] == before[i])
  }

  lemma RoundBegins(before: seq<RunWorker>, replies: seq<Reply>, known: Known, all: bool)
    requires |before| == |replies| && forall i | 0 <= i < |replies| :: ReplyShaped(replies[i])
    ensures RoundTo(before, replies, known, before, 0, all) && KnownAfter(before, replies, known, 0) == known
  {
  }

  lemma RoundNext(before: seq<RunWorker>, replies: seq<Reply>, known: Known, now: seq<RunWorker>, n: nat, w: RunWorker,
                  all: bool)
    requires |before| == |replies| && forall i | 0 <= i < |replies| :: ReplyShaped(replies[i])
    requires RoundTo(before, replies, known, now, n, all) && n < |now|
    requires Updated(now[n], replies[n], KnownAfter(before, replies, known, n), w) && Grows(now[n], w, all)
    ensures RoundTo(before, replies, known, now[n := w], n + 1, all)
    ensures KnownAfter(before, replies, known, n + 1)
            == Learned(now[n], replies[n], KnownAfter(before, replies, known, n))
  {
    hide Updated, Grows;
  }

  lemma RoundEnds(before: seq<RunWorker>, replies: seq<Reply>, known: Known, now: seq<RunWorker>, all: bool)
    requires |before| == |replies| && forall i | 0 <= i < |replies| :: ReplyShaped(replies[i])
    requires RoundTo(before, replies, known, now, |before|, all)
    ensures AllGrow(before, now, all)
    ensures forall i | 0 <= i < |now| ::
              Updated(before[i], replies[i], KnownAfter(before, replies, known, i), now[i])
  {
    hide Updated, Grows;
  }

  lemma {:induction false} NothingReported(workers: seq<RunWorker>)
    requires forall i | 0 <= i < |workers| :: !workers[i].hasSnapshot
    ensures Reported(workers) == []
  {
    if workers != [] {
      NothingReported(workers[..|workers| - 1]);
    }
  }

  lemma NeverBack(v: seq<nat>)
    ensures NoneDecreases(v, v)
  {
  }

  lemma StandsStill(w: RunWorker, all: bool)
    requires WorkerValid(w)
    ensures Grows(w, w, all)
  {
    NeverBack(w.last.counters);
    NeverBack(w.last.buckets);
    NeverBack(w.last.statuses);
    GrowStays(w.lastSteps, all);
  }

  lemma GrowthStays(workers: seq<RunWorker>, all: bool)
    requires AllValid(workers)
    ensures AllGrow(workers, workers, all)
  {
    forall i | 0 <= i < |workers|
      ensures Grows(workers[i], workers[i], all)
    {
      assert WorkerValid(workers[i]);
      StandsStill(workers[i], all);
    }
  }

  lemma RowsForwardAdds(a: seq<BranchRow>, b: seq<BranchRow>, c: seq<BranchRow>)
    requires RowsForward(a, b) && RowsForward(b, c)
    ensures RowsForward(a, c)
  {
    forall k | 0 <= k < |a|
      ensures a[k].route == c[k].route && NoLess(a[k].counts, c[k].counts)
    {
      assert a[k].route == b[k].route;
    }
  }

  lemma GrowthAdds(a: seq<RunWorker>, b: seq<RunWorker>, c: seq<RunWorker>, all: bool)
    requires AllGrow(a, b, all) && AllGrow(b, c, all)
    ensures AllGrow(a, c, all)
  {
    forall i | 0 <= i < |a|
      ensures Grows(a[i], c[i], all)
    {
      assert Grows(a[i], b[i], all) && Grows(b[i], c[i], all);
      if a[i].hasSnapshot {
        RowsForwardAdds(a[i].lastBranches, b[i].lastBranches, c[i].lastBranches);
        GrowAdds(a[i].lastSteps, b[i].lastSteps, c[i].lastSteps, all);
      }
    }
  }

  /** No counter of the totals has reached the largest value. */
  ghost predicate Roomy(workers: seq<RunWorker>)
    requires AllValid(workers)
  {
    ReportedShaped(workers);
    Fits(Exact(Reported(workers))) && Exact(Reported(workers)).counters[TOTAL] < MAX_UINT64
  }

  ghost predicate NeverBackwards(totals: seq<Snapshot>) {
    && (forall k | 0 <= k < |totals| :: Shaped(totals[k]) && Consistent(totals[k]))
    && (forall k, l | 0 <= k <= l < |totals| :: Monotonic(totals[k], totals[l]))
  }

  lemma RoomBefore(before: seq<RunWorker>, after: seq<RunWorker>, all: bool)
    requires AllValid(before) && AllValid(after) && AllGrow(before, after, all) && Roomy(after)
    ensures Roomy(before)
  {
    TotalsGrow(before, after, all);
  }

  lemma HistoryForward(totals: seq<Snapshot>, history: seq<seq<RunWorker>>, final: seq<RunWorker>, all: bool)
    requires AllValid(final) && Roomy(final) && |totals| == |history|
    requires forall k | 0 <= k < |history| ::
               AllValid(history[k]) && Shows(totals[k], history[k]) && AllGrow(history[k], final, all)
    requires forall k, l | 0 <= k <= l < |history| :: AllGrow(history[k], history[l], all)
    ensures NeverBackwards(totals)
  {
    forall k | 0 <= k < |totals|
      ensures Shaped(totals[k]) && Consistent(totals[k])
      ensures AllShaped(Reported(history[k])) && totals[k] == Exact(Reported(history[k]))
    {
      RoomBefore(history[k], final, all);
      TotalsConsistent(history[k]);
    }
    forall k, l | 0 <= k <= l < |totals|
      ensures Monotonic(totals[k], totals[l])
    {
      TotalsGrow(history[k], history[l], all);
    }
  }

  /** What is shown for a number of a step never goes back. */
  ghost predicate StepNeverBackwards(steps: seq<map<string, StepTotal>>, id: string, f: Field)
    requires FieldValid(f)
  {
    && (forall k | 0 <= k < |steps| :: AllWithin(steps[k]))
    && (forall k, l | 0 <= k <= l < |steps| :: TotalIn(steps[k], id, f) <= TotalIn(steps[l], id, f))
  }

  lemma StepForward(steps: seq<map<string, StepTotal>>, history: seq<seq<RunWorker>>, final: seq<RunWorker>, all: bool,
                    id: string, f: Field)
    requires AllValid(final) && FieldValid(f) && (f.StatusOf? ==> all)
    requires StepOf(final, id, f) <= MAX_UINT64 && |steps| == |history|
    requires forall k | 0 <= k < |history| ::
               AllValid(history[k]) && StepsShow(steps[k], history[k]) && AllGrow(history[k], final, all)
    requires forall k, l | 0 <= k <= l < |history| :: AllGrow(history[k], history[l], all)
    ensures StepNeverBackwards(steps, id, f)
  {
    forall k | 0 <= k < |steps|
      ensures AllWithin(steps[k]) && TotalIn(steps[k], id, f) == StepOf(history[k], id, f)
    {
      StepTotalsGrow(history[k], final, all, id, f);
      SmallWraps(StepOf(history[k], id, f));
      assert StepsShow(steps[k], history[k]);
    }
    forall k, l | 0 <= k <= l < |steps|
      ensures TotalIn(steps[k], id, f) <= TotalIn(steps[l], id, f)
    {
      StepTotalsGrow(history[k], history[l], all, id, f);
    }
  }

  /** The counters shown for a route stay valid and never go back. */
  ghost predicate RouteNeverBackwards(branches: seq<map<Key, Counts>>, key: Key) {
    && (forall k | 0 <= k < |branches| :: CountsValid(TotalOf(branches[k], key)))
    && (forall k, l | 0 <= k <= l < |branches| :: NoLess(TotalOf(branches[k], key), TotalOf(branches[l], key)))
  }

  lemma RouteForward(branches: seq<map<Key, Counts>>, history: seq<seq<RunWorker>>, final: seq<RunWorker>, all: bool,
                     key: Key)
    requires FitsCounters(BranchOf(final, key)) && |branches| == |history|
    requires forall k | 0 <= k < |history| ::
               AllValid(history[k]) && BranchesShow(branches[k], history[k]) && AllGrow(history[k], final, all)
    requires forall k, l | 0 <= k <= l < |history| :: AllGrow(history[k], history[l], all)
    ensures RouteNeverBackwards(branches, key)
  {
    forall k | 0 <= k < |branches|
      ensures TotalOf(branches[k], key) == BranchOf(history[k], key) && CountsValid(BranchOf(history[k], key))
    {
      BranchTotalsGrow(history[k], final, all, key);
      BranchTotalsBalance(history[k], key);
      WrappedIsExact(BranchOf(history[k], key));
      assert BranchesShow(branches[k], history[k]);
    }
    forall k, l | 0 <= k <= l < |branches|
      ensures NoLess(TotalOf(branches[k], key), TotalOf(branches[l], key))
    {
      BranchTotalsGrow(history[k], history[l], all, key);
    }
  }
}
