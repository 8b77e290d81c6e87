/** An assertion step reads the verdict that its own request wrote when it last
    ran in the same iteration. */
module Freshness {
  import opened Walks
  import opened ExecutionPlan
  import opened Scenario
  import opened Machine
  import opened Iteration

  predicate IsRequest(p: Program, r: int)
    requires Sound(p)
  {
    0 <= r < |p.steps| && p.steps[r].Scenario? && p.scenario[p.steps[r].scenarioIndex].RequestKind?
  }

  predicate IsAssertion(p: Program, a: int)
    requires Sound(p)
  {
    0 <= a < |p.steps| && p.steps[a].Scenario? && p.scenario[p.steps[a].scenarioIndex].AssertKind?
  }

  function RequestAt(p: Program, r: nat): RequestStep
    requires Sound(p) && IsRequest(p, r)
  {
    p.scenario[p.steps[r].scenarioIndex].request
  }

  function AssertionAt(p: Program, a: nat): Assertion
    requires Sound(p) && IsAssertion(p, a)
  {
    p.scenario[p.steps[a].scenarioIndex].assertion
  }

  /** The assertion at a is the i-th that the request at r evaluates, and that
      request runs on every path to it. */
  ghost predicate BoundAt(p: Program, a: nat, r: nat, i: nat)
    requires Sound(p)
  {
    && IsAssertion(p, a) && IsRequest(p, r) && r != a
    && Dominates(Full(p.steps), p.entry, r, a)
    && i < |RequestAt(p, r).assertions|
    && RequestAt(p, r).assertions[i].resultIndex == AssertionAt(p, a).resultIndex
  }

  /** No verdict slot has two writers. */
  predicate SlotsOwned(p: Program)
    requires Sound(p)
  {
    forall r, q, i, j | 0 <= r < |p.steps| && 0 <= q < |p.steps| && IsRequest(p, r) && IsRequest(p, q)
      && 0 <= i < |RequestAt(p, r).assertions| && 0 <= j < |RequestAt(p, q).assertions|
      && RequestAt(p, r).assertions[i].resultIndex == RequestAt(p, q).assertions[j].resultIndex
      :: r == q && i == j
  }

  // ----- what has run

  /** A step that has not run and is not about to run is on no walk that the
      run may have taken. */
  ghost predicate UnseenAvoided(p: Program, w: World)
    requires Consistent(p, w)
  {
    Active(w) ==>
      forall d: int | d !in w.history.executed && d != w.status.control.pc ::
        ReachAvoiding(Full(p.steps), p.entry, w.status.control.pc, d)
  }

  lemma UnseenStaysAvoided(p: Program, w: World, input: IterationInput)
    requires Consistent(p, w) && Active(w) && UnseenAvoided(p, w)
    ensures UnseenAvoided(p, Transition(p, w, input))
  {
    GraphsWellFormed(p.steps);
    var next := Transition(p, w, input);
    if Active(next) {
      var pc := w.status.control.pc;
      NextFollowsEdge(p.steps, w.status.control, ControlInput(p, w, input));
      forall d: int | d !in next.history.executed && d != next.status.control.pc
        ensures ReachAvoiding(Full(p.steps), p.entry, next.status.control.pc, d)
      {
        assert d !in w.history.executed && d != pc;
        ReachThen(Full(p.steps), p.entry, pc, next.status.control.pc, d);
      }
    }
  }

  lemma {:induction false} RunsAvoidUnseen(p: Program, d: Data, inputs: seq<IterationInput>)
    requires Sound(p) && |d.results| == p.assertionCount
    ensures UnseenAvoided(p, RunAll(p, StartWorld(p, d), inputs))
    decreases |inputs|
  {
    var start := StartWorld(p, d);
    if inputs == [] {
      GraphsWellFormed(p.steps);
      forall x: int | x != p.entry
        ensures ReachAvoiding(Full(p.steps), p.entry, p.entry, x)
      {
        ReachSelf(Full(p.steps), p.entry, x);
      }
    } else {
      RunsAvoidUnseen(p, d, inputs[..|inputs| - 1]);
      RunAllLast(p, start, inputs);
      var before := RunAll(p, start, inputs[..|inputs| - 1]);
      if Active(before) {
        UnseenStaysAvoided(p, before, inputs[|inputs| - 1]);
      }
    }
  }

  /** Whatever dominates the step about to run has run before. */
  lemma DominatorHasRun(p: Program, d: Data, inputs: seq<IterationInput>, r: nat)
    requires Sound(p) && |d.results| == p.assertionCount
    requires Active(RunAll(p, StartWorld(p, d), inputs))
    requires var pc: nat := RunAll(p, StartWorld(p, d), inputs).status.control.pc;
             r != pc && Dominates(Full(p.steps), p.entry, r, pc)
    ensures r in RunAll(p, StartWorld(p, d), inputs).history.executed
  {
    RunsAvoidUnseen(p, d, inputs);
  }

  // ----- verdict slots

  lemma {:induction false} WrittenSlot(results: seq<bool>, assertions: seq<Assertion>, verdicts: seq<bool>, n: nat,
                                       i: nat)
    requires n <= |assertions| && i < n
    requires forall j | 0 <= j < |assertions| :: assertions[j].resultIndex < |results|
    requires forall j | 0 <= j < |assertions| && j != i :: assertions[j].resultIndex != assertions[i].resultIndex
    ensures WriteVerdicts(results, assertions, verdicts, n)[assertions[i].resultIndex] == Verdict(verdicts, i)
  {
    if i < n - 1 {
      WrittenSlot(results, assertions, verdicts, n - 1, i);
    }
  }

  lemma {:induction false} OtherSlot(results: seq<bool>, assertions: seq<Assertion>, verdicts: seq<bool>, n: nat,
                                     slot: nat)
    requires n <= |assertions| && slot < |results|
    requires forall j | 0 <= j < |assertions| :: assertions[j].resultIndex < |results|
    requires forall j | 0 <= j < |assertions| :: assertions[j].resultIndex != slot
    ensures WriteVerdicts(results, assertions, verdicts, n)[slot] == results[slot]
  {
    if n > 0 {
      OtherSlot(results, assertions, verdicts, n - 1, slot);
    }
  }

  /** The slots of request r hold what its latest execution wrote. */
  ghost predicate SlotsCurrent(p: Program, w: World, r: nat)
    requires Consistent(p, w) && IsRequest(p, r)
  {
    && r in w.history.verdicts
    && forall i: nat | i < |RequestAt(p, r).assertions| ::
         w.data.results[RequestAt(p, r).assertions[i].resultIndex] == Verdict(w.history.verdicts[r], i)
  }

  ghost predicate VerdictsCurrent(p: Program, w: World)
    requires Consistent(p, w)
  {
    forall r: nat | r in w.history.executed && IsRequest(p, r) :: SlotsCurrent(p, w, r)
  }

  lemma RequestWritesItsSlots(p: Program, w: World, input: IterationInput)
    requires Consistent(p, w) && Active(w) && SlotsOwned(p) && IsRequest(p, w.status.control.pc)
    requires !input.effect.Cancel?
    ensures SlotsCurrent(p, Transition(p, w, input), w.status.control.pc)
  {
    var pc: nat := w.status.control.pc;
    var request := RequestAt(p, pc);
    assert VerdictsFit(p.scenario[p.steps[pc].scenarioIndex], p.assertionCount);
    var verdicts := VerdictsOf(request, w.data.vars, input.effect);
    forall i: nat | i < |request.assertions|
      ensures Transition(p, w, input).data.results[request.assertions[i].resultIndex] == Verdict(verdicts, i)
    {
      WrittenSlot(w.data.results, request.assertions, verdicts, |request.assertions|, i);
    }
  }

  lemma OtherSlotsKept(p: Program, w: World, input: IterationInput, r: nat)
    requires Consistent(p, w) && Active(w) && SlotsOwned(p) && IsRequest(p, r)
    requires SlotsCurrent(p, w, r) && r != w.status.control.pc
    ensures SlotsCurrent(p, Transition(p, w, input), r)
  {
    var pc: nat := w.status.control.pc;
    var next := Transition(p, w, input);
    assert next.history.verdicts[r] == w.history.verdicts[r];
    if IsRequest(p, pc) && !input.effect.Cancel? {
      var request := RequestAt(p, pc);
      assert VerdictsFit(p.scenario[p.steps[r].scenarioIndex], p.assertionCount);
      forall i: nat | i < |RequestAt(p, r).assertions|
        ensures next.data.results[RequestAt(p, r).assertions[i].resultIndex] == Verdict(next.history.verdicts[r], i)
      {
        OtherSlot(w.data.results, request.assertions, VerdictsOf(request, w.data.vars, input.effect),
                  |request.assertions|, RequestAt(p, r).assertions[i].resultIndex);
      }
    } else {
      assert next.data.results == w.data.results;
    }
  }

  lemma VerdictsStayCurrent(p: Program, w: World, input: IterationInput)
    requires Consistent(p, w) && Active(w) && SlotsOwned(p) && VerdictsCurrent(p, w)
    requires Active(Transition(p, w, input))
    ensures VerdictsCurrent(p, Transition(p, w, input))
  {
    var next := Transition(p, w, input);
    forall r: nat | r in next.history.executed && IsRequest(p, r)
      ensures SlotsCurrent(p, next, r)
    {
      if r == w.status.control.pc {
        RequestWritesItsSlots(p, w, input);
      } else {
        assert r in w.history.executed;
        OtherSlotsKept(p, w, input, r);
      }
    }
  }

  lemma {:induction false} RunsKeepVerdictsCurrent(p: Program, d: Data, inputs: seq<IterationInput>)
    requires Sound(p) && |d.results| == p.assertionCount && SlotsOwned(p)
    requires Active(RunAll(p, StartWorld(p, d), inputs))
    ensures VerdictsCurrent(p, RunAll(p, StartWorld(p, d), inputs))
    decreases |inputs|
  {
    if inputs != [] {
      RunAllLast(p, StartWorld(p, d), inputs);
      RunsKeepVerdictsCurrent(p, d, inputs[..|inputs| - 1]);
      VerdictsStayCurrent(p, RunAll(p, StartWorld(p, d), inputs[..|inputs| - 1]), inputs[|inputs| - 1]);
    }
  }

  // ----- the record against the run itself

  /** The world after the first m inputs. */
  ghost function After(p: Program, d: Data, inputs: seq<IterationInput>, m: nat): (w: World)
    requires Sound(p) && |d.results| == p.assertionCount && m <= |inputs|
    ensures Consistent(p, w)
  {
    RunAll(p, StartWorld(p, d), inputs[..m])
  }

  ghost predicate RunsAt(p: Program, d: Data, inputs: seq<IterationInput>, r: nat, m: nat)
    requires Sound(p) && |d.results| == p.assertionCount && m < |inputs|
  {
    Active(After(p, d, inputs, m)) && After(p, d, inputs, m).status.control.pc == r
  }

  /** Transition j is the latest one that runs step r. */
  ghost predicate LastRunsAt(p: Program, d: Data, inputs: seq<IterationInput>, r: nat, j: nat)
    requires Sound(p) && |d.results| == p.assertionCount
  {
    j < |inputs| && RunsAt(p, d, inputs, r, j) && forall m | j < m < |inputs| :: !RunsAt(p, d, inputs, r, m)
  }

  ghost function WrittenAt(p: Program, d: Data, inputs: seq<IterationInput>, r: nat, j: nat): seq<bool>
    requires Sound(p) && |d.results| == p.assertionCount && j < |inputs| && IsRequest(p, r)
  {
    VerdictsOf(RequestAt(p, r), After(p, d, inputs, j).data.vars, inputs[j].effect)
  }

  /** The recorded verdicts are those that the latest run of the request wrote. */
  lemma {:induction false} RecordedAtLastRun(p: Program, d: Data, inputs: seq<IterationInput>, r: nat) returns (j: nat)
    requires Sound(p) && |d.results| == p.assertionCount && IsRequest(p, r)
    requires r in RunAll(p, StartWorld(p, d), inputs).history.verdicts
    ensures LastRunsAt(p, d, inputs, r, j)
    ensures RunAll(p, StartWorld(p, d), inputs).history.verdicts[r] == WrittenAt(p, d, inputs, r, j)
    decreases |inputs|
  {
    var last := |inputs| - 1;
    RunAllLast(p, StartWorld(p, d), inputs);
    var before := After(p, d, inputs, last);
    if Active(before) && before.status.control.pc == r {
      j := last;
    } else {
      j := RecordedAtLastRun(p, d, inputs[..last], r);
      forall m | 0 <= m < last
        ensures inputs[..last][..m] == inputs[..m]
      {
      }
      assert RunsAt(p, d, inputs, r, j) by {
        assert RunsAt(p, d, inputs[..last], r, j);
      }
      forall m | j < m < |inputs|
        ensures !RunsAt(p, d, inputs, r, m)
      {
        if m < last {
          assert !RunsAt(p, d, inputs[..last], r, m);
        }
      }
    }
  }

  /** When a bound assertion is about to run, its request has run in this
      iteration, and the slot it reads holds the verdict written by the latest
      run of that request, whatever earlier iterations left in the slots. */
  lemma AssertionReadsFreshVerdict(p: Program, d: Data, inputs: seq<IterationInput>, r: nat, i: nat)
    returns (j: nat)
    requires Sound(p) && |d.results| == p.assertionCount && SlotsOwned(p)
    requires Active(RunAll(p, StartWorld(p, d), inputs))
    requires BoundAt(p, RunAll(p, StartWorld(p, d), inputs).status.control.pc, r, i)
    ensures LastRunsAt(p, d, inputs, r, j)
    ensures var w := RunAll(p, StartWorld(p, d), inputs);
            var slot := AssertionAt(p, w.status.control.pc).resultIndex;
            slot < |w.data.results| && w.data.results[slot] == Verdict(WrittenAt(p, d, inputs, r, j), i)
  {
    var w := RunAll(p, StartWorld(p, d), inputs);
    DominatorHasRun(p, d, inputs, r);
    RunsKeepVerdictsCurrent(p, d, inputs);
    assert SlotsCurrent(p, w, r);
    assert VerdictsFit(p.scenario[p.steps[w.status.control.pc].scenarioIndex], p.assertionCount);
    j := RecordedAtLastRun(p, d, inputs, r);
  }
}
