/** What ends an iteration: the end of the plan, a failed assertion that stops
    it, a cancelled step, or a join that does not match; nothing else does. */
module IterationEnds {
  import opened Scenario
  import opened Variables
  import opened Machine
  import opened Iteration
  import opened Freshness

  // ----- what an assertion does with its verdict

  /** A value is visible under every one of the names. */
  ghost predicate AllVisible(v: Vars, names: seq<string>)
    requires v.FramesStored()
  {
    forall k | 0 <= k < |names| ::
      || names[k] in v.runtime || names[k] in v.iteration || names[k] in v.run
      || exists i: nat :: i < |v.frames| && FrameHolds(v, names[k], i)
  }

  /** The request that ran in the j-th transition got a response, and its i-th
      assertion held of it. */
  ghost predicate Passed(p: Program, d: Data, inputs: seq<IterationInput>, r: nat, i: nat, j: nat)
    requires Sound(p) && |d.results| == p.assertionCount && j < |inputs| && IsRequest(p, r)
  {
    && AllVisible(After(p, d, inputs, j).data.vars, RequestAt(p, r).templateNames)
    && inputs[j].effect.Respond? && i < |inputs[j].effect.verdicts| && inputs[j].effect.verdicts[i]
  }

  lemma PassedIsWritten(p: Program, d: Data, inputs: seq<IterationInput>, r: nat, i: nat, j: nat)
    requires Sound(p) && |d.results| == p.assertionCount && j < |inputs| && IsRequest(p, r)
    ensures Verdict(WrittenAt(p, d, inputs, r, j), i) <==> Passed(p, d, inputs, r, i, j)
  {
    var v, names := After(p, d, inputs, j).data.vars, RequestAt(p, r).templateNames;
    forall k | 0 <= k < |names|
      ensures Value(v, names[k]).Some? <==>
              || names[k] in v.runtime || names[k] in v.iteration || names[k] in v.run
              || exists i: nat :: i < |v.frames| && FrameHolds(v, names[k], i)
    {
      FoundSomewhere(v, names[k]);
    }
  }

  /** An assertion ends the iteration exactly if it is to stop it and the
      latest run of its request did not pass it; otherwise the plan goes on, and
      nothing else changes. */
  lemma AssertionDecides(p: Program, d: Data, inputs: seq<IterationInput>, input: IterationInput, r: nat, i: nat)
    returns (j: nat)
    requires Sound(p) && |d.results| == p.assertionCount && SlotsOwned(p)
    requires Active(RunAll(p, StartWorld(p, d), inputs))
    requires BoundAt(p, RunAll(p, StartWorld(p, d), inputs).status.control.pc, r, i)
    ensures LastRunsAt(p, d, inputs, r, j)
    ensures var w := RunAll(p, StartWorld(p, d), inputs); var a: nat := w.status.control.pc;
            && IsAssertion(p, a)
            && Transition(p, w, input).status
               == (if AssertionAt(p, a).failureMode == StopMode && !Passed(p, d, inputs, r, i, j) then Stopped
                   else Running(w.status.control.(pc := p.steps[a].next)))
            && Transition(p, w, input).data == w.data
  {
    j := AssertionReadsFreshVerdict(p, d, inputs, r, i);
    PassedIsWritten(p, d, inputs, r, i, j);
  }

  // ----- how an iteration ends

  /** A request or a delay is cancelled. */
  predicate CutAt(p: Program, w: World, input: IterationInput)
    requires Consistent(p, w)
  {
    && Active(w) && p.steps[w.status.control.pc].Scenario? && !IsAssertion(p, w.status.control.pc)
    && input.effect.Cancel?
  }

  /** An assertion that stops the iteration reads a verdict that is not true. */
  predicate StopsAt(p: Program, w: World)
    requires Consistent(p, w)
  {
    && Active(w) && IsAssertion(p, w.status.control.pc)
    && var assertion := AssertionAt(p, w.status.control.pc);
       assertion.failureMode == StopMode
       && !(assertion.resultIndex < |w.data.results| && w.data.results[assertion.resultIndex])
  }

  predicate MismatchesAt(p: Program, w: World)
    requires Consistent(p, w)
  {
    && Active(w) && p.steps[w.status.control.pc].Join?
    && var routes := w.status.control.activeRoutes;
       routes == [] || routes[|routes| - 1].join != w.status.control.pc
  }

  lemma HowItEnds(p: Program, w: World, input: IterationInput)
    requires Consistent(p, w) && Active(w)
    ensures var status := Transition(p, w, input).status;
            && (status.Cancelled? <==> CutAt(p, w, input))
            && (status.Stopped? <==> StopsAt(p, w))
            && (status.JoinMismatch? <==> MismatchesAt(p, w))
  {
    if p.steps[w.status.control.pc].Scenario? {
      assert VerdictsFit(Current(p, w), p.assertionCount);
    }
  }

  /** Some transition of the run was cut, stopped it, or met such a join. */
  ghost predicate WasCut(p: Program, d: Data, inputs: seq<IterationInput>)
    requires Sound(p) && |d.results| == p.assertionCount
  {
    exists m: nat :: m < |inputs| && CutAt(p, After(p, d, inputs, m), inputs[m])
  }

  ghost predicate WasStopped(p: Program, d: Data, inputs: seq<IterationInput>)
    requires Sound(p) && |d.results| == p.assertionCount
  {
    exists m: nat :: m < |inputs| && StopsAt(p, After(p, d, inputs, m))
  }

  ghost predicate WasMismatched(p: Program, d: Data, inputs: seq<IterationInput>)
    requires Sound(p) && |d.results| == p.assertionCount
  {
    exists m: nat :: m < |inputs| && MismatchesAt(p, After(p, d, inputs, m))
  }

  lemma LastOrBefore(p: Program, d: Data, inputs: seq<IterationInput>)
    requires Sound(p) && |d.results| == p.assertionCount && inputs != []
    ensures var last := |inputs| - 1;
            var w := After(p, d, inputs, last);
            && w == RunAll(p, StartWorld(p, d), inputs[..last])
            && (WasCut(p, d, inputs) <==> WasCut(p, d, inputs[..last]) || CutAt(p, w, inputs[last]))
            && (WasStopped(p, d, inputs) <==> WasStopped(p, d, inputs[..last]) || StopsAt(p, w))
            && (WasMismatched(p, d, inputs) <==> WasMismatched(p, d, inputs[..last]) || MismatchesAt(p, w))
  {
    var last := |inputs| - 1;
    forall m: nat | m < last
      ensures After(p, d, inputs[..last], m) == After(p, d, inputs, m) && inputs[..last][m] == inputs[m]
    {
      assert inputs[..last][..m] == inputs[..m];
    }
    if WasCut(p, d, inputs[..last]) {
      var m: nat :| m < last && CutAt(p, After(p, d, inputs[..last], m), inputs[..last][m]);
      assert CutAt(p, After(p, d, inputs, m), inputs[m]);
    }
    if WasStopped(p, d, inputs[..last]) {
      var m: nat :| m < last && StopsAt(p, After(p, d, inputs[..last], m));
      assert StopsAt(p, After(p, d, inputs, m));
    }
    if WasMismatched(p, d, inputs[..last]) {
      var m: nat :| m < last && MismatchesAt(p, After(p, d, inputs[..last], m));
      assert MismatchesAt(p, After(p, d, inputs, m));
    }
    OnlyBefore(p, d, inputs);
  }

  lemma OnlyBefore(p: Program, d: Data, inputs: seq<IterationInput>)
    requires Sound(p) && |d.results| == p.assertionCount && inputs != []
    ensures var last := |inputs| - 1;
            var w := After(p, d, inputs, last);
            && (WasCut(p, d, inputs) ==> WasCut(p, d, inputs[..last]) || CutAt(p, w, inputs[last]))
            && (WasStopped(p, d, inputs) ==> WasStopped(p, d, inputs[..last]) || StopsAt(p, w))
            && (WasMismatched(p, d, inputs) ==> WasMismatched(p, d, inputs[..last]) || MismatchesAt(p, w))
  {
    var last := |inputs| - 1;
    forall m: nat | m < last
      ensures After(p, d, inputs[..last], m) == After(p, d, inputs, m) && inputs[..last][m] == inputs[m]
    {
      assert inputs[..last][..m] == inputs[..m];
    }
  }

  /** An iteration is cancelled exactly if a request or a delay of it was, it is
      stopped exactly if a stopping assertion read a verdict that was not true,
      and a join ends it exactly if it did not match; in all other cases the plan
      goes on to its end. */
  lemma {:induction false} EndOfIteration(p: Program, d: Data, inputs: seq<IterationInput>)
    requires Sound(p) && |d.results| == p.assertionCount
    ensures var status := RunAll(p, StartWorld(p, d), inputs).status;
            && (status.Cancelled? <==> WasCut(p, d, inputs))
            && (status.Stopped? <==> WasStopped(p, d, inputs))
            && (status.JoinMismatch? <==> WasMismatched(p, d, inputs))
    decreases |inputs|
  {
    if inputs != [] {
      hide WasCut, WasStopped, WasMismatched;
      var shorter := inputs[..|inputs| - 1];
      EndOfIteration(p, d, shorter);
      LastOrBefore(p, d, inputs);
      RunAllLast(p, StartWorld(p, d), inputs);
      var before := RunAll(p, StartWorld(p, d), shorter);
      if Active(before) {
        HowItEnds(p, before, inputs[|inputs| - 1]);
      }
    }
  }
}
