/** The run-time theorems, for every plan that the compiler accepts. */
module CompiledRuns {
  import opened Walks
  import opened ExecutionPlan
  import opened Scenario
  import opened Regions
  import opened Machine
  import opened TransitionLimit
  import opened Iteration
  import opened Freshness
  import opened IterationEnds
  import opened TemplateScope
  import opened TemplateRuns
  import opened PlanDefinition
  import opened PlanBinding
  import opened PlanCompiler

  /** p is draft q with every assertion bound. */
  ghost predicate Bound(q: Program, p: Program, definitions: seq<StepDefinition>, index: Index)
    requires Sound(q) && |definitions| == |q.steps|
  {
    && p.steps == q.steps && p.entry == q.entry && p.assertionCount == q.assertionCount
    && PlannedOnce(q.steps, q.scenario) && Unbound(q.scenario, q.assertionCount)
    && (forall s: nat | s < |q.scenario| :: Planned(q.steps, s))
    && BoundThrough(q, definitions, index, p.scenario, |q.steps|)
  }

  /** The plan step that the i-th judged assertion comes from. */
  lemma {:induction false} JudgedFrom(q: Program, definitions: seq<StepDefinition>, index: Index, r: nat, n: nat,
                                      i: nat)
    returns (a: nat)
    requires Sound(q) && |definitions| == |q.steps| && IsRequest(q, r)
    requires i < |Judged(q, definitions, index, r, n)|
    ensures a < n && JudgedBy(q, definitions, index, a, r)
    ensures Judged(q, definitions, index, r, n)[i] == BoundAssertion(q, a, r)
  {
    var shorter := Judged(q, definitions, index, r, n - 1);
    if i < |shorter| {
      a := JudgedFrom(q, definitions, index, r, n - 1, i);
    } else {
      a := n - 1;
    }
  }

  lemma {:induction false} JudgedHas(q: Program, definitions: seq<StepDefinition>, index: Index, r: nat, n: nat, a: nat)
    returns (i: nat)
    requires Sound(q) && |definitions| == |q.steps| && IsRequest(q, r)
    requires a < n && JudgedBy(q, definitions, index, a, r)
    ensures i < |Judged(q, definitions, index, r, n)|
    ensures Judged(q, definitions, index, r, n)[i] == BoundAssertion(q, a, r)
  {
    if a < n - 1 {
      i := JudgedHas(q, definitions, index, r, n - 1, a);
    } else {
      i := |Judged(q, definitions, index, r, n - 1)|;
    }
  }

  /** Different assertion steps have different verdict slots. */
  lemma AssertionSlotsDiffer(q: Program, a: nat, b: nat)
    requires Sound(q) && PlannedOnce(q.steps, q.scenario) && Unbound(q.scenario, q.assertionCount)
    requires IsAssertion(q, a) && IsAssertion(q, b) && a != b
    ensures AssertionAt(q, a).resultIndex != AssertionAt(q, b).resultIndex
  {
    var s, t := q.steps[a].scenarioIndex, q.steps[b].scenarioIndex;
    assert s != t;
  }

  lemma {:induction false} JudgedDistinct(q: Program, definitions: seq<StepDefinition>, index: Index,
                                          r: nat, n: nat, i: nat, j: nat)
    requires Sound(q) && |definitions| == |q.steps| && IsRequest(q, r)
    requires PlannedOnce(q.steps, q.scenario) && Unbound(q.scenario, q.assertionCount)
    requires i < j < |Judged(q, definitions, index, r, n)|
    ensures Judged(q, definitions, index, r, n)[i].resultIndex != Judged(q, definitions, index, r, n)[j].resultIndex
  {
    var shorter := Judged(q, definitions, index, r, n - 1);
    if j < |shorter| {
      JudgedDistinct(q, definitions, index, r, n - 1, i, j);
    } else {
      var a := JudgedFrom(q, definitions, index, r, n - 1, i);
      AssertionSlotsDiffer(q, a, n - 1);
    }
  }

  /** Binding changes which assertions a request judges and nothing else. */
  lemma BoundKinds(q: Program, p: Program, definitions: seq<StepDefinition>, index: Index, x: nat)
    requires Sound(q) && |definitions| == |q.steps| && Bound(q, p, definitions, index)
    requires x < |q.steps| && q.steps[x].Scenario?
    ensures q.steps[x].scenarioIndex < |p.scenario|
    ensures var was, now := q.scenario[q.steps[x].scenarioIndex], p.scenario[q.steps[x].scenarioIndex];
            && (was.RequestKind? <==> now.RequestKind?) && (was.AssertKind? <==> now.AssertKind?)
            && (was.RequestKind? ==>
                  now.request.captures == was.request.captures
                  && now.request.templateNames == was.request.templateNames
                  && now.request.assertions == Judged(q, definitions, index, x, |q.steps|))
            && (was.AssertKind? ==> now.assertion.resultIndex == was.assertion.resultIndex)
  {
    assert p.scenario[q.steps[x].scenarioIndex] == BoundStep(q, definitions, index, x, |q.steps|);
  }

  lemma BoundIsSound(q: Program, p: Program, definitions: seq<StepDefinition>, index: Index)
    requires Sound(q) && |definitions| == |q.steps| && Bound(q, p, definitions, index)
    ensures Sound(p)
  {
    forall s: nat | s < |p.scenario|
      ensures VerdictsFit(p.scenario[s], p.assertionCount)
    {
      assert Planned(q.steps, s);
      var x: nat :| x < |q.steps| && q.steps[x].Scenario? && q.steps[x].scenarioIndex == s;
      BoundKinds(q, p, definitions, index, x);
      if IsRequest(q, x) {
        forall i: nat | i < |Judged(q, definitions, index, x, |q.steps|)|
          ensures Judged(q, definitions, index, x, |q.steps|)[i].resultIndex < p.assertionCount
        {
          var a := JudgedFrom(q, definitions, index, x, |q.steps|, i);
        }
      }
    }
  }

  lemma BoundSlotsOwned(q: Program, p: Program, definitions: seq<StepDefinition>, index: Index)
    requires Sound(q) && |definitions| == |q.steps| && Bound(q, p, definitions, index)
    ensures Sound(p) && SlotsOwned(p)
  {
    BoundIsSound(q, p, definitions, index);
    forall r: nat, t: nat, i: nat, j: nat | IsRequest(p, r) && IsRequest(p, t)
      && i < |RequestAt(p, r).assertions| && j < |RequestAt(p, t).assertions|
      && RequestAt(p, r).assertions[i].resultIndex == RequestAt(p, t).assertions[j].resultIndex
      ensures r == t && i == j
    {
      BoundKinds(q, p, definitions, index, r);
      BoundKinds(q, p, definitions, index, t);
      var a := JudgedFrom(q, definitions, index, r, |q.steps|, i);
      var b := JudgedFrom(q, definitions, index, t, |q.steps|, j);
      if a != b {
        AssertionSlotsDiffer(q, a, b);
      }
      if i < j {
        JudgedDistinct(q, definitions, index, r, |q.steps|, i, j);
      } else if j < i {
        JudgedDistinct(q, definitions, index, r, |q.steps|, j, i);
      }
    }
  }

  /** An assertion step of a bound plan has its judging request. */
  lemma BoundAssertionJudged(q: Program, p: Program, definitions: seq<StepDefinition>, index: Index, a: nat)
    returns (r: nat, i: nat)
    requires Sound(q) && |definitions| == |q.steps| && Bound(q, p, definitions, index)
    requires Sound(p) && IsAssertion(p, a)
    ensures definitions[a].requestStepID in index && r == index[definitions[a].requestStepID]
    ensures BoundAt(p, a, r, i)
  {
    BoundKinds(q, p, definitions, index, a);
    assert AssertionAccepted(q, definitions, index, a);
    r := index[definitions[a].requestStepID];
    BoundKinds(q, p, definitions, index, r);
    i := JudgedHas(q, definitions, index, r, |q.steps|, a);
  }

  lemma BoundTemplatesCovered(q: Program, p: Program, definitions: seq<StepDefinition>, index: Index,
                              runtimeNames: set<string>)
    requires Sound(q) && |definitions| == |q.steps| && Bound(q, p, definitions, index)
    requires Sound(p) && TemplatesCovered(q, runtimeNames)
    ensures TemplatesCovered(p, runtimeNames)
  {
    forall x: nat, i: nat | IsRequest(p, x) && i < |RequestAt(p, x).templateNames|
      ensures TemplateCovered(p, runtimeNames, x, RequestAt(p, x).templateNames[i])
    {
      BoundKinds(q, p, definitions, index, x);
      var name := RequestAt(p, x).templateNames[i];
      assert RequestAt(q, x).templateNames[i] == name;
      assert TemplateCovered(q, runtimeNames, x, name);
      if name !in runtimeNames {
        var r: nat :| Produces(q, r, name) && r != x && Dominates(Full(q.steps), q.entry, r, x);
        BoundKinds(q, p, definitions, index, r);
        var c :| 0 <= c < |RequestAt(q, r).captures| && RequestAt(q, r).captures[c].name == name;
        assert RequestAt(p, r).captures[c].name == name;
      }
    }
  }

  // ----- what compilation guarantees

  lemma CompiledIsBound(definition: PlanDefinition, scenario: seq<ScenarioStep>, count: nat,
                        runtimeNames: set<string>, p: Program)
    returns (q: Program, index: Index)
    requires Unbound(scenario, count) && Compiles(definition, scenario, count, runtimeNames, p)
    ensures Sound(q) && |definition.steps| == |q.steps| && Bound(q, p, definition.steps, index)
    ensures Indexes(definition.steps, index, |definition.steps|) && q.scenario == scenario
    ensures WellStructured(p.steps, p.entry) && TemplatesCovered(q, runtimeNames)
    ensures p.maxTransitions == TransitionBound(p.steps) <= MAX_EXECUTION_TRANSITIONS
  {
    var byID;
    index, byID :|
      && AcceptedAs(definition, scenario, count, runtimeNames, index, byID, p.entry, p.steps)
      && p.maxTransitions == TransitionBound(p.steps) && p.assertionCount == count
      && (DraftIsSound(p.entry, p.steps, scenario, count);
          BoundThrough(Draft(p.entry, p.steps, scenario, count), definition.steps, index, p.scenario, |p.steps|));
    DraftIsSound(p.entry, p.steps, scenario, count);
    q := Draft(p.entry, p.steps, scenario, count);
  }

  /** A compiled plan meets the premises of the run-time theorems. */
  lemma CompiledPlanFacts(definition: PlanDefinition, scenario: seq<ScenarioStep>, count: nat,
                          runtimeNames: set<string>, p: Program)
    requires Unbound(scenario, count) && Compiles(definition, scenario, count, runtimeNames, p)
    ensures Sound(p) && WellStructured(p.steps, p.entry)
    ensures SlotsOwned(p) && TemplatesCovered(p, runtimeNames)
    ensures p.maxTransitions == TransitionBound(p.steps) <= MAX_EXECUTION_TRANSITIONS
  {
    var q, index := CompiledIsBound(definition, scenario, count, runtimeNames, p);
    BoundSlotsOwned(q, p, definition.steps, index);
    BoundTemplatesCovered(q, p, definition.steps, index, runtimeNames);
  }

  /** What compilation leaves of a scenario step as it was. */
  predicate StepKept(was: ScenarioStep, now: ScenarioStep) {
    match was
    case RequestKind(id, request) =>
      && now.RequestKind? && now.id == id && now.request.metricsIndex == request.metricsIndex
      && now.request.captures == request.captures && now.request.templateNames == request.templateNames
    case AssertKind(id, assertion) =>
      && now.AssertKind? && now.id == id && now.assertion.resultIndex == assertion.resultIndex
      && now.assertion.failureMode == assertion.failureMode
    case DelayKind(id) => now == was
  }

  lemma BoundIsKept(q: Program, p: Program, definitions: seq<StepDefinition>, index: Index, s: nat)
    requires Sound(q) && |definitions| == |q.steps| && Bound(q, p, definitions, index) && s < |q.scenario|
    ensures |p.scenario| == |q.scenario| && StepKept(q.scenario[s], p.scenario[s])
  {
    assert Planned(q.steps, s);
    var x: nat :| x < |q.steps| && q.steps[x].Scenario? && q.steps[x].scenarioIndex == s;
    assert p.scenario[s] == BoundStep(q, definitions, index, x, |q.steps|);
  }

  lemma BoundIsLabelled(q: Program, p: Program, definitions: seq<StepDefinition>, index: Index, a: nat, r: nat)
    requires Sound(q) && |definitions| == |q.steps| && Bound(q, p, definitions, index)
    requires Indexes(definitions, index, |definitions|) && Sound(p) && IsAssertion(p, a) && r < |definitions|
    requires definitions[a].requestStepID == definitions[r].id
    ensures IsRequest(p, r) && AssertionAt(p, a).requestMetricsIndex == RequestAt(p, r).metricsIndex
  {
    BoundKinds(q, p, definitions, index, a);
    assert AssertionAccepted(q, definitions, index, a);
    BoundKinds(q, p, definitions, index, r);
    BoundIsKept(q, p, definitions, index, q.steps[r].scenarioIndex);
    assert p.scenario[q.steps[a].scenarioIndex] == BoundStep(q, definitions, index, a, |q.steps|);
  }

  /** Compilation binds assertions and changes nothing else about the steps of
      the scenario; an assertion is counted with the request it judges. */
  lemma CompiledScenarioIsKept(definition: PlanDefinition, scenario: seq<ScenarioStep>, count: nat,
                               runtimeNames: set<string>, p: Program)
    requires Unbound(scenario, count) && Compiles(definition, scenario, count, runtimeNames, p)
    ensures Sound(p) && |p.scenario| == |scenario| && |p.steps| == |definition.steps|
    ensures forall s | 0 <= s < |scenario| :: StepKept(scenario[s], p.scenario[s])
    ensures forall a: nat, r: nat | IsAssertion(p, a) && r < |definition.steps|
              && definition.steps[a].requestStepID == definition.steps[r].id ::
              IsRequest(p, r) && AssertionAt(p, a).requestMetricsIndex == RequestAt(p, r).metricsIndex
  {
    hide StepKept, Compiles, Bound, Sound;
    CompiledPlanFacts(definition, scenario, count, runtimeNames, p);
    var q, index := CompiledIsBound(definition, scenario, count, runtimeNames, p);
    BoundScenario(q, p, definition.steps, index);
    forall s: nat | s < |scenario|
      ensures StepKept(scenario[s], p.scenario[s])
    {
      BoundIsKept(q, p, definition.steps, index, s);
    }
    forall a: nat, r: nat | IsAssertion(p, a) && r < |definition.steps|
      && definition.steps[a].requestStepID == definition.steps[r].id
      ensures IsRequest(p, r) && AssertionAt(p, a).requestMetricsIndex == RequestAt(p, r).metricsIndex
    {
      BoundIsLabelled(q, p, definition.steps, index, a, r);
    }
  }

  lemma BoundScenario(q: Program, p: Program, definitions: seq<StepDefinition>, index: Index)
    requires Sound(q) && |definitions| == |q.steps| && Bound(q, p, definitions, index)
    ensures |p.scenario| == |q.scenario| && |p.steps| == |definitions|
  {
  }

  /** The limit of a compiled plan is what its runs can use: over all steps, how
      often each runs at most, and one more for each step that runs in rounds of
      a loop only. */
  lemma CompiledLimitIsSharp(definition: PlanDefinition, scenario: seq<ScenarioStep>, count: nat,
                             runtimeNames: set<string>, p: Program, most: seq<nat>)
    requires Unbound(scenario, count) && Compiles(definition, scenario, count, runtimeNames, p)
    requires NoForeignEntry(p.steps, p.entry)
    requires (CompiledPlanFacts(definition, scenario, count, runtimeNames, p); MostOfAll(p.steps, p.entry, most))
    ensures p.maxTransitions == Total(most) + |OnlyInRounds(p.steps, p.entry)|
  {
    CompiledPlanFacts(definition, scenario, count, runtimeNames, p);
    LimitIsSumOfMost(p.steps, p.entry, most);
  }

  /** Without branches there is one run in which every step continues, and it
      ends after exactly as many transitions as the limit allows, but for the
      steps that run in rounds of a loop only. */
  lemma CompiledStraightRun(definition: PlanDefinition, scenario: seq<ScenarioStep>, count: nat,
                            runtimeNames: set<string>, p: Program, inputs: seq<Input>)
    requires Unbound(scenario, count) && Compiles(definition, scenario, count, runtimeNames, p)
    requires !(exists b: nat :: IsBranch(p.steps, b)) && AllContinue(inputs)
    ensures Sound(p)
    ensures |inputs| + |OnlyInRounds(p.steps, p.entry)| < p.maxTransitions ==> Pending(p.steps, p.entry, inputs)
    ensures |inputs| + |OnlyInRounds(p.steps, p.entry)| == p.maxTransitions ==>
              var s := Run(p.steps, Running(Start(p.steps, p.entry)), inputs); s.Running? && s.control.pc < 0
  {
    CompiledPlanFacts(definition, scenario, count, runtimeNames, p);
    StraightRunUsesLimit(p.steps, p.entry, inputs);
  }

  /** In every run of a compiled plan, an assertion about to run reads what its
      own request wrote when it last ran in this iteration. */
  lemma CompiledAssertionsAreFresh(definition: PlanDefinition, scenario: seq<ScenarioStep>, count: nat,
                                   runtimeNames: set<string>, p: Program, d: Data, inputs: seq<IterationInput>)
    returns (r: nat, i: nat, j: nat)
    requires Unbound(scenario, count) && Compiles(definition, scenario, count, runtimeNames, p)
    requires Sound(p) && |d.results| == p.assertionCount
    requires Active(RunAll(p, StartWorld(p, d), inputs))
    requires IsAssertion(p, RunAll(p, StartWorld(p, d), inputs).status.control.pc)
    ensures var w := RunAll(p, StartWorld(p, d), inputs); var a: nat := w.status.control.pc;
            && a < |definition.steps| && r < |definition.steps|
            && definition.steps[a].requestStepID == definition.steps[r].id
            && BoundAt(p, a, r, i) && LastRunsAt(p, d, inputs, r, j)
            && w.data.results[AssertionAt(p, a).resultIndex] == Verdict(WrittenAt(p, d, inputs, r, j), i)
  {
    var a: nat := RunAll(p, StartWorld(p, d), inputs).status.control.pc;
    CompiledPlanFacts(definition, scenario, count, runtimeNames, p);
    var q, index := CompiledIsBound(definition, scenario, count, runtimeNames, p);
    r, i := BoundAssertionJudged(q, p, definition.steps, index, a);
    j := AssertionReadsFreshVerdict(p, d, inputs, r, i);
  }

  /** In every run of a compiled plan, an assertion ends the iteration exactly if
      it is to stop it and the latest run of the request that its definition
      names did not pass it. */
  lemma CompiledAssertionsDecide(definition: PlanDefinition, scenario: seq<ScenarioStep>, count: nat,
                                 runtimeNames: set<string>, p: Program, d: Data, inputs: seq<IterationInput>,
                                 input: IterationInput)
    returns (r: nat, i: nat, j: nat)
    requires Unbound(scenario, count) && Compiles(definition, scenario, count, runtimeNames, p)
    requires Sound(p) && |d.results| == p.assertionCount
    requires Active(RunAll(p, StartWorld(p, d), inputs))
    requires IsAssertion(p, RunAll(p, StartWorld(p, d), inputs).status.control.pc)
    ensures var w := RunAll(p, StartWorld(p, d), inputs); var a: nat := w.status.control.pc;
            && a < |definition.steps| && r < |definition.steps|
            && definition.steps[a].requestStepID == definition.steps[r].id
            && BoundAt(p, a, r, i) && LastRunsAt(p, d, inputs, r, j)
            && Transition(p, w, input).status
               == if AssertionAt(p, a).failureMode == StopMode && !Passed(p, d, inputs, r, i, j) then Stopped
                  else Running(w.status.control.(pc := p.steps[a].next))
  {
    r, i, j := CompiledAssertionsAreFresh(definition, scenario, count, runtimeNames, p, d, inputs);
    PassedIsWritten(p, d, inputs, r, i, j);
  }

  /** In every run of a compiled plan with no foreign entry and distinct nested
      keys, a request renders its templates unless a capture of one of their
      names has failed in this iteration. */
  lemma CompiledRequestsRender(definition: PlanDefinition, scenario: seq<ScenarioStep>, count: nat,
                               p: Program, d: Data, inputs: seq<IterationInput>)
    requires Unbound(scenario, count) && Compiles(definition, scenario, count, d.vars.runtime.Keys, p)
    requires NoForeignEntry(p.steps, p.entry) && NestedKeysDistinct(p.steps)
    requires Sound(p) && |d.results| == p.assertionCount
    requires Active(RunAll(p, StartWorld(p, d), inputs))
    requires IsRequest(p, RunAll(p, StartWorld(p, d), inputs).status.control.pc)
    requires var w := RunAll(p, StartWorld(p, d), inputs);
             forall name | name in RequestAt(p, w.status.control.pc).templateNames :: name !in w.history.failed
    ensures var w := RunAll(p, StartWorld(p, d), inputs);
            Renders(w.data.vars, RequestAt(p, w.status.control.pc).templateNames)
  {
    CompiledPlanFacts(definition, scenario, count, d.vars.runtime.Keys, p);
    AcceptedRequestRenders(p, d, inputs);
  }
}
