/** What it takes for a small plan of requests, branches, joins and loops,
    without assertions, to compile. */
module SimplePlans {
  import opened Walks
  import opened GraphSearch
  import opened ExecutionPlan
  import opened Scenario
  import opened Iteration
  import opened Freshness
  import opened TemplateRuns
  import opened PlanDefinition
  import opened PlanBinding
  import opened PlanCompiler

  // ----- ids

  predicate Plain(s: string) {
    forall i | 0 <= i < |s| :: '!' <= s[i] <= '~'
  }

  lemma {:induction false} PlainLength(s: string)
    requires Plain(s)
    ensures ByteLength(s) == |s|
  {
    if s != [] {
      PlainLength(s[1..]);
    }
  }

  lemma PlainIsValid(s: string)
    requires Plain(s) && 1 <= |s| <= 16
    ensures ValidPlanID(s) && TrimSpace(s) == s && ValidText(s, MAX_NAME_BYTES)
  {
    PlainLength(s);
    assert !IsSpace(s[0]) && !IsSpace(s[|s| - 1]);
  }

  // ----- the bound on transitions

  ghost predicate ShortLoops(steps: seq<Step>) {
    |steps| <= 7 && forall l: nat | IsLoop(steps, l) :: steps[l].maxIterations <= 2
  }

  lemma RegionIsSmall(steps: seq<Step>, l: nat)
    requires IsLoop(steps, l)
    ensures |BodyRegion(steps, l)| <= |steps|
  {
    var all := Nodes(|steps|);
    SizeBelow(|steps|);
    assert BodyRegion(steps, l) <= all;
    SubsetSize(BodyRegion(steps, l), all);
  }

  lemma {:induction false} CostIsSmall(steps: seq<Step>, s: set<nat>, n: nat)
    requires ShortLoops(steps) && n <= |steps|
    ensures CostWithin(steps, s, n) <= 17 * n
  {
    if n > 0 {
      CostIsSmall(steps, s, n - 1);
      if IsLoop(steps, n - 1) {
        RegionIsSmall(steps, n - 1);
        var l: nat := n - 1;
        assert steps[l].maxIterations * (|BodyRegion(steps, l)| + 1) <= 2 * (|BodyRegion(steps, l)| + 1);
      }
    }
  }

  // ----- compilation

  ghost predicate OnlyRequests(scenario: seq<ScenarioStep>) {
    forall s | 0 <= s < |scenario| :: scenario[s].RequestKind? && scenario[s].request.assertions == []
  }

  lemma {:induction false} NothingJudged(q: Program, definitions: seq<StepDefinition>, index: Index, r: nat, n: nat)
    requires Sound(q) && |definitions| == |q.steps| && IsRequest(q, r) && OnlyRequests(q.scenario)
    ensures Judged(q, definitions, index, r, n) == []
  {
    if n > 0 {
      NothingJudged(q, definitions, index, r, n - 1);
    }
  }

  lemma NothingBound(q: Program, definitions: seq<StepDefinition>, index: Index)
    requires Sound(q) && |definitions| == |q.steps| && OnlyRequests(q.scenario)
    ensures BoundThrough(q, definitions, index, q.scenario, |q.steps|)
  {
    forall x: nat | x < |q.steps| && q.steps[x].Scenario?
      ensures q.scenario[q.steps[x].scenarioIndex] == BoundStep(q, definitions, index, x, |q.steps|)
    {
      NothingJudged(q, definitions, index, x, |q.steps|);
    }
  }

  lemma SimplePlanAccepted(definition: PlanDefinition, scenario: seq<ScenarioStep>, runtimeNames: set<string>,
                           index: Index, byID: Index, entry: nat, steps: seq<Step>)
    requires OnlyRequests(scenario) && ResolvesTo(definition, scenario, index, byID, entry, steps)
    requires WellStructured(steps, entry) && ShortLoops(steps)
    requires Sound(Draft(entry, steps, scenario, 0)) && TemplatesCovered(Draft(entry, steps, scenario, 0), runtimeNames)
    ensures Unbound(scenario, 0)
    ensures AcceptedAs(definition, scenario, 0, runtimeNames, index, byID, entry, steps)
  {
    CostIsSmall(steps, Nodes(|steps|), |steps|);
  }

  /** A resolved, well-structured plan of requests compiles. */
  lemma SimplePlanCompiles(definition: PlanDefinition, scenario: seq<ScenarioStep>, runtimeNames: set<string>,
                           index: Index, byID: Index, entry: nat, steps: seq<Step>)
    requires OnlyRequests(scenario) && ResolvesTo(definition, scenario, index, byID, entry, steps)
    requires WellStructured(steps, entry) && ShortLoops(steps)
    requires Sound(Draft(entry, steps, scenario, 0)) && TemplatesCovered(Draft(entry, steps, scenario, 0), runtimeNames)
    ensures Unbound(scenario, 0)
    ensures Compiles(definition, scenario, 0, runtimeNames,
                     Program(entry, steps, TransitionBound(steps), scenario, 0))
  {
    SimplePlanAccepted(definition, scenario, runtimeNames, index, byID, entry, steps);
    NothingBound(Draft(entry, steps, scenario, 0), definition.steps, index);
  }

  // ----- resolution of single steps

  /** A branch with two routes of weight 1. */
  lemma TwoRoutesCompile(steps: seq<StepDefinition>, i: nat, index: Index, byID: Index)
    requires i < |steps| && forall id | id in index :: index[id] < |steps|
    requires steps[i].kind == BranchKind && |steps[i].routes| == 2
    requires TargetExists(steps[i].joinStepID, index) && steps[index[steps[i].joinStepID]].kind == JoinKind
    requires steps[i].routes[0].id != steps[i].routes[1].id
    requires forall k | 0 <= k < 2 ::
               && Plain(steps[i].routes[k].id) && 1 <= |steps[i].routes[k].id| <= 16
               && steps[i].routes[k].name == steps[i].routes[k].id && steps[i].routes[k].weight == 1
    requires TargetExists(steps[i].routes[0].targetStepID, index)
             && TargetExists(steps[i].routes[1].targetStepID, index)
    ensures DefinitionAccepted(steps, i, index, byID)
    ensures var r0, r1, first := steps[i].routes[0], steps[i].routes[1], RoutesBefore(steps, i);
            CompiledStep(steps, i, index, byID)
            == Branch(steps[i].id,
                      [Route(r0.id, r0.id, index[r0.targetStepID], 1, first, ScopeKey(steps[i].id, r0.id)),
                       Route(r1.id, r1.id, index[r1.targetStepID], 1, first + 1, ScopeKey(steps[i].id, r1.id))],
                      2, index[steps[i].joinStepID])
  {
    var d := steps[i];
    forall k: nat | k < 2
      ensures RouteAccepted(d.routes, k, index) && RouteName(d.routes[k]) == d.routes[k].id
    {
      PlainIsValid(d.routes[k].id);
    }
    var first := RoutesBefore(steps, i);
    var one := CompiledRoutes(d, 1, index, first);
    assert CompiledRoutes(d, 0, index, first) == [];
    assert one == [Route(d.routes[0].id, d.routes[0].id, index[d.routes[0].targetStepID], 1, first,
                         ScopeKey(d.id, d.routes[0].id))];
    var two := CompiledRoutes(d, 2, index, first);
    assert two[..1] == one && one[..0] == [];
    assert TotalRouteWeight(one) == TotalRouteWeight([]) + 1 == 1;
    assert TotalRouteWeight(two) == 2;
  }
}
