/** The plan compiler as a whole: it accepts exactly the plans that meet the
    declarative conditions, and what it builds meets every premise of the
    run-time theorems except the two that it does not check. */
module PlanCompiler {
  import opened Walks
  import opened ExecutionPlan
  import opened Scenario
  import opened GraphSearch
  import opened Dominators
  import opened Iteration
  import opened TemplateRuns
  import opened PlanDefinition
  import opened PlanChecks
  import opened PlanBinding

  datatype CompileError =
    | ResolveFailed(resolve: ResolveError)
    | CheckFailed(check: CheckError)
    | AssertionUnbound
    | TemplateUndefined
    | TooManyTransitions(bound: nat)

  datatype Result<+T> = Success(value: T) | Failure(error: CompileError)

  // ----- what is accepted

  ghost predicate ScenarioIndexed(scenario: seq<ScenarioStep>, byID: Index) {
    && (forall id | id in byID :: byID[id] < |scenario| && scenario[byID[id]].id == id)
    && (forall i | 0 <= i < |scenario| :: scenario[i].id in byID && byID[scenario[i].id] == i)
  }

  ghost predicate Planned(steps: seq<Step>, s: nat) {
    exists i: nat :: i < |steps| && steps[i].Scenario? && steps[i].scenarioIndex == s
  }

  /** Scenario steps of the plan and steps of the scenario correspond. */
  ghost predicate CoversScenario(steps: seq<Step>, scenario: seq<ScenarioStep>) {
    PlannedOnce(steps, scenario) && forall s: nat | s < |scenario| :: Planned(steps, s)
  }

  /** The definitions resolve to these steps. */
  ghost predicate ResolvesTo(definition: PlanDefinition, scenario: seq<ScenarioStep>, index: Index, byID: Index,
                             entry: nat, steps: seq<Step>)
  {
    && definition.schemaVersion == PLAN_SCHEMA_VERSION
    && 1 <= |definition.steps| <= MAX_EXECUTION_PLAN_STEPS
    && IdsAccepted(definition.steps, |definition.steps|) && Indexes(definition.steps, index, |definition.steps|)
    && ScenarioIndexed(scenario, byID)
    && TargetExists(definition.entryStepID, index) && entry == index[definition.entryStepID]
    && |steps| == |definition.steps|
    && (forall i: nat | i < |steps| ::
          DefinitionAccepted(definition.steps, i, index, byID)
          && steps[i] == CompiledStep(definition.steps, i, index, byID))
    && Resolved(steps) && CoversScenario(steps, scenario)
    && steps[entry].Scenario? && scenario[steps[entry].scenarioIndex].RequestKind?
  }

  /** The plan before assertions are bound. */
  function Draft(entry: nat, steps: seq<Step>, scenario: seq<ScenarioStep>, count: nat): Program {
    Program(entry, steps, 0, scenario, count)
  }

  lemma DraftIsSound(entry: nat, steps: seq<Step>, scenario: seq<ScenarioStep>, count: nat)
    requires Resolved(steps) && entry < |steps| && PlannedOnce(steps, scenario) && Unbound(scenario, count)
    ensures Sound(Draft(entry, steps, scenario, count))
  {
  }

  /** Every condition that the compiler puts on a resolved plan. */
  ghost predicate PlanAccepted(definition: PlanDefinition, scenario: seq<ScenarioStep>, count: nat,
                               runtimeNames: set<string>, index: Index, entry: nat, steps: seq<Step>)
    requires Resolved(steps) && entry < |steps| && PlannedOnce(steps, scenario) && Unbound(scenario, count)
    requires |definition.steps| == |steps|
  {
    DraftIsSound(entry, steps, scenario, count);
    var p := Draft(entry, steps, scenario, count);
    && AllReachable(steps, entry)
    && LoopsBounded(steps)
    && BranchesStructured(steps)
    && AssertionsAccepted(p, definition.steps, index, |steps|)
    && TemplatesCovered(p, runtimeNames)
    && TransitionBound(steps) <= MAX_EXECUTION_TRANSITIONS
  }

  ghost predicate AcceptedAs(definition: PlanDefinition, scenario: seq<ScenarioStep>, count: nat,
                             runtimeNames: set<string>, index: Index, byID: Index, entry: nat, steps: seq<Step>)
    requires Unbound(scenario, count)
  {
    ResolvesTo(definition, scenario, index, byID, entry, steps)
    && PlanAccepted(definition, scenario, count, runtimeNames, index, entry, steps)
  }

  ghost predicate Acceptable(definition: PlanDefinition, scenario: seq<ScenarioStep>, count: nat,
                             runtimeNames: set<string>)
    requires Unbound(scenario, count)
  {
    exists index, byID, entry: nat, steps ::
      AcceptedAs(definition, scenario, count, runtimeNames, index, byID, entry, steps)
  }

  lemma IndexUnique(steps: seq<StepDefinition>, left: Index, right: Index)
    requires Indexes(steps, left, |steps|) && Indexes(steps, right, |steps|)
    ensures left == right
  {
    forall id
      ensures id in left <==> id in right
    {
    }
  }

  lemma ScenarioIndexUnique(scenario: seq<ScenarioStep>, left: Index, right: Index)
    requires ScenarioIndexed(scenario, left) && ScenarioIndexed(scenario, right)
    ensures left == right
  {
    forall id
      ensures id in left <==> id in right
    {
    }
  }

  /** A definition resolves in one way at most. */
  lemma ResolutionUnique(definition: PlanDefinition, scenario: seq<ScenarioStep>,
                         index: Index, byID: Index, entry: nat, steps: seq<Step>,
                         index': Index, byID': Index, entry': nat, steps': seq<Step>)
    requires ResolvesTo(definition, scenario, index, byID, entry, steps)
    requires ResolvesTo(definition, scenario, index', byID', entry', steps')
    ensures index == index' && byID == byID' && entry == entry' && steps == steps'
  {
    IndexUnique(definition.steps, index, index');
    ScenarioIndexUnique(scenario, byID, byID');
  }

  // ----- the pieces of the compiler

  method IndexScenario(scenario: seq<ScenarioStep>) returns (byID: Index)
    requires ScenarioIDsDistinct(scenario)
    ensures ScenarioIndexed(scenario, byID)
  {
    byID := map[];
    for i := 0 to |scenario|
      invariant forall id | id in byID :: byID[id] < i && scenario[byID[id]].id == id
      invariant forall j | 0 <= j < i :: scenario[j].id in byID && byID[scenario[j].id] == j
    {
      byID := byID[scenario[i].id := i];
    }
  }

  lemma CompiledScenario(steps: seq<StepDefinition>, index: Index, byID: Index, compiled: seq<Step>, i: nat)
    requires Indexes(steps, index, |steps|) && |compiled| == |steps| && i < |steps|
    requires DefinitionAccepted(steps, i, index, byID) && compiled[i] == CompiledStep(steps, i, index, byID)
    ensures compiled[i].Scenario? ==> steps[i].id in byID && compiled[i].scenarioIndex == byID[steps[i].id]
  {
  }

  lemma IdsPlanOnce(steps: seq<StepDefinition>, index: Index, scenario: seq<ScenarioStep>, byID: Index,
                    compiled: seq<Step>)
    requires IdsAccepted(steps, |steps|) && Indexes(steps, index, |steps|)
    requires ScenarioIndexed(scenario, byID) && |compiled| == |steps|
    requires forall i: nat | i < |steps| :: DefinitionAccepted(steps, i, index, byID)
                                            && compiled[i] == CompiledStep(steps, i, index, byID)
    ensures PlannedOnce(compiled, scenario)
  {
    forall i: nat | i < |compiled|
      ensures compiled[i].Scenario? ==> steps[i].id in byID && compiled[i].scenarioIndex == byID[steps[i].id]
    {
      CompiledScenario(steps, index, byID, compiled, i);
    }
  }

  /** Count the scenario steps of the plan: because ids are distinct, equal
      counts mean that every scenario step is there. */
  method CheckCoverage(scenario: seq<ScenarioStep>, compiled: seq<Step>) returns (ok: bool)
    requires PlannedOnce(compiled, scenario)
    ensures ok <==> CoversScenario(compiled, scenario)
  {
    var used: set<nat> := {};
    for i := 0 to |compiled|
      invariant forall s | s in used :: Planned(compiled, s)
      invariant forall j: nat | j < i && compiled[j].Scenario? :: compiled[j].scenarioIndex in used
    {
      if compiled[i].Scenario? {
        assert Planned(compiled, compiled[i].scenarioIndex);
        used := used + {compiled[i].scenarioIndex};
      }
    }
    CoverageByCount(compiled, scenario, used);
    return |used| == |scenario|;
  }

  lemma CoverageByCount(compiled: seq<Step>, scenario: seq<ScenarioStep>, used: set<nat>)
    requires PlannedOnce(compiled, scenario)
    requires forall s: nat :: s in used <==> Planned(compiled, s)
    ensures |used| == |scenario| <==> CoversScenario(compiled, scenario)
  {
    var all := Nodes(|scenario|);
    SizeBelow(|scenario|);
    forall s | s in used
      ensures s in all
    {
      assert Planned(compiled, s);
    }
    SubsetSize(used, all);
    if |used| == |scenario| {
      forall s: nat | s < |scenario|
        ensures Planned(compiled, s)
      {
        assert s in all && used == all;
      }
    }
    if CoversScenario(compiled, scenario) {
      forall s | s in all
        ensures s in used
      {
        assert Planned(compiled, s);
      }
    }
  }

  method ResolvePlan(definition: PlanDefinition, scenario: seq<ScenarioStep>)
    returns (result: Result<(Index, nat, seq<Step>)>, ghost byID: Index)
    requires ScenarioIDsDistinct(scenario)
    ensures result.Success? ==>
              ResolvesTo(definition, scenario, result.value.0, byID, result.value.1, result.value.2)
    ensures result.Failure? ==>
              forall index, ids, entry: nat, steps :: !ResolvesTo(definition, scenario, index, ids, entry, steps)
  {
    var scenarioByID := IndexScenario(scenario);
    byID := scenarioByID;
    if definition.schemaVersion != PLAN_SCHEMA_VERSION {
      return Failure(ResolveFailed(UnsupportedSchema)), byID;
    }
    if |definition.steps| == 0 || |definition.steps| > MAX_EXECUTION_PLAN_STEPS {
      return Failure(ResolveFailed(WrongStepCount)), byID;
    }
    var ok, index := IndexSteps(definition.steps);
    if !ok {
      return Failure(ResolveFailed(InvalidStepID(0))), byID;
    }
    forall other | Indexes(definition.steps, other, |definition.steps|)
      ensures other == index
    {
      IndexUnique(definition.steps, index, other);
    }
    forall other | ScenarioIndexed(scenario, other)
      ensures other == scenarioByID
    {
      ScenarioIndexUnique(scenario, scenarioByID, other);
    }
    if !TargetExists(definition.entryStepID, index) {
      return Failure(ResolveFailed(UnknownEntry)), byID;
    }
    var entry := index[definition.entryStepID];
    var compiled, routeCount;
    ok, compiled, routeCount := CompileSteps(definition.steps, index, scenarioByID);
    if !ok {
      return Failure(ResolveFailed(InvalidStep(0))), byID;
    }
    forall steps | |steps| == |compiled|
      && forall i: nat | i < |steps| :: steps[i] == CompiledStep(definition.steps, i, index, scenarioByID)
      ensures steps == compiled
    {
    }
    IdsPlanOnce(definition.steps, index, scenario, scenarioByID, compiled);
    ok := CheckCoverage(scenario, compiled);
    if !ok {
      return Failure(ResolveFailed(ScenarioCoverage)), byID;
    }
    if !compiled[entry].Scenario? || !scenario[compiled[entry].scenarioIndex].RequestKind? {
      return Failure(ResolveFailed(EntryNotRequest)), byID;
    }
    return Success((index, entry, compiled)), byID;
  }

  /** The bound: one for each step, and for each loop its iterations times the
      size of its body plus one. */
  method ComputeBound(steps: seq<Step>, loopBodies: map<nat, nat>) returns (maximum: nat)
    requires Resolved(steps) && BodySizes(steps, loopBodies, |steps|)
    ensures maximum == TransitionBound(steps)
  {
    maximum := |steps|;
    for l := 0 to |steps|
      invariant maximum == CostWithin(steps, Nodes(|steps|), l) + (|steps| - l)
    {
      assert l in Nodes(|steps|);
      if l in loopBodies {
        maximum := maximum + steps[l].maxIterations * (loopBodies[l] + 1);
      }
    }
  }

  method CheckGraph(entry: nat, steps: seq<Step>) returns (result: Result<(nat, Rows)>)
    requires Resolved(steps) && entry < |steps|
    ensures result.Success? <==> AllReachable(steps, entry) && LoopsBounded(steps) && BranchesStructured(steps)
    ensures result.Success? ==> result.value.0 == TransitionBound(steps)
    ensures result.Success? ==>
              Shaped(result.value.1, |steps|, (|steps| + 63) / 64)
              && forall v: nat, d: nat | v < |steps| && d < |steps| ::
                   Bitset.HasBit(result.value.1[v], d) <==> Dominates(Full(steps), entry, d, v)
  {
    GraphsWellFormed(steps);
    var adjacency := ExecutionAdjacency(steps, false);
    var predecessors := ExecutionPredecessors(adjacency);
    var unreachable := FirstUnreachable(entry, adjacency);
    if unreachable >= 0 {
      return Failure(CheckFailed(UnreachableStep(unreachable)));
    }
    var loopVerdict, loopBodies, acyclic := ValidateBoundedExecutionLoops(steps);
    if loopVerdict.Failed? {
      return Failure(CheckFailed(loopVerdict.error));
    }
    var branchVerdict := ValidateStructuredBranches(steps, acyclic);
    if branchVerdict.Failed? {
      return Failure(CheckFailed(branchVerdict.error));
    }
    var dominators := ExecutionDominators(entry, predecessors, adjacency);
    var maximum := ComputeBound(steps, loopBodies);
    return Success((maximum, dominators));
  }

  /** What a successful compilation hands to the run time. */
  ghost predicate Compiles(definition: PlanDefinition, scenario: seq<ScenarioStep>, count: nat,
                           runtimeNames: set<string>, p: Program)
    requires Unbound(scenario, count)
  {
    exists index, byID ::
      && AcceptedAs(definition, scenario, count, runtimeNames, index, byID, p.entry, p.steps)
      && p.maxTransitions == TransitionBound(p.steps) && p.assertionCount == count
      && (DraftIsSound(p.entry, p.steps, scenario, count);
          BoundThrough(Draft(p.entry, p.steps, scenario, count), definition.steps, index, p.scenario, |p.steps|))
  }

  lemma StartUnbound(p: Program, definitions: seq<StepDefinition>, index: Index)
    requires Sound(p) && |definitions| == |p.steps| && Unbound(p.scenario, p.assertionCount)
    ensures BoundThrough(p, definitions, index, p.scenario, 0)
  {
    forall x: nat | x < |p.steps| && p.steps[x].Scenario?
      ensures p.scenario[p.steps[x].scenarioIndex] == BoundStep(p, definitions, index, x, 0)
    {
    }
  }

  /** The checks on a resolved plan, in the order of the compiler. */
  method CheckPlan(definition: PlanDefinition, scenario: seq<ScenarioStep>, count: nat, runtimeNames: set<string>,
                   index: Index, entry: nat, steps: seq<Step>)
    returns (result: Result<Program>)
    requires Resolved(steps) && entry < |steps| && PlannedOnce(steps, scenario) && Unbound(scenario, count)
    requires |definition.steps| == |steps| && Indexes(definition.steps, index, |steps|)
    ensures result.Success? <==> PlanAccepted(definition, scenario, count, runtimeNames, index, entry, steps)
    ensures result.Success? ==>
              var p := result.value;
              && p.entry == entry && p.steps == steps
              && p.maxTransitions == TransitionBound(steps) && p.assertionCount == count
              && (DraftIsSound(entry, steps, scenario, count);
                  BoundThrough(Draft(entry, steps, scenario, count), definition.steps, index, p.scenario, |steps|))
  {
    DraftIsSound(entry, steps, scenario, count);
    var draft := Draft(entry, steps, scenario, count);
    var checked := CheckGraph(entry, steps);
    if checked.Failure? {
      return Failure(checked.error);
    }
    var (maximum, dominators) := checked.value;
    var cells := new ScenarioStep[|scenario|](i requires 0 <= i < |scenario| => scenario[i]);
    assert cells[..] == scenario;
    StartUnbound(draft, definition.steps, index);
    var bound := AttachPlannedAssertions(draft, cells, definition.steps, index, dominators);
    if !bound {
      return Failure(AssertionUnbound);
    }
    var covered := ValidatePlannedTemplates(draft, runtimeNames, dominators);
    if !covered {
      return Failure(TemplateUndefined);
    }
    if maximum > MAX_EXECUTION_TRANSITIONS {
      return Failure(TooManyTransitions(maximum));
    }
    return Success(Program(entry, steps, maximum, cells[..], count));
  }

  method CompileExecutionPlan(definition: PlanDefinition, scenario: seq<ScenarioStep>, count: nat,
                              runtimeNames: set<string>)
    returns (result: Result<Program>)
    requires Unbound(scenario, count) && ScenarioIDsDistinct(scenario)
    ensures result.Success? <==> Acceptable(definition, scenario, count, runtimeNames)
    ensures result.Success? ==> Compiles(definition, scenario, count, runtimeNames, result.value)
  {
    var resolved, byID := ResolvePlan(definition, scenario);
    if resolved.Failure? {
      return Failure(resolved.error);
    }
    var (index, entry, steps) := resolved.value;
    result := CheckPlan(definition, scenario, count, runtimeNames, index, entry, steps);
    if Acceptable(definition, scenario, count, runtimeNames) {
      AcceptableHere(definition, scenario, count, runtimeNames, index, byID, entry, steps);
    }
    if result.Success? {
      assert AcceptedAs(definition, scenario, count, runtimeNames, index, byID, entry, steps);
    }
  }

  lemma AcceptableHere(definition: PlanDefinition, scenario: seq<ScenarioStep>, count: nat,
                       runtimeNames: set<string>, index: Index, byID: Index, entry: nat, steps: seq<Step>)
    requires Unbound(scenario, count)
    requires ResolvesTo(definition, scenario, index, byID, entry, steps)
    requires Acceptable(definition, scenario, count, runtimeNames)
    ensures PlanAccepted(definition, scenario, count, runtimeNames, index, entry, steps)
  {
    var index', byID', entry': nat, steps' :|
      AcceptedAs(definition, scenario, count, runtimeNames, index', byID', entry', steps');
    ResolutionUnique(definition, scenario, index, byID, entry, steps, index', byID', entry', steps');
  }
}
