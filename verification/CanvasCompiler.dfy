/** From the canvas to the compiled plan: which of the emitted plans the plan
    compiler accepts. */
module CanvasCompiler {
  import opened ExecutionPlan
  import opened Scenario
  import opened Iteration
  import opened Freshness
  import opened TemplateRuns
  import opened PlanDefinition
  import opened PlanBinding
  import opened PlanCompiler
  import opened CanvasGraph
  import opened CanvasPlan
  import opened CanvasChecks
  import opened FrontEnd
  import opened DrawnPlan
  import opened FrontEndAgreement

  // ----- the scenario of a canvas

  predicate InScenario(kind: NodeKind) {
    kind.RequestNode? || kind.AssertionNode? || kind.DelayNode?
  }

  predicate StepIsOf(step: ScenarioStep, node: Node) {
    && step.id == node.id
    && (step.RequestKind? <==> node.kind.RequestNode?)
    && (step.AssertKind? <==> node.kind.AssertionNode?)
    && (step.DelayKind? <==> node.kind.DelayNode?)
  }

  ghost predicate NodeHasStep(c: Canvas, scenario: seq<ScenarioStep>, v: nat) {
    v < |c.nodes| && exists s: nat :: s < |scenario| && StepIsOf(scenario[s], c.nodes[v])
  }

  ghost predicate StepHasNode(c: Canvas, order: seq<nat>, step: ScenarioStep) {
    exists v: nat :: v in order && v < |c.nodes| && StepIsOf(step, c.nodes[v])
  }

  /** The steps of the scenario are those of the requests, assertions and
      delays in the order. */
  ghost predicate Scripted(c: Canvas, order: seq<nat>, scenario: seq<ScenarioStep>) {
    && (forall v: nat | v in order && v < |c.nodes| && InScenario(c.nodes[v].kind) :: NodeHasStep(c, scenario, v))
    && (forall s | 0 <= s < |scenario| :: StepHasNode(c, order, scenario[s]))
  }

  // ----- the limits of the compiler

  /** What only the compiler checks about a node. */
  predicate NodeFits(c: Canvas, v: nat)
    requires HasTargets(c, v)
  {
    && ValidPlanID(c.nodes[v].id)
    && (c.nodes[v].kind.BranchNode? ==>
          && |c.outgoing[v]| <= MAX_BRANCH_ROUTES
          && forall k | 0 <= k < |c.outgoing[v]| :: ValidText(RouteName(EmittedRoutes(c, v)[k]), MAX_NAME_BYTES))
  }

  ghost predicate Fits(c: Canvas, order: seq<nat>) {
    |order| <= MAX_EXECUTION_PLAN_STEPS && forall v: nat | v in order :: HasTargets(c, v) && NodeFits(c, v)
  }

  /** An accepted canvas, the plan that is emitted for it, and its scenario. */
  datatype Delivery = Delivery(c: Canvas, entry: nat, engine: nat, order: seq<nat>, requests: map<nat, nat>,
                               definition: PlanDefinition, scenario: seq<ScenarioStep>, count: nat)

  ghost predicate Delivers(d: Delivery) {
    && GraphAccepted(d.c, d.entry, d.engine) && ExecutionOrder(d.c, d.entry, d.engine, d.order)
    && EmitsPlan(d.c, d.order, d.requests, d.definition)
    && (forall a: nat | a in d.order && Kind(d.c, a, AssertionNode) ::
          a in d.requests && UniqueRequest(d.c, d.requests[a], a))
    && Scripted(d.c, d.order, d.scenario) && ScenarioIDsDistinct(d.scenario) && Unbound(d.scenario, d.count)
  }

  function EmissionOf(d: Delivery, index: Index, byID: Index, steps: seq<Step>): Emission {
    Emission(d.c, d.entry, d.engine, d.order, d.requests, d.definition, index, byID, steps)
  }

  // ----- a delivery resolves exactly when it fits

  /** The compiler resolves the emitted plan. */
  ghost predicate DeliveryResolves(d: Delivery, index: Index, byID: Index, steps: seq<Step>) {
    ResolvesTo(d.definition, d.scenario, index, byID, 0, steps)
  }

  lemma ResolvedDelivery(d: Delivery, index: Index, byID: Index, steps: seq<Step>)
    requires Delivers(d) && DeliveryResolves(d, index, byID, steps)
    ensures Resolves(EmissionOf(d, index, byID, steps)) && Fits(d.c, d.order)
  {
    var e := EmissionOf(d, index, byID, steps);
    assert Emits(e) && Resolves(e);
    forall v: nat | v in d.order
      ensures HasTargets(d.c, v) && NodeFits(d.c, v)
    {
      var i: nat :| i < |d.order| && d.order[i] == v;
      NodeOf(e, i);
      IndexOf(e, v);
      DefinitionResolves(e, i);
      assert DefinitionAccepted(d.definition.steps, i, index, byID);
    }
  }

  ghost predicate Numbers(d: Delivery, index: Index, byID: Index) {
    && |d.definition.steps| == |d.order|
    && IdsAccepted(d.definition.steps, |d.order|) && Indexes(d.definition.steps, index, |d.order|)
    && ScenarioIndexed(d.scenario, byID)
  }

  lemma EmittedIds(d: Delivery, i: nat)
    requires Delivers(d) && i < |d.order|
    ensures |d.definition.steps| == |d.order| && d.order[i] < |d.c.nodes|
    ensures d.definition.steps[i].id == d.c.nodes[d.order[i]].id
  {
  }

  lemma {:induction false} NumberSteps(steps: seq<StepDefinition>, n: nat) returns (index: Index)
    requires n <= |steps| && forall i, j | 0 <= i < j < n :: steps[i].id != steps[j].id
    ensures Indexes(steps, index, n)
  {
    if n == 0 {
      index := map[];
    } else {
      var before := NumberSteps(steps, n - 1);
      index := before[steps[n - 1].id := n - 1];
    }
  }

  lemma {:induction false} NumberScenario(scenario: seq<ScenarioStep>) returns (byID: Index)
    requires ScenarioIDsDistinct(scenario)
    ensures ScenarioIndexed(scenario, byID)
  {
    if scenario == [] {
      byID := map[];
    } else {
      var last := |scenario| - 1;
      var before := NumberScenario(scenario[..last]);
      byID := before[scenario[last].id := last];
      forall i | 0 <= i < last
        ensures scenario[i].id in byID && byID[scenario[i].id] == i
      {
        assert scenario[..last][i] == scenario[i];
      }
      forall id | id in before
        ensures before[id] < last && scenario[before[id]].id == id
      {
        assert scenario[..last][before[id]] == scenario[before[id]];
      }
    }
  }

  lemma FittingIds(d: Delivery) returns (index: Index, byID: Index)
    requires Delivers(d) && Fits(d.c, d.order)
    ensures Numbers(d, index, byID)
  {
    forall i, j | 0 <= i < j < |d.order|
      ensures |d.definition.steps| == |d.order| && d.definition.steps[i].id != d.definition.steps[j].id
    {
      EmittedIds(d, i);
      EmittedIds(d, j);
      assert d.order[i] != d.order[j];
    }
    forall i: nat | i < |d.order|
      ensures |d.definition.steps| == |d.order| && ValidPlanID(d.definition.steps[i].id)
    {
      EmittedIds(d, i);
      assert d.order[i] in d.order;
    }
    hide Delivers, Fits, NodeFits, ValidPlanID, Scripted, GraphAccepted;
    byID := ScenarioNumbers(d);
    index := NumberSteps(d.definition.steps, |d.order|);
  }

  lemma ScenarioNumbers(d: Delivery) returns (byID: Index)
    requires Delivers(d)
    ensures ScenarioIndexed(d.scenario, byID) && |d.definition.steps| == |d.order|
  {
    byID := NumberScenario(d.scenario);
  }

  // ----- a delivery that fits resolves

  lemma NumbersEmit(d: Delivery, index: Index, byID: Index, steps: seq<Step>)
    requires Delivers(d) && Fits(d.c, d.order) && Numbers(d, index, byID)
    ensures Emits(EmissionOf(d, index, byID, steps))
  {
  }

  lemma NodeWithinLimits(d: Delivery, index: Index, byID: Index, v: nat)
    requires Delivers(d) && Fits(d.c, d.order) && Numbers(d, index, byID) && v in d.order
    requires HasTargets(d.c, v) && Executable(d.c.nodes[v].kind)
    ensures WithinLimits(EmissionOf(d, index, byID, []), v)
  {
    hide GraphAccepted, ExecutionOrder, EmitsPlan, IdsAccepted, Indexes, ValidText, RouteName;
    assert NodeFits(d.c, v);
    if InScenario(d.c.nodes[v].kind) {
      assert NodeHasStep(d.c, d.scenario, v);
      var s: nat :| s < |d.scenario| && StepIsOf(d.scenario[s], d.c.nodes[v]);
      assert d.scenario[s].id in byID;
    }
  }

  lemma NodeIsExecutable(e: Emission, i: nat)
    requires Emits(e) && i < |e.order|
    ensures e.order[i] in e.order && HasTargets(e.c, e.order[i]) && Executable(e.c.nodes[e.order[i]].kind)
  {
    NodeOf(e, i);
  }

  lemma StepFits(d: Delivery, index: Index, byID: Index, i: nat)
    requires Delivers(d) && Fits(d.c, d.order) && Numbers(d, index, byID) && i < |d.order|
    ensures DefinitionAccepted(d.definition.steps, i, index, byID)
  {
    hide Delivers, Fits, Emits, WithinLimits, DefinitionAccepted;
    var e := EmissionOf(d, index, byID, []);
    NumbersEmit(d, index, byID, []);
    NodeIsExecutable(e, i);
    NodeWithinLimits(d, index, byID, d.order[i]);
    DefinitionResolves(e, i);
  }

  lemma CompiledSteps(d: Delivery, index: Index, byID: Index) returns (steps: seq<Step>)
    requires Delivers(d) && Fits(d.c, d.order) && Numbers(d, index, byID)
    ensures Resolves(EmissionOf(d, index, byID, steps))
  {
    hide Delivers, Fits, Emits, DefinitionAccepted, CompiledStep;
    forall i: nat | i < |d.order|
      ensures DefinitionAccepted(d.definition.steps, i, index, byID)
    {
      StepFits(d, index, byID, i);
    }
    steps := seq(|d.order|, i requires 0 <= i < |d.order| => CompiledStep(d.definition.steps, i, index, byID));
    NumbersEmit(d, index, byID, steps);
  }

  lemma {:induction false} EntryCompiles(d: Delivery, index: Index, byID: Index, steps: seq<Step>)
    requires Delivers(d) && Numbers(d, index, byID) && Resolves(EmissionOf(d, index, byID, steps))
    ensures TargetExists(d.definition.entryStepID, index) && index[d.definition.entryStepID] == 0
    ensures 0 < |steps| && steps[0].Scenario? && steps[0].scenarioIndex < |d.scenario|
    ensures d.scenario[steps[0].scenarioIndex].RequestKind?
  {
    var e := EmissionOf(d, index, byID, steps);
    NodeOf(e, 0);
    assert Kind(d.c, d.order[0], RequestNode) && d.order[0] in d.order;
    assert DefinitionAccepted(d.definition.steps, 0, index, byID);
    KindOfStep(d, index, byID, steps, 0);
  }

  /** A compiled scenario step is of the kind of its node. */
  lemma KindOfStep(d: Delivery, index: Index, byID: Index, steps: seq<Step>, i: nat)
    requires Delivers(d) && Numbers(d, index, byID) && Resolves(EmissionOf(d, index, byID, steps)) && i < |d.order|
    ensures d.order[i] < |d.c.nodes| && i < |steps|
    ensures steps[i].Scenario? <==> InScenario(d.c.nodes[d.order[i]].kind)
    ensures steps[i].Scenario? ==>
              && steps[i].scenarioIndex < |d.scenario|
              && StepIsOf(d.scenario[steps[i].scenarioIndex], d.c.nodes[d.order[i]])
  {
    var e, v := EmissionOf(d, index, byID, steps), d.order[i];
    NodeOf(e, i);
    assert DefinitionAccepted(d.definition.steps, i, index, byID);
    if steps[i].Scenario? {
      assert v in d.order && InScenario(d.c.nodes[v].kind);
      assert NodeHasStep(d.c, d.scenario, v);
      var s: nat :| s < |d.scenario| && StepIsOf(d.scenario[s], d.c.nodes[v]);
      assert byID[d.scenario[s].id] == s;
    }
  }

  lemma DeliveryCovers(d: Delivery, index: Index, byID: Index, steps: seq<Step>)
    requires Delivers(d) && Numbers(d, index, byID) && Resolves(EmissionOf(d, index, byID, steps))
    ensures CoversScenario(steps, d.scenario)
  {
    IdsPlanOnce(d.definition.steps, index, d.scenario, byID, steps);
    forall s: nat | s < |d.scenario|
      ensures Planned(steps, s)
    {
      assert StepHasNode(d.c, d.order, d.scenario[s]);
      var v: nat :| v in d.order && v < |d.c.nodes| && StepIsOf(d.scenario[s], d.c.nodes[v]);
      var i: nat :| i < |d.order| && d.order[i] == v;
      KindOfStep(d, index, byID, steps, i);
      assert d.scenario[steps[i].scenarioIndex].id == d.scenario[s].id;
      assert steps[i].scenarioIndex == s;
    }
  }

  lemma FittingResolves(d: Delivery) returns (index: Index, byID: Index, steps: seq<Step>)
    requires Delivers(d) && Fits(d.c, d.order)
    ensures DeliveryResolves(d, index, byID, steps)
  {
    index, byID := FittingIds(d);
    steps := CompiledSteps(d, index, byID);
    PlanResolved(EmissionOf(d, index, byID, steps));
    DeliveryCovers(d, index, byID, steps);
    EntryCompiles(d, index, byID, steps);
    assert d.definition.schemaVersion == PLAN_SCHEMA_VERSION;
  }

  lemma ResolvedNumbers(d: Delivery, index: Index, byID: Index, steps: seq<Step>)
    requires Delivers(d) && DeliveryResolves(d, index, byID, steps)
    ensures Numbers(d, index, byID) && 0 < |steps| == |d.order|
  {
  }

  // ----- which deliveries compile

  /** What is left to check of a plan that resolves. */
  ghost predicate PassesRest(d: Delivery, runtimeNames: set<string>, index: Index, byID: Index, steps: seq<Step>) {
    && DeliveryResolves(d, index, byID, steps)
    && Sound(Draft(0, steps, d.scenario, d.count))
    && TemplatesCovered(Draft(0, steps, d.scenario, d.count), runtimeNames)
    && TransitionBound(steps) <= MAX_EXECUTION_TRANSITIONS
  }

  ghost predicate Passes(d: Delivery, runtimeNames: set<string>) {
    exists index, byID, steps :: PassesRest(d, runtimeNames, index, byID, steps)
  }

  lemma DraftKindMatches(d: Delivery, index: Index, byID: Index, steps: seq<Step>, i: nat)
    requires Delivers(d) && Numbers(d, index, byID) && Resolves(EmissionOf(d, index, byID, steps)) && i < |d.order|
    requires Sound(Draft(0, steps, d.scenario, d.count))
    ensures var p := Draft(0, steps, d.scenario, d.count);
            && (IsRequest(p, i) <==> Kind(d.c, d.order[i], RequestNode))
            && (IsAssertion(p, i) <==> Kind(d.c, d.order[i], AssertionNode))
  {
    hide Delivers, Resolves, Numbers;
    KindOfStep(d, index, byID, steps, i);
  }

  lemma DraftKindsMatch(d: Delivery, index: Index, byID: Index, steps: seq<Step>)
    requires Delivers(d) && DeliveryResolves(d, index, byID, steps)
    requires Resolves(EmissionOf(d, index, byID, steps)) && Sound(Draft(0, steps, d.scenario, d.count))
    ensures KindsMatch(EmissionOf(d, index, byID, steps), Draft(0, steps, d.scenario, d.count))
  {
    ResolvedNumbers(d, index, byID, steps);
    forall i: nat | i < |d.order|
      ensures IsRequest(Draft(0, steps, d.scenario, d.count), i) <==> Kind(d.c, d.order[i], RequestNode)
      ensures IsAssertion(Draft(0, steps, d.scenario, d.count), i) <==> Kind(d.c, d.order[i], AssertionNode)
    {
      DraftKindMatches(d, index, byID, steps, i);
    }
  }

  lemma RequestsAreResolved(d: Delivery, index: Index, byID: Index, steps: seq<Step>)
    requires Delivers(d)
    ensures RequestsResolved(EmissionOf(d, index, byID, steps)) && Unbound(d.scenario, d.count)
  {
    hide GraphAccepted, ExecutionOrder, EmitsPlan, Scripted, Unbound, ScenarioIDsDistinct, UniqueRequest;
  }

  lemma ResolvedFacts(d: Delivery, index: Index, byID: Index, steps: seq<Step>)
    requires DeliveryResolves(d, index, byID, steps)
    ensures 0 < |steps| == |d.definition.steps| && Resolved(steps) && PlannedOnce(steps, d.scenario)
  {
    hide Resolved, PlannedOnce, IdsAccepted, Indexes, ScenarioIndexed, DefinitionAccepted, CompiledStep, Planned;
  }

  lemma ResolvedPasses(d: Delivery, runtimeNames: set<string>, index: Index, byID: Index, steps: seq<Step>)
    requires Delivers(d) && DeliveryResolves(d, index, byID, steps)
    ensures PassesRest(d, runtimeNames, index, byID, steps) <==>
            AcceptedAs(d.definition, d.scenario, d.count, runtimeNames, index, byID, 0, steps)
  {
    hide Delivers, Resolves, ResolvesTo, PlanAccepted, TemplatesCovered, KindsMatch, Resolved, PlannedOnce, Unbound;
    var e := EmissionOf(d, index, byID, steps);
    ResolvedFacts(d, index, byID, steps);
    RequestsAreResolved(d, index, byID, steps);
    ResolvedDelivery(d, index, byID, steps);
    DraftIsSound(0, steps, d.scenario, d.count);
    DraftKindsMatch(d, index, byID, steps);
    FrontEndPlanAccepted(e, d.scenario, d.count, runtimeNames);
  }

  lemma EntryIsFirst(d: Delivery, index: Index, byID: Index, entry: nat, steps: seq<Step>)
    requires Delivers(d) && ResolvesTo(d.definition, d.scenario, index, byID, entry, steps)
    ensures entry == 0
  {
    EmittedIds(d, 0);
  }

  /** An emitted plan compiles exactly when it fits the limits of the compiler
      and passes its checks on template names and transitions. */
  lemma DeliveryCompiles(d: Delivery, runtimeNames: set<string>)
    requires Delivers(d)
    ensures Acceptable(d.definition, d.scenario, d.count, runtimeNames) <==>
            Fits(d.c, d.order) && Passes(d, runtimeNames)
  {
    if Acceptable(d.definition, d.scenario, d.count, runtimeNames) {
      var index, byID, entry: nat, steps :|
        AcceptedAs(d.definition, d.scenario, d.count, runtimeNames, index, byID, entry, steps);
      EntryIsFirst(d, index, byID, entry, steps);
      ResolvedDelivery(d, index, byID, steps);
      ResolvedPasses(d, runtimeNames, index, byID, steps);
    }
    if Passes(d, runtimeNames) {
      var index, byID, steps :| PassesRest(d, runtimeNames, index, byID, steps);
      ResolvedPasses(d, runtimeNames, index, byID, steps);
    }
  }

  /** Within the limits every emitted plan resolves: only template names and
      the number of transitions can keep it from compiling. */
  lemma FittingCompiles(d: Delivery, runtimeNames: set<string>)
    requires Delivers(d) && Fits(d.c, d.order)
    ensures exists index, byID, steps :: DeliveryResolves(d, index, byID, steps)
    ensures forall index, byID, steps | DeliveryResolves(d, index, byID, steps) ::
              Acceptable(d.definition, d.scenario, d.count, runtimeNames) <==>
              PassesRest(d, runtimeNames, index, byID, steps)
  {
    var index', byID', steps' := FittingResolves(d);
    forall index, byID, steps | DeliveryResolves(d, index, byID, steps)
      ensures Acceptable(d.definition, d.scenario, d.count, runtimeNames) <==>
              PassesRest(d, runtimeNames, index, byID, steps)
    {
      ResolvedPasses(d, runtimeNames, index, byID, steps);
      if Acceptable(d.definition, d.scenario, d.count, runtimeNames) {
        AcceptableHere(d.definition, d.scenario, d.count, runtimeNames, index, byID, 0, steps);
      }
    }
  }

  /** From the canvas and its scenario to the compiled plan. */
  method CompileCanvas(c: Canvas, drafts: seq<StepDraft>, runtimeNames: set<string>)
    returns (emitted: bool, scripted: bool, compiled: bool, program: Program, ghost d: Delivery)
    requires Valid(c)
    ensures emitted <==> exists e: nat, g: nat, t: nat :: CanvasAccepted(c, e, g, t)
    ensures scripted <==> DraftsAccepted(drafts, runtimeNames)
    ensures compiled ==> emitted && scripted
    ensures emitted && scripted ==>
              && d.c == c && ExecutionOrder(c, d.entry, d.engine, d.order)
              && Numbered(drafts, d.scenario, |drafts|) && d.count == AssertionsBefore(drafts, |drafts|)
    ensures emitted && scripted && Scripted(c, d.order, d.scenario) ==>
              Delivers(d) && (compiled <==> Fits(c, d.order) && Passes(d, runtimeNames))
    ensures compiled ==>
              Unbound(d.scenario, d.count) && Compiles(d.definition, d.scenario, d.count, runtimeNames, program)
    ensures compiled ==> AsDrawn(c, d.order, program.steps)
  {
    hide CanvasAccepted, DraftsAccepted, Acceptable, Compiles, Fits, Passes, EmitsPlan, ExecutionOrder, AsDrawn;
    var definition, entry, engine, terminal, order, requests;
    emitted, definition, entry, engine, terminal, order, requests := CompileScenarioGraph(c);
    var scenario, count;
    scripted, scenario, count := CompilePlannedScenarioSteps(drafts, runtimeNames);
    compiled, program := false, Program(0, [], 0, scenario, count);
    d := Delivery(c, entry, engine, order, requests, definition, scenario, count);
    if !emitted || !scripted {
      return;
    }
    var result := CompileExecutionPlan(definition, scenario, count, runtimeNames);
    if Scripted(c, order, scenario) {
      AcceptedDelivers(d, terminal);
      DeliveryCompiles(d, runtimeNames);
    }
    if result.Success? {
      compiled, program := true, result.value;
      CompiledAsDrawn(d, terminal, runtimeNames, program);
    }
  }

  /** The compiled plan gives targets their weights and loops their rounds as
      the canvas says. */
  lemma CompiledAsDrawn(d: Delivery, terminal: nat, runtimeNames: set<string>, p: Program)
    requires CanvasAccepted(d.c, d.entry, d.engine, terminal) && ExecutionOrder(d.c, d.entry, d.engine, d.order)
    requires EmitsPlan(d.c, d.order, d.requests, d.definition)
    requires Unbound(d.scenario, d.count) && Compiles(d.definition, d.scenario, d.count, runtimeNames, p)
    ensures AsDrawn(d.c, d.order, p.steps)
  {
    hide PlanAccepted, AsDrawn, ResolvesTo, GraphAccepted, ExecutionOrder, EmitsPlan, Unbound;
    var index, byID :| AcceptedAs(d.definition, d.scenario, d.count, runtimeNames, index, byID, p.entry, p.steps);
    EmittedResolves(d, index, byID, p.entry, p.steps);
    PlanIsAsDrawn(EmissionOf(d, index, byID, p.steps));
  }

  lemma EmittedResolves(d: Delivery, index: Index, byID: Index, entry: nat, steps: seq<Step>)
    requires GraphAccepted(d.c, d.entry, d.engine) && ExecutionOrder(d.c, d.entry, d.engine, d.order)
    requires EmitsPlan(d.c, d.order, d.requests, d.definition)
    requires ResolvesTo(d.definition, d.scenario, index, byID, entry, steps)
    ensures Resolves(EmissionOf(d, index, byID, steps))
  {
    hide GraphAccepted, ExecutionOrder, DefinitionAccepted, CompiledStep, IdsAccepted, Resolved, CoversScenario,
         ScenarioIndexed, Indexes;
  }

  lemma AcceptedDelivers(d: Delivery, terminal: nat)
    requires CanvasAccepted(d.c, d.entry, d.engine, terminal) && ExecutionOrder(d.c, d.entry, d.engine, d.order)
    requires EmitsPlan(d.c, d.order, d.requests, d.definition)
    requires forall a: nat | a in d.order && Kind(d.c, a, AssertionNode) ::
               a in d.requests && UniqueRequest(d.c, d.requests[a], a)
    requires Scripted(d.c, d.order, d.scenario) && ScenarioIDsDistinct(d.scenario) && Unbound(d.scenario, d.count)
    ensures Delivers(d)
  {
  }
}
