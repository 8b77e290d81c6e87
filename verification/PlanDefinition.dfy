/** Plan definitions as they arrive, and their resolution into steps. */
module PlanDefinition {
  import opened ExecutionPlan

  const PLAN_SCHEMA_VERSION := 1
  const MAX_ID_BYTES: nat := 128
  const MAX_NAME_BYTES: nat := 256

  datatype StepKind = ScenarioKind | BranchKind | JoinKind | LoopKind | UnsupportedKind

  datatype RouteDefinition = RouteDefinition(id: string, name: string, targetStepID: string, weight: int)

  datatype StepDefinition = StepDefinition(
    id: string,
    kind: StepKind,
    nextStepID: string,
    requestStepID: string,
    routes: seq<RouteDefinition>,
    joinStepID: string,
    bodyStepID: string,
    exitStepID: string,
    maxIterations: int)

  datatype PlanDefinition = PlanDefinition(schemaVersion: int, entryStepID: string, steps: seq<StepDefinition>)

  // ----- identifiers and names

  predicate IsSpace(c: char) {
    var code := c as int;
    || 0x09 <= code <= 0x0D || code == 0x20 || code == 0x85 || code == 0xA0
    || code == 0x1680 || 0x2000 <= code <= 0x200A || code == 0x2028 || code == 0x2029
    || code == 0x202F || code == 0x205F || code == 0x3000
  }

  predicate IsControl(c: char) {
    var code := c as int;
    code < 0x20 || 0x7F <= code <= 0x9F
  }

  /** Bytes of the UTF-8 encoding. */
  function ByteLength(s: string): nat {
    if s == [] then 0
    else
      var code := s[0] as int;
      (if code < 0x80 then 1 else if code < 0x800 then 2 else if code < 0x10000 then 3 else 4) + ByteLength(s[1..])
  }

  function TrimSpace(s: string): (r: string)
    ensures r == s || |r| < |s|
  {
    if s == [] then s
    else if IsSpace(s[0]) then TrimSpace(s[1..])
    else if IsSpace(s[|s| - 1]) then TrimSpace(s[..|s| - 1])
    else s
  }

  predicate ValidText(s: string, maximum: nat) {
    ByteLength(s) <= maximum && forall i | 0 <= i < |s| :: !IsControl(s[i])
  }

  predicate ValidPlanID(id: string) {
    TrimSpace(id) == id && id != "" && ValidText(id, MAX_ID_BYTES)
  }

  function RouteName(route: RouteDefinition): string {
    var name := TrimSpace(route.name);
    if name == "" then route.id else name
  }

  function ScopeKey(branchID: string, routeID: string): string {
    branchID + ":" + routeID
  }

  // ----- what a definition must satisfy, and the step it becomes

  type Index = map<string, nat>

  predicate TargetExists(id: string, index: Index) {
    ValidPlanID(id) && id in index
  }

  predicate OptionalExists(id: string, index: Index) {
    id == "" || TargetExists(id, index)
  }

  function OptionalTarget(id: string, index: Index): int
    requires OptionalExists(id, index)
  {
    if id == "" then -1 else index[id]
  }

  predicate RouteAccepted(routes: seq<RouteDefinition>, k: nat, index: Index)
    requires k < |routes|
  {
    && ValidPlanID(routes[k].id)
    && (forall j | 0 <= j < k :: routes[j].id != routes[k].id)
    && 1 <= routes[k].weight <= MAX_BRANCH_ROUTE_WEIGHT
    && TargetExists(routes[k].targetStepID, index)
    && ValidText(RouteName(routes[k]), MAX_NAME_BYTES)
  }

  predicate DefinitionAccepted(steps: seq<StepDefinition>, i: nat, index: Index, scenarioByID: Index)
    requires i < |steps| && forall id | id in index :: index[id] < |steps|
  {
    var definition := steps[i];
    match definition.kind
    case ScenarioKind => definition.id in scenarioByID && OptionalExists(definition.nextStepID, index)
    case BranchKind =>
      && 2 <= |definition.routes| <= MAX_BRANCH_ROUTES
      && TargetExists(definition.joinStepID, index)
      && steps[index[definition.joinStepID]].kind == JoinKind
      && (forall k | 0 <= k < |definition.routes| :: RouteAccepted(definition.routes, k, index))
    case JoinKind => OptionalExists(definition.nextStepID, index)
    case LoopKind =>
      && TargetExists(definition.bodyStepID, index)
      && OptionalExists(definition.exitStepID, index)
      && 1 <= definition.maxIterations <= MAX_LOOP_ITERATIONS
    case UnsupportedKind => false
  }

  /** Routes of the branches among the first i definitions. */
  function RoutesBefore(steps: seq<StepDefinition>, i: nat): nat
    requires i <= |steps|
  {
    if i == 0 then 0
    else RoutesBefore(steps, i - 1) + if steps[i - 1].kind == BranchKind then |steps[i - 1].routes| else 0
  }

  function CompiledRoutes(definition: StepDefinition, n: nat, index: Index, firstMetric: nat): (r: seq<Route>)
    requires n <= |definition.routes|
    requires forall k | 0 <= k < n :: RouteAccepted(definition.routes, k, index)
    ensures |r| == n
  {
    if n == 0 then []
    else
      var route := definition.routes[n - 1];
      assert RouteAccepted(definition.routes, n - 1, index);
      CompiledRoutes(definition, n - 1, index, firstMetric)
      + [Route(route.id, RouteName(route), index[route.targetStepID], route.weight,
               firstMetric + n - 1, ScopeKey(definition.id, route.id))]
  }

  function TotalRouteWeight(routes: seq<Route>): nat {
    if routes == [] then 0 else TotalRouteWeight(routes[..|routes| - 1]) + routes[|routes| - 1].weight
  }

  function CompiledStep(steps: seq<StepDefinition>, i: nat, index: Index, scenarioByID: Index): Step
    requires i < |steps| && forall id | id in index :: index[id] < |steps|
    requires DefinitionAccepted(steps, i, index, scenarioByID)
  {
    var definition := steps[i];
    match definition.kind
    case ScenarioKind =>
      Scenario(definition.id, scenarioByID[definition.id], OptionalTarget(definition.nextStepID, index))
    case BranchKind =>
      var routes := CompiledRoutes(definition, |definition.routes|, index, RoutesBefore(steps, i));
      Branch(definition.id, routes, TotalRouteWeight(routes), index[definition.joinStepID])
    case JoinKind => Join(definition.id, OptionalTarget(definition.nextStepID, index))
    case LoopKind =>
      Loop(definition.id, index[definition.bodyStepID], OptionalTarget(definition.exitStepID, index),
           definition.maxIterations)
    case UnsupportedKind => assert false; Join("", -1)
  }

  // ----- the index of the plan's own ids

  ghost predicate IdsAccepted(steps: seq<StepDefinition>, n: nat)
    requires n <= |steps|
  {
    && (forall i | 0 <= i < n :: ValidPlanID(steps[i].id))
    && (forall i, j | 0 <= i < j < n :: steps[i].id != steps[j].id)
  }

  ghost predicate Indexes(steps: seq<StepDefinition>, index: Index, n: nat)
    requires n <= |steps|
  {
    && (forall id | id in index :: index[id] < n && steps[index[id]].id == id)
    && (forall i | 0 <= i < n :: steps[i].id in index && index[steps[i].id] == i)
  }

  lemma {:induction false} CompiledRouteAt(definition: StepDefinition, n: nat, index: Index, firstMetric: nat, k: nat)
    requires k < n <= |definition.routes| && RouteAccepted(definition.routes, k, index)
    requires forall j | 0 <= j < n :: RouteAccepted(definition.routes, j, index)
    ensures var r := CompiledRoutes(definition, n, index, firstMetric)[k];
            && r.id == definition.routes[k].id && r.name == RouteName(definition.routes[k])
            && r.target == index[definition.routes[k].targetStepID]
            && r.weight == definition.routes[k].weight
            && r.metricsIndex == firstMetric + k
            && r.scopeKey == ScopeKey(definition.id, definition.routes[k].id)
  {
    if k < n - 1 {
      CompiledRouteAt(definition, n - 1, index, firstMetric, k);
    }
  }

  lemma {:induction false} WeightsSum(routes: seq<Route>)
    ensures SumsTo(routes, TotalRouteWeight(routes))
  {
    if routes != [] {
      WeightsSum(routes[..|routes| - 1]);
    }
  }

  /** Accepted definitions become steps whose targets, weights and limits are
      in range. */
  lemma CompiledStepsResolve(steps: seq<StepDefinition>, index: Index, scenarioByID: Index, compiled: seq<Step>)
    requires |steps| <= MAX_EXECUTION_PLAN_STEPS && Indexes(steps, index, |steps|)
    requires forall i: nat | i < |steps| :: DefinitionAccepted(steps, i, index, scenarioByID)
    requires |compiled| == |steps|
    requires forall i: nat | i < |steps| :: compiled[i] == CompiledStep(steps, i, index, scenarioByID)
    ensures Resolved(compiled)
  {
    forall i: nat | i < |compiled|
      ensures StepResolved(compiled, i)
    {
      assert DefinitionAccepted(steps, i, index, scenarioByID);
      if steps[i].kind == BranchKind {
        WeightsSum(compiled[i].routes);
        forall k | 0 <= k < |compiled[i].routes|
          ensures compiled[i].routes[k].target < |compiled|
          ensures 1 <= compiled[i].routes[k].weight <= MAX_BRANCH_ROUTE_WEIGHT
        {
          assert RouteAccepted(steps[i].routes, k, index);
          CompiledRouteAt(steps[i], |steps[i].routes|, index, RoutesBefore(steps, i), k);
        }
        assert DefinitionAccepted(steps, index[steps[i].joinStepID], index, scenarioByID);
      }
    }
  }

  // ----- the numbers of the routes

  predicate HasRoute(compiled: seq<Step>, i: int, k: int) {
    0 <= i < |compiled| && compiled[i].Branch? && 0 <= k < |compiled[i].routes|
  }

  /** Every route has a number of its own, below the number of all routes, in
      the order of the plan. */
  ghost predicate RoutesNumbered(compiled: seq<Step>, routeCount: nat) {
    && (forall i: nat, k: nat | HasRoute(compiled, i, k) :: compiled[i].routes[k].metricsIndex < routeCount)
    && (forall i: nat, k: nat, j: nat, m: nat | HasRoute(compiled, i, k) && HasRoute(compiled, j, m)
          && (i < j || (i == j && k < m)) ::
          compiled[i].routes[k].metricsIndex < compiled[j].routes[m].metricsIndex)
  }

  lemma {:induction false} RoutesGrow(steps: seq<StepDefinition>, i: nat, j: nat)
    requires i < j <= |steps|
    ensures RoutesBefore(steps, i) + (if steps[i].kind == BranchKind then |steps[i].routes| else 0)
         <= RoutesBefore(steps, j)
  {
    if i < j - 1 {
      RoutesGrow(steps, i, j - 1);
    }
  }

  lemma RouteNumber(steps: seq<StepDefinition>, index: Index, scenarioByID: Index, compiled: seq<Step>, i: nat, k: nat)
    requires |compiled| == |steps| && (forall id | id in index :: index[id] < |steps|) && HasRoute(compiled, i, k)
    requires DefinitionAccepted(steps, i, index, scenarioByID)
    requires compiled[i] == CompiledStep(steps, i, index, scenarioByID)
    ensures steps[i].kind == BranchKind && k < |steps[i].routes| == |compiled[i].routes|
    ensures compiled[i].routes[k].metricsIndex == RoutesBefore(steps, i) + k
  {
    assert RouteAccepted(steps[i].routes, k, index);
    CompiledRouteAt(steps[i], |steps[i].routes|, index, RoutesBefore(steps, i), k);
  }

  lemma RoutesAreNumbered(steps: seq<StepDefinition>, index: Index, scenarioByID: Index, compiled: seq<Step>)
    requires |compiled| == |steps| && (forall id | id in index :: index[id] < |steps|)
    requires forall i: nat | i < |steps| :: DefinitionAccepted(steps, i, index, scenarioByID)
                                            && compiled[i] == CompiledStep(steps, i, index, scenarioByID)
    ensures RoutesNumbered(compiled, RoutesBefore(steps, |steps|))
  {
    hide DefinitionAccepted, CompiledStep;
    forall i: nat, k: nat | HasRoute(compiled, i, k)
      ensures compiled[i].routes[k].metricsIndex < RoutesBefore(steps, |steps|)
    {
      RouteNumber(steps, index, scenarioByID, compiled, i, k);
      RoutesGrow(steps, i, |steps|);
    }
    forall i: nat, k: nat, j: nat, m: nat | HasRoute(compiled, i, k) && HasRoute(compiled, j, m)
      && (i < j || (i == j && k < m))
      ensures compiled[i].routes[k].metricsIndex < compiled[j].routes[m].metricsIndex
    {
      RouteNumber(steps, index, scenarioByID, compiled, i, k);
      RouteNumber(steps, index, scenarioByID, compiled, j, m);
      if i < j {
        RoutesGrow(steps, i, j);
      }
    }
  }

  // ----- resolution

  datatype ResolveError =
    | UnsupportedSchema | WrongStepCount | InvalidStepID(step: nat) | DuplicateStepID(step: nat)
    | UnknownEntry | InvalidStep(step: nat) | ScenarioCoverage | EntryNotRequest

  method IndexSteps(steps: seq<StepDefinition>) returns (ok: bool, index: Index)
    ensures ok <==> IdsAccepted(steps, |steps|)
    ensures ok ==> Indexes(steps, index, |steps|)
  {
    index := map[];
    for i := 0 to |steps|
      invariant IdsAccepted(steps, i) && Indexes(steps, index, i)
    {
      if !ValidPlanID(steps[i].id) {
        return false, index;
      }
      if steps[i].id in index {
        assert steps[index[steps[i].id]].id == steps[i].id;
        return false, index;
      }
      index := index[steps[i].id := i];
    }
    return true, index;
  }

  method CompileRoutes(definition: StepDefinition, index: Index, firstMetric: nat)
    returns (ok: bool, routes: seq<Route>, totalWeight: nat)
    ensures ok <==> forall k: nat | k < |definition.routes| :: RouteAccepted(definition.routes, k, index)
    ensures ok ==> routes == CompiledRoutes(definition, |definition.routes|, index, firstMetric)
                   && totalWeight == TotalRouteWeight(routes)
  {
    routes, totalWeight := [], 0;
    var routeIDs: set<string> := {};
    for k := 0 to |definition.routes|
      invariant forall j: nat | j < k :: RouteAccepted(definition.routes, j, index)
      invariant routeIDs == set j | 0 <= j < k :: definition.routes[j].id
      invariant routes == CompiledRoutes(definition, k, index, firstMetric)
      invariant totalWeight == TotalRouteWeight(routes)
    {
      var route := definition.routes[k];
      if !ValidPlanID(route.id) || route.id in routeIDs
         || route.weight < 1 || route.weight > MAX_BRANCH_ROUTE_WEIGHT
         || !TargetExists(route.targetStepID, index)
         || !ValidText(RouteName(route), MAX_NAME_BYTES) {
        assert !RouteAccepted(definition.routes, k, index);
        return false, routes, totalWeight;
      }
      routeIDs := routeIDs + {route.id};
      totalWeight := totalWeight + route.weight;
      var longer := routes + [Route(route.id, RouteName(route), index[route.targetStepID], route.weight,
                                    firstMetric + k, ScopeKey(definition.id, route.id))];
      assert longer[..k] == routes;
      routes := longer;
    }
    return true, routes, totalWeight;
  }

  method CompileStep(steps: seq<StepDefinition>, i: nat, index: Index, scenarioByID: Index, firstMetric: nat)
    returns (ok: bool, step: Step)
    requires i < |steps| && forall id | id in index :: index[id] < |steps|
    requires firstMetric == RoutesBefore(steps, i)
    ensures ok <==> DefinitionAccepted(steps, i, index, scenarioByID)
    ensures ok ==> step == CompiledStep(steps, i, index, scenarioByID)
  {
    var definition := steps[i];
    step := Join("", -1);
    match definition.kind {
      case ScenarioKind =>
        if definition.id !in scenarioByID || !OptionalExists(definition.nextStepID, index) {
          return false, step;
        }
        return true, Scenario(definition.id, scenarioByID[definition.id],
                              OptionalTarget(definition.nextStepID, index));
      case BranchKind =>
        if |definition.routes| < 2 || |definition.routes| > MAX_BRANCH_ROUTES
           || !TargetExists(definition.joinStepID, index)
           || steps[index[definition.joinStepID]].kind != JoinKind {
          return false, step;
        }
        var routes, totalWeight;
        ok, routes, totalWeight := CompileRoutes(definition, index, firstMetric);
        if ok {
          step := Branch(definition.id, routes, totalWeight, index[definition.joinStepID]);
        }
      case JoinKind =>
        if !OptionalExists(definition.nextStepID, index) {
          return false, step;
        }
        return true, Join(definition.id, OptionalTarget(definition.nextStepID, index));
      case LoopKind =>
        if !TargetExists(definition.bodyStepID, index) || !OptionalExists(definition.exitStepID, index)
           || definition.maxIterations < 1 || definition.maxIterations > MAX_LOOP_ITERATIONS {
          return false, step;
        }
        return true, Loop(definition.id, index[definition.bodyStepID],
                          OptionalTarget(definition.exitStepID, index), definition.maxIterations);
      case UnsupportedKind =>
        return false, step;
    }
  }

  /** Fill in the steps one after the other, counting routes for the metrics. */
  method CompileSteps(steps: seq<StepDefinition>, index: Index, scenarioByID: Index)
    returns (ok: bool, compiled: seq<Step>, routeCount: nat)
    requires |steps| <= MAX_EXECUTION_PLAN_STEPS && Indexes(steps, index, |steps|)
    ensures ok <==> forall i: nat | i < |steps| :: DefinitionAccepted(steps, i, index, scenarioByID)
    ensures ok ==> |compiled| == |steps| && Resolved(compiled) && routeCount == RoutesBefore(steps, |steps|)
    ensures ok ==> forall i: nat | i < |steps| :: compiled[i] == CompiledStep(steps, i, index, scenarioByID)
    ensures ok ==> RoutesNumbered(compiled, routeCount)
  {
    var cells := new Step[|steps|](_ => Join("", -1));
    routeCount := 0;
    for i := 0 to |steps|
      invariant routeCount == RoutesBefore(steps, i)
      invariant forall j: nat | j < i :: DefinitionAccepted(steps, j, index, scenarioByID)
                                         && cells[j] == CompiledStep(steps, j, index, scenarioByID)
    {
      var accepted, step := CompileStep(steps, i, index, scenarioByID, routeCount);
      if !accepted {
        return false, [], routeCount;
      }
      cells[i] := step;
      if steps[i].kind == BranchKind {
        routeCount := routeCount + |steps[i].routes|;
      }
    }
    compiled := cells[..];
    CompiledStepsResolve(steps, index, scenarioByID, compiled);
    RoutesAreNumbered(steps, index, scenarioByID, compiled);
    return true, compiled, routeCount;
  }
}
