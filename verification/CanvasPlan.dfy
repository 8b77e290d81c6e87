/** What the structured front end accepts, and the plan definition it emits. */
module CanvasPlan {
  import opened Walks
  import opened ExecutionPlan
  import opened GraphSearch
  import opened PlanDefinition
  import opened CanvasGraph

  // ----- acceptance

  ghost predicate TargetNamed(c: Canvas, v: nat, id: string) {
    exists t: nat :: Edge(c.outgoing, v, t) && t < |c.nodes| && c.nodes[t].id == id
  }

  ghost predicate LoopDefined(c: Canvas, l: nat)
    requires l < |c.nodes|
  {
    && c.nodes[l].BodyID() != "" && TargetNamed(c, l, c.nodes[l].BodyID())
    && 1 <= c.nodes[l].maxIterations <= MAX_LOOP_ITERATIONS
  }

  ghost predicate BodyTarget(c: Canvas, l: int, body: nat) {
    Kind(c, l, LoopNode) && Edge(c.outgoing, l, body) && body < |c.nodes| && c.nodes[body].id == c.nodes[l].BodyID()
  }

  ghost predicate CanvasLoopBounded(c: Canvas, l: nat, body: nat)
    requires Valid(c)
  {
    var reduced := ReducedOutgoing(c);
    && Reach(reduced, body, l)
    && (forall v: nat | ReachAvoiding(reduced, body, v, l) :: Reach(reduced, v, l) && !Kind(c, v, LoopNode))
    && (forall exit: nat | Edge(reduced, l, exit) :: !ReachAvoiding(reduced, body, exit, l))
  }

  ghost predicate JoinOf(c: Canvas, b: int, j: nat) {
    && Kind(c, b, BranchNode) && Kind(c, j, JoinNode)
    && c.nodes[b].JoinID() != "" && c.nodes[j].id == c.nodes[b].JoinID()
  }

  ghost predicate InRegion(c: Canvas, j: nat, target: nat, v: nat)
    requires Valid(c)
  {
    ReachAvoiding(ReducedOutgoing(c), target, v, j)
  }

  ghost predicate CanvasRouteClosed(c: Canvas, j: nat, target: nat)
    requires Valid(c)
  {
    && Reach(ReducedOutgoing(c), target, j)
    && (forall v: nat | InRegion(c, j, target, v) :: Reach(ReducedOutgoing(c), v, j))
    && (forall v: nat, nested: nat | InRegion(c, j, target, v) && JoinOf(c, v, nested) ::
          InRegion(c, j, target, nested))
  }

  ghost predicate CanvasBranchStructured(c: Canvas, b: nat, j: nat)
    requires Valid(c)
  {
    && (forall t: nat | Edge(c.outgoing, b, t) :: CanvasRouteClosed(c, j, t))
    && (forall s: nat, t: nat, v: nat | Edge(c.outgoing, b, s) && Edge(c.outgoing, b, t)
          && InRegion(c, j, s, v) && InRegion(c, j, t, v) :: s == t)
  }

  ghost predicate HasJoin(c: Canvas, b: nat) {
    exists j: nat :: JoinOf(c, b, j)
  }

  ghost predicate HasOwner(c: Canvas, j: nat) {
    exists b: nat :: JoinOf(c, b, j)
  }

  ghost predicate CanvasJoinsOwned(c: Canvas) {
    && (forall b: nat {:trigger HasJoin(c, b)} | Kind(c, b, BranchNode) :: HasJoin(c, b))
    && (forall b: nat, d: nat, j: nat | JoinOf(c, b, j) && JoinOf(c, d, j) :: b == d)
    && (forall j: nat {:trigger HasOwner(c, j)} | Kind(c, j, JoinNode) :: HasOwner(c, j))
  }

  predicate OutDegreeAllowed(c: Canvas, v: nat)
    requires v < |c.nodes| && |c.outgoing| == |c.nodes|
  {
    match c.nodes[v].kind
    case BranchNode => |c.outgoing[v]| >= 2
    case LoopNode => |c.outgoing[v]| == 2
    case _ => |c.outgoing[v]| <= 1
  }

  ghost predicate DegreesAllowed(c: Canvas)
    requires Valid(c)
  {
    forall v: nat | v < |c.nodes| :: OutDegreeAllowed(c, v)
  }

  predicate WeightsValid(c: Canvas, b: nat)
    requires HasTargets(c, b)
  {
    forall id | id in c.nodes[b].weights ::
      && (exists k | 0 <= k < |c.outgoing[b]| :: c.nodes[c.outgoing[b][k]].id == id)
      && 1 <= c.nodes[b].weights[id] <= MAX_BRANCH_ROUTE_WEIGHT
  }

  /** The conditions of the front end that its plans depend on. */
  ghost predicate GraphAccepted(c: Canvas, entry: nat, engine: nat) {
    && Valid(c)
    && (forall v: nat :: !Edge(c.outgoing, v, v))
    && Kind(c, entry, RequestNode) && Kind(c, engine, EngineNode)
    && DegreesAllowed(c)
    && (forall l: nat | Kind(c, l, LoopNode) :: LoopDefined(c, l))
    && Acyclic(ReducedOutgoing(c))
    && (forall v: nat | v < |c.nodes| :: Reach(c.outgoing, entry, v))
    && (forall v: nat | Reach(c.outgoing, engine, v) && v != engine :: !Executable(c.nodes[v].kind))
    && (forall l: nat, body: nat | BodyTarget(c, l, body) :: CanvasLoopBounded(c, l, body))
    && CanvasJoinsOwned(c)
    && (forall b: nat, j: nat | JoinOf(c, b, j) :: CanvasBranchStructured(c, b, j))
  }

  // ----- the other conditions

  predicate Control(kind: NodeKind) {
    kind.BranchNode? || kind.JoinNode? || kind.LoopNode?
  }

  ghost predicate HasSource(c: Canvas, v: nat) {
    exists u: nat :: Edge(c.outgoing, u, v)
  }

  ghost predicate TwoSources(c: Canvas, v: nat) {
    exists u: nat, w: nat :: u != w && Edge(c.outgoing, u, v) && Edge(c.outgoing, w, v)
  }

  /** One node without sources, one without targets, and merges only where the
      front end allows them. */
  ghost predicate EndsAllowed(c: Canvas, entry: nat, terminal: nat)
    requires Valid(c)
  {
    && terminal < |c.nodes|
    && (forall v: nat {:trigger HasSource(c, v)} | v < |c.nodes| :: HasSource(c, v) <==> v != entry)
    && (forall v: nat {:trigger c.outgoing[v]} | v < |c.nodes| :: c.outgoing[v] == [] <==> v == terminal)
    && (forall v: nat {:trigger TwoSources(c, v)} | v < |c.nodes| ::
          && (TwoSources(c, v) ==> Kind(c, v, JoinNode) || Kind(c, v, LoopNode))
          && (Kind(c, v, JoinNode) ==> TwoSources(c, v)))
  }

  ghost predicate AtMostOne(c: Canvas, kind: NodeKind) {
    forall u: nat, v: nat | Kind(c, u, kind) && Kind(c, v, kind) :: u == v
  }

  ghost predicate SomeNode(c: Canvas, kind: NodeKind) {
    exists v: nat :: Kind(c, v, kind)
  }

  /** The engine is followed by the metrics, if there are any, and these by the
      window, if there is one. */
  ghost predicate TailOrdered(c: Canvas, engine: nat, terminal: nat)
    requires Valid(c)
  {
    && AtMostOne(c, EngineNode) && AtMostOne(c, MetricsNode) && AtMostOne(c, WindowNode)
    && (SomeNode(c, WindowNode) ==> SomeNode(c, MetricsNode))
    && (!SomeNode(c, MetricsNode) ==> terminal == engine)
    && (forall m: nat | Kind(c, m, MetricsNode) ::
          Edge(c.outgoing, engine, m) && (!SomeNode(c, WindowNode) ==> terminal == m))
    && (forall m: nat, w: nat | Kind(c, m, MetricsNode) && Kind(c, w, WindowNode) ::
          Edge(c.outgoing, m, w) && terminal == w)
  }

  /** Every issue that the front end can raise about a structured canvas is
      absent. */
  ghost predicate CanvasAccepted(c: Canvas, entry: nat, engine: nat, terminal: nat) {
    && GraphAccepted(c, entry, engine)
    && (exists v: nat :: v < |c.nodes| && Control(c.nodes[v].kind))
    && EndsAllowed(c, entry, terminal) && TailOrdered(c, engine, terminal)
    && (forall a: nat | Kind(c, a, AssertionNode) && Reach(c.outgoing, a, engine) ::
          exists r: nat :: UniqueRequest(c, r, a))
    && (forall b: nat | Kind(c, b, BranchNode) :: WeightsValid(c, b))
  }

  // ----- the plan

  /** The entry, then the other nodes that lead to the engine. */
  ghost predicate ExecutionOrder(c: Canvas, entry: nat, engine: nat, order: seq<nat>) {
    && |order| > 0 && order[0] == entry && Distinct(order)
    && (forall v: nat :: v in order <==> v == entry || (Reach(c.outgoing, v, engine) && v != engine))
  }

  function TargetID(c: Canvas, order: seq<nat>, targets: seq<nat>): string
    requires InRange(c, targets)
  {
    if |targets| > 0 && targets[0] in order then c.nodes[targets[0]].id else ""
  }

  predicate Buildable(c: Canvas, requests: map<nat, nat>, v: nat)
    requires HasTargets(c, v)
  {
    match c.nodes[v].kind
    case RequestNode => true
    case DelayNode => true
    case AssertionNode => v in requests && requests[v] < |c.nodes|
    case BranchNode => WeightsValid(c, v)
    case JoinNode => true
    case LoopNode =>
      && c.nodes[v].BodyID() != ""
      && exists k | 0 <= k < |c.outgoing[v]| :: c.nodes[c.outgoing[v][k]].id == c.nodes[v].BodyID()
    case _ => false
  }

  function EmittedRoutes(c: Canvas, v: nat): (r: seq<RouteDefinition>)
    requires HasTargets(c, v)
    ensures |r| == |c.outgoing[v]|
  {
    seq(|c.outgoing[v]|, k requires 0 <= k < |c.outgoing[v]| =>
      var target := c.nodes[c.outgoing[v][k]];
      var weights := c.nodes[v].weights;
      RouteDefinition(target.id, target.title, target.id, if target.id in weights then weights[target.id] else 1))
  }

  function Emitted(c: Canvas, order: seq<nat>, requests: map<nat, nat>, v: nat): StepDefinition
    requires HasTargets(c, v)
    requires Buildable(c, requests, v)
  {
    var node := c.nodes[v];
    var next := TargetID(c, order, c.outgoing[v]);
    match node.kind
    case AssertionNode => StepDefinition(node.id, ScenarioKind, next, c.nodes[requests[v]].id, [], "", "", "", 0)
    case BranchNode => StepDefinition(node.id, BranchKind, "", "", EmittedRoutes(c, v), node.JoinID(), "", "", 0)
    case JoinNode => StepDefinition(node.id, JoinKind, next, "", [], "", "", "", 0)
    case LoopNode =>
      StepDefinition(node.id, LoopKind, "", "", [], "", node.BodyID(),
                     TargetID(c, order, ReducedTargets(c, v)), node.maxIterations)
    case _ => StepDefinition(node.id, ScenarioKind, next, "", [], "", "", "", 0)
  }

  ghost predicate EmitsPlan(c: Canvas, order: seq<nat>, requests: map<nat, nat>, definition: PlanDefinition)
    requires Valid(c)
  {
    && |order| > 0 && |definition.steps| == |order| && InRange(c, order)
    && definition.schemaVersion == PLAN_SCHEMA_VERSION && definition.entryStepID == c.nodes[order[0]].id
    && forall i: nat | i < |order| ::
         Buildable(c, requests, order[i])
         && definition.steps[i] == Emitted(c, order, requests, order[i])
  }

  method BuildExecutionPlan(c: Canvas, order: seq<nat>, requests: map<nat, nat>)
    returns (ok: bool, definition: PlanDefinition)
    requires Valid(c) && |order| > 0 && InRange(c, order)
    ensures ok <==> forall i: nat | i < |order| :: Buildable(c, requests, order[i])
    ensures ok ==> EmitsPlan(c, order, requests, definition)
  {
    var steps := [];
    definition := PlanDefinition(PLAN_SCHEMA_VERSION, c.nodes[order[0]].id, []);
    for i := 0 to |order|
      invariant |steps| == i
      invariant forall j: nat | j < i ::
                  Buildable(c, requests, order[j])
                  && steps[j] == Emitted(c, order, requests, order[j])
    {
      if !Buildable(c, requests, order[i]) {
        return false, definition;
      }
      steps := steps + [Emitted(c, order, requests, order[i])];
    }
    return true, definition.(steps := steps);
  }
}
