/** The front end and the plan compiler agree: the plan of an accepted canvas
    passes every graph check and every assertion check of the compiler. */
module FrontEnd {
  import opened Walks
  import opened ExecutionPlan
  import opened GraphSearch
  import opened Embedding
  import opened PlanDefinition
  import opened CanvasGraph
  import opened CanvasPlan

  datatype Emission = Emission(c: Canvas, entry: nat, engine: nat, order: seq<nat>, requests: map<nat, nat>,
                               definition: PlanDefinition, index: Index, byID: Index, steps: seq<Step>)

  /** A plan emitted for an accepted canvas and resolved by the compiler. */
  ghost predicate Emits(e: Emission) {
    && GraphAccepted(e.c, e.entry, e.engine)
    && ExecutionOrder(e.c, e.entry, e.engine, e.order)
    && EmitsPlan(e.c, e.order, e.requests, e.definition)
    && |e.order| <= MAX_EXECUTION_PLAN_STEPS
    && IdsAccepted(e.definition.steps, |e.order|)
    && Indexes(e.definition.steps, e.index, |e.order|)
  }

  ghost predicate Resolves(e: Emission) {
    && Emits(e)
    && |e.steps| == |e.order|
    && forall i: nat | i < |e.order| ::
         && DefinitionAccepted(e.definition.steps, i, e.index, e.byID)
         && e.steps[i] == CompiledStep(e.definition.steps, i, e.index, e.byID)
  }

  // ----- ids and numbers

  lemma NodeOf(e: Emission, i: nat)
    requires Emits(e) && i < |e.order|
    ensures e.order[i] < |e.c.nodes| && HasTargets(e.c, e.order[i]) && Buildable(e.c, e.requests, e.order[i])
    ensures e.definition.steps[i] == Emitted(e.c, e.order, e.requests, e.order[i])
    ensures e.definition.steps[i].id == e.c.nodes[e.order[i]].id != ""
    ensures e.c.nodes[e.order[i]].id in e.index && e.index[e.c.nodes[e.order[i]].id] == i
  {
  }

  /** The number of a node in the plan is found under its id. */
  lemma IndexOf(e: Emission, v: nat)
    requires Emits(e) && v in e.order
    ensures v < |e.c.nodes| && ValidPlanID(e.c.nodes[v].id) && TargetExists(e.c.nodes[v].id, e.index)
    ensures e.index[e.c.nodes[v].id] < |e.order| && e.order[e.index[e.c.nodes[v].id]] == v
  {
    var i :| 0 <= i < |e.order| && e.order[i] == v;
    NodeOf(e, i);
  }

  lemma SameId(e: Emission, v: nat, i: nat)
    requires Emits(e) && v < |e.c.nodes| && i < |e.order| && e.c.nodes[v].id == e.c.nodes[e.order[i]].id
    ensures e.order[i] == v
  {
  }

  /** The only target, if it is part of the plan. */
  lemma OptionalTargetIs(e: Emission, targets: seq<nat>, j: nat)
    requires Emits(e) && InRange(e.c, targets) && |targets| <= 1 && j < |e.order|
    ensures OptionalExists(TargetID(e.c, e.order, targets), e.index)
    ensures j in Optional(OptionalTarget(TargetID(e.c, e.order, targets), e.index)) <==> e.order[j] in targets
  {
    if |targets| == 1 && targets[0] in e.order {
      IndexOf(e, targets[0]);
      assert Distinct(e.order);
      assert TargetID(e.c, e.order, targets) == e.c.nodes[targets[0]].id != "";
    } else {
      assert TargetID(e.c, e.order, targets) == "";
      assert e.order[j] in e.order;
    }
  }

  lemma {:induction false} OthersSmaller(c: Canvas, targets: seq<nat>, id: string, k: nat)
    requires InRange(c, targets) && k < |targets| && c.nodes[targets[k]].id == id
    ensures |Others(c, targets, id)| < |targets|
  {
    if k > 0 {
      OthersSmaller(c, targets[1..], id, k - 1);
    }
  }

  lemma LoopExit(c: Canvas, entry: nat, engine: nat, l: nat)
    requires GraphAccepted(c, entry, engine) && Kind(c, l, LoopNode)
    ensures HasTargets(c, l) && |ReducedTargets(c, l)| <= 1
  {
    assert OutDegreeAllowed(c, l) && LoopDefined(c, l);
    var t: nat :| Edge(c.outgoing, l, t) && t < |c.nodes| && c.nodes[t].id == c.nodes[l].BodyID();
    var k :| 0 <= k < |c.outgoing[l]| && c.outgoing[l][k] == t;
    OthersSmaller(c, c.outgoing[l], c.nodes[l].BodyID(), k);
  }

  // ----- the plan is a part of the canvas

  lemma ScenarioEdges(e: Emission, i: nat, j: nat)
    requires Resolves(e) && i < |e.order| && j < |e.order|
    requires !e.steps[i].Branch? && !e.steps[i].Loop?
    ensures Edge(Full(e.steps), i, j) <==> Edge(e.c.outgoing, e.order[i], e.order[j])
    ensures Edge(Reduced(e.steps), i, j) <==> Edge(ReducedOutgoing(e.c), e.order[i], e.order[j])
  {
    NodeOf(e, i);
    assert OutDegreeAllowed(e.c, e.order[i]);
    assert DefinitionAccepted(e.definition.steps, i, e.index, e.byID);
    OptionalTargetIs(e, e.c.outgoing[e.order[i]], j);
    ReducedEdge(e.c, e.order[i], e.order[j]);
  }

  lemma SameMembers(targets: seq<nat>, order: seq<nat>, nodes: seq<nat>, j: nat)
    requires Distinct(order) && |targets| == |nodes| && j < |order|
    requires forall k | 0 <= k < |targets| :: targets[k] < |order| && order[targets[k]] == nodes[k]
    ensures j in targets <==> order[j] in nodes
  {
    if j in targets {
      var k :| 0 <= k < |targets| && targets[k] == j;
      assert nodes[k] in nodes;
    }
    if order[j] in nodes {
      var k :| 0 <= k < |nodes| && nodes[k] == order[j];
      assert targets[k] in targets;
    }
  }

  lemma BranchHasRoutes(e: Emission, i: nat)
    requires Resolves(e) && i < |e.order| && e.steps[i].Branch?
    ensures |e.steps[i].routes| >= 2
  {
    assert DefinitionAccepted(e.definition.steps, i, e.index, e.byID);
  }

  lemma BranchTargets(e: Emission, i: nat)
    requires Resolves(e) && i < |e.order| && e.steps[i].Branch?
    ensures Kind(e.c, e.order[i], BranchNode) && |e.steps[i].routes| == |e.c.outgoing[e.order[i]]|
    ensures forall k | 0 <= k < |e.steps[i].routes| ::
              && e.steps[i].routes[k].target < |e.order|
              && e.order[e.steps[i].routes[k].target] == e.c.outgoing[e.order[i]][k]
  {
    hide Resolves, Emits, WellFormed, Distinct;
    PlanFacts(e);
    BranchHasRoutes(e, i);
    RouteTargetIs(e, i, 0);
    forall k: nat | k < |e.steps[i].routes|
      ensures e.steps[i].routes[k].target < |e.order|
      ensures e.order[e.steps[i].routes[k].target] == e.c.outgoing[e.order[i]][k]
    {
      RouteTargetIs(e, i, k);
    }
  }

  lemma StepBranchEdges(steps: seq<Step>, i: nat, j: nat)
    requires IsBranch(steps, i)
    ensures Edge(Full(steps), i, j) <==> j in RouteTargets(steps[i].routes)
    ensures Edge(Reduced(steps), i, j) <==> j in RouteTargets(steps[i].routes)
  {
    assert Full(steps)[i] == Reduced(steps)[i] == RouteTargets(steps[i].routes);
  }

  lemma PlanFacts(e: Emission)
    requires Resolves(e)
    ensures Emits(e) && Valid(e.c) && Distinct(e.order) && |e.steps| == |e.order| == |e.definition.steps|
  {
  }

  lemma RouteTargetsAre(steps: seq<Step>, i: nat)
    requires IsBranch(steps, i)
    ensures |RouteTargets(steps[i].routes)| == |steps[i].routes|
    ensures forall k | 0 <= k < |steps[i].routes| :: RouteTargets(steps[i].routes)[k] == steps[i].routes[k].target
  {
  }

  lemma BranchEdges(e: Emission, i: nat, j: nat)
    requires Resolves(e) && i < |e.order| && j < |e.order| && e.steps[i].Branch?
    ensures Edge(Full(e.steps), i, j) <==> Edge(e.c.outgoing, e.order[i], e.order[j])
    ensures Edge(Reduced(e.steps), i, j) <==> Edge(ReducedOutgoing(e.c), e.order[i], e.order[j])
  {
    hide Resolves, Emits, GraphAccepted, Full, Reduced, ReducedOutgoing, RouteTargets;
    PlanFacts(e);
    BranchTargets(e, i);
    RouteTargetsAre(e.steps, i);
    StepBranchEdges(e.steps, i, j);
    ReducedEdge(e.c, e.order[i], e.order[j]);
    var targets, nodes := RouteTargets(e.steps[i].routes), e.c.outgoing[e.order[i]];
    assert |targets| == |nodes|;
    assert forall k | 0 <= k < |targets| :: targets[k] < |e.order| && e.order[targets[k]] == nodes[k];
    SameMembers(targets, e.order, nodes, j);
  }

  /** Route k leads to the k-th target of the node. */
  lemma RouteTargetIs(e: Emission, i: nat, k: nat)
    requires Resolves(e) && i < |e.order| && e.steps[i].Branch? && k < |e.steps[i].routes|
    ensures Kind(e.c, e.order[i], BranchNode) && |e.steps[i].routes| == |e.c.outgoing[e.order[i]]|
    ensures e.steps[i].routes[k].target < |e.order|
    ensures e.order[e.steps[i].routes[k].target] == e.c.outgoing[e.order[i]][k]
  {
    NodeOf(e, i);
    var definition := e.definition.steps[i];
    assert DefinitionAccepted(e.definition.steps, i, e.index, e.byID);
    assert RouteAccepted(definition.routes, k, e.index);
    CompiledRouteAt(definition, |definition.routes|, e.index, RoutesBefore(e.definition.steps, i), k);
    NodeOf(e, e.index[definition.routes[k].targetStepID]);
    SameId(e, e.c.outgoing[e.order[i]][k], e.index[definition.routes[k].targetStepID]);
  }

  lemma LoopBodyIs(e: Emission, i: nat)
    requires Resolves(e) && i < |e.order| && e.steps[i].Loop?
    ensures Kind(e.c, e.order[i], LoopNode) && e.steps[i].body < |e.order|
    ensures BodyTarget(e.c, e.order[i], e.order[e.steps[i].body])
  {
    NodeOf(e, i);
    var l := e.order[i];
    assert DefinitionAccepted(e.definition.steps, i, e.index, e.byID);
    NodeOf(e, e.steps[i].body);
    var k :| 0 <= k < |e.c.outgoing[l]| && e.c.nodes[e.c.outgoing[l][k]].id == e.c.nodes[l].BodyID();
    SameId(e, e.c.outgoing[l][k], e.steps[i].body);
    assert e.c.outgoing[l][k] in e.c.outgoing[l];
  }

  lemma CanvasLoopEdges(c: Canvas, l: nat, body: nat, v: nat)
    requires Valid(c) && BodyTarget(c, l, body) && v < |c.nodes|
    ensures HasTargets(c, l)
    ensures Edge(c.outgoing, l, v) <==> v == body || v in ReducedTargets(c, l)
    ensures Edge(ReducedOutgoing(c), l, v) <==> v in ReducedTargets(c, l)
  {
    ReducedEdge(c, l, v);
  }

  lemma StepLoopEdges(steps: seq<Step>, i: nat, j: nat)
    requires IsLoop(steps, i)
    ensures Edge(Full(steps), i, j) <==> j == steps[i].body || j in Optional(steps[i].exit)
    ensures Edge(Reduced(steps), i, j) <==> j in Optional(steps[i].exit)
  {
    assert Full(steps)[i] == [steps[i].body] + Optional(steps[i].exit);
    assert Reduced(steps)[i] == [] + Optional(steps[i].exit);
  }

  lemma LoopExitIs(e: Emission, i: nat, j: nat)
    requires Resolves(e) && i < |e.order| && j < |e.order| && e.steps[i].Loop?
    ensures HasTargets(e.c, e.order[i])
    ensures j in Optional(e.steps[i].exit) <==> e.order[j] in ReducedTargets(e.c, e.order[i])
  {
    NodeOf(e, i);
    assert DefinitionAccepted(e.definition.steps, i, e.index, e.byID);
    LoopExit(e.c, e.entry, e.engine, e.order[i]);
    OptionalTargetIs(e, ReducedTargets(e.c, e.order[i]), j);
  }

  lemma LoopEdges(e: Emission, i: nat, j: nat)
    requires Resolves(e) && i < |e.order| && j < |e.order| && e.steps[i].Loop?
    ensures Edge(Full(e.steps), i, j) <==> Edge(e.c.outgoing, e.order[i], e.order[j])
    ensures Edge(Reduced(e.steps), i, j) <==> Edge(ReducedOutgoing(e.c), e.order[i], e.order[j])
  {
    LoopBodyIs(e, i);
    LoopExitIs(e, i, j);
    CanvasLoopEdges(e.c, e.order[i], e.order[e.steps[i].body], e.order[j]);
    StepLoopEdges(e.steps, i, j);
    assert j == e.steps[i].body <==> e.order[j] == e.order[e.steps[i].body];
  }

  /** What leads to a node of the plan is a node of the plan. */
  lemma OrderClosed(e: Emission, u: nat, v: nat)
    requires Emits(e) && Edge(e.c.outgoing, u, v) && v in e.order
    ensures u in e.order
  {
    EdgeBound(e.c.outgoing, u, v);
    assert Reach(e.c.outgoing, e.entry, e.engine);
    ThenReach(e.c.outgoing, u, v, e.engine, -1);
    if u == e.engine {
      var i :| 0 <= i < |e.order| && e.order[i] == v;
      NodeOf(e, i);
      ReachEdge(e.c.outgoing, e.engine, v, -1);
    }
  }

  lemma PlanEmbeds(e: Emission)
    requires Resolves(e)
    ensures Embeds(Full(e.steps), e.c.outgoing, e.order)
    ensures Embeds(Reduced(e.steps), ReducedOutgoing(e.c), e.order)
  {
    ReducedIsGraph(e.c);
    forall i: nat, j: nat | i < |e.order| && j < |e.order|
      ensures Edge(Full(e.steps), i, j) <==> Edge(e.c.outgoing, e.order[i], e.order[j])
      ensures Edge(Reduced(e.steps), i, j) <==> Edge(ReducedOutgoing(e.c), e.order[i], e.order[j])
    {
      if e.steps[i].Branch? {
        BranchEdges(e, i, j);
      } else if e.steps[i].Loop? {
        LoopEdges(e, i, j);
      } else {
        ScenarioEdges(e, i, j);
      }
    }
    forall u: nat, v: nat | Edge(e.c.outgoing, u, v) && v in e.order
      ensures u in e.order
    {
      OrderClosed(e, u, v);
    }
  }
}
