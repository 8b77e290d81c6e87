/** The plan of an accepted canvas passes every graph check and every
    assertion check of the plan compiler. */
module FrontEndAgreement {
  import opened Walks
  import opened ExecutionPlan
  import opened GraphSearch
  import opened Scenario
  import opened Iteration
  import opened Freshness
  import opened Embedding
  import opened PlanDefinition
  import opened PlanBinding
  import opened PlanCompiler
  import opened TemplateRuns
  import opened CanvasGraph
  import opened CanvasPlan
  import opened FrontEnd

  lemma PlanResolved(e: Emission)
    requires Resolves(e)
    ensures Resolved(e.steps) && WellFormed(Full(e.steps)) && WellFormed(Reduced(e.steps))
  {
    CompiledStepsResolve(e.definition.steps, e.index, e.byID, e.steps);
    GraphsWellFormed(e.steps);
  }

  lemma PlanReachable(e: Emission, v: nat)
    requires Resolves(e) && v < |e.steps| && Embeds(Full(e.steps), e.c.outgoing, e.order)
    ensures Reach(Full(e.steps), 0, v)
  {
    assert e.order[v] < |e.c.nodes|;
    assert Reach(e.c.outgoing, e.entry, e.order[v]);
    WalkIn(Full(e.steps), e.c.outgoing, e.order, 0, v, -1);
  }

  lemma PlanAllReachable(e: Emission)
    requires Resolves(e)
    ensures AllReachable(e.steps, 0)
  {
    PlanEmbeds(e);
    forall v: nat | v < |e.steps|
      ensures Reach(Full(e.steps), 0, v)
    {
      PlanReachable(e, v);
    }
  }

  // ----- loops

  lemma LoopKinds(e: Emission, i: nat)
    requires Resolves(e) && i < |e.order|
    ensures e.steps[i].Loop? <==> Kind(e.c, e.order[i], LoopNode)
    ensures e.steps[i].Branch? <==> Kind(e.c, e.order[i], BranchNode)
    ensures e.steps[i].Join? <==> Kind(e.c, e.order[i], JoinNode)
  {
    NodeOf(e, i);
    assert DefinitionAccepted(e.definition.steps, i, e.index, e.byID);
  }

  lemma PlanLoopBounded(e: Emission, l: nat)
    requires Resolves(e) && Resolved(e.steps) && IsLoop(e.steps, l)
    requires Embeds(Reduced(e.steps), ReducedOutgoing(e.c), e.order)
    ensures LoopBounded(e.steps, l)
  {
    var reduced, part := ReducedOutgoing(e.c), Reduced(e.steps);
    LoopBodyIs(e, l);
    var body, exit := e.steps[l].body, e.steps[l].exit;
    assert CanvasLoopBounded(e.c, e.order[l], e.order[body]);
    ReachMatches(part, reduced, e.order, body, l, -1);
    forall v: nat | InBody(e.steps, l, v)
      ensures Reach(part, v, l) && !IsLoop(e.steps, v)
    {
      WalkOut(part, reduced, e.order, body, v, l);
      ReachMatches(part, reduced, e.order, v, l, -1);
      LoopKinds(e, v);
    }
    if exit >= 0 {
      assert StepResolved(e.steps, l);
      assert Edge(part, l, exit);
      assert Edge(reduced, e.order[l], e.order[exit]);
      if InBody(e.steps, l, exit) {
        WalkOut(part, reduced, e.order, body, exit, l);
      }
      ReducedIsGraph(e.c);
    }
  }

  lemma PlanLoopsBounded(e: Emission)
    requires Resolves(e)
    ensures LoopsBounded(e.steps)
  {
    PlanResolved(e);
    PlanEmbeds(e);
    AcyclicPart(Reduced(e.steps), ReducedOutgoing(e.c), e.order);
    forall l: nat | IsLoop(e.steps, l)
      ensures LoopBounded(e.steps, l)
    {
      PlanLoopBounded(e, l);
    }
  }

  // ----- branches

  lemma PlanJoin(e: Emission, b: nat)
    requires Resolves(e) && IsBranch(e.steps, b)
    ensures e.steps[b].join < |e.order| && JoinOf(e.c, e.order[b], e.order[e.steps[b].join])
  {
    NodeOf(e, b);
    assert DefinitionAccepted(e.definition.steps, b, e.index, e.byID);
    NodeOf(e, e.steps[b].join);
    assert DefinitionAccepted(e.definition.steps, e.steps[b].join, e.index, e.byID);
  }

  lemma RegionMatches(e: Emission, b: nat, k: nat, v: nat)
    requires Resolves(e) && IsRoute(e.steps, b, k)
    requires Embeds(Reduced(e.steps), ReducedOutgoing(e.c), e.order)
    ensures e.steps[b].join < |e.order| && k < |e.c.outgoing[e.order[b]]|
    ensures InRoute(e.steps, b, k, v) <==>
            v < |e.order| && InRegion(e.c, e.order[e.steps[b].join], e.c.outgoing[e.order[b]][k], e.order[v])
  {
    hide Resolves, Emits, Embeds, Valid, WellFormed, Distinct, JoinOf;
    PlanFacts(e);
    PlanJoin(e, b);
    BranchTargets(e, b);
    if v < |e.order| {
      ReachMatches(Reduced(e.steps), ReducedOutgoing(e.c), e.order, Target(e.steps, b, k), v, e.steps[b].join);
    } else if InRoute(e.steps, b, k, v) {
      WalkOut(Reduced(e.steps), ReducedOutgoing(e.c), e.order, Target(e.steps, b, k), v, e.steps[b].join);
    }
  }

  lemma PlanRouteClosed(e: Emission, b: nat, k: nat)
    requires Resolves(e) && IsRoute(e.steps, b, k)
    requires Embeds(Reduced(e.steps), ReducedOutgoing(e.c), e.order)
    ensures RouteClosed(e.steps, b, k)
  {
    var reduced, part := ReducedOutgoing(e.c), Reduced(e.steps);
    PlanFacts(e);
    PlanJoin(e, b);
    BranchTargets(e, b);
    var join := e.steps[b].join;
    var target := e.c.outgoing[e.order[b]][k];
    assert target in e.c.outgoing[e.order[b]];
    assert CanvasRouteClosed(e.c, e.order[join], target);
    ReachMatches(part, reduced, e.order, Target(e.steps, b, k), join, -1);
    forall v: nat | InRoute(e.steps, b, k, v)
      ensures Reach(part, v, join)
      ensures IsBranch(e.steps, v) ==> InRoute(e.steps, b, k, e.steps[v].join)
    {
      RegionMatches(e, b, k, v);
      ReachMatches(part, reduced, e.order, v, join, -1);
      if IsBranch(e.steps, v) {
        PlanJoin(e, v);
        RegionMatches(e, b, k, e.steps[v].join);
      }
    }
  }

  lemma PlanRoutesDisjoint(e: Emission, b: nat)
    requires Resolves(e) && IsBranch(e.steps, b)
    requires Embeds(Reduced(e.steps), ReducedOutgoing(e.c), e.order)
    ensures RoutesDisjoint(e.steps, b)
  {
    PlanJoin(e, b);
    BranchTargets(e, b);
    var targets := e.c.outgoing[e.order[b]];
    forall j: nat, k: nat, v: nat | IsRoute(e.steps, b, j) && IsRoute(e.steps, b, k)
      && InRoute(e.steps, b, j, v) && InRoute(e.steps, b, k, v)
      ensures j == k
    {
      RegionMatches(e, b, j, v);
      RegionMatches(e, b, k, v);
      assert Edge(e.c.outgoing, e.order[b], targets[j]) && Edge(e.c.outgoing, e.order[b], targets[k]);
      assert CanvasBranchStructured(e.c, e.order[b], e.order[e.steps[b].join]);
    }
  }

  lemma OwnerReachesJoin(c: Canvas, entry: nat, engine: nat, owner: nat, join: nat)
    requires GraphAccepted(c, entry, engine) && JoinOf(c, owner, join)
    ensures Reach(c.outgoing, owner, join)
  {
    assert OutDegreeAllowed(c, owner);
    var target := c.outgoing[owner][0];
    assert Edge(c.outgoing, owner, target);
    assert CanvasBranchStructured(c, owner, join) && CanvasRouteClosed(c, join, target);
    ReducedIsGraph(c);
    ReachSubGraph(ReducedOutgoing(c), c.outgoing, target, join, -1);
    ThenReach(c.outgoing, owner, target, join, -1);
  }

  /** Whatever reaches the plan belongs to it. */
  lemma ReachIntoPlan(e: Emission, u: nat, v: nat)
    requires Emits(e) && v in e.order && Reach(e.c.outgoing, u, v)
    ensures u in e.order
  {
    hide Emits;
    var w :| Connects(e.c.outgoing, u, w, v) && -1 !in w;
    var k := |w| - 1;
    while k > 0
      invariant 0 <= k < |w| && w[k] in e.order
    {
      assert Edge(e.c.outgoing, w[k - 1], w[k]);
      OrderClosed(e, w[k - 1], w[k]);
      k := k - 1;
    }
  }

  /** The owner of a join of the plan is a branch of the plan. */
  lemma PlanJoinOwned(e: Emission, j: nat)
    requires Resolves(e) && j < |e.steps| && e.steps[j].Join?
    ensures Owned(e.steps, j)
  {
    LoopKinds(e, j);
    var join := e.order[j];
    assert HasOwner(e.c, join);
    var owner: nat :| JoinOf(e.c, owner, join);
    OwnerReachesJoin(e.c, e.entry, e.engine, owner, join);
    ReachIntoPlan(e, owner, join);
    var b :| 0 <= b < |e.order| && e.order[b] == owner;
    LoopKinds(e, b);
    PlanJoin(e, b);
    SameId(e, join, e.steps[b].join);
    assert IsBranch(e.steps, b) && e.steps[b].join == j;
  }

  lemma PlanBranchesStructured(e: Emission)
    requires Resolves(e)
    ensures BranchesStructured(e.steps)
  {
    PlanEmbeds(e);
    forall b: nat, d: nat | IsBranch(e.steps, b) && IsBranch(e.steps, d) && e.steps[b].join == e.steps[d].join
      ensures b == d
    {
      PlanJoin(e, b);
      PlanJoin(e, d);
    }
    forall j: nat | j < |e.steps| && e.steps[j].Join?
      ensures Owned(e.steps, j)
    {
      PlanJoinOwned(e, j);
    }
    forall b: nat | IsBranch(e.steps, b)
      ensures BranchStructured(e.steps, b)
    {
      forall k: nat | IsRoute(e.steps, b, k)
        ensures RouteClosed(e.steps, b, k)
      {
        PlanRouteClosed(e, b, k);
      }
      PlanRoutesDisjoint(e, b);
    }
  }

  /** Every graph check of the compiler passes. */
  lemma AcceptedCanvasIsWellStructured(e: Emission)
    requires Resolves(e)
    ensures WellStructured(e.steps, 0)
  {
    PlanResolved(e);
    PlanAllReachable(e);
    PlanLoopsBounded(e);
    PlanBranchesStructured(e);
    NodeOf(e, 0);
    assert DefinitionAccepted(e.definition.steps, 0, e.index, e.byID);
  }

  // ----- assertions

  ghost predicate RequestsResolved(e: Emission) {
    forall a: nat | a in e.order && Kind(e.c, a, AssertionNode) ::
      a in e.requests && UniqueRequest(e.c, e.requests[a], a)
  }

  /** The scenario step of a node is of the node's kind. */
  ghost predicate KindsMatch(e: Emission, p: Program)
    requires Resolves(e) && Sound(p) && p.steps == e.steps
  {
    forall i: nat | i < |e.order| ::
      && (IsRequest(p, i) <==> Kind(e.c, e.order[i], RequestNode))
      && (IsAssertion(p, i) <==> Kind(e.c, e.order[i], AssertionNode))
  }

  lemma ChosenRequestInPlan(e: Emission, a: nat)
    requires Emits(e) && RequestsResolved(e) && a in e.order && Kind(e.c, a, AssertionNode)
    ensures a in e.requests && e.requests[a] in e.order && Kind(e.c, e.requests[a], RequestNode)
    ensures e.requests[a] != a && Dominates(e.c.outgoing, e.entry, e.requests[a], a)
  {
    var r := e.requests[a];
    var w :| ClearWalk(e.c, r, w, a);
    assert -1 !in w;
    ReachIntoPlan(e, r, a);
    ChosenRequestDominates(e.c, e.entry, r, a);
  }

  /** The compiler accepts the request that the front end chose. */
  lemma ChosenRequestAccepted(e: Emission, p: Program, a: nat)
    requires Resolves(e) && RequestsResolved(e)
    requires Sound(p) && p.steps == e.steps && p.entry == 0 && KindsMatch(e, p)
    requires IsAssertion(p, a)
    ensures |e.definition.steps| == |p.steps| && AssertionAccepted(p, e.definition.steps, e.index, a)
  {
    NodeOf(e, a);
    ChosenRequestInPlan(e, e.order[a]);
    var r := e.requests[e.order[a]];
    IndexOf(e, r);
    PlanEmbeds(e);
    ReachMatches(Full(e.steps), e.c.outgoing, e.order, 0, a, e.index[e.c.nodes[r].id]);
    assert IsRequest(p, e.index[e.c.nodes[r].id]);
  }

  /** Of the checks on a resolved plan only those on template names and on the
      number of transitions can fail: the front end makes neither. */
  lemma FrontEndPlanAccepted(e: Emission, scenario: seq<ScenarioStep>, count: nat, runtimeNames: set<string>)
    requires Resolves(e) && RequestsResolved(e)
    requires PlannedOnce(e.steps, scenario) && Unbound(scenario, count)
    requires Resolved(e.steps) && 0 < |e.steps| == |e.definition.steps|
    requires (DraftIsSound(0, e.steps, scenario, count); KindsMatch(e, Draft(0, e.steps, scenario, count)))
    ensures PlanAccepted(e.definition, scenario, count, runtimeNames, e.index, 0, e.steps) <==>
            (DraftIsSound(0, e.steps, scenario, count);
             TemplatesCovered(Draft(0, e.steps, scenario, count), runtimeNames)
             && TransitionBound(e.steps) <= MAX_EXECUTION_TRANSITIONS)
  {
    DraftIsSound(0, e.steps, scenario, count);
    var p := Draft(0, e.steps, scenario, count);
    AcceptedCanvasIsWellStructured(e);
    forall a: nat | IsAssertion(p, a)
      ensures AssertionAccepted(p, e.definition.steps, e.index, a)
    {
      ChosenRequestAccepted(e, p, a);
    }
  }

  // ----- which definitions resolve

  /** Every node that leads to the engine does so without loop bodies. */
  lemma ReducedReachesEngine(c: Canvas, entry: nat, engine: nat, v: nat)
    requires GraphAccepted(c, entry, engine) && Reach(c.outgoing, v, engine)
    ensures Reach(ReducedOutgoing(c), v, engine)
  {
    var reduced := ReducedOutgoing(c);
    ReducedIsGraph(c);
    var s := set u: nat | u < |c.nodes| && Reach(reduced, u, engine);
    ReachSelf(reduced, engine, -1);
    forall a: nat, b: nat | Edge(c.outgoing, a, b) && b in s
      ensures a in s
    {
      EdgeBound(c.outgoing, a, b);
      ReducedEdge(c, a, b);
      if Edge(reduced, a, b) {
        ThenReach(reduced, a, b, engine, -1);
      } else {
        assert BodyTarget(c, a, b) && CanvasLoopBounded(c, a, b);
        ReachSplit(reduced, b, engine, a);
        NotBehindEngine(c, entry, engine, a);
      }
    }
    ReachCameFrom(c.outgoing, s, v, engine);
  }

  lemma NotBehindEngine(c: Canvas, entry: nat, engine: nat, v: nat)
    requires GraphAccepted(c, entry, engine) && v < |c.nodes| && Executable(c.nodes[v].kind)
    ensures !Reach(ReducedOutgoing(c), engine, v)
  {
    ReducedIsGraph(c);
    if Reach(ReducedOutgoing(c), engine, v) {
      ReachSubGraph(ReducedOutgoing(c), c.outgoing, engine, v, -1);
    }
  }

  lemma JoinInPlan(e: Emission, b: nat, j: nat)
    requires Emits(e) && b in e.order && JoinOf(e.c, b, j)
    ensures j in e.order
  {
    var c, reduced := e.c, ReducedOutgoing(e.c);
    assert Reach(c.outgoing, e.entry, e.engine);
    ReducedReachesEngine(c, e.entry, e.engine, b);
    ReachFirst(reduced, b, e.engine, -1);
    var t: nat :| Edge(reduced, b, t) && ReachAvoiding(reduced, t, e.engine, -1);
    ReducedEdge(c, b, t);
    assert CanvasBranchStructured(c, b, j) && CanvasRouteClosed(c, j, t);
    ReachSplit(reduced, t, e.engine, j);
    assert InRegion(c, j, t, e.engine) ==> Reach(reduced, e.engine, j);
    NotBehindEngine(c, e.entry, e.engine, j);
    ReducedIsGraph(c);
    ReachSubGraph(reduced, c.outgoing, j, e.engine, -1);
  }

  lemma TargetsInPlan(e: Emission, b: nat, t: nat)
    requires Emits(e) && b in e.order && Kind(e.c, b, BranchNode) && Edge(e.c.outgoing, b, t)
    ensures t in e.order
  {
    assert HasJoin(e.c, b);
    var j: nat :| JoinOf(e.c, b, j);
    JoinInPlan(e, b, j);
    assert CanvasBranchStructured(e.c, b, j) && CanvasRouteClosed(e.c, j, t);
    ReducedIsGraph(e.c);
    ReachSubGraph(ReducedOutgoing(e.c), e.c.outgoing, t, j, -1);
    ReachIntoPlan(e, t, j);
  }

  lemma BodyInPlan(e: Emission, l: nat)
    requires Emits(e) && l in e.order && Kind(e.c, l, LoopNode)
    ensures exists body: nat :: BodyTarget(e.c, l, body) && body in e.order
  {
    assert LoopDefined(e.c, l);
    var body: nat :| Edge(e.c.outgoing, l, body) && body < |e.c.nodes| && e.c.nodes[body].id == e.c.nodes[l].BodyID();
    assert BodyTarget(e.c, l, body) && CanvasLoopBounded(e.c, l, body);
    ReducedIsGraph(e.c);
    ReachSubGraph(ReducedOutgoing(e.c), e.c.outgoing, body, l, -1);
    ReachIntoPlan(e, body, l);
  }

  /** The limits that only the compiler checks. */
  predicate WithinLimits(e: Emission, v: nat)
    requires HasTargets(e.c, v)
  {
    match e.c.nodes[v].kind
    case BranchNode =>
      && |e.c.outgoing[v]| <= MAX_BRANCH_ROUTES
      && forall k | 0 <= k < |e.c.outgoing[v]| ::
           ValidText(RouteName(EmittedRoutes(e.c, v)[k]), MAX_NAME_BYTES)
    case JoinNode => true
    case LoopNode => true
    case _ => e.c.nodes[v].id in e.byID
  }

  lemma RouteWithinLimits(e: Emission, i: nat, k: nat)
    requires Emits(e) && i < |e.order| && Kind(e.c, e.order[i], BranchNode)
    requires HasTargets(e.c, e.order[i]) && k < |e.c.outgoing[e.order[i]]|
    ensures RouteAccepted(EmittedRoutes(e.c, e.order[i]), k, e.index) <==>
            ValidText(RouteName(EmittedRoutes(e.c, e.order[i])[k]), MAX_NAME_BYTES)
  {
    var b := e.order[i];
    var targets, routes := e.c.outgoing[b], EmittedRoutes(e.c, b);
    NodeOf(e, i);
    assert targets[k] in targets;
    TargetsInPlan(e, b, targets[k]);
    IndexOf(e, targets[k]);
    assert Distinct(targets);
  }

  lemma BranchJoinResolves(e: Emission, i: nat)
    requires Emits(e) && i < |e.order| && Kind(e.c, e.order[i], BranchNode)
    ensures var id := e.c.nodes[e.order[i]].JoinID();
            && TargetExists(id, e.index) && e.index[id] < |e.definition.steps|
            && e.definition.steps[e.index[id]].kind == JoinKind
    ensures HasTargets(e.c, e.order[i]) && |e.c.outgoing[e.order[i]]| >= 2
  {
    var b := e.order[i];
    NodeOf(e, i);
    assert OutDegreeAllowed(e.c, b) && HasJoin(e.c, b);
    var j: nat :| JoinOf(e.c, b, j);
    JoinInPlan(e, b, j);
    IndexOf(e, j);
    NodeOf(e, e.index[e.c.nodes[j].id]);
  }

  lemma BranchWithinLimits(e: Emission, i: nat)
    requires Emits(e) && i < |e.order| && Kind(e.c, e.order[i], BranchNode) && HasTargets(e.c, e.order[i])
    ensures DefinitionAccepted(e.definition.steps, i, e.index, e.byID) <==> WithinLimits(e, e.order[i])
  {
    var b := e.order[i];
    NodeOf(e, i);
    BranchJoinResolves(e, i);
    hide GraphAccepted, RouteAccepted, ExecutionOrder;
    forall k: nat | k < |e.c.outgoing[b]|
      ensures RouteAccepted(EmittedRoutes(e.c, b), k, e.index) <==>
              ValidText(RouteName(EmittedRoutes(e.c, b)[k]), MAX_NAME_BYTES)
    {
      RouteWithinLimits(e, i, k);
    }
  }

  lemma LoopResolves(e: Emission, i: nat)
    requires Emits(e) && i < |e.order| && Kind(e.c, e.order[i], LoopNode)
    ensures DefinitionAccepted(e.definition.steps, i, e.index, e.byID)
  {
    var v := e.order[i];
    NodeOf(e, i);
    BodyInPlan(e, v);
    var body: nat :| BodyTarget(e.c, v, body) && body in e.order;
    IndexOf(e, body);
    LoopExit(e.c, e.entry, e.engine, v);
    OptionalTargetIs(e, ReducedTargets(e.c, v), i);
    assert LoopDefined(e.c, v);
  }

  lemma SimpleResolves(e: Emission, i: nat)
    requires Emits(e) && i < |e.order| && HasTargets(e.c, e.order[i])
    requires !Kind(e.c, e.order[i], LoopNode) && !Kind(e.c, e.order[i], BranchNode)
    ensures DefinitionAccepted(e.definition.steps, i, e.index, e.byID) <==> WithinLimits(e, e.order[i])
  {
    var v := e.order[i];
    NodeOf(e, i);
    assert OutDegreeAllowed(e.c, v);
    OptionalTargetIs(e, e.c.outgoing[v], i);
  }

  /** An emitted definition resolves exactly when it is within the limits of
      the compiler: none of its references dangles. */
  lemma DefinitionResolves(e: Emission, i: nat)
    requires Emits(e) && i < |e.order|
    ensures HasTargets(e.c, e.order[i])
    ensures DefinitionAccepted(e.definition.steps, i, e.index, e.byID) <==> WithinLimits(e, e.order[i])
  {
    NodeOf(e, i);
    if Kind(e.c, e.order[i], BranchNode) {
      BranchWithinLimits(e, i);
    } else if Kind(e.c, e.order[i], LoopNode) {
      LoopResolves(e, i);
    } else {
      SimpleResolves(e, i);
    }
  }
}
