/** What the canvas says about routes and loops is what the compiled plan does:
    each target of a branch gets its weight, each loop its rounds. */
module DrawnPlan {
  import opened Walks
  import opened ExecutionPlan
  import opened GraphSearch
  import opened Machine
  import opened PlanDefinition
  import opened CanvasGraph
  import opened CanvasPlan
  import opened FrontEnd

  /** The weight that a branch node gives a target; without one it is 1. */
  function DrawnWeight(c: Canvas, v: nat, t: nat): int
    requires v < |c.nodes| && t < |c.nodes|
  {
    if c.nodes[t].id in c.nodes[v].weights then c.nodes[v].weights[c.nodes[t].id] else 1
  }

  predicate RouteAsDrawn(c: Canvas, order: seq<nat>, v: nat, t: nat, route: Route) {
    && v < |c.nodes| && t < |c.nodes| && route.target < |order| && order[route.target] == t
    && route.id == c.nodes[t].id && route.weight == DrawnWeight(c, v, t)
    && route.name == (if TrimSpace(c.nodes[t].title) == "" then c.nodes[t].id else TrimSpace(c.nodes[t].title))
    && route.scopeKey == c.nodes[v].id + ":" + c.nodes[t].id
  }

  predicate StepAsDrawn(c: Canvas, order: seq<nat>, v: nat, step: Step) {
    && HasTargets(c, v) && step.id == c.nodes[v].id
    && (c.nodes[v].kind.BranchNode? ==>
          && step.Branch? && |step.routes| == |c.outgoing[v]|
          && (forall k | 0 <= k < |step.routes| :: RouteAsDrawn(c, order, v, c.outgoing[v][k], step.routes[k]))
          && step.join < |order| && order[step.join] < |c.nodes| && c.nodes[order[step.join]].id == c.nodes[v].JoinID())
    && (c.nodes[v].kind.LoopNode? ==>
          && step.Loop? && step.maxIterations == c.nodes[v].maxIterations
          && step.body < |order| && order[step.body] in c.outgoing[v]
          && order[step.body] < |c.nodes| && c.nodes[order[step.body]].id == c.nodes[v].BodyID())
  }

  /** Step i of the plan does what the canvas says about the i-th node. */
  predicate AsDrawn(c: Canvas, order: seq<nat>, steps: seq<Step>) {
    |steps| == |order| && forall i | 0 <= i < |order| :: StepAsDrawn(c, order, order[i], steps[i])
  }

  /** The route that the compiler builds from the emitted one. */
  lemma CompiledRouteIs(e: Emission, i: nat, k: nat)
    requires Resolves(e) && i < |e.order| && Kind(e.c, e.order[i], BranchNode)
    requires HasTargets(e.c, e.order[i]) && k < |e.c.outgoing[e.order[i]]|
    ensures e.steps[i].Branch? && k < |e.steps[i].routes|
    ensures var definition, route := EmittedRoutes(e.c, e.order[i])[k], e.steps[i].routes[k];
            && route.id == definition.id && route.weight == definition.weight
            && route.name == RouteName(definition)
            && route.scopeKey == ScopeKey(e.c.nodes[e.order[i]].id, definition.id)
  {
    NodeOf(e, i);
    var definition := e.definition.steps[i];
    assert DefinitionAccepted(e.definition.steps, i, e.index, e.byID);
    hide GraphAccepted, ExecutionOrder, IdsAccepted, Indexes, EmittedRoutes, DefinitionAccepted;
    assert definition.routes == EmittedRoutes(e.c, e.order[i]);
    assert RouteAccepted(definition.routes, k, e.index);
    CompiledRouteAt(definition, |definition.routes|, e.index, RoutesBefore(e.definition.steps, i), k);
  }

  lemma RouteIsDrawn(e: Emission, i: nat, k: nat)
    requires Resolves(e) && i < |e.order| && e.steps[i].Branch? && k < |e.steps[i].routes|
    ensures Kind(e.c, e.order[i], BranchNode) && HasTargets(e.c, e.order[i])
    ensures |e.steps[i].routes| == |e.c.outgoing[e.order[i]]|
    ensures RouteAsDrawn(e.c, e.order, e.order[i], e.c.outgoing[e.order[i]][k], e.steps[i].routes[k])
  {
    hide Resolves;
    RouteTargetIs(e, i, k);
    KindIsCompiled(e, i);
    CompiledRouteIs(e, i, k);
    assert e.c.outgoing[e.order[i]][k] < |e.c.nodes|;
  }

  lemma KindIsCompiled(e: Emission, i: nat)
    requires Resolves(e) && i < |e.order|
    ensures HasTargets(e.c, e.order[i]) && e.steps[i].id == e.c.nodes[e.order[i]].id
    ensures Kind(e.c, e.order[i], BranchNode) ==> e.steps[i].Branch?
    ensures Kind(e.c, e.order[i], LoopNode) ==>
              e.steps[i].Loop? && e.steps[i].maxIterations == e.c.nodes[e.order[i]].maxIterations
  {
    NodeOf(e, i);
    assert DefinitionAccepted(e.definition.steps, i, e.index, e.byID);
  }

  lemma JoinIsDrawn(e: Emission, i: nat)
    requires Resolves(e) && i < |e.order| && e.steps[i].Branch?
    ensures e.order[i] < |e.c.nodes| && e.steps[i].join < |e.order| && e.order[e.steps[i].join] < |e.c.nodes|
    ensures e.c.nodes[e.order[e.steps[i].join]].id == e.c.nodes[e.order[i]].JoinID()
  {
    NodeOf(e, i);
    assert DefinitionAccepted(e.definition.steps, i, e.index, e.byID);
    NodeOf(e, e.steps[i].join);
  }

  lemma BranchIsDrawn(e: Emission, i: nat)
    requires Resolves(e) && i < |e.order| && |e.steps| == |e.order| && Kind(e.c, e.order[i], BranchNode)
    ensures StepAsDrawn(e.c, e.order, e.order[i], e.steps[i])
  {
    hide Resolves, RouteAsDrawn;
    KindIsCompiled(e, i);
    BranchTargets(e, i);
    JoinIsDrawn(e, i);
    forall k: nat | k < |e.steps[i].routes|
      ensures RouteAsDrawn(e.c, e.order, e.order[i], e.c.outgoing[e.order[i]][k], e.steps[i].routes[k])
    {
      RouteIsDrawn(e, i, k);
    }
  }

  lemma LoopIsDrawn(e: Emission, i: nat)
    requires Resolves(e) && i < |e.order| && Kind(e.c, e.order[i], LoopNode)
    ensures StepAsDrawn(e.c, e.order, e.order[i], e.steps[i])
  {
    KindIsCompiled(e, i);
    LoopBodyIs(e, i);
  }

  /** Whatever is emitted for a canvas and resolved does what the canvas says. */
  lemma PlanIsAsDrawn(e: Emission)
    requires Resolves(e)
    ensures AsDrawn(e.c, e.order, e.steps)
  {
    hide Resolves, StepAsDrawn;
    PlanFacts(e);
    forall i: nat | i < |e.order|
      ensures StepAsDrawn(e.c, e.order, e.order[i], e.steps[i])
    {
      if Kind(e.c, e.order[i], BranchNode) {
        BranchIsDrawn(e, i);
      } else if Kind(e.c, e.order[i], LoopNode) {
        LoopIsDrawn(e, i);
      } else {
        OtherIsDrawn(e, i);
      }
    }
  }

  lemma OtherIsDrawn(e: Emission, i: nat)
    requires Resolves(e) && i < |e.order|
    requires !Kind(e.c, e.order[i], BranchNode) && !Kind(e.c, e.order[i], LoopNode)
    ensures StepAsDrawn(e.c, e.order, e.order[i], e.steps[i])
  {
    KindIsCompiled(e, i);
  }

  // ----- weights and selections

  /** The residues of the selection value that lead from step b to node t. */
  ghost function ResiduesTo(order: seq<nat>, steps: seq<Step>, b: nat, t: nat): set<nat>
    requires Resolved(steps) && IsBranch(steps, b)
    requires steps[b].routes != [] && steps[b].routeWeight > 0
    requires forall k | 0 <= k < |steps[b].routes| :: steps[b].routes[k].target < |order|
  {
    set x: nat | x < steps[b].routeWeight && order[steps[b].routes[SelectRoute(steps[b], x)].target] == t
  }

  ghost function Interval(lo: nat, hi: nat): set<nat> {
    set x: nat | x < hi && Below(x, hi) && lo <= x
  }

  lemma {:induction false} IntervalSize(lo: nat, hi: nat)
    requires lo <= hi
    ensures |Interval(lo, hi)| == hi - lo
    decreases hi
  {
    if lo < hi {
      IntervalSize(lo, hi - 1);
      assert Interval(lo, hi) == Interval(lo, hi - 1) + {hi - 1};
    } else {
      assert Interval(lo, hi) == {};
    }
  }

  lemma WeightWithinTotal(step: Step, k: nat)
    requires step.Branch? && SumsTo(step.routes, step.routeWeight) && k < |step.routes|
    ensures WeightBefore(step.routes, k) + step.routes[k].weight <= step.routeWeight
  {
    TotalWeight(step.routes, step.routeWeight);
    WeightsIncrease(step.routes, k + 1, |step.routes|);
  }

  lemma RoutesAreDrawn(c: Canvas, order: seq<nat>, steps: seq<Step>, b: nat)
    requires AsDrawn(c, order, steps) && Resolved(steps) && b < |steps| && Kind(c, order[b], BranchNode)
    ensures HasTargets(c, order[b]) && IsBranch(steps, b) && |steps[b].routes| == |c.outgoing[order[b]]|
    ensures steps[b].routes != [] && steps[b].routeWeight > 0 && SumsTo(steps[b].routes, steps[b].routeWeight)
    ensures forall k | 0 <= k < |steps[b].routes| ::
              && c.outgoing[order[b]][k] < |c.nodes|
              && steps[b].routes[k].target < |order|
              && order[steps[b].routes[k].target] == c.outgoing[order[b]][k]
              && steps[b].routes[k].weight == DrawnWeight(c, order[b], c.outgoing[order[b]][k])
  {
    hide Resolved, SumsTo;
    assert StepAsDrawn(c, order, order[b], steps[b]);
    BranchWeight(steps, b);
    BranchSums(steps, b);
    forall k | 0 <= k < |steps[b].routes|
      ensures RouteAsDrawn(c, order, order[b], c.outgoing[order[b]][k], steps[b].routes[k])
    {
    }
  }

  lemma BranchSums(steps: seq<Step>, b: nat)
    requires Resolved(steps) && IsBranch(steps, b)
    ensures SumsTo(steps[b].routes, steps[b].routeWeight)
  {
    assert StepResolved(steps, b);
  }

  /** The routes of a branch lead to these nodes, all different. */
  ghost predicate LeadsTo(order: seq<nat>, step: Step, targets: seq<nat>)
    requires step.Branch?
  {
    && |step.routes| == |targets| && Distinct(targets)
    && forall j | 0 <= j < |targets| :: step.routes[j].target < |order| && order[step.routes[j].target] == targets[j]
  }

  lemma ResidueLeads(order: seq<nat>, step: Step, k: nat, targets: seq<nat>, x: nat)
    requires step.Branch? && SumsTo(step.routes, step.routeWeight) && step.routes != [] && x < step.routeWeight
    requires LeadsTo(order, step, targets) && k < |targets|
    ensures order[step.routes[SelectRoute(step, x)].target] == targets[k] <==>
            WeightBefore(step.routes, k) <= x < WeightBefore(step.routes, k) + step.routes[k].weight
  {
    hide SumsTo;
    SmallResidue(x, step.routeWeight);
    SelectionIsProportional(step, x, k);
    assert order[step.routes[SelectRoute(step, x)].target] == targets[SelectRoute(step, x)];
  }

  /** The residues that pick route k are those in its interval of weights. */
  lemma ResiduesAreInterval(order: seq<nat>, steps: seq<Step>, b: nat, k: nat, targets: seq<nat>)
    requires Resolved(steps) && IsBranch(steps, b) && SumsTo(steps[b].routes, steps[b].routeWeight)
    requires steps[b].routes != [] && steps[b].routeWeight > 0
    requires LeadsTo(order, steps[b], targets) && k < |targets|
    ensures var start := WeightBefore(steps[b].routes, k);
            ResiduesTo(order, steps, b, targets[k]) == Interval(start, start + steps[b].routes[k].weight)
  {
    hide Resolved, SumsTo, WeightBefore, SelectRoute, Distinct;
    var step := steps[b];
    var start, weight := WeightBefore(step.routes, k), step.routes[k].weight;
    WeightWithinTotal(step, k);
    forall x: nat
      ensures x in ResiduesTo(order, steps, b, targets[k]) <==> x in Interval(start, start + weight)
    {
      if x < step.routeWeight {
        ResidueLeads(order, step, k, targets, x);
      }
    }
  }

  /** A target is chosen for as many residues as its weight on the canvas. */
  lemma SelectionsFollowWeights(c: Canvas, order: seq<nat>, steps: seq<Step>, b: nat, k: nat)
    requires AsDrawn(c, order, steps) && Resolved(steps) && b < |steps| && Kind(c, order[b], BranchNode)
    requires HasTargets(c, order[b]) && Distinct(c.outgoing[order[b]]) && k < |c.outgoing[order[b]]|
    ensures IsBranch(steps, b) && steps[b].routes != [] && steps[b].routeWeight > 0
    ensures forall j | 0 <= j < |steps[b].routes| :: steps[b].routes[j].target < |order|
    ensures c.outgoing[order[b]][k] < |c.nodes|
    ensures |ResiduesTo(order, steps, b, c.outgoing[order[b]][k])|
         == DrawnWeight(c, order[b], c.outgoing[order[b]][k])
  {
    hide Resolved, SumsTo, StepAsDrawn, Distinct, ResiduesTo, Interval, DrawnWeight;
    RoutesAreDrawn(c, order, steps, b);
    ResiduesAreInterval(order, steps, b, k, c.outgoing[order[b]]);
    var start := WeightBefore(steps[b].routes, k);
    IntervalSize(start, start + steps[b].routes[k].weight);
  }
}
