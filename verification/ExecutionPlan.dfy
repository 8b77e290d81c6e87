/** Compiled execution plans: their steps, the two graphs the compiler reads
    from them, and what it means for the graph checks to pass. */
module ExecutionPlan {
  import opened Walks

  const MAX_EXECUTION_PLAN_STEPS: nat := 1024
  const MAX_BRANCH_ROUTES: nat := 32
  const MAX_BRANCH_ROUTE_WEIGHT: nat := 1000000
  const MAX_LOOP_ITERATIONS: nat := 1000
  const MAX_EXECUTION_TRANSITIONS: nat := 100000

  datatype Route = Route(id: string, name: string, target: nat, weight: nat, metricsIndex: nat, scopeKey: string)

  /** `next` and `exit` are -1 when the plan ends there. */
  datatype Step =
    | Scenario(id: string, scenarioIndex: nat, next: int)
    | Branch(id: string, routes: seq<Route>, routeWeight: nat, join: nat)
    | Join(id: string, next: int)
    | Loop(id: string, body: nat, exit: int, maxIterations: nat)

  function RouteTargets(routes: seq<Route>): seq<nat> {
    seq(|routes|, i requires 0 <= i < |routes| => routes[i].target)
  }

  function Optional(target: int): seq<nat> {
    if target >= 0 then [target] else []
  }

  function Successors(step: Step, removeLoopBodies: bool): seq<nat> {
    match step
    case Scenario(_, _, next) => Optional(next)
    case Branch(_, routes, _, _) => RouteTargets(routes)
    case Join(_, next) => Optional(next)
    case Loop(_, body, exit, _) => (if removeLoopBodies then [] else [body]) + Optional(exit)
  }

  function Graph(steps: seq<Step>, removeLoopBodies: bool): (adj: Adjacency)
    ensures |adj| == |steps|
  {
    seq(|steps|, i requires 0 <= i < |steps| => Successors(steps[i], removeLoopBodies))
  }

  /** Every transition a run can make. */
  function Full(steps: seq<Step>): (adj: Adjacency)
    ensures |adj| == |steps|
  {
    Graph(steps, false)
  }

  /** The transitions without those into loop bodies. */
  function Reduced(steps: seq<Step>): (adj: Adjacency)
    ensures |adj| == |steps|
  {
    Graph(steps, true)
  }

  predicate SumsTo(routes: seq<Route>, total: nat) {
    if routes == [] then total == 0
    else routes[|routes| - 1].weight <= total
         && SumsTo(routes[..|routes| - 1], total - routes[|routes| - 1].weight)
  }

  predicate OptionalInRange(target: int, n: nat) {
    -1 <= target < n
  }

  predicate BranchResolved(steps: seq<Step>, b: nat)
    requires b < |steps| && steps[b].Branch?
  {
    && 2 <= |steps[b].routes| <= MAX_BRANCH_ROUTES
    && (forall k | 0 <= k < |steps[b].routes| ::
          steps[b].routes[k].target < |steps| && 1 <= steps[b].routes[k].weight <= MAX_BRANCH_ROUTE_WEIGHT)
    && SumsTo(steps[b].routes, steps[b].routeWeight)
    && steps[b].join < |steps| && steps[steps[b].join].Join?
  }

  predicate StepResolved(steps: seq<Step>, i: nat)
    requires i < |steps|
  {
    match steps[i]
    case Scenario(_, _, next) => OptionalInRange(next, |steps|)
    case Branch(_, _, _, _) => BranchResolved(steps, i)
    case Join(_, next) => OptionalInRange(next, |steps|)
    case Loop(_, body, exit, maxIterations) =>
      body < |steps| && OptionalInRange(exit, |steps|) && 1 <= maxIterations <= MAX_LOOP_ITERATIONS
  }

  /** What resolving the definitions guarantees before any graph check. */
  predicate Resolved(steps: seq<Step>) {
    |steps| <= MAX_EXECUTION_PLAN_STEPS && forall i: nat | i < |steps| :: StepResolved(steps, i)
  }

  predicate IsBranch(steps: seq<Step>, b: int) {
    0 <= b < |steps| && steps[b].Branch?
  }

  predicate IsLoop(steps: seq<Step>, l: int) {
    0 <= l < |steps| && steps[l].Loop?
  }

  predicate IsRoute(steps: seq<Step>, b: int, k: int) {
    IsBranch(steps, b) && 0 <= k < |steps[b].routes|
  }

  function Target(steps: seq<Step>, b: nat, k: nat): nat
    requires IsRoute(steps, b, k)
  {
    steps[b].routes[k].target
  }

  // ----- the checks, declaratively

  /** v lies in the body region of loop l: reached from the body before l is. */
  ghost predicate InBody(steps: seq<Step>, l: nat, v: nat)
    requires IsLoop(steps, l)
  {
    ReachAvoiding(Reduced(steps), steps[l].body, v, l)
  }

  /** v lies in the region of route k of branch b, loop bodies left aside. */
  ghost predicate InRoute(steps: seq<Step>, b: nat, k: nat, v: nat)
    requires IsRoute(steps, b, k)
  {
    ReachAvoiding(Reduced(steps), Target(steps, b, k), v, steps[b].join)
  }

  ghost predicate LoopBounded(steps: seq<Step>, l: nat)
    requires IsLoop(steps, l)
  {
    && Reach(Reduced(steps), steps[l].body, l)
    && (forall v: nat | InBody(steps, l, v) :: Reach(Reduced(steps), v, l) && !IsLoop(steps, v))
    && (steps[l].exit >= 0 ==> !InBody(steps, l, steps[l].exit) && steps[l].exit != l)
  }

  ghost predicate LoopsBounded(steps: seq<Step>) {
    && Acyclic(Reduced(steps))
    && (forall l: nat {:trigger LoopBounded(steps, l)} | IsLoop(steps, l) :: LoopBounded(steps, l))
  }

  ghost predicate RouteClosed(steps: seq<Step>, b: nat, k: nat)
    requires IsRoute(steps, b, k)
  {
    && Reach(Reduced(steps), Target(steps, b, k), steps[b].join)
    && (forall v: nat | InRoute(steps, b, k, v) ::
          && Reach(Reduced(steps), v, steps[b].join)
          && (IsBranch(steps, v) ==> InRoute(steps, b, k, steps[v].join)))
  }

  ghost predicate RoutesDisjoint(steps: seq<Step>, b: nat)
    requires IsBranch(steps, b)
  {
    forall j: nat, k: nat, v: nat | IsRoute(steps, b, j) && IsRoute(steps, b, k)
      && InRoute(steps, b, j, v) && InRoute(steps, b, k, v) :: j == k
  }

  ghost predicate BranchStructured(steps: seq<Step>, b: nat)
    requires IsBranch(steps, b)
  {
    && (forall k: nat | IsRoute(steps, b, k) :: RouteClosed(steps, b, k))
    && RoutesDisjoint(steps, b)
  }

  ghost predicate Owned(steps: seq<Step>, j: nat) {
    exists b: nat :: IsBranch(steps, b) && steps[b].join == j
  }

  /** A join belongs to exactly one branch. */
  ghost predicate JoinsOwned(steps: seq<Step>) {
    && (forall b: nat, d: nat | IsBranch(steps, b) && IsBranch(steps, d) && steps[b].join == steps[d].join :: b == d)
    && (forall j: nat {:trigger Owned(steps, j)} | j < |steps| && steps[j].Join? :: Owned(steps, j))
  }

  ghost predicate BranchesStructured(steps: seq<Step>) {
    && JoinsOwned(steps)
    && (forall b: nat {:trigger BranchStructured(steps, b)} | IsBranch(steps, b) :: BranchStructured(steps, b))
  }

  ghost predicate AllReachable(steps: seq<Step>, entry: nat) {
    forall v: nat | v < |steps| :: Reach(Full(steps), entry, v)
  }

  /** The graph part of what the compiler accepts. */
  ghost predicate WellStructured(steps: seq<Step>, entry: nat) {
    && Resolved(steps)
    && entry < |steps| && steps[entry].Scenario?
    && AllReachable(steps, entry)
    && LoopsBounded(steps)
    && BranchesStructured(steps)
  }

  // ----- the static transition bound

  ghost function BodyRegion(steps: seq<Step>, l: nat): (region: set<nat>)
    requires IsLoop(steps, l)
  {
    set v: nat | v < |steps| && InBody(steps, l, v)
  }

  /** How many transitions step i contributes to the bound. */
  ghost function StepCost(steps: seq<Step>, i: nat): nat
    requires i < |steps|
  {
    if steps[i].Loop? then 1 + steps[i].maxIterations * (|BodyRegion(steps, i)| + 1) else 1
  }

  ghost function CostWithin(steps: seq<Step>, s: set<nat>, n: nat): nat
    requires n <= |steps|
  {
    if n == 0 then 0
    else CostWithin(steps, s, n - 1) + if n - 1 in s then StepCost(steps, n - 1) else 0
  }

  /** The bound of a whole plan. */
  ghost function TransitionBound(steps: seq<Step>): nat {
    CostWithin(steps, Nodes(|steps|), |steps|)
  }

  // ----- basic facts about the graphs

  lemma GraphsWellFormed(steps: seq<Step>)
    requires Resolved(steps)
    ensures WellFormed(Full(steps)) && WellFormed(Reduced(steps))
    ensures SubGraph(Reduced(steps), Full(steps))
  {
    forall u, k, remove: bool | 0 <= u < |steps| && 0 <= k < |Successors(steps[u], remove)|
      ensures Successors(steps[u], remove)[k] < |steps|
    {
      assert StepResolved(steps, u);
    }
    forall u: nat, v: nat | Edge(Reduced(steps), u, v)
      ensures Edge(Full(steps), u, v)
    {
      assert v in Successors(steps[u], true);
      if steps[u].Loop? {
        assert Successors(steps[u], false) == [steps[u].body] + Successors(steps[u], true);
      }
    }
  }

  /** The full graph adds the body edges of loops and nothing else. */
  lemma FullEdge(steps: seq<Step>, u: nat, v: nat)
    requires Resolved(steps)
    ensures Edge(Full(steps), u, v) <==>
            Edge(Reduced(steps), u, v) || (IsLoop(steps, u) && steps[u].body == v)
  {
    if u < |steps| && steps[u].Loop? {
      assert Successors(steps[u], false) == [steps[u].body] + Successors(steps[u], true);
    }
  }

  lemma RouteEdge(steps: seq<Step>, b: nat, v: nat)
    requires Resolved(steps) && IsBranch(steps, b)
    ensures Edge(Reduced(steps), b, v) <==> exists k: nat :: IsRoute(steps, b, k) && Target(steps, b, k) == v
  {
    var targets := RouteTargets(steps[b].routes);
    if v in targets {
      var k :| 0 <= k < |targets| && targets[k] == v;
      assert IsRoute(steps, b, k) && Target(steps, b, k) == v;
    }
    if k: nat :| IsRoute(steps, b, k) && Target(steps, b, k) == v {
      assert targets[k] == v;
    }
  }

  lemma LoopEdge(steps: seq<Step>, l: nat, v: nat)
    requires Resolved(steps) && IsLoop(steps, l)
    ensures Edge(Reduced(steps), l, v) <==> steps[l].exit >= 0 && steps[l].exit == v
  {
  }

  lemma NextEdge(steps: seq<Step>, u: nat, v: nat)
    requires Resolved(steps) && u < |steps| && (steps[u].Scenario? || steps[u].Join?)
    ensures Edge(Reduced(steps), u, v) <==> steps[u].next >= 0 && steps[u].next == v
  {
  }
}
