/** The validation of the front end: it accepts exactly the canvases that meet
    its conditions. */
module CanvasChecks {
  import opened Walks
  import opened ExecutionPlan
  import opened GraphSearch
  import opened CanvasGraph
  import opened CanvasPlan
  import PlanChecks
  import opened PlanDefinition

  // ----- nodes and connections

  method NoSelfCycle(c: Canvas) returns (ok: bool)
    requires Valid(c)
    ensures ok <==> forall v: nat :: !Edge(c.outgoing, v, v)
  {
    for v := 0 to |c.nodes|
      invariant forall u: nat | u < v :: !Edge(c.outgoing, u, u)
    {
      if v in c.outgoing[v] {
        assert Edge(c.outgoing, v, v);
        return false;
      }
    }
    return true;
  }

  method OutDegrees(c: Canvas) returns (ok: bool)
    requires Valid(c)
    ensures ok <==> DegreesAllowed(c)
  {
    for v := 0 to |c.nodes|
      invariant forall u: nat | u < v :: OutDegreeAllowed(c, u)
    {
      if !OutDegreeAllowed(c, v) {
        return false;
      }
    }
    return true;
  }

  /** Whether a list names two different nodes. */
  method TwoDifferent(list: seq<nat>) returns (two: bool)
    ensures two <==> exists u, w :: u in list && w in list && u != w
  {
    for k := 0 to |list|
      invariant forall j | 0 <= j < k :: list[j] == list[0]
    {
      if list[k] != list[0] {
        assert list[k] in list && list[0] in list;
        return true;
      }
    }
    return false;
  }

  method SourcesOf(c: Canvas, incoming: Adjacency, v: nat) returns (some: bool, two: bool)
    requires Valid(c) && Reverses(incoming, c.outgoing) && WellFormed(incoming) && v < |c.nodes|
    ensures some <==> HasSource(c, v)
    ensures two <==> TwoSources(c, v)
  {
    assert forall u: nat :: u in incoming[v] <==> Edge(c.outgoing, u, v) by {
      forall u: nat
        ensures u in incoming[v] <==> Edge(c.outgoing, u, v)
      {
        assert Edge(incoming, v, u) <==> Edge(c.outgoing, u, v);
      }
    }
    some := |incoming[v]| > 0;
    if some {
      assert incoming[v][0] in incoming[v];
      assert Edge(c.outgoing, incoming[v][0], v);
    }
    two := TwoDifferent(incoming[v]);
    if two {
      var u, w :| u in incoming[v] && w in incoming[v] && u != w;
      assert Edge(c.outgoing, u, v) && Edge(c.outgoing, w, v);
    }
  }

  ghost predicate MergesAllowed(c: Canvas) {
    forall v: nat {:trigger TwoSources(c, v)} | v < |c.nodes| ::
      && (TwoSources(c, v) ==> Kind(c, v, JoinNode) || Kind(c, v, LoopNode))
      && (Kind(c, v, JoinNode) ==> TwoSources(c, v))
  }

  method InDegrees(c: Canvas, incoming: Adjacency) returns (ok: bool)
    requires Valid(c) && Reverses(incoming, c.outgoing) && WellFormed(incoming)
    ensures ok <==> MergesAllowed(c)
  {
    for v := 0 to |c.nodes|
      invariant forall u: nat {:trigger TwoSources(c, u)} | u < v ::
                  && (TwoSources(c, u) ==> Kind(c, u, JoinNode) || Kind(c, u, LoopNode))
                  && (Kind(c, u, JoinNode) ==> TwoSources(c, u))
    {
      var some, two := SourcesOf(c, incoming, v);
      var kind := c.nodes[v].kind;
      if (two && !kind.JoinNode? && !kind.LoopNode?) || (kind.JoinNode? && !two) {
        return false;
      }
    }
    return true;
  }

  ghost predicate IsEntry(c: Canvas, entry: nat) {
    entry < |c.nodes| && forall v: nat {:trigger HasSource(c, v)} | v < |c.nodes| :: HasSource(c, v) <==> v != entry
  }

  /** The only node without sources. */
  method FindEntry(c: Canvas, incoming: Adjacency) returns (ok: bool, entry: nat)
    requires Valid(c) && Reverses(incoming, c.outgoing) && WellFormed(incoming)
    ensures ok ==> IsEntry(c, entry)
    ensures !ok ==> forall e: nat :: !IsEntry(c, e)
  {
    ok, entry := false, 0;
    for v := 0 to |c.nodes|
      invariant ok ==> entry < v && !HasSource(c, entry)
      invariant forall u: nat {:trigger HasSource(c, u)} | u < v :: HasSource(c, u) <==> !(ok && u == entry)
    {
      var some, two := SourcesOf(c, incoming, v);
      if !some {
        if ok {
          forall e: nat
            ensures !IsEntry(c, e)
          {
            assert !HasSource(c, v) && !HasSource(c, entry) && v != entry;
          }
          return false, entry;
        }
        ok, entry := true, v;
      }
    }
    forall e: nat | !ok
      ensures !IsEntry(c, e)
    {
      assert e < |c.nodes| ==> HasSource(c, e);
    }
  }

  ghost predicate IsTerminal(c: Canvas, terminal: nat)
    requires Valid(c)
  {
    terminal < |c.nodes|
    && forall v: nat {:trigger c.outgoing[v]} | v < |c.nodes| :: c.outgoing[v] == [] <==> v == terminal
  }

  /** The only node without targets. */
  method FindTerminal(c: Canvas) returns (ok: bool, terminal: nat)
    requires Valid(c)
    ensures ok ==> IsTerminal(c, terminal)
    ensures !ok ==> forall t: nat :: !IsTerminal(c, t)
  {
    ok, terminal := false, 0;
    for v := 0 to |c.nodes|
      invariant ok ==> terminal < v && c.outgoing[terminal] == []
      invariant forall u: nat {:trigger c.outgoing[u]} | u < v :: c.outgoing[u] == [] <==> ok && u == terminal
    {
      if c.outgoing[v] == [] {
        if ok {
          forall t: nat
            ensures !IsTerminal(c, t)
          {
            assert c.outgoing[v] == [] && c.outgoing[terminal] == [];
          }
          return false, terminal;
        }
        ok, terminal := true, v;
      }
    }
    forall t: nat | !ok
      ensures !IsTerminal(c, t)
    {
      assert t < |c.nodes| ==> c.outgoing[t] != [];
    }
  }

  /** The first node of a kind, and whether there is another. */
  method FindKind(c: Canvas, kind: NodeKind) returns (some: bool, first: nat, more: bool)
    ensures some ==> Kind(c, first, kind)
    ensures some <==> SomeNode(c, kind)
    ensures !more <==> AtMostOne(c, kind)
  {
    some, first, more := false, 0, false;
    ghost var second: nat := 0;
    for v := 0 to |c.nodes|
      invariant some ==> first < v && Kind(c, first, kind)
      invariant !some ==> !more && forall u: nat | u < v :: !Kind(c, u, kind)
      invariant more ==> some && second != first && Kind(c, second, kind)
      invariant !more ==> forall u: nat | u < v && Kind(c, u, kind) :: u == first
    {
      if c.nodes[v].kind == kind {
        if some {
          more, second := true, v;
        } else {
          some, first := true, v;
        }
      }
    }
  }

  /** The node called id, as the front end looks it up. */
  method FindNode(c: Canvas, id: string) returns (some: bool, node: nat)
    ensures some ==> node < |c.nodes| && c.nodes[node].id == id
    ensures !some ==> forall v: nat | v < |c.nodes| :: c.nodes[v].id != id
  {
    for v := 0 to |c.nodes|
      invariant forall u: nat | u < v :: c.nodes[u].id != id
    {
      if c.nodes[v].id == id {
        return true, v;
      }
    }
    return false, 0;
  }

  method AnyControl(c: Canvas) returns (some: bool)
    ensures some <==> exists v: nat :: v < |c.nodes| && Control(c.nodes[v].kind)
  {
    for v := 0 to |c.nodes|
      invariant forall u: nat | u < v :: !Control(c.nodes[u].kind)
    {
      if Control(c.nodes[v].kind) {
        return true;
      }
    }
    return false;
  }

  // ----- loops

  method LoopDefinitions(c: Canvas) returns (ok: bool)
    requires Valid(c)
    ensures ok <==> forall l: nat | Kind(c, l, LoopNode) :: LoopDefined(c, l)
  {
    for l := 0 to |c.nodes|
      invariant forall u: nat | u < l && Kind(c, u, LoopNode) :: LoopDefined(c, u)
    {
      var node := c.nodes[l];
      if node.kind != LoopNode {
        continue;
      }
      var some, body := FindNode(c, node.BodyID());
      if node.BodyID() == "" || !some || body !in c.outgoing[l] || !(1 <= node.maxIterations <= MAX_LOOP_ITERATIONS) {
        assert Kind(c, l, LoopNode) && !LoopDefined(c, l) by {
          if TargetNamed(c, l, node.BodyID()) {
            var t: nat :| Edge(c.outgoing, l, t) && t < |c.nodes| && c.nodes[t].id == node.BodyID();
            assert some && t == body;
          }
        }
        return false;
      }
      assert Edge(c.outgoing, l, body);
    }
    return true;
  }

  method ReduceConnections(c: Canvas) returns (reduced: Adjacency)
    requires Valid(c)
    ensures reduced == ReducedOutgoing(c)
  {
    reduced := [];
    for v := 0 to |c.nodes|
      invariant |reduced| == v
      invariant forall u: nat | u < v :: reduced[u] == ReducedTargets(c, u)
    {
      reduced := reduced + [ReducedTargets(c, v)];
    }
  }

  method LoopBodyBounded(c: Canvas, l: nat, body: nat, reduced: Adjacency, reverse: Adjacency) returns (ok: bool)
    requires Valid(c) && l < |c.nodes| && body < |c.nodes|
    requires reduced == ReducedOutgoing(c) && WellFormed(reduced)
    requires Reverses(reverse, reduced) && WellFormed(reverse)
    ensures ok <==> CanvasLoopBounded(c, l, body)
  {
    var canReachLoop := ReverseReachable(l, reverse, reduced);
    if !canReachLoop[body] {
      return false;
    }
    var region := ForwardUntil(body, l, reduced);
    var rest := region;
    while rest != {}
      invariant rest <= region
      invariant forall v | v in region - rest :: Reach(reduced, v, l) && !Kind(c, v, LoopNode)
      decreases rest
    {
      var v :| v in rest;
      ReachEnds(reduced, body, v, l);
      if !canReachLoop[v] || c.nodes[v].kind.LoopNode? {
        assert ReachAvoiding(reduced, body, v, l);
        return false;
      }
      rest := rest - {v};
    }
    for k := 0 to |reduced[l]|
      invariant forall j: nat | j < k :: reduced[l][j] !in region
    {
      if reduced[l][k] in region {
        assert Edge(reduced, l, reduced[l][k]);
        return false;
      }
    }
    return true;
  }

  ghost predicate BodiesBounded(c: Canvas)
    requires Valid(c)
  {
    forall l: nat, body: nat | BodyTarget(c, l, body) :: CanvasLoopBounded(c, l, body)
  }

  method LoopBodies(c: Canvas, reduced: Adjacency, reverse: Adjacency) returns (ok: bool)
    requires Valid(c) && reduced == ReducedOutgoing(c) && WellFormed(reduced)
    requires Reverses(reverse, reduced) && WellFormed(reverse)
    ensures ok <==> BodiesBounded(c)
  {
    for l := 0 to |c.nodes|
      invariant forall u: nat, body: nat | u < l && BodyTarget(c, u, body) :: CanvasLoopBounded(c, u, body)
    {
      if c.nodes[l].kind != LoopNode {
        continue;
      }
      var some, body := FindNode(c, c.nodes[l].BodyID());
      if some && body in c.outgoing[l] {
        assert BodyTarget(c, l, body);
        var bounded := LoopBodyBounded(c, l, body, reduced, reverse);
        if !bounded {
          return false;
        }
      }
    }
    return true;
  }

  // ----- branches

  ghost predicate RouteReturns(c: Canvas, j: nat, target: nat)
    requires Valid(c)
  {
    && Reach(ReducedOutgoing(c), target, j)
    && (forall v: nat | InRegion(c, j, target, v) :: Reach(ReducedOutgoing(c), v, j))
  }

  ghost predicate NestedInside(c: Canvas, j: nat, target: nat)
    requires Valid(c)
  {
    forall v: nat, nested: nat | InRegion(c, j, target, v) && JoinOf(c, v, nested) :: InRegion(c, j, target, nested)
  }

  ghost predicate IsRegion(c: Canvas, j: nat, target: nat, region: set<nat>)
    requires Valid(c)
  {
    forall v: nat :: v in region <==> InRegion(c, j, target, v)
  }

  ghost predicate AreRegions(c: Canvas, b: nat, j: nat, regions: seq<set<nat>>)
    requires Valid(c) && b < |c.nodes|
  {
    |regions| <= |c.outgoing[b]| && forall k: nat | k < |regions| :: IsRegion(c, j, c.outgoing[b][k], regions[k])
  }

  method RouteRegion(c: Canvas, j: nat, target: nat, reduced: Adjacency, canReachJoin: seq<bool>)
    returns (ok: bool, region: set<nat>)
    requires Valid(c) && j < |c.nodes| && target < |c.nodes|
    requires reduced == ReducedOutgoing(c) && WellFormed(reduced) && |canReachJoin| == |reduced|
    requires forall v: nat | v < |reduced| :: canReachJoin[v] <==> Reach(reduced, v, j)
    ensures ok <==> RouteReturns(c, j, target) && NestedInside(c, j, target)
    ensures ok ==> IsRegion(c, j, target, region)
  {
    if !canReachJoin[target] {
      return false, {};
    }
    region := ForwardUntil(target, j, reduced);
    assert IsRegion(c, j, target, region);
    var rest := region;
    while rest != {}
      invariant rest <= region
      invariant forall v | v in region - rest :: Reach(reduced, v, j)
      invariant forall v: nat, nested: nat | v in region - rest && JoinOf(c, v, nested) :: nested in region
      decreases rest
    {
      var v :| v in rest;
      ReachEnds(reduced, target, v, j);
      if !canReachJoin[v] {
        assert InRegion(c, j, target, v);
        return false, region;
      }
      if c.nodes[v].kind.BranchNode? {
        var some, nested := FindNode(c, c.nodes[v].JoinID());
        if c.nodes[v].JoinID() != "" && some && c.nodes[nested].kind.JoinNode? && nested !in region {
          assert InRegion(c, j, target, v) && JoinOf(c, v, nested) && !InRegion(c, j, target, nested);
          return false, region;
        }
      }
      rest := rest - {v};
    }
    return true, region;
  }

  lemma DisjointRegions(c: Canvas, b: nat, j: nat, regions: seq<set<nat>>)
    requires Valid(c) && b < |c.nodes| && AreRegions(c, b, j, regions) && |regions| == |c.outgoing[b]|
    ensures (forall i, k | 0 <= i < k < |regions| :: regions[i] !! regions[k]) <==>
            (forall s: nat, t: nat, v: nat | Edge(c.outgoing, b, s) && Edge(c.outgoing, b, t)
               && InRegion(c, j, s, v) && InRegion(c, j, t, v) :: s == t)
  {
    var targets := c.outgoing[b];
    if forall i, k | 0 <= i < k < |regions| :: regions[i] !! regions[k] {
      forall s: nat, t: nat, v: nat | Edge(c.outgoing, b, s) && Edge(c.outgoing, b, t)
        && InRegion(c, j, s, v) && InRegion(c, j, t, v)
        ensures s == t
      {
        var i: nat :| i < |targets| && targets[i] == s;
        var k: nat :| k < |targets| && targets[k] == t;
        assert IsRegion(c, j, targets[i], regions[i]) && IsRegion(c, j, targets[k], regions[k]);
        assert v in regions[i] && v in regions[k];
      }
    }
    if !(forall i, k | 0 <= i < k < |regions| :: regions[i] !! regions[k]) {
      var i: nat, k: nat :| i < k < |regions| && !(regions[i] !! regions[k]);
      var v :| v in regions[i] && v in regions[k];
      assert IsRegion(c, j, targets[i], regions[i]) && IsRegion(c, j, targets[k], regions[k]);
      assert Edge(c.outgoing, b, targets[i]) && Edge(c.outgoing, b, targets[k]) && targets[i] != targets[k];
    }
  }

  method BranchRoutes(c: Canvas, b: nat, j: nat, reduced: Adjacency, reverse: Adjacency) returns (ok: bool)
    requires Valid(c) && b < |c.nodes| && j < |c.nodes|
    requires reduced == ReducedOutgoing(c) && WellFormed(reduced)
    requires Reverses(reverse, reduced) && WellFormed(reverse)
    ensures ok <==> CanvasBranchStructured(c, b, j)
  {
    var canReachJoin := ReverseReachable(j, reverse, reduced);
    var regions: seq<set<nat>> := [];
    for k := 0 to |c.outgoing[b]|
      invariant |regions| == k && AreRegions(c, b, j, regions)
      invariant forall i: nat | i < k :: CanvasRouteClosed(c, j, c.outgoing[b][i])
    {
      var target := c.outgoing[b][k];
      var closed, region := RouteRegion(c, j, target, reduced, canReachJoin);
      if !closed {
        assert Edge(c.outgoing, b, target) && !CanvasRouteClosed(c, j, target);
        return false;
      }
      regions := regions + [region];
    }
    DisjointRegions(c, b, j, regions);
    var verdict := PlanChecks.RegionsOverlap(b, regions);
    return verdict.Passed?;
  }

  ghost predicate OwnersBelow(c: Canvas, owners: map<nat, nat>, n: nat) {
    && (forall b: nat | b < n && Kind(c, b, BranchNode) :: HasJoin(c, b))
    && (forall b: nat, j: nat | b < n && JoinOf(c, b, j) :: j in owners && owners[j] == b)
    && (forall j: nat | j in owners :: owners[j] < n && JoinOf(c, owners[j], j))
  }

  ghost predicate RoutesStructured(c: Canvas)
    requires Valid(c)
  {
    forall b: nat, j: nat | JoinOf(c, b, j) :: CanvasBranchStructured(c, b, j)
  }

  lemma OwnersGrow(c: Canvas, owners: map<nat, nat>, b: nat, j: nat)
    requires Valid(c) && OwnersBelow(c, owners, b) && JoinOf(c, b, j) && j !in owners
    ensures OwnersBelow(c, owners[j := b], b + 1)
  {
    assert HasJoin(c, b);
    forall d: nat, i: nat | d < b + 1 && JoinOf(c, d, i)
      ensures i in owners[j := b] && owners[j := b][i] == d
    {
      assert d == b ==> c.nodes[i].id == c.nodes[j].id;
    }
  }

  lemma SharedJoin(c: Canvas, owners: map<nat, nat>, b: nat, j: nat)
    requires OwnersBelow(c, owners, b) && JoinOf(c, b, j) && j in owners
    ensures !CanvasJoinsOwned(c)
  {
    assert JoinOf(c, owners[j], j) && owners[j] != b;
  }

  lemma OwnersComplete(c: Canvas, owners: map<nat, nat>)
    requires OwnersBelow(c, owners, |c.nodes|) && forall j: nat | Kind(c, j, JoinNode) :: HasOwner(c, j)
    ensures CanvasJoinsOwned(c)
  {
    forall b: nat, d: nat, j: nat | JoinOf(c, b, j) && JoinOf(c, d, j)
      ensures b == d
    {
      assert owners[j] == b && owners[j] == d;
    }
  }

  lemma OwnersSkip(c: Canvas, owners: map<nat, nat>, b: nat)
    requires OwnersBelow(c, owners, b) && !Kind(c, b, BranchNode)
    ensures OwnersBelow(c, owners, b + 1)
  {
  }

  lemma OwnerIsListed(c: Canvas, owners: map<nat, nat>, j: nat)
    requires OwnersBelow(c, owners, |c.nodes|)
    ensures j in owners <==> HasOwner(c, j)
  {
    if j in owners {
      assert JoinOf(c, owners[j], j);
    }
  }

  method JoinOwners(c: Canvas) returns (ok: bool, owners: map<nat, nat>)
    requires Valid(c)
    ensures ok <==> CanvasJoinsOwned(c)
    ensures ok ==> OwnersBelow(c, owners, |c.nodes|)
  {
    owners := map[];
    assert OwnersBelow(c, owners, 0);
    hide OwnersBelow;
    for b := 0 to |c.nodes|
      invariant OwnersBelow(c, owners, b)
    {
      if c.nodes[b].kind != BranchNode {
        OwnersSkip(c, owners, b);
        continue;
      }
      var some, j := FindNode(c, c.nodes[b].JoinID());
      if c.nodes[b].JoinID() == "" || !some || c.nodes[j].kind != JoinNode {
        assert Kind(c, b, BranchNode) && !HasJoin(c, b);
        return false, owners;
      }
      if j in owners {
        SharedJoin(c, owners, b, j);
        return false, owners;
      }
      OwnersGrow(c, owners, b, j);
      owners := owners[j := b];
    }
    for j := 0 to |c.nodes|
      invariant forall i: nat | i < j && Kind(c, i, JoinNode) :: HasOwner(c, i)
    {
      OwnerIsListed(c, owners, j);
      if c.nodes[j].kind == JoinNode && j !in owners {
        assert Kind(c, j, JoinNode) && !HasOwner(c, j);
        return false, owners;
      }
    }
    OwnersComplete(c, owners);
    return true, owners;
  }

  ghost predicate AllWeightsValid(c: Canvas)
    requires Valid(c)
  {
    forall b: nat | Kind(c, b, BranchNode) :: WeightsValid(c, b)
  }

  ghost predicate BranchAllowed(c: Canvas, b: nat)
    requires Valid(c) && b < |c.nodes|
  {
    WeightsValid(c, b) && forall j: nat | JoinOf(c, b, j) :: CanvasBranchStructured(c, b, j)
  }

  method CheckBranch(c: Canvas, b: nat, reduced: Adjacency, reverse: Adjacency) returns (ok: bool)
    requires Valid(c) && Kind(c, b, BranchNode) && HasJoin(c, b)
    requires reduced == ReducedOutgoing(c) && WellFormed(reduced)
    requires Reverses(reverse, reduced) && WellFormed(reverse)
    ensures ok <==> BranchAllowed(c, b)
  {
    hide CanvasBranchStructured, WeightsValid;
    var some, j := FindNode(c, c.nodes[b].JoinID());
    assert JoinOf(c, b, j);
    ok := BranchRoutes(c, b, j, reduced, reverse);
    ok := ok && WeightsValid(c, b);
  }

  method BranchDefinitions(c: Canvas, reduced: Adjacency, reverse: Adjacency) returns (ok: bool)
    requires Valid(c) && reduced == ReducedOutgoing(c) && WellFormed(reduced)
    requires Reverses(reverse, reduced) && WellFormed(reverse)
    ensures ok <==> CanvasJoinsOwned(c) && RoutesStructured(c) && AllWeightsValid(c)
  {
    hide CanvasBranchStructured, WeightsValid, OwnersBelow, Reverses;
    var owners;
    ok, owners := JoinOwners(c);
    if !ok {
      return;
    }
    for b := 0 to |c.nodes|
      invariant forall u: nat | u < b && Kind(c, u, BranchNode) :: BranchAllowed(c, u)
    {
      if c.nodes[b].kind != BranchNode {
        continue;
      }
      assert Kind(c, b, BranchNode) && HasJoin(c, b);
      ok := CheckBranch(c, b, reduced, reverse);
      if !ok {
        return;
      }
    }
    forall b: nat, j: nat | JoinOf(c, b, j)
      ensures CanvasBranchStructured(c, b, j)
    {
      assert BranchAllowed(c, b);
    }
  }

  // ----- the whole canvas

  /** The conditions that do not mention the entry, the engine or the terminal. */
  ghost predicate NodesAllowed(c: Canvas)
    requires Valid(c)
  {
    && (forall v: nat :: !Edge(c.outgoing, v, v))
    && (exists v: nat :: v < |c.nodes| && Control(c.nodes[v].kind))
    && DegreesAllowed(c) && MergesAllowed(c)
    && (forall l: nat | Kind(c, l, LoopNode) :: LoopDefined(c, l))
  }

  ghost predicate RegionsAllowed(c: Canvas)
    requires Valid(c)
  {
    && Acyclic(ReducedOutgoing(c)) && BodiesBounded(c)
    && CanvasJoinsOwned(c) && RoutesStructured(c) && AllWeightsValid(c)
  }

  ghost predicate AreEnds(c: Canvas, entry: nat, engine: nat, terminal: nat)
    requires Valid(c)
  {
    && IsEntry(c, entry) && Kind(c, entry, RequestNode)
    && Kind(c, engine, EngineNode) && AtMostOne(c, EngineNode)
    && IsTerminal(c, terminal)
  }

  ghost predicate AssertionsResolved(c: Canvas, engine: nat) {
    forall a: nat | Kind(c, a, AssertionNode) && Reach(c.outgoing, a, engine) :: exists r: nat :: UniqueRequest(c, r, a)
  }

  ghost predicate PlacesAllowed(c: Canvas, entry: nat, engine: nat, terminal: nat)
    requires Valid(c)
  {
    && (forall v: nat | v < |c.nodes| :: Reach(c.outgoing, entry, v))
    && (forall v: nat | Reach(c.outgoing, engine, v) && v != engine :: !Executable(c.nodes[v].kind))
    && TailOrdered(c, engine, terminal)
  }

  lemma AcceptedInParts(c: Canvas, entry: nat, engine: nat, terminal: nat)
    requires Valid(c)
    ensures CanvasAccepted(c, entry, engine, terminal) <==>
            && NodesAllowed(c) && RegionsAllowed(c) && AreEnds(c, entry, engine, terminal)
            && PlacesAllowed(c, entry, engine, terminal) && AssertionsResolved(c, engine)
  {
  }

  lemma EndsAreUnique(c: Canvas, entry: nat, engine: nat, terminal: nat, e: nat, g: nat, t: nat)
    requires Valid(c) && AreEnds(c, entry, engine, terminal) && AreEnds(c, e, g, t)
    ensures e == entry && g == engine && t == terminal
  {
    assert !HasSource(c, e);
    assert c.outgoing[t] == [];
  }

  method CheckNodes(c: Canvas, incoming: Adjacency) returns (ok: bool)
    requires Valid(c) && Reverses(incoming, c.outgoing) && WellFormed(incoming)
    ensures ok <==> NodesAllowed(c)
  {
    ok := NoSelfCycle(c);
    if ok {
      ok := AnyControl(c);
    }
    if ok {
      ok := OutDegrees(c);
    }
    if ok {
      ok := InDegrees(c, incoming);
    }
    if ok {
      ok := LoopDefinitions(c);
    }
  }

  method CheckRegions(c: Canvas) returns (ok: bool)
    requires Valid(c)
    ensures ok <==> RegionsAllowed(c)
  {
    ReducedIsGraph(c);
    var reduced := ReduceConnections(c);
    var cycle := ExecutionCycleNode(reduced);
    if cycle >= 0 {
      return false;
    }
    var reverse := ExecutionPredecessors(reduced);
    ok := LoopBodies(c, reduced, reverse);
    if ok {
      ok := BranchDefinitions(c, reduced, reverse);
    }
  }

  method FindEnds(c: Canvas, incoming: Adjacency) returns (ok: bool, entry: nat, engine: nat, terminal: nat)
    requires Valid(c) && Reverses(incoming, c.outgoing) && WellFormed(incoming)
    ensures ok ==> AreEnds(c, entry, engine, terminal)
    ensures !ok ==> forall e: nat, g: nat, t: nat :: !AreEnds(c, e, g, t)
  {
    engine, terminal := 0, 0;
    ok, entry := FindEntry(c, incoming);
    if !ok {
      return;
    }
    if c.nodes[entry].kind != RequestNode {
      forall e: nat, g: nat, t: nat
        ensures !AreEnds(c, e, g, t)
      {
        assert !HasSource(c, entry);
      }
      return false, entry, engine, terminal;
    }
    var more;
    ok, engine, more := FindKind(c, EngineNode);
    if !ok || more {
      return false, entry, engine, terminal;
    }
    ok, terminal := FindTerminal(c);
  }

  method TailInOrder(c: Canvas, engine: nat, terminal: nat) returns (ok: bool)
    requires Valid(c) && Kind(c, engine, EngineNode) && AtMostOne(c, EngineNode)
    ensures ok <==> TailOrdered(c, engine, terminal)
  {
    var someMetrics, metrics, moreMetrics := FindKind(c, MetricsNode);
    var someWindow, window, moreWindow := FindKind(c, WindowNode);
    if moreMetrics || moreWindow {
      return false;
    }
    if !someMetrics {
      return !someWindow && terminal == engine;
    }
    if metrics !in c.outgoing[engine] {
      assert !Edge(c.outgoing, engine, metrics);
      return false;
    }
    if !someWindow {
      return terminal == metrics;
    }
    return window in c.outgoing[metrics] && terminal == window;
  }

  method CheckPlaces(c: Canvas, entry: nat, engine: nat, terminal: nat) returns (ok: bool)
    requires Valid(c) && AreEnds(c, entry, engine, terminal)
    ensures ok <==> PlacesAllowed(c, entry, engine, terminal)
  {
    var unreachable := FirstUnreachable(entry, c.outgoing);
    if unreachable >= 0 {
      return false;
    }
    var afterEngine := Mark(engine, c.outgoing);
    for v := 0 to |c.nodes|
      invariant forall u: nat | u < v && Reach(c.outgoing, engine, u) && u != engine :: !Executable(c.nodes[u].kind)
    {
      if afterEngine[v] && v != engine && Executable(c.nodes[v].kind) {
        return false;
      }
    }
    forall u: nat | Reach(c.outgoing, engine, u)
      ensures u < |c.nodes|
    {
      ReachEnds(c.outgoing, engine, u, -1);
    }
    ok := TailInOrder(c, engine, terminal);
  }

  /** The entry, then the other nodes that lead to the engine. */
  method NodesBeforeEngine(c: Canvas, incoming: Adjacency, entry: nat, engine: nat) returns (order: seq<nat>)
    requires Valid(c) && Reverses(incoming, c.outgoing) && WellFormed(incoming)
    requires entry < |c.nodes| && engine < |c.nodes|
    ensures ExecutionOrder(c, entry, engine, order) && InRange(c, order)
  {
    var beforeEngine := ReverseReachable(engine, incoming, c.outgoing);
    order := [entry];
    for v := 0 to |c.nodes|
      invariant |order| > 0 && order[0] == entry && Distinct(order) && InRange(c, order)
      invariant forall u: nat :: u in order <==> u == entry || (u < v && Reach(c.outgoing, u, engine) && u != engine)
    {
      if beforeEngine[v] && v != engine && v != entry {
        order := order + [v];
      }
    }
    forall u: nat | Reach(c.outgoing, u, engine)
      ensures u < |c.nodes|
    {
      ReachEnds(c.outgoing, u, engine, -1);
    }
  }

  lemma OrderedAssertions(c: Canvas, entry: nat, engine: nat, order: seq<nat>)
    requires Valid(c) && Kind(c, entry, RequestNode) && Kind(c, engine, EngineNode)
    requires ExecutionOrder(c, entry, engine, order)
    ensures AssertionsResolved(c, engine) <==>
            forall a: nat | a in order && Kind(c, a, AssertionNode) :: exists r: nat :: UniqueRequest(c, r, a)
  {
    forall a: nat | Kind(c, a, AssertionNode)
      ensures a in order <==> Reach(c.outgoing, a, engine)
    {
    }
  }

  /** The whole validation: it accepts a canvas exactly when some entry, engine
      and terminal meet all conditions, and it finds these. */
  method ValidateScenarioGraph(c: Canvas)
    returns (ok: bool, entry: nat, engine: nat, terminal: nat, order: seq<nat>, requests: map<nat, nat>)
    requires Valid(c)
    ensures ok <==> exists e: nat, g: nat, t: nat :: CanvasAccepted(c, e, g, t)
    ensures ok ==> CanvasAccepted(c, entry, engine, terminal) && ExecutionOrder(c, entry, engine, order)
    ensures ok ==> forall a: nat | a in order && Kind(c, a, AssertionNode) ::
              a in requests && UniqueRequest(c, requests[a], a)
  {
    forall e: nat, g: nat, t: nat
      ensures CanvasAccepted(c, e, g, t) <==>
              && NodesAllowed(c) && RegionsAllowed(c) && AreEnds(c, e, g, t)
              && PlacesAllowed(c, e, g, t) && AssertionsResolved(c, g)
    {
      AcceptedInParts(c, e, g, t);
    }
    hide CanvasAccepted, NodesAllowed, RegionsAllowed, PlacesAllowed, AssertionsResolved;
    order, requests := [], map[];
    var incoming := ExecutionPredecessors(c.outgoing);
    ok, entry, engine, terminal := FindEnds(c, incoming);
    if !ok {
      return;
    }
    forall e: nat, g: nat, t: nat | AreEnds(c, e, g, t)
      ensures e == entry && g == engine && t == terminal
    {
      EndsAreUnique(c, entry, engine, terminal, e, g, t);
    }
    var nodes := CheckNodes(c, incoming);
    var regions := CheckRegions(c);
    var places := CheckPlaces(c, entry, engine, terminal);
    if !nodes || !regions || !places {
      return false, entry, engine, terminal, order, requests;
    }
    order := NodesBeforeEngine(c, incoming, entry, engine);
    ok, requests := ResolveAssertionRequests(c, order, incoming);
    OrderedAssertions(c, entry, engine, order);
  }

  // ----- the plan of an accepted canvas

  lemma TailLeadsNowhere(c: Canvas, engine: nat, terminal: nat, v: nat)
    requires Valid(c) && DegreesAllowed(c) && IsTerminal(c, terminal) && TailOrdered(c, engine, terminal)
    requires Kind(c, engine, EngineNode) && Reach(c.outgoing, v, engine)
    ensures !Kind(c, v, MetricsNode) && !Kind(c, v, WindowNode)
  {
    if Kind(c, v, MetricsNode) || Kind(c, v, WindowNode) {
      ReachFirst(c.outgoing, v, engine, -1);
      var s: nat :| Edge(c.outgoing, v, s) && ReachAvoiding(c.outgoing, s, engine, -1);
      ReachEnds(c.outgoing, s, engine, -1);
      if Kind(c, v, MetricsNode) {
        assert OutDegreeAllowed(c, v);
        var w: nat :| Kind(c, w, WindowNode);
        assert Edge(c.outgoing, v, w) && s == w;
        assert c.outgoing[w] == [];
        ReachFirst(c.outgoing, w, engine, -1);
      }
    }
  }

  lemma AcceptedIsBuildable(
    c: Canvas, entry: nat, engine: nat, terminal: nat, order: seq<nat>, requests: map<nat, nat>, i: nat)
    requires CanvasAccepted(c, entry, engine, terminal) && ExecutionOrder(c, entry, engine, order)
    requires i < |order| && order[i] < |c.nodes|
    requires Kind(c, order[i], AssertionNode) ==> order[i] in requests && UniqueRequest(c, requests[order[i]], order[i])
    ensures Buildable(c, requests, order[i])
  {
    var v := order[i];
    assert v in order;
    if v != entry {
      TailLeadsNowhere(c, engine, terminal, v);
      assert v != engine && AtMostOne(c, EngineNode) && !Kind(c, v, EngineNode);
    }
    if Kind(c, v, LoopNode) {
      assert LoopDefined(c, v);
      var t: nat :| Edge(c.outgoing, v, t) && t < |c.nodes| && c.nodes[t].id == c.nodes[v].BodyID();
      var k :| 0 <= k < |c.outgoing[v]| && c.outgoing[v][k] == t;
    }
  }

  /** From the canvas to the plan: the front end emits a plan for exactly the
      canvases it accepts. */
  method CompileScenarioGraph(c: Canvas)
    returns (ok: bool, definition: PlanDefinition, entry: nat, engine: nat, terminal: nat, order: seq<nat>,
             requests: map<nat, nat>)
    requires Valid(c)
    ensures ok <==> exists e: nat, g: nat, t: nat :: CanvasAccepted(c, e, g, t)
    ensures ok ==> CanvasAccepted(c, entry, engine, terminal) && ExecutionOrder(c, entry, engine, order)
    ensures ok ==> forall a: nat | a in order && Kind(c, a, AssertionNode) ::
              a in requests && UniqueRequest(c, requests[a], a)
    ensures ok ==> EmitsPlan(c, order, requests, definition)
  {
    definition := PlanDefinition(PLAN_SCHEMA_VERSION, "", []);
    ok, entry, engine, terminal, order, requests := ValidateScenarioGraph(c);
    if !ok {
      return;
    }
    forall k | 0 <= k < |order|
      ensures order[k] < |c.nodes|
    {
      assert order[k] in order;
      if order[k] != entry {
        ReachEnds(c.outgoing, order[k], engine, -1);
      }
    }
    forall i: nat | i < |order|
      ensures Buildable(c, requests, order[i])
    {
      assert order[i] in order;
      AcceptedIsBuildable(c, entry, engine, terminal, order, requests, i);
    }
    hide CanvasAccepted, ExecutionOrder, Buildable;
    ok, definition := BuildExecutionPlan(c, order, requests);
  }
}
