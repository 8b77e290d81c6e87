/** The graph checks of the plan compiler.  Each method decides exactly the
    declarative condition that the run-time theorems rest on. */
module PlanChecks {
  import opened Walks
  import opened ExecutionPlan
  import opened GraphSearch

  datatype CheckError =
    | UnreachableStep(step: nat)
    | UnboundedCycle(step: nat)
    | BodyDoesNotReturn(loop: nat)
    | BodyEscapes(loop: nat)
    | NestedLoop(loop: nat)
    | ExitInsideBody(loop: nat)
    | SharedJoin(join: nat)
    | RouteMissesJoin(branch: nat, route: nat)
    | RouteBypassesJoin(branch: nat, route: nat)
    | RoutesMerge(branch: nat, left: nat, right: nat)
    | NestedBranchEscapes(branch: nat, route: nat)
    | UnownedJoin(join: nat)

  datatype Verdict = Passed | Failed(error: CheckError)

  method ExecutionAdjacency(steps: seq<Step>, removeLoopBodies: bool) returns (adjacency: Adjacency)
    ensures adjacency == Graph(steps, removeLoopBodies)
  {
    var lists := new seq<nat>[|steps|](_ => []);
    for index := 0 to |steps|
      invariant forall i | 0 <= i < index :: lists[i] == Successors(steps[i], removeLoopBodies)
    {
      match steps[index] {
        case Scenario(_, _, next) =>
          lists[index] := if next >= 0 then [next] else [];
        case Join(_, next) =>
          lists[index] := if next >= 0 then [next] else [];
        case Branch(_, routes, _, _) =>
          var targets: seq<nat> := [];
          for k := 0 to |routes|
            invariant targets == RouteTargets(routes)[..k]
          {
            targets := targets + [routes[k].target];
          }
          lists[index] := targets;
        case Loop(_, body, exit, _) =>
          var targets: seq<nat> := [];
          if !removeLoopBodies {
            targets := targets + [body];
          }
          if exit >= 0 {
            targets := targets + [exit];
          }
          lists[index] := targets;
      }
    }
    adjacency := lists[..];
  }

  // ----- loops

  method CheckLoop(steps: seq<Step>, l: nat, acyclic: Adjacency, reverse: Adjacency)
    returns (verdict: Verdict, bodySize: nat)
    requires Resolved(steps) && IsLoop(steps, l) && acyclic == Reduced(steps)
    requires WellFormed(acyclic) && WellFormed(reverse) && Reverses(reverse, acyclic)
    ensures verdict.Passed? <==> LoopBounded(steps, l)
    ensures verdict.Passed? ==> bodySize == |BodyRegion(steps, l)|
  {
    assert StepResolved(steps, l);
    bodySize := 0;
    var body, exit := steps[l].body, steps[l].exit;
    var canReachLoop := ReverseReachable(l, reverse, acyclic);
    if !canReachLoop[body] {
      return Failed(BodyDoesNotReturn(l)), 0;
    }
    var bodyRegion := ForwardUntil(body, l, acyclic);
    RegionIsBody(steps, l, bodyRegion);
    var rest := bodyRegion;
    while rest != {}
      invariant rest <= bodyRegion
      invariant forall v | v in bodyRegion - rest :: Reach(acyclic, v, l) && !IsLoop(steps, v)
      decreases rest
    {
      var node :| node in rest;
      ReachEnds(acyclic, body, node, l);
      if !canReachLoop[node] {
        return Failed(BodyEscapes(l)), 0;
      }
      if steps[node].Loop? {
        return Failed(NestedLoop(l)), 0;
      }
      rest := rest - {node};
    }
    if exit >= 0 && (exit in bodyRegion || exit == l) {
      return Failed(ExitInsideBody(l)), 0;
    }
    return Passed, |bodyRegion|;
  }

  lemma RegionIsBody(steps: seq<Step>, l: nat, region: set<nat>)
    requires IsLoop(steps, l)
    requires forall v: nat :: v in region <==> ReachAvoiding(Reduced(steps), steps[l].body, v, l)
    ensures region == BodyRegion(steps, l)
    ensures forall v: nat :: v in region <==> InBody(steps, l, v)
  {
    forall v | v in region
      ensures v in BodyRegion(steps, l)
    {
      ReachEnds(Reduced(steps), steps[l].body, v, l);
    }
  }

  ghost predicate BodySizes(steps: seq<Step>, sizes: map<nat, nat>, n: nat) {
    && (forall l: nat :: l in sizes <==> l < n && IsLoop(steps, l))
    && (forall l | l in sizes :: IsLoop(steps, l) && sizes[l] == |BodyRegion(steps, l)|)
  }

  method ValidateBoundedExecutionLoops(steps: seq<Step>)
    returns (verdict: Verdict, loopBodies: map<nat, nat>, acyclic: Adjacency)
    requires Resolved(steps)
    ensures verdict.Passed? <==> LoopsBounded(steps)
    ensures verdict.Passed? ==> BodySizes(steps, loopBodies, |steps|)
    ensures acyclic == Reduced(steps)
  {
    GraphsWellFormed(steps);
    acyclic := ExecutionAdjacency(steps, true);
    loopBodies := map[];
    var cycle := ExecutionCycleNode(acyclic);
    if cycle >= 0 {
      return Failed(UnboundedCycle(cycle)), loopBodies, acyclic;
    }
    var reverse := ExecutionPredecessors(acyclic);
    for loopIndex := 0 to |steps|
      invariant BodySizes(steps, loopBodies, loopIndex)
      invariant forall l: nat | l < loopIndex && IsLoop(steps, l) :: LoopBounded(steps, l)
    {
      if !steps[loopIndex].Loop? {
        continue;
      }
      var size;
      verdict, size := CheckLoop(steps, loopIndex, acyclic, reverse);
      if verdict.Failed? {
        return verdict, loopBodies, acyclic;
      }
      loopBodies := loopBodies[loopIndex := size];
    }
    return Passed, loopBodies, acyclic;
  }

  // ----- branches

  ghost predicate IsRegion(steps: seq<Step>, b: nat, k: nat, region: set<nat>)
    requires IsRoute(steps, b, k)
  {
    forall v: nat :: v in region <==> InRoute(steps, b, k, v)
  }

  ghost predicate AreRegions(steps: seq<Step>, b: nat, regions: seq<set<nat>>)
    requires IsBranch(steps, b)
  {
    |regions| <= |steps[b].routes| && forall k: nat | k < |regions| :: IsRegion(steps, b, k, regions[k])
  }

  ghost predicate RouteReturns(steps: seq<Step>, b: nat, k: nat)
    requires IsRoute(steps, b, k)
  {
    && Reach(Reduced(steps), Target(steps, b, k), steps[b].join)
    && (forall v: nat | InRoute(steps, b, k, v) :: Reach(Reduced(steps), v, steps[b].join))
  }

  ghost predicate NestedJoinsInside(steps: seq<Step>, b: nat, k: nat)
    requires IsRoute(steps, b, k)
  {
    forall v: nat | InRoute(steps, b, k, v) && IsBranch(steps, v) :: InRoute(steps, b, k, steps[v].join)
  }

  lemma StructuredInParts(steps: seq<Step>, b: nat)
    requires IsBranch(steps, b)
    ensures BranchStructured(steps, b) <==>
            && (forall k: nat | IsRoute(steps, b, k) :: RouteReturns(steps, b, k))
            && RoutesDisjoint(steps, b)
            && (forall k: nat | IsRoute(steps, b, k) :: NestedJoinsInside(steps, b, k))
  {
    forall k: nat | IsRoute(steps, b, k)
      ensures RouteClosed(steps, b, k) <==> RouteReturns(steps, b, k) && NestedJoinsInside(steps, b, k)
    {
    }
  }

  method RouteRegions(steps: seq<Step>, b: nat, adjacency: Adjacency, reverse: Adjacency)
    returns (verdict: Verdict, regions: seq<set<nat>>)
    requires Resolved(steps) && IsBranch(steps, b) && adjacency == Reduced(steps)
    requires WellFormed(adjacency) && WellFormed(reverse) && Reverses(reverse, adjacency)
    ensures verdict.Passed? <==> forall k: nat | IsRoute(steps, b, k) :: RouteReturns(steps, b, k)
    ensures verdict.Passed? ==> AreRegions(steps, b, regions) && |regions| == |steps[b].routes|
  {
    assert StepResolved(steps, b);
    regions := [];
    var join := steps[b].join;
    var canReachJoin := ReverseReachable(join, reverse, adjacency);
    for k := 0 to |steps[b].routes|
      invariant |regions| == k && AreRegions(steps, b, regions)
      invariant forall j: nat | j < k :: RouteReturns(steps, b, j)
    {
      var target := steps[b].routes[k].target;
      assert IsRoute(steps, b, k);
      if !canReachJoin[target] {
        assert !RouteReturns(steps, b, k);
        return Failed(RouteMissesJoin(b, k)), regions;
      }
      var region := ForwardUntil(target, join, adjacency);
      assert IsRegion(steps, b, k, region);
      var rest := region;
      while rest != {}
        invariant rest <= region
        invariant forall v | v in region - rest :: Reach(adjacency, v, join)
        decreases rest
      {
        var node :| node in rest;
        ReachEnds(adjacency, target, node, join);
        if !canReachJoin[node] {
          assert InRoute(steps, b, k, node);
          assert !RouteReturns(steps, b, k);
          return Failed(RouteBypassesJoin(b, k)), regions;
        }
        rest := rest - {node};
      }
      assert RouteReturns(steps, b, k);
      regions := regions + [region];
    }
    return Passed, regions;
  }

  ghost predicate DisjointThrough(regions: seq<set<nat>>, left: nat, right: nat) {
    forall i, j | 0 <= i < j < |regions| && (i < left || (i == left && j < right)) :: regions[i] !! regions[j]
  }

  method RegionsOverlap(b: nat, regions: seq<set<nat>>) returns (verdict: Verdict)
    ensures verdict.Passed? <==> forall i, j | 0 <= i < j < |regions| :: regions[i] !! regions[j]
  {
    for left := 0 to |regions|
      invariant DisjointThrough(regions, left, left + 1)
    {
      for right := left + 1 to |regions|
        invariant DisjointThrough(regions, left, right)
      {
        if !(regions[left] !! regions[right]) {
          return Failed(RoutesMerge(b, left, right));
        }
      }
    }
    return Passed;
  }

  lemma DisjointRegions(steps: seq<Step>, b: nat, regions: seq<set<nat>>)
    requires IsBranch(steps, b) && AreRegions(steps, b, regions) && |regions| == |steps[b].routes|
    ensures RoutesDisjoint(steps, b) <==> forall i, j | 0 <= i < j < |regions| :: regions[i] !! regions[j]
  {
    if RoutesDisjoint(steps, b) {
      forall i, j | 0 <= i < j < |regions|
        ensures regions[i] !! regions[j]
      {
        assert IsRegion(steps, b, i, regions[i]) && IsRegion(steps, b, j, regions[j]);
        assert IsRoute(steps, b, i) && IsRoute(steps, b, j);
        forall v | v in regions[i]
          ensures v !in regions[j]
        {
          assert InRoute(steps, b, i, v);
        }
      }
    }
    if forall i, j | 0 <= i < j < |regions| :: regions[i] !! regions[j] {
      forall j: nat, k: nat, v: nat | IsRoute(steps, b, j) && IsRoute(steps, b, k)
        && InRoute(steps, b, j, v) && InRoute(steps, b, k, v)
        ensures j == k
      {
        assert IsRegion(steps, b, j, regions[j]) && IsRegion(steps, b, k, regions[k]);
        assert v in regions[j] && v in regions[k];
      }
    }
  }

  method NestedJoinCheck(steps: seq<Step>, b: nat, regions: seq<set<nat>>) returns (verdict: Verdict)
    requires Resolved(steps) && IsBranch(steps, b)
    requires AreRegions(steps, b, regions) && |regions| == |steps[b].routes|
    ensures verdict.Passed? <==> forall k: nat | IsRoute(steps, b, k) :: NestedJoinsInside(steps, b, k)
  {
    for k := 0 to |regions|
      invariant forall j: nat | j < k :: NestedJoinsInside(steps, b, j)
    {
      assert IsRoute(steps, b, k) && IsRegion(steps, b, k, regions[k]);
      var rest := regions[k];
      while rest != {}
        invariant rest <= regions[k]
        invariant forall v | v in regions[k] - rest && IsBranch(steps, v) :: steps[v].join in regions[k]
        decreases rest
      {
        var node :| node in rest;
        if IsBranch(steps, node) && steps[node].join !in regions[k] {
          assert InRoute(steps, b, k, node) && !InRoute(steps, b, k, steps[node].join);
          assert !NestedJoinsInside(steps, b, k);
          return Failed(NestedBranchEscapes(b, k));
        }
        rest := rest - {node};
      }
      assert NestedJoinsInside(steps, b, k);
    }
    return Passed;
  }

  method CheckBranch(steps: seq<Step>, b: nat, adjacency: Adjacency, reverse: Adjacency) returns (verdict: Verdict)
    requires Resolved(steps) && IsBranch(steps, b) && adjacency == Reduced(steps)
    requires WellFormed(adjacency) && WellFormed(reverse) && Reverses(reverse, adjacency)
    ensures verdict.Passed? <==> BranchStructured(steps, b)
  {
    StructuredInParts(steps, b);
    var regions;
    verdict, regions := RouteRegions(steps, b, adjacency, reverse);
    if verdict.Failed? {
      return;
    }
    DisjointRegions(steps, b, regions);
    verdict := RegionsOverlap(b, regions);
    if verdict.Failed? {
      return;
    }
    verdict := NestedJoinCheck(steps, b, regions);
  }

  ghost predicate OwnersBelow(steps: seq<Step>, owners: map<nat, nat>, n: nat) {
    && (forall j: nat :: j in owners <==> exists b: nat :: b < n && IsBranch(steps, b) && steps[b].join == j)
    && (forall j | j in owners :: IsBranch(steps, owners[j]) && steps[owners[j]].join == j)
    && (forall b: nat, d: nat | b < n && d < n && IsBranch(steps, b) && IsBranch(steps, d)
          && steps[b].join == steps[d].join :: b == d)
  }

  lemma OwnersGrow(steps: seq<Step>, owners: map<nat, nat>, n: nat)
    requires n < |steps| && OwnersBelow(steps, owners, n)
    ensures !IsBranch(steps, n) ==> OwnersBelow(steps, owners, n + 1)
    ensures IsBranch(steps, n) && steps[n].join !in owners ==>
              OwnersBelow(steps, owners[steps[n].join := n], n + 1)
  {
    if IsBranch(steps, n) && steps[n].join !in owners {
      var more := owners[steps[n].join := n];
      forall j: nat
        ensures j in more <==> exists b: nat :: b < n + 1 && IsBranch(steps, b) && steps[b].join == j
      {
        if j in more {
          var b := if j == steps[n].join then n else owners[j];
          if j != steps[n].join {
            b :| 0 <= b < n && IsBranch(steps, b) && steps[b].join == j;
          }
          assert b < n + 1 && IsBranch(steps, b) && steps[b].join == j;
        }
      }
      forall b: nat, d: nat | b < n + 1 && d < n + 1 && IsBranch(steps, b) && IsBranch(steps, d)
        && steps[b].join == steps[d].join
        ensures b == d
      {
        assert b < n && d < n ==> b == d;
        assert b < n ==> steps[b].join in owners;
        assert d < n ==> steps[d].join in owners;
      }
    } else if !IsBranch(steps, n) {
      forall j: nat
        ensures j in owners <==> exists b: nat :: b < n + 1 && IsBranch(steps, b) && steps[b].join == j
      {
      }
    }
  }

  method ValidateStructuredBranches(steps: seq<Step>, adjacency: Adjacency) returns (verdict: Verdict)
    requires Resolved(steps) && adjacency == Reduced(steps)
    ensures verdict.Passed? <==> BranchesStructured(steps)
  {
    GraphsWellFormed(steps);
    var joinOwners: map<nat, nat> := map[];
    var reverse := ExecutionPredecessors(adjacency);
    for branchIndex := 0 to |steps|
      invariant OwnersBelow(steps, joinOwners, branchIndex)
      invariant forall b: nat | b < branchIndex && IsBranch(steps, b) :: BranchStructured(steps, b)
    {
      OwnersGrow(steps, joinOwners, branchIndex);
      if !steps[branchIndex].Branch? {
        continue;
      }
      var join := steps[branchIndex].join;
      if join in joinOwners {
        assert IsBranch(steps, joinOwners[join]);
        var other: nat :| other < branchIndex && IsBranch(steps, other) && steps[other].join == join;
        return Failed(SharedJoin(join));
      }
      joinOwners := joinOwners[join := branchIndex];
      verdict := CheckBranch(steps, branchIndex, adjacency, reverse);
      if verdict.Failed? {
        return;
      }
    }
    for index := 0 to |steps|
      invariant forall j: nat | j < index && steps[j].Join? :: Owned(steps, j)
    {
      if steps[index].Join? {
        if index !in joinOwners {
          assert !Owned(steps, index);
          return Failed(UnownedJoin(index));
        }
        assert Owned(steps, index);
      }
    }
    return Passed;
  }
}
