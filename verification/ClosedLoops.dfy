/** How the exact condition of the join discipline relates to a weaker one
    about loop bodies alone, with two plans that mismatch. */
module ClosedLoops {
  import opened Walks
  import opened ExecutionPlan
  import opened Regions
  import opened Machine
  import opened ForeignEntry
  import opened PlanDefinition

  ghost predicate JoinsInside(steps: seq<Step>, l: nat, j: nat)
    requires IsLoop(steps, l)
  {
    exists b: nat :: IsBranch(steps, b) && InBody(steps, l, b) && steps[b].join == j
  }

  /** Every join in a loop body is owned by a branch in the same body. */
  ghost predicate LoopBodiesClosed(steps: seq<Step>) {
    forall l: nat, j: nat {:trigger JoinsInside(steps, l, j)} |
      IsLoop(steps, l) && InBody(steps, l, j) && j < |steps| && steps[j].Join? :: JoinsInside(steps, l, j)
  }

  lemma BodyWithoutBranchStaysOutside(steps: seq<Step>, entry: nat, l: nat, b: nat, v: nat)
    requires WellStructured(steps, entry) && NoForeignEntry(steps, entry)
    requires IsLoop(steps, l) && IsBranch(steps, b) && !InBody(steps, l, b) && !Inside(steps, b, l)
    requires InBody(steps, l, v)
    ensures !Open(steps, b, v)
  {
    GraphsWellFormed(steps);
    var body := steps[l].body;
    ReachEnds(Reduced(steps), body, v, l);
    ReachSelf(Reduced(steps), body, l);
    FullEdge(steps, l, body);
    var s := set x: nat | x < |steps| && InBody(steps, l, x) && !Open(steps, b, x);
    forall a: nat, x: nat | a in s && Edge(Reduced(steps), a, x) && x != l
      ensures x in s
    {
      EdgeBound(Reduced(steps), a, x);
      BodyStep(steps, l, a, x);
      FullEdge(steps, a, x);
    }
    ReachStaysIn(Reduced(steps), s, body, v, l);
  }

  /** No foreign entry implies closed loop bodies. */
  lemma NoForeignEntryClosesLoops(steps: seq<Step>, entry: nat)
    requires WellStructured(steps, entry) && NoForeignEntry(steps, entry)
    ensures LoopBodiesClosed(steps)
  {
    forall l: nat, j: nat | IsLoop(steps, l) && InBody(steps, l, j) && j < |steps| && steps[j].Join?
      ensures JoinsInside(steps, l, j)
    {
      assert Owned(steps, j);
      var b: nat :| IsBranch(steps, b) && steps[b].join == j;
      if !InBody(steps, l, b) {
        if Inside(steps, b, l) {
          var k: nat :| IsRoute(steps, b, k) && InsideVia(steps, b, k, l);
          InsideLoopIsOnRoute(steps, b, k, l);
          JoinOutsideBody(steps, b, k, l);
        } else {
          BodyWithoutBranchStaysOutside(steps, entry, l, b, j);
        }
      }
    }
  }

  // ----- two plans

  /** Request 0; branch 1 with routes to 2 and 3, which meet in join 4; loop 5
      after the join.  The request goes to `first`, the loop body is `body`. */
  function Example(names: seq<string>, first: nat, body: nat): seq<Step>
    requires |names| == 7
  {
    [ Scenario(names[0], 0, first),
      Branch(names[1], [Route(names[2], names[2], 2, 1, 0, ScopeKey(names[1], names[2])),
                        Route(names[3], names[3], 3, 1, 1, ScopeKey(names[1], names[3]))], 2, 4),
      Scenario(names[2], 1, 4),
      Scenario(names[3], 2, 4),
      Join(names[4], 5),
      Loop(names[5], body, -1, 1) ]
  }

  lemma ExampleEdges(names: seq<string>, first: nat, body: nat)
    requires |names| == 7
    requires first == 1 || first == 4
    requires body == 1 || body == 4
    ensures var steps := Example(names, first, body);
            && Resolved(steps)
            && (forall u: nat, v: nat :: Edge(Reduced(steps), u, v) <==>
                  (u, v) in {(0, first), (1, 2), (1, 3), (2, 4), (3, 4), (4, 5)})
  {
    var steps := Example(names, first, body);
    var routes := steps[1].routes;
    assert routes[..1] == [routes[0]] && routes[..1][..0] == [];
    assert SumsTo(routes[..1], 1);
    assert SumsTo(routes, 2);
    forall i: nat | i < |steps|
      ensures StepResolved(steps, i)
    {
    }
    assert RouteTargets(routes) == [2, 3];
    forall u: nat, v: nat
      ensures Edge(Reduced(steps), u, v) <==>
              (u, v) in {(0, first), (1, 2), (1, 3), (2, 4), (3, 4), (4, 5)}
    {
      if u < 6 {
        assert Reduced(steps)[u] == Successors(steps[u], true);
      }
    }
  }

  lemma ExampleReaches(names: seq<string>, first: nat, body: nat)
    requires |names| == 7
    requires first == 1 || first == 4
    requires body == 1 || body == 4
    ensures var steps := Example(names, first, body); var reduced := Reduced(steps);
            && Resolved(steps) && WellFormed(reduced) && Acyclic(reduced)
            && (forall v: nat | 1 <= v <= 4 :: Reach(reduced, v, 5))
            && Reach(reduced, 2, 4) && Reach(reduced, 3, 4)
  {
    var steps := Example(names, first, body);
    var reduced := Reduced(steps);
    ExampleEdges(names, first, body);
    GraphsWellFormed(steps);
    forall u: nat, v: nat | Edge(reduced, u, v)
      ensures !Reach(reduced, v, u)
    {
      if Reach(reduced, v, u) {
        IncreasingReach(reduced, v, u);
      }
    }
    ReachEdge(reduced, 4, 5, -1);
    ThenReach(reduced, 2, 4, 5, -1);
    ThenReach(reduced, 3, 4, 5, -1);
    ThenReach(reduced, 1, 2, 5, -1);
    ReachEdge(reduced, 2, 4, -1);
    ReachEdge(reduced, 3, 4, -1);
  }

  lemma ExampleLoop(names: seq<string>, first: nat, body: nat)
    requires |names| == 7
    requires first == 1 || first == 4
    requires body == 1 || body == 4
    ensures var steps := Example(names, first, body);
            Resolved(steps) && LoopBounded(steps, 5) && InBody(steps, 5, 4)
            && (InBody(steps, 5, 1) <==> body == 1)
  {
    var steps := Example(names, first, body);
    var reduced := Reduced(steps);
    ExampleEdges(names, first, body);
    ExampleReaches(names, first, body);
    ReachEdge(reduced, 2, 4, 5);
    ThenReach(reduced, 1, 2, 4, 5);
    ReachSelf(reduced, 4, 5);
    ReachSelf(reduced, 1, 5);
    var region := if body == 1 then {1, 2, 3, 4} else {4};
    forall v: nat | InBody(steps, 5, v)
      ensures v in region
    {
      ReachStaysIn(reduced, region, body, v, 5);
    }
  }

  lemma ExampleBranch(names: seq<string>, first: nat, body: nat)
    requires |names| == 7
    requires first == 1 || first == 4
    requires body == 1 || body == 4
    ensures var steps := Example(names, first, body);
            Resolved(steps) && BranchesStructured(steps)
  {
    var steps := Example(names, first, body);
    var reduced := Reduced(steps);
    ExampleEdges(names, first, body);
    ExampleReaches(names, first, body);
    forall v: nat, k: nat | k < 2 && InRoute(steps, 1, k, v)
      ensures v == 2 + k
    {
      ReachStaysIn(reduced, {2 + k}, 2 + k, v, 4);
    }
    assert RouteClosed(steps, 1, 0) && RouteClosed(steps, 1, 1);
    assert BranchStructured(steps, 1);
    assert Owned(steps, 4);
  }

  lemma ExampleRoutes(names: seq<string>, first: nat, body: nat)
    requires |names| == 7
    requires first == 1 || first == 4
    requires body == 1 || body == 4
    ensures var steps := Example(names, first, body);
            && Resolved(steps) && LoopsBounded(steps) && BranchesStructured(steps)
            && InBody(steps, 5, 4) && (InBody(steps, 5, 1) <==> body == 1)
  {
    ExampleReaches(names, first, body);
    ExampleLoop(names, first, body);
    ExampleBranch(names, first, body);
  }

  lemma ExampleReachable(names: seq<string>, first: nat, body: nat)
    requires |names| == 7
    requires (first, body) == (1, 4) || (first, body) == (4, 1)
    ensures WellStructured(Example(names, first, body), 0)
  {
    var steps := Example(names, first, body);
    var full := Full(steps);
    ExampleEdges(names, first, body);
    ExampleRoutes(names, first, body);
    GraphsWellFormed(steps);
    FullEdge(steps, 5, body);
    ReachSelf(full, 0, -1);
    ReachThen(full, 0, 0, first, -1);
    if first == 1 {
      ReachThen(full, 0, 1, 2, -1);
      ReachThen(full, 0, 1, 3, -1);
      ReachThen(full, 0, 2, 4, -1);
      ReachThen(full, 0, 4, 5, -1);
    } else {
      ReachThen(full, 0, 4, 5, -1);
      ReachThen(full, 0, 5, 1, -1);
      ReachThen(full, 0, 1, 2, -1);
      ReachThen(full, 0, 1, 3, -1);
    }
    forall v: nat | v < |steps|
      ensures Reach(full, 0, v)
    {
      assert v == 0 || v == 1 || v == 2 || v == 3 || v == 4 || v == 5;
    }
  }

  /** Only 2 and 3 are inside branch 1, loop edge or not. */
  lemma ExampleInside(names: seq<string>, first: nat, body: nat, v: nat)
    requires |names| == 7
    requires (first, body) == (1, 4) || (first, body) == (4, 1)
    requires Inside(Example(names, first, body), 1, v)
    ensures v == 2 || v == 3
  {
    var steps := Example(names, first, body);
    ExampleEdges(names, first, body);
    var k: nat :| IsRoute(steps, 1, k) && InsideVia(steps, 1, k, v);
    var t := Target(steps, 1, k);
    forall b: nat
      ensures Edge(Full(steps), t, b) ==> b == 4
    {
      FullEdge(steps, t, b);
    }
    ReachStaysIn(Full(steps), {t}, t, v, 4);
  }

  /** Some run that keeps the route of each branch ends in a mismatch. */
  ghost predicate Mismatches(steps: seq<Step>, entry: nat)
    requires Resolved(steps) && entry < |steps|
  {
    exists choice | |choice| == |steps| :: CanMismatch(steps, choice, Start(steps, entry))
  }

  lemma ExampleMismatches(names: seq<string>, first: nat, body: nat)
    requires |names| == 7
    requires (first, body) == (1, 4) || (first, body) == (4, 1)
    ensures WellStructured(Example(names, first, body), 0) && Mismatches(Example(names, first, body), 0)
  {
    var steps := Example(names, first, body);
    ExampleReachable(names, first, body);
    ExampleEdges(names, first, body);
    var source := if first == 4 then 0 else 5;
    FullEdge(steps, source, 4);
    if Inside(steps, 1, source) {
      ExampleInside(names, first, body, source);
    }
    assert Open(steps, 1, 4);
    ForeignEntryMismatches(steps, 0);
  }

  /** The loop body of the first plan is the join alone, that of the second
      holds the branch and its join. */
  lemma ExampleBodies(names: seq<string>)
    requires |names| == 7
    ensures Resolved(Example(names, 1, 4)) && !LoopBodiesClosed(Example(names, 1, 4))
    ensures Resolved(Example(names, 4, 1)) && LoopBodiesClosed(Example(names, 4, 1))
  {
    ExampleRoutes(names, 1, 4);
    ExampleRoutes(names, 4, 1);
    assert !JoinsInside(Example(names, 1, 4), 5, 4);
    assert JoinsInside(Example(names, 4, 1), 5, 4);
  }
}
