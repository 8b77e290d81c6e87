/** How the body regions of loops and the route regions of branches sit in one
    another in a well-structured plan. */
module Regions {
  import opened Walks
  import opened ExecutionPlan

  /** v is reached from route k of branch b before the join is, by any
      transitions, those into loop bodies included. */
  ghost predicate InsideVia(steps: seq<Step>, b: nat, k: nat, v: nat)
    requires IsRoute(steps, b, k)
  {
    ReachAvoiding(Full(steps), Target(steps, b, k), v, steps[b].join)
  }

  ghost predicate Inside(steps: seq<Step>, b: nat, v: nat)
    requires IsBranch(steps, b)
  {
    exists k: nat :: IsRoute(steps, b, k) && InsideVia(steps, b, k, v)
  }

  /** A route of b is being taken when step v is about to run. */
  ghost predicate OpenVia(steps: seq<Step>, b: nat, k: nat, v: nat)
    requires IsRoute(steps, b, k)
  {
    v == steps[b].join || InsideVia(steps, b, k, v)
  }

  ghost predicate Open(steps: seq<Step>, b: nat, v: nat)
    requires IsBranch(steps, b)
  {
    v == steps[b].join || Inside(steps, b, v)
  }

  /** No transition enters the routes of a branch, or its join, from outside,
      and no run starts there.  A caller can check it with the same forward
      search that the compiler uses for its own route check. */
  ghost predicate NoForeignEntry(steps: seq<Step>, entry: nat) {
    forall b: nat | IsBranch(steps, b) ::
      && !Open(steps, b, entry)
      && (forall u: nat, v: nat | Edge(Full(steps), u, v) && Open(steps, b, v) :: u == b || Inside(steps, b, u))
  }

  /** In the body of a loop that lies in route k of b, or in that route itself. */
  ghost predicate InRouteOrBody(steps: seq<Step>, b: nat, k: nat, v: nat)
    requires IsRoute(steps, b, k)
  {
    InRoute(steps, b, k, v) || exists l: nat :: IsLoop(steps, l) && InRoute(steps, b, k, l) && InBody(steps, l, v)
  }

  lemma BodyLeadsBack(steps: seq<Step>, l: nat, v: nat)
    requires Resolved(steps) && LoopsBounded(steps) && IsLoop(steps, l) && InBody(steps, l, v)
    ensures v < |steps| && v != l && Reach(Reduced(steps), v, l) && !IsLoop(steps, v)
  {
    ReachEnds(Reduced(steps), steps[l].body, v, l);
    assert LoopBounded(steps, l);
  }

  /** Reduced transitions out of a body stay in it or return to the loop. */
  lemma BodyStep(steps: seq<Step>, l: nat, u: nat, v: nat)
    requires Resolved(steps) && IsLoop(steps, l) && InBody(steps, l, u) && Edge(Reduced(steps), u, v)
    ensures v == l || InBody(steps, l, v)
  {
    GraphsWellFormed(steps);
    if v != l {
      ReachThen(Reduced(steps), steps[l].body, u, v, l);
    }
  }

  lemma BodyReach(steps: seq<Step>, l: nat, u: nat, v: nat)
    requires Resolved(steps) && IsLoop(steps, l) && InBody(steps, l, u) && ReachAvoiding(Reduced(steps), u, v, l)
    ensures InBody(steps, l, v)
  {
    ReachTrans(Reduced(steps), steps[l].body, u, v, l);
  }

  /** Nodes that reach each other without body edges are the same node. */
  lemma NoReturn(steps: seq<Step>, u: nat, v: nat)
    requires Resolved(steps) && LoopsBounded(steps)
    requires Reach(Reduced(steps), u, v) && Reach(Reduced(steps), v, u)
    ensures u == v
  {
    GraphsWellFormed(steps);
    AcyclicAntisymmetric(Reduced(steps), u, v);
  }

  /** A branch that lies in a loop body does not have that loop in a route:
      its other routes would have to meet there too. */
  lemma LoopOutsideRoute(steps: seq<Step>, b: nat, k: nat, l: nat)
    requires Resolved(steps) && LoopsBounded(steps) && BranchesStructured(steps)
    requires IsRoute(steps, b, k) && IsLoop(steps, l) && InBody(steps, l, b)
    ensures !InRoute(steps, b, k, l)
  {
    if InRoute(steps, b, k, l) {
      GraphsWellFormed(steps);
      var reduced := Reduced(steps);
      var join := steps[b].join;
      assert BranchStructured(steps, b);
      assert StepResolved(steps, b);
      var m: nat := if k == 0 then 1 else 0;
      assert RouteClosed(steps, b, k) && RouteClosed(steps, b, m);
      var t := Target(steps, b, m);
      RouteEdge(steps, b, t);
      BodyStep(steps, l, b, t);
      if t == l {
        ReachSelf(reduced, l, -1);
      } else {
        BodyLeadsBack(steps, l, t);
      }
      ReachSplit(reduced, t, l, join);
      if Reach(reduced, join, l) {
        NoReturn(steps, join, l);
      }
      assert InRoute(steps, b, m, l);
    }
  }

  /** The join of a branch is not in the body of a loop on one of its routes. */
  lemma JoinOutsideBody(steps: seq<Step>, b: nat, k: nat, l: nat)
    requires Resolved(steps) && LoopsBounded(steps) && BranchesStructured(steps)
    requires IsRoute(steps, b, k) && IsLoop(steps, l) && InRoute(steps, b, k, l)
    ensures !InBody(steps, l, steps[b].join)
  {
    assert BranchStructured(steps, b) && RouteClosed(steps, b, k);
    assert StepResolved(steps, b);
    if InBody(steps, l, steps[b].join) {
      BodyLeadsBack(steps, l, steps[b].join);
      NoReturn(steps, l, steps[b].join);
    }
  }

  /** What a route reaches before the join is on the route or in the body of
      a loop on it. */
  lemma InsideIsRouteOrBody(steps: seq<Step>, b: nat, k: nat, v: nat)
    requires Resolved(steps) && LoopsBounded(steps) && BranchesStructured(steps)
    requires IsRoute(steps, b, k) && InsideVia(steps, b, k, v)
    ensures InRouteOrBody(steps, b, k, v)
  {
    GraphsWellFormed(steps);
    var join := steps[b].join;
    var s := set x: nat | x < |steps| && InRouteOrBody(steps, b, k, x);
    ReachEnds(Full(steps), Target(steps, b, k), v, join);
    ReachSelf(Reduced(steps), Target(steps, b, k), join);
    forall u: nat, x: nat | u in s && Edge(Full(steps), u, x) && x != join
      ensures x in s
    {
      EdgeBound(Full(steps), u, x);
      FullEdge(steps, u, x);
      if InRoute(steps, b, k, u) {
        RouteOrBodyStep(steps, b, k, u, x);
      } else {
        var l: nat :| IsLoop(steps, l) && InRoute(steps, b, k, l) && InBody(steps, l, u);
        BodyLeadsBack(steps, l, u);
        BodyStep(steps, l, u, x);
      }
    }
    ReachStaysIn(Full(steps), s, Target(steps, b, k), v, join);
  }

  lemma RouteOrBodyStep(steps: seq<Step>, b: nat, k: nat, u: nat, x: nat)
    requires Resolved(steps)
    requires IsRoute(steps, b, k) && InRoute(steps, b, k, u) && x != steps[b].join
    requires Edge(Reduced(steps), u, x) || (IsLoop(steps, u) && steps[u].body == x)
    ensures InRouteOrBody(steps, b, k, x)
  {
    GraphsWellFormed(steps);
    if Edge(Reduced(steps), u, x) {
      ReachThen(Reduced(steps), Target(steps, b, k), u, x, steps[b].join);
    } else if x != u {
      assert StepResolved(steps, u);
      ReachSelf(Reduced(steps), x, u);
      assert InBody(steps, u, x);
    }
  }

  lemma RouteOrBodyIsInside(steps: seq<Step>, b: nat, k: nat, v: nat)
    requires Resolved(steps) && LoopsBounded(steps) && BranchesStructured(steps)
    requires IsRoute(steps, b, k) && InRouteOrBody(steps, b, k, v)
    ensures InsideVia(steps, b, k, v)
  {
    GraphsWellFormed(steps);
    var join, t := steps[b].join, Target(steps, b, k);
    if InRoute(steps, b, k, v) {
      ReachSubGraph(Reduced(steps), Full(steps), t, v, join);
    } else {
      var l: nat :| IsLoop(steps, l) && InRoute(steps, b, k, l) && InBody(steps, l, v);
      ReachSubGraph(Reduced(steps), Full(steps), t, l, join);
      JoinOutsideBody(steps, b, k, l);
      var body := steps[l].body;
      ReachEnds(Reduced(steps), body, v, l);
      ReachSelf(Reduced(steps), body, l);
      FullEdge(steps, l, body);
      assert body != join;
      ReachThen(Full(steps), t, l, body, join);
      var s := set x: nat | x < |steps| && InBody(steps, l, x) && InsideVia(steps, b, k, x);
      forall a: nat, x: nat | a in s && Edge(Reduced(steps), a, x) && x != l
        ensures x in s
      {
        EdgeBound(Reduced(steps), a, x);
        BodyStep(steps, l, a, x);
        FullEdge(steps, a, x);
        ReachThen(Full(steps), t, a, x, join);
      }
      ReachStaysIn(Reduced(steps), s, body, v, l);
    }
  }

  lemma InsideLeadsToJoin(steps: seq<Step>, b: nat, k: nat, v: nat)
    requires Resolved(steps) && LoopsBounded(steps) && BranchesStructured(steps)
    requires IsRoute(steps, b, k) && InsideVia(steps, b, k, v)
    ensures v < |steps| && v != steps[b].join && Reach(Reduced(steps), v, steps[b].join)
  {
    ReachEnds(Full(steps), Target(steps, b, k), v, steps[b].join);
    InsideIsRouteOrBody(steps, b, k, v);
    assert BranchStructured(steps, b) && RouteClosed(steps, b, k);
    if !InRoute(steps, b, k, v) {
      var l: nat :| IsLoop(steps, l) && InRoute(steps, b, k, l) && InBody(steps, l, v);
      BodyLeadsBack(steps, l, v);
      ReachTrans(Reduced(steps), v, l, steps[b].join, -1);
    }
  }

  lemma RouteReachesInside(steps: seq<Step>, b: nat, k: nat, v: nat)
    requires Resolved(steps) && LoopsBounded(steps) && BranchesStructured(steps)
    requires IsRoute(steps, b, k) && InRoute(steps, b, k, v)
    ensures Reach(Reduced(steps), b, v)
  {
    GraphsWellFormed(steps);
    ReachPlain(Reduced(steps), Target(steps, b, k), v, steps[b].join);
    RouteEdge(steps, b, Target(steps, b, k));
    ThenReach(Reduced(steps), b, Target(steps, b, k), v, -1);
  }

  /** Without body edges nothing on the routes of b leads back to b. */
  lemma InsideNeverReturns(steps: seq<Step>, b: nat, k: nat, v: nat)
    requires Resolved(steps) && LoopsBounded(steps) && BranchesStructured(steps)
    requires IsRoute(steps, b, k) && InsideVia(steps, b, k, v)
    ensures !Reach(Reduced(steps), v, b)
  {
    GraphsWellFormed(steps);
    InsideIsRouteOrBody(steps, b, k, v);
    if Reach(Reduced(steps), v, b) {
      if InRoute(steps, b, k, v) {
        RouteReachesInside(steps, b, k, v);
        NoReturn(steps, v, b);
        RouteContainsBranch(steps, b, k);
      } else {
        var l: nat :| IsLoop(steps, l) && InRoute(steps, b, k, l) && InBody(steps, l, v);
        RouteReachesInside(steps, b, k, l);
        BodyLeadsBack(steps, l, v);
        ReachSplit(Reduced(steps), v, b, l);
        if ReachAvoiding(Reduced(steps), v, b, l) {
          BodyReach(steps, l, v, b);
          LoopOutsideRoute(steps, b, k, l);
        } else {
          NoReturn(steps, b, l);
        }
      }
    }
  }

  lemma RouteContainsBranch(steps: seq<Step>, b: nat, k: nat)
    requires Resolved(steps) && LoopsBounded(steps) && BranchesStructured(steps)
    requires IsRoute(steps, b, k)
    ensures !InRoute(steps, b, k, b)
  {
    GraphsWellFormed(steps);
    if InRoute(steps, b, k, b) {
      ReachPlain(Reduced(steps), Target(steps, b, k), b, steps[b].join);
      RouteEdge(steps, b, Target(steps, b, k));
    }
  }

  lemma NotInsideItself(steps: seq<Step>, b: nat)
    requires Resolved(steps) && LoopsBounded(steps) && BranchesStructured(steps)
    requires IsBranch(steps, b)
    ensures !Inside(steps, b, b)
  {
    if Inside(steps, b, b) {
      var k: nat :| IsRoute(steps, b, k) && InsideVia(steps, b, k, b);
      ReachSelf(Reduced(steps), b, -1);
      InsideNeverReturns(steps, b, k, b);
    }
  }

  /** A branch in the body of a loop on route k joins inside that body. */
  lemma BodyBranchJoinsInBody(steps: seq<Step>, d: nat, l: nat)
    requires Resolved(steps) && LoopsBounded(steps) && BranchesStructured(steps)
    requires IsBranch(steps, d) && IsLoop(steps, l) && InBody(steps, l, d)
    ensures InBody(steps, l, steps[d].join)
  {
    GraphsWellFormed(steps);
    var reduced := Reduced(steps);
    var join := steps[d].join;
    assert StepResolved(steps, d);
    assert BranchStructured(steps, d) && RouteClosed(steps, d, 0);
    var t := Target(steps, d, 0);
    RouteEdge(steps, d, t);
    BodyStep(steps, l, d, t);
    if t == l {
      ReachSelf(reduced, l, -1);
    } else {
      BodyLeadsBack(steps, l, t);
    }
    ReachSplit(reduced, t, l, join);
    if ReachAvoiding(reduced, t, l, join) {
      LoopOutsideRoute(steps, d, 0, l);
    }
    assert Reach(reduced, t, join) && Reach(reduced, join, l);
    ReachSplit(reduced, t, join, l);
    if ReachAvoiding(reduced, t, join, l) {
      BodyReach(steps, l, t, join);
    } else {
      NoReturn(steps, l, join);
    }
  }

  /** A branch inside another joins inside it, and never contains its join. */
  lemma NestedJoin(steps: seq<Step>, b: nat, k: nat, d: nat)
    requires Resolved(steps) && LoopsBounded(steps) && BranchesStructured(steps)
    requires IsRoute(steps, b, k) && IsBranch(steps, d) && InsideVia(steps, b, k, d)
    ensures InsideVia(steps, b, k, steps[d].join)
    ensures steps[d].join != steps[b].join
    ensures !Inside(steps, d, steps[b].join)
  {
    InsideIsRouteOrBody(steps, b, k, d);
    assert BranchStructured(steps, b) && RouteClosed(steps, b, k);
    if InRoute(steps, b, k, d) {
      assert InRoute(steps, b, k, steps[d].join);
    } else {
      var l: nat :| IsLoop(steps, l) && InRoute(steps, b, k, l) && InBody(steps, l, d);
      BodyBranchJoinsInBody(steps, d, l);
    }
    RouteOrBodyIsInside(steps, b, k, steps[d].join);
    InsideLeadsToJoin(steps, b, k, steps[d].join);
    if Inside(steps, d, steps[b].join) {
      var m: nat :| IsRoute(steps, d, m) && InsideVia(steps, d, m, steps[b].join);
      InsideLeadsToJoin(steps, d, m, steps[b].join);
      NoReturn(steps, steps[b].join, steps[d].join);
    }
  }

  /** From inside a route every transition stays inside or reaches the join. */
  lemma InsideStep(steps: seq<Step>, b: nat, k: nat, u: nat, v: nat)
    requires Resolved(steps) && IsRoute(steps, b, k) && InsideVia(steps, b, k, u) && Edge(Full(steps), u, v)
    ensures OpenVia(steps, b, k, v)
  {
    GraphsWellFormed(steps);
    if v != steps[b].join {
      ReachThen(Full(steps), Target(steps, b, k), u, v, steps[b].join);
    }
  }

  lemma TargetIsOpen(steps: seq<Step>, b: nat, k: nat)
    requires Resolved(steps) && IsRoute(steps, b, k)
    ensures OpenVia(steps, b, k, Target(steps, b, k))
  {
    assert StepResolved(steps, b);
    if Target(steps, b, k) != steps[b].join {
      ReachSelf(Full(steps), Target(steps, b, k), steps[b].join);
    }
  }

  lemma OpenViaIsOpen(steps: seq<Step>, b: nat, k: nat, v: nat)
    requires IsRoute(steps, b, k) && OpenVia(steps, b, k, v)
    ensures Open(steps, b, v)
  {
  }

  /** Whatever a node reaches, it reaches without body edges, or it so reaches
      a loop whose body holds it. */
  lemma ReachNormalForm(steps: seq<Step>, u: nat, v: nat)
    requires Resolved(steps) && LoopsBounded(steps)
    requires Reach(Full(steps), u, v)
    ensures Reach(Reduced(steps), u, v)
            || exists l: nat :: IsLoop(steps, l) && Reach(Reduced(steps), u, l) && InBody(steps, l, v)
  {
    GraphsWellFormed(steps);
    ReachEnds(Full(steps), u, v, -1);
    ReachSelf(Reduced(steps), u, -1);
    var s := set x: nat | x < |steps| && (Reach(Reduced(steps), u, x) || ViaLoop(steps, u, x));
    forall a: nat, x: nat | a in s && Edge(Full(steps), a, x) && x != -1
      ensures x in s
    {
      EdgeBound(Full(steps), a, x);
      FullEdge(steps, a, x);
      if Reach(Reduced(steps), u, a) {
        if Edge(Reduced(steps), a, x) {
          ReachThen(Reduced(steps), u, a, x, -1);
        } else if x != a {
          ReachSelf(Reduced(steps), x, a);
          assert InBody(steps, a, x);
        }
      } else {
        var l: nat :| IsLoop(steps, l) && Reach(Reduced(steps), u, l) && InBody(steps, l, a);
        BodyLeadsBack(steps, l, a);
        BodyStep(steps, l, a, x);
      }
    }
    ReachStaysIn(Full(steps), s, u, v, -1);
    assert v in s;
  }

  ghost predicate ViaLoop(steps: seq<Step>, u: nat, v: nat) {
    exists l: nat :: IsLoop(steps, l) && Reach(Reduced(steps), u, l) && InBody(steps, l, v)
  }

  // ----- a step lies on one route at most

  lemma RouteOfInside(steps: seq<Step>, b: nat, k: nat, m: nat, r: nat)
    requires Resolved(steps) && LoopsBounded(steps) && BranchesStructured(steps)
    requires IsRoute(steps, b, k) && IsRoute(steps, b, m)
    requires InsideVia(steps, b, k, r) && InRoute(steps, b, m, r)
    ensures k == m
  {
    assert BranchStructured(steps, b);
    assert StepResolved(steps, b);
    InsideIsRouteOrBody(steps, b, k, r);
    if !InRoute(steps, b, k, r) {
      var l: nat :| IsLoop(steps, l) && InRoute(steps, b, k, l) && InBody(steps, l, r);
      BodyLeadsBack(steps, l, r);
      assert RouteClosed(steps, b, k);
      ReachSplit(Reduced(steps), r, l, steps[b].join);
      if ReachAvoiding(Reduced(steps), r, l, steps[b].join) {
        ReachTrans(Reduced(steps), Target(steps, b, m), r, l, steps[b].join);
        assert InRoute(steps, b, m, l);
      } else {
        NoReturn(steps, l, steps[b].join);
      }
    }
  }

  lemma OneRouteInside(steps: seq<Step>, b: nat, k: nat, m: nat, d: nat)
    requires Resolved(steps) && LoopsBounded(steps) && BranchesStructured(steps)
    requires IsRoute(steps, b, k) && IsRoute(steps, b, m) && InsideVia(steps, b, k, d) && InsideVia(steps, b, m, d)
    ensures k == m
  {
    InsideIsRouteOrBody(steps, b, k, d);
    InsideIsRouteOrBody(steps, b, m, d);
    if InRoute(steps, b, m, d) {
      RouteOfInside(steps, b, k, m, d);
    } else if InRoute(steps, b, k, d) {
      RouteOfInside(steps, b, m, k, d);
    } else {
      var l: nat :| IsLoop(steps, l) && InRoute(steps, b, k, l) && InBody(steps, l, d);
      var o: nat :| IsLoop(steps, o) && InRoute(steps, b, m, o) && InBody(steps, o, d);
      SameLoop(steps, l, o, d);
      assert BranchStructured(steps, b);
    }
  }

  lemma SameLoop(steps: seq<Step>, l: nat, o: nat, d: nat)
    requires Resolved(steps) && LoopsBounded(steps) && BranchesStructured(steps)
    requires IsLoop(steps, l) && IsLoop(steps, o) && InBody(steps, l, d) && InBody(steps, o, d)
    ensures l == o
  {
    BodyLeadsBack(steps, l, d);
    BodyLeadsBack(steps, o, d);
    LoopLeadsTo(steps, l, o, d);
    LoopLeadsTo(steps, o, l, d);
    NoReturn(steps, l, o);
  }

  lemma LoopLeadsTo(steps: seq<Step>, l: nat, o: nat, d: nat)
    requires Resolved(steps) && LoopsBounded(steps)
    requires IsLoop(steps, l) && IsLoop(steps, o) && InBody(steps, l, d) && Reach(Reduced(steps), d, o)
    ensures Reach(Reduced(steps), l, o)
  {
    ReachSplit(Reduced(steps), d, o, l);
    if ReachAvoiding(Reduced(steps), d, o, l) {
      BodyReach(steps, l, d, o);
      BodyLeadsBack(steps, l, o);
    }
  }

  lemma InsideLoopIsOnRoute(steps: seq<Step>, b: nat, k: nat, l: nat)
    requires Resolved(steps) && LoopsBounded(steps) && BranchesStructured(steps)
    requires IsRoute(steps, b, k) && IsLoop(steps, l) && InsideVia(steps, b, k, l)
    ensures InRoute(steps, b, k, l)
  {
    InsideIsRouteOrBody(steps, b, k, l);
    forall outer: nat | IsLoop(steps, outer) && InBody(steps, outer, l)
      ensures false
    {
      BodyLeadsBack(steps, outer, l);
    }
  }
}
