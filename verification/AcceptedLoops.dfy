/** The two plans that mismatch come from canvases that the front end accepts,
    and compile. */
module AcceptedLoops {
  import opened Walks
  import opened ExecutionPlan
  import opened Scenario
  import opened Iteration
  import opened TemplateRuns
  import opened PlanDefinition
  import opened PlanBinding
  import opened PlanCompiler
  import opened CanvasGraph
  import opened CanvasPlan
  import opened SimplePlans
  import opened ClosedLoops

  predicate Mismatching(first: nat, body: nat) {
    (first, body) == (1, 4) || (first, body) == (4, 1)
  }

  /** Ids that nodes and plan steps may have. */
  predicate ValidNames(names: seq<string>) {
    && |names| == 7 && (forall i | 0 <= i < 7 :: Plain(names[i]) && 1 <= |names[i]| <= 16)
    && (forall i, j | 0 <= i < j < 7 :: names[i] != names[j])
  }

  // ----- the canvases

  function KindAt(v: nat): NodeKind {
    if v == 1 then BranchNode else if v == 4 then JoinNode else if v == 5 then LoopNode
    else if v == 6 then EngineNode else RequestNode
  }

  function NodeAt(names: seq<string>, body: nat, v: nat): Node
    requires |names| == 7 && body < 7 && v < 7
  {
    Node(names[v], KindAt(v), names[v], if v == 5 then names[body] else "", if v == 5 then 1 else 0,
         if v == 1 then names[4] else "", map[])
  }

  function TargetsAt(first: nat, body: nat, v: nat): seq<nat> {
    if v == 0 then [first] else if v == 1 then [2, 3] else if v == 2 || v == 3 then [4]
    else if v == 4 then [5] else if v == 5 then [body, 6] else []
  }

  /** A request 0, branch 1 to the requests 2 and 3, join 4, loop 5 and engine
      6; the request goes to `first`, the loop body is `body`. */
  function Drawing(names: seq<string>, first: nat, body: nat): Canvas
    requires |names| == 7 && body < 7
  {
    Canvas(seq(7, v requires 0 <= v < 7 => NodeAt(names, body, v)),
           seq(7, v requires 0 <= v < 7 => TargetsAt(first, body, v)))
  }

  predicate IsEdge(first: nat, u: nat, v: nat) {
    (u, v) in {(0, first), (1, 2), (1, 3), (2, 4), (3, 4), (4, 5), (5, 6)}
  }

  lemma PlainIsTrimmed(s: string)
    requires Plain(s)
    ensures Trim(s) == s
  {
    if s != [] {
      assert !IsWhite(s[0]) && !IsWhite(s[|s| - 1]);
    }
  }

  lemma NamesAreTrimmed(names: seq<string>, body: nat, v: nat)
    requires ValidNames(names) && body < 7 && v < 7
    ensures NodeAt(names, body, v).BodyID() == NodeAt(names, body, v).loopBody
    ensures NodeAt(names, body, v).JoinID() == NodeAt(names, body, v).joinID
  {
    PlainIsTrimmed(names[body]);
    PlainIsTrimmed(names[4]);
  }

  lemma DrawingNodes(names: seq<string>, first: nat, body: nat)
    requires ValidNames(names) && Mismatching(first, body)
    ensures var c := Drawing(names, first, body);
            && |c.nodes| == |c.outgoing| == 7
            && (forall v | 0 <= v < 7 ::
                  c.nodes[v] == NodeAt(names, body, v) && c.outgoing[v] == TargetsAt(first, body, v))
            && (forall v: nat, kind :: Kind(c, v, kind) <==> v < 7 && KindAt(v) == kind)
  {
  }

  lemma DrawingNames(names: seq<string>, first: nat, body: nat)
    requires ValidNames(names) && Mismatching(first, body)
    ensures var c := Drawing(names, first, body);
            |c.nodes| == 7 && c.nodes[5].BodyID() == names[body] && c.nodes[1].JoinID() == names[4]
  {
    NamesAreTrimmed(names, body, 5);
    NamesAreTrimmed(names, body, 1);
  }

  lemma DrawingIsValid(names: seq<string>, first: nat, body: nat)
    requires ValidNames(names) && Mismatching(first, body)
    ensures Valid(Drawing(names, first, body))
  {
    hide Drawing;
    DrawingNodes(names, first, body);
  }

  lemma OutgoingEdge(names: seq<string>, first: nat, body: nat, u: nat, v: nat)
    requires ValidNames(names) && Mismatching(first, body)
    ensures Edge(Drawing(names, first, body).outgoing, u, v) <==> IsEdge(first, u, v) || (u, v) == (5, body)
  {
    hide Drawing;
    DrawingNodes(names, first, body);
    if u < 7 {
      assert u == 0 || u == 1 || u == 2 || u == 3 || u == 4 || u == 5 || u == 6;
    }
  }

  lemma InnerEdge(names: seq<string>, first: nat, body: nat, u: nat, v: nat)
    requires ValidNames(names) && Mismatching(first, body)
    ensures Valid(Drawing(names, first, body))
    ensures Edge(ReducedOutgoing(Drawing(names, first, body)), u, v) <==> IsEdge(first, u, v)
  {
    hide Drawing;
    DrawingIsValid(names, first, body);
    DrawingNodes(names, first, body);
    DrawingNames(names, first, body);
    OutgoingEdge(names, first, body, u, v);
    ReducedEdge(Drawing(names, first, body), u, v);
    if u == 5 && (v == body || v == 6) {
      assert names[body] != names[6];
    }
  }

  lemma DrawingEdges(names: seq<string>, first: nat, body: nat)
    requires ValidNames(names) && Mismatching(first, body)
    ensures var c := Drawing(names, first, body);
            && Valid(c) && WellFormed(ReducedOutgoing(c)) && |ReducedOutgoing(c)| == 7
            && (forall u: nat, v: nat :: Edge(ReducedOutgoing(c), u, v) <==> IsEdge(first, u, v))
            && (forall u: nat, v: nat :: Edge(c.outgoing, u, v) <==> IsEdge(first, u, v) || (u, v) == (5, body))
  {
    hide Drawing;
    var c := Drawing(names, first, body);
    DrawingIsValid(names, first, body);
    DrawingNodes(names, first, body);
    ReducedIsGraph(c);
    forall u: nat, v: nat
      ensures Edge(ReducedOutgoing(c), u, v) <==> IsEdge(first, u, v)
      ensures Edge(c.outgoing, u, v) <==> IsEdge(first, u, v) || (u, v) == (5, body)
    {
      InnerEdge(names, first, body, u, v);
      OutgoingEdge(names, first, body, u, v);
    }
  }

  lemma DrawingReaches(names: seq<string>, first: nat, body: nat)
    requires ValidNames(names) && Mismatching(first, body)
    ensures var c := Drawing(names, first, body);
            && Valid(c) && Acyclic(ReducedOutgoing(c))
            && (forall v: nat | 1 <= v <= 5 :: Reach(ReducedOutgoing(c), v, 5))
            && (forall v: nat | 2 <= v <= 4 :: Reach(ReducedOutgoing(c), v, 4))
  {
    hide Drawing;
    DrawingEdges(names, first, body);
    var reduced := ReducedOutgoing(Drawing(names, first, body));
    forall u: nat, v: nat | Edge(reduced, u, v)
      ensures !Reach(reduced, v, u)
    {
      if Reach(reduced, v, u) {
        IncreasingReach(reduced, v, u);
      }
    }
    ReachSelf(reduced, 5, -1);
    ReachSelf(reduced, 4, -1);
    ThenReach(reduced, 4, 5, 5, -1);
    ThenReach(reduced, 2, 4, 5, -1);
    ThenReach(reduced, 3, 4, 5, -1);
    ThenReach(reduced, 1, 2, 5, -1);
    ThenReach(reduced, 2, 4, 4, -1);
    ThenReach(reduced, 3, 4, 4, -1);
  }

  lemma DrawingReachable(names: seq<string>, first: nat, body: nat)
    requires ValidNames(names) && Mismatching(first, body)
    ensures forall v: nat | v < 7 :: Reach(Drawing(names, first, body).outgoing, 0, v)
  {
    hide Drawing;
    var outgoing := Drawing(names, first, body).outgoing;
    DrawingEdges(names, first, body);
    ReachSelf(outgoing, 0, -1);
    ReachThen(outgoing, 0, 0, first, -1);
    if first == 1 {
      ReachThen(outgoing, 0, 1, 2, -1);
      ReachThen(outgoing, 0, 1, 3, -1);
      ReachThen(outgoing, 0, 2, 4, -1);
      ReachThen(outgoing, 0, 4, 5, -1);
    } else {
      ReachThen(outgoing, 0, 4, 5, -1);
      ReachThen(outgoing, 0, 5, 1, -1);
      ReachThen(outgoing, 0, 1, 2, -1);
      ReachThen(outgoing, 0, 1, 3, -1);
    }
    ReachThen(outgoing, 0, 5, 6, -1);
    forall v: nat | v < 7
      ensures Reach(outgoing, 0, v)
    {
      assert v == 0 || v == 1 || v == 2 || v == 3 || v == 4 || v == 5 || v == 6;
    }
  }

  lemma BodyRegionIs(names: seq<string>, first: nat, body: nat, v: nat)
    requires ValidNames(names) && Mismatching(first, body)
    ensures Valid(Drawing(names, first, body))
    ensures ReachAvoiding(ReducedOutgoing(Drawing(names, first, body)), body, v, 5) ==> 1 <= v <= 4
  {
    hide Drawing, ReachAvoiding, ReducedOutgoing;
    DrawingIsValid(names, first, body);
    var reduced := ReducedOutgoing(Drawing(names, first, body));
    if ReachAvoiding(reduced, body, v, 5) {
      forall a: nat, b: nat | 1 <= a <= 4 && Edge(reduced, a, b) && b != 5
        ensures 1 <= b <= 4
      {
        InnerEdge(names, first, body, a, b);
      }
      ReachStaysIn(reduced, {1, 2, 3, 4}, body, v, 5);
    }
  }

  lemma DrawingLoop(names: seq<string>, first: nat, body: nat)
    requires ValidNames(names) && Mismatching(first, body)
    ensures Valid(Drawing(names, first, body)) && CanvasLoopBounded(Drawing(names, first, body), 5, body)
  {
    hide Drawing, ReachAvoiding, ReducedOutgoing, Acyclic;
    DrawingReaches(names, first, body);
    var c := Drawing(names, first, body);
    forall v: nat | ReachAvoiding(ReducedOutgoing(c), body, v, 5)
      ensures Reach(ReducedOutgoing(c), v, 5) && !Kind(c, v, LoopNode)
    {
      BodyRegionIs(names, first, body, v);
      DrawingNodes(names, first, body);
    }
    forall exit: nat | Edge(ReducedOutgoing(c), 5, exit)
      ensures !ReachAvoiding(ReducedOutgoing(c), body, exit, 5)
    {
      InnerEdge(names, first, body, 5, exit);
      BodyRegionIs(names, first, body, exit);
    }
  }

  lemma RouteRegionIs(names: seq<string>, first: nat, body: nat, t: nat, v: nat)
    requires ValidNames(names) && Mismatching(first, body) && (t == 2 || t == 3)
    ensures Valid(Drawing(names, first, body))
    ensures InRegion(Drawing(names, first, body), 4, t, v) ==> v == t
  {
    hide Drawing, ReachAvoiding, ReducedOutgoing;
    DrawingIsValid(names, first, body);
    if InRegion(Drawing(names, first, body), 4, t, v) {
      forall b: nat | Edge(ReducedOutgoing(Drawing(names, first, body)), t, b)
        ensures b == 4
      {
        InnerEdge(names, first, body, t, b);
      }
      ReachStaysIn(ReducedOutgoing(Drawing(names, first, body)), {t}, t, v, 4);
    }
  }

  lemma RouteClosedAt(names: seq<string>, first: nat, body: nat, t: nat)
    requires ValidNames(names) && Mismatching(first, body) && (t == 2 || t == 3)
    ensures Valid(Drawing(names, first, body)) && CanvasRouteClosed(Drawing(names, first, body), 4, t)
  {
    hide Drawing, ReachAvoiding, ReducedOutgoing, Acyclic, InRegion;
    DrawingReaches(names, first, body);
    var c := Drawing(names, first, body);
    forall v: nat | InRegion(c, 4, t, v)
      ensures v == t && !Kind(c, v, BranchNode)
    {
      RouteRegionIs(names, first, body, t, v);
      DrawingNodes(names, first, body);
    }
  }

  lemma DrawingBranch(names: seq<string>, first: nat, body: nat)
    requires ValidNames(names) && Mismatching(first, body)
    ensures Valid(Drawing(names, first, body)) && CanvasBranchStructured(Drawing(names, first, body), 1, 4)
  {
    hide Drawing, CanvasRouteClosed, InRegion;
    DrawingIsValid(names, first, body);
    var c := Drawing(names, first, body);
    forall t: nat | Edge(c.outgoing, 1, t)
      ensures t == 2 || t == 3
    {
      OutgoingEdge(names, first, body, 1, t);
    }
    RouteClosedAt(names, first, body, 2);
    RouteClosedAt(names, first, body, 3);
    forall s: nat, t: nat, v: nat | Edge(c.outgoing, 1, s) && Edge(c.outgoing, 1, t)
      && InRegion(c, 4, s, v) && InRegion(c, 4, t, v)
      ensures s == t
    {
      RouteRegionIs(names, first, body, s, v);
      RouteRegionIs(names, first, body, t, v);
    }
  }

  lemma DrawingDegrees(names: seq<string>, first: nat, body: nat)
    requires ValidNames(names) && Mismatching(first, body)
    ensures Valid(Drawing(names, first, body)) && DegreesAllowed(Drawing(names, first, body))
  {
    hide Drawing;
    DrawingIsValid(names, first, body);
    DrawingNodes(names, first, body);
  }

  lemma DrawingJoins(names: seq<string>, first: nat, body: nat)
    requires ValidNames(names) && Mismatching(first, body)
    ensures var c := Drawing(names, first, body);
            CanvasJoinsOwned(c) && forall b: nat, j: nat | JoinOf(c, b, j) :: b == 1 && j == 4
  {
    hide Drawing;
    DrawingNodes(names, first, body);
    DrawingNames(names, first, body);
    assert JoinOf(Drawing(names, first, body), 1, 4);
    assert HasJoin(Drawing(names, first, body), 1) && HasOwner(Drawing(names, first, body), 4);
  }

  lemma DrawingLoopDefined(names: seq<string>, first: nat, body: nat)
    requires ValidNames(names) && Mismatching(first, body)
    ensures var c := Drawing(names, first, body);
            && |c.nodes| == 7 && (forall l: nat | Kind(c, l, LoopNode) :: l == 5 && LoopDefined(c, l))
            && (forall l: nat, t: nat | BodyTarget(c, l, t) :: l == 5 && t == body)
  {
    hide Drawing;
    var c := Drawing(names, first, body);
    DrawingNodes(names, first, body);
    DrawingNames(names, first, body);
    OutgoingEdge(names, first, body, 5, body);
    assert TargetNamed(c, 5, names[body]);
  }

  lemma NothingAfterEngine(names: seq<string>, first: nat, body: nat)
    requires ValidNames(names) && Mismatching(first, body)
    ensures forall v: nat | Reach(Drawing(names, first, body).outgoing, 6, v) :: v == 6
  {
    hide Drawing;
    DrawingEdges(names, first, body);
    forall v: nat | Reach(Drawing(names, first, body).outgoing, 6, v)
      ensures v == 6
    {
      ReachStaysIn(Drawing(names, first, body).outgoing, {6}, 6, v, -1);
    }
  }

  lemma DrawingGraph(names: seq<string>, first: nat, body: nat)
    requires ValidNames(names) && Mismatching(first, body)
    ensures GraphAccepted(Drawing(names, first, body), 0, 6)
  {
    hide Drawing, DegreesAllowed, CanvasJoinsOwned, CanvasBranchStructured, CanvasLoopBounded, LoopDefined, JoinOf,
         BodyTarget, Acyclic, ReducedOutgoing, ReachAvoiding, NodeAt, TargetsAt;
    var c := Drawing(names, first, body);
    DrawingNodes(names, first, body);
    DrawingDegrees(names, first, body);
    DrawingJoins(names, first, body);
    DrawingLoopDefined(names, first, body);
    DrawingEdges(names, first, body);
    DrawingReaches(names, first, body);
    DrawingReachable(names, first, body);
    DrawingLoop(names, first, body);
    DrawingBranch(names, first, body);
    NothingAfterEngine(names, first, body);
  }

  function SourceOf(first: nat, v: nat): nat {
    if v == 1 then (if first == 1 then 0 else 5) else if v == 2 || v == 3 then 1 else if v == 4 then 2
    else if v == 5 then 4 else 5
  }

  lemma DrawingSources(names: seq<string>, first: nat, body: nat, v: nat)
    requires ValidNames(names) && Mismatching(first, body) && v < 7
    ensures HasSource(Drawing(names, first, body), v) <==> v != 0
    ensures TwoSources(Drawing(names, first, body), v) <==> v == 4
  {
    hide Drawing;
    var c := Drawing(names, first, body);
    OutgoingEdge(names, first, body, SourceOf(first, v), v);
    OutgoingEdge(names, first, body, 3, v);
    if HasSource(c, v) {
      var u: nat :| Edge(c.outgoing, u, v);
      OutgoingEdge(names, first, body, u, v);
    }
    if TwoSources(c, v) {
      var u: nat, w: nat :| u != w && Edge(c.outgoing, u, v) && Edge(c.outgoing, w, v);
      OutgoingEdge(names, first, body, u, v);
      OutgoingEdge(names, first, body, w, v);
    }
  }

  lemma DrawingEnds(names: seq<string>, first: nat, body: nat)
    requires ValidNames(names) && Mismatching(first, body)
    ensures Valid(Drawing(names, first, body)) && EndsAllowed(Drawing(names, first, body), 0, 6)
    ensures TailOrdered(Drawing(names, first, body), 6, 6)
  {
    hide Drawing, HasSource, TwoSources;
    DrawingIsValid(names, first, body);
    DrawingNodes(names, first, body);
    forall v: nat | v < 7
      ensures HasSource(Drawing(names, first, body), v) <==> v != 0
      ensures TwoSources(Drawing(names, first, body), v) <==> v == 4
    {
      DrawingSources(names, first, body, v);
    }
  }

  lemma DrawingAccepted(names: seq<string>, first: nat, body: nat)
    requires ValidNames(names) && Mismatching(first, body)
    ensures CanvasAccepted(Drawing(names, first, body), 0, 6, 6)
  {
    hide Drawing;
    var c := Drawing(names, first, body);
    DrawingNodes(names, first, body);
    DrawingGraph(names, first, body);
    DrawingEnds(names, first, body);
    assert Control(c.nodes[1].kind);
  }

  // ----- what is emitted

  function Request(id: string, next: string): StepDefinition {
    StepDefinition(id, ScenarioKind, next, "", [], "", "", "", 0)
  }

  function DefinitionAt(names: seq<string>, first: nat, body: nat, i: nat): StepDefinition
    requires |names| == 7 && first < 7 && body < 7
  {
    if i == 0 then Request(names[0], names[first])
    else if i == 1 then
      StepDefinition(names[1], BranchKind, "", "", [RouteDefinition(names[2], names[2], names[2], 1),
                                                    RouteDefinition(names[3], names[3], names[3], 1)],
                     names[4], "", "", 0)
    else if i == 2 || i == 3 then Request(names[i], names[4])
    else if i == 4 then StepDefinition(names[4], JoinKind, names[5], "", [], "", "", "", 0)
    else StepDefinition(names[5], LoopKind, "", "", [], "", names[body], "", 1)
  }

  function Definition(names: seq<string>, first: nat, body: nat): PlanDefinition
    requires |names| == 7 && first < 7 && body < 7
  {
    PlanDefinition(1, names[0], seq(6, i requires 0 <= i < 6 => DefinitionAt(names, first, body, i)))
  }

  function Order(): seq<nat> {
    [0, 1, 2, 3, 4, 5]
  }

  lemma DrawingOrder(names: seq<string>, first: nat, body: nat)
    requires ValidNames(names) && Mismatching(first, body)
    ensures ExecutionOrder(Drawing(names, first, body), 0, 6, Order())
  {
    hide Drawing, ReducedOutgoing, WellFormed;
    var outgoing := Drawing(names, first, body).outgoing;
    DrawingEdges(names, first, body);
    ReachEdge(outgoing, 5, 6, -1);
    ThenReach(outgoing, 4, 5, 6, -1);
    ThenReach(outgoing, 3, 4, 6, -1);
    ThenReach(outgoing, 2, 4, 6, -1);
    ThenReach(outgoing, 1, 2, 6, -1);
    forall v: nat | Reach(outgoing, v, 6)
      ensures v < 7
    {
      ReachEnds(outgoing, v, 6, -1);
    }
  }

  lemma PlainEmits(names: seq<string>, first: nat, body: nat, i: nat)
    requires ValidNames(names) && Mismatching(first, body) && i < 5 && i != 1
    ensures HasTargets(Drawing(names, first, body), i) && Buildable(Drawing(names, first, body), map[], i)
    ensures DefinitionAt(names, first, body, i) == Emitted(Drawing(names, first, body), Order(), map[], i)
  {
    hide Drawing;
    DrawingIsValid(names, first, body);
    DrawingNodes(names, first, body);
    assert i == 0 || i == 2 || i == 3 || i == 4;
  }

  lemma BranchEmits(names: seq<string>, first: nat, body: nat)
    requires ValidNames(names) && Mismatching(first, body)
    ensures HasTargets(Drawing(names, first, body), 1) && Buildable(Drawing(names, first, body), map[], 1)
    ensures DefinitionAt(names, first, body, 1) == Emitted(Drawing(names, first, body), Order(), map[], 1)
  {
    hide Drawing;
    var c := Drawing(names, first, body);
    DrawingIsValid(names, first, body);
    DrawingNodes(names, first, body);
    assert EmittedRoutes(c, 1) == [RouteDefinition(names[2], names[2], names[2], 1),
                                   RouteDefinition(names[3], names[3], names[3], 1)];
  }

  lemma OthersOfTwo(c: Canvas, first: nat, second: nat, id: string)
    requires first < |c.nodes| && second < |c.nodes| && c.nodes[first].id == id != c.nodes[second].id
    ensures InRange(c, [first, second]) && Others(c, [first, second], id) == [second]
  {
    assert [first, second][1..] == [second] && [second][1..] == [];
    assert Others(c, [second], id) == [second];
  }

  lemma LoopTargets(names: seq<string>, first: nat, body: nat)
    requires ValidNames(names) && Mismatching(first, body)
    ensures HasTargets(Drawing(names, first, body), 5) && ReducedTargets(Drawing(names, first, body), 5) == [6]
  {
    hide Drawing, Others;
    var c := Drawing(names, first, body);
    DrawingIsValid(names, first, body);
    DrawingNodes(names, first, body);
    DrawingNames(names, first, body);
    assert c.outgoing[5] == [body, 6] && c.nodes[6].id != c.nodes[body].id;
    OthersOfTwo(c, body, 6, names[body]);
  }

  lemma LoopEmits(names: seq<string>, first: nat, body: nat)
    requires ValidNames(names) && Mismatching(first, body)
    ensures HasTargets(Drawing(names, first, body), 5) && Buildable(Drawing(names, first, body), map[], 5)
    ensures DefinitionAt(names, first, body, 5) == Emitted(Drawing(names, first, body), Order(), map[], 5)
  {
    hide Drawing, ReducedTargets;
    var c := Drawing(names, first, body);
    DrawingIsValid(names, first, body);
    DrawingNodes(names, first, body);
    LoopTargets(names, first, body);
    assert c.outgoing[5][0] == body && c.nodes[body].id == names[body];
    assert |names[body]| >= 1;
    assert 6 !in Order();
  }

  lemma DrawingEmits(names: seq<string>, first: nat, body: nat)
    requires ValidNames(names) && Mismatching(first, body)
    ensures Valid(Drawing(names, first, body))
    ensures EmitsPlan(Drawing(names, first, body), Order(), map[], Definition(names, first, body))
  {
    hide Drawing, Buildable, Emitted, DefinitionAt;
    DrawingIsValid(names, first, body);
    DrawingNodes(names, first, body);
    forall i: nat | i < 6
      ensures Buildable(Drawing(names, first, body), map[], i)
      ensures DefinitionAt(names, first, body, i) == Emitted(Drawing(names, first, body), Order(), map[], i)
    {
      if i == 1 {
        BranchEmits(names, first, body);
      } else if i == 5 {
        LoopEmits(names, first, body);
      } else {
        PlainEmits(names, first, body, i);
      }
    }
  }

  // ----- the emitted plan compiles

  function Requests(names: seq<string>): seq<ScenarioStep>
    requires |names| == 7
  {
    [ RequestKind(names[0], RequestStep(0, [], [], [])),
      RequestKind(names[2], RequestStep(1, [], [], [])),
      RequestKind(names[3], RequestStep(2, [], [], [])) ]
  }

  function StepIndex(names: seq<string>): Index
    requires |names| == 7
  {
    map[names[0] := 0, names[1] := 1, names[2] := 2, names[3] := 3, names[4] := 4, names[5] := 5]
  }

  function RequestIndex(names: seq<string>): Index
    requires |names| == 7
  {
    map[names[0] := 0, names[2] := 1, names[3] := 2]
  }

  lemma NamesAreIds(names: seq<string>)
    requires ValidNames(names)
    ensures forall i | 0 <= i < 7 :: ValidPlanID(names[i])
  {
    forall i | 0 <= i < 7
      ensures ValidPlanID(names[i])
    {
      PlainIsValid(names[i]);
    }
  }

  lemma IndexIs(names: seq<string>)
    requires ValidNames(names)
    ensures forall id | id in StepIndex(names) :: StepIndex(names)[id] < 6 && names[StepIndex(names)[id]] == id
    ensures forall i | 0 <= i < 6 :: names[i] in StepIndex(names) && StepIndex(names)[names[i]] == i
  {
    assert names[0] != names[1] && names[0] != names[2] && names[0] != names[3] && names[0] != names[4]
           && names[0] != names[5] && names[1] != names[2] && names[1] != names[3] && names[1] != names[4]
           && names[1] != names[5] && names[2] != names[3] && names[2] != names[4] && names[2] != names[5]
           && names[3] != names[4] && names[3] != names[5] && names[4] != names[5];
  }

  lemma RequestIndexIs(names: seq<string>)
    requires ValidNames(names)
    ensures ScenarioIndexed(Requests(names), RequestIndex(names))
    ensures forall i | i == 0 || i == 2 || i == 3 ::
              names[i] in RequestIndex(names) && RequestIndex(names)[names[i]] == if i == 0 then 0 else i - 1
  {
    assert names[0] != names[2] && names[0] != names[3] && names[2] != names[3];
  }

  lemma DefinitionIds(names: seq<string>, first: nat, body: nat)
    requires ValidNames(names) && Mismatching(first, body)
    ensures |Definition(names, first, body).steps| == 6
    ensures forall i | 0 <= i < 6 :: Definition(names, first, body).steps[i] == DefinitionAt(names, first, body, i)
    ensures forall i | 0 <= i < 6 :: Definition(names, first, body).steps[i].id == names[i]
  {
  }

  lemma DefinitionIndexed(names: seq<string>, first: nat, body: nat)
    requires ValidNames(names) && Mismatching(first, body)
    ensures IdsAccepted(Definition(names, first, body).steps, 6)
    ensures Indexes(Definition(names, first, body).steps, StepIndex(names), 6)
  {
    hide Definition, DefinitionAt, StepIndex;
    NamesAreIds(names);
    IndexIs(names);
    DefinitionIds(names, first, body);
  }

  /** The definition of step i resolves to step i of the plan. */
  ghost predicate ResolvesAt(names: seq<string>, first: nat, body: nat, i: nat)
    requires |names| == 7 && first < 6 && body < 6 && i < 6
  {
    var steps, index, byID := Definition(names, first, body).steps, StepIndex(names), RequestIndex(names);
    && (forall id | id in index :: index[id] < |steps|)
    && DefinitionAccepted(steps, i, index, byID)
    && ClosedLoops.Example(names, first, body)[i] == CompiledStep(steps, i, index, byID)
  }

  /** The definitions and the steps without and with routes. */
  lemma StepsAt(names: seq<string>, first: nat, body: nat)
    requires |names| == 7
    ensures |ClosedLoops.Example(names, first, body)| == 6
    ensures var steps := ClosedLoops.Example(names, first, body);
            && steps[0] == Scenario(names[0], 0, first) && steps[2] == Scenario(names[2], 1, 4)
            && steps[3] == Scenario(names[3], 2, 4) && steps[4] == Join(names[4], 5)
            && steps[5] == Loop(names[5], body, -1, 1)
            && steps[1] == Branch(names[1], [Route(names[2], names[2], 2, 1, 0, ScopeKey(names[1], names[2])),
                                             Route(names[3], names[3], 3, 1, 1, ScopeKey(names[1], names[3]))], 2, 4)
  {
  }

  lemma RequestResolves(names: seq<string>, first: nat, body: nat, i: nat)
    requires ValidNames(names) && Mismatching(first, body) && (i == 0 || i == 2 || i == 3)
    ensures ResolvesAt(names, first, body, i)
  {
    hide Definition, StepIndex, RequestIndex, ClosedLoops.Example;
    NamesAreIds(names);
    IndexIs(names);
    RequestIndexIs(names);
    DefinitionIds(names, first, body);
    StepsAt(names, first, body);
  }

  lemma ControlResolves(names: seq<string>, first: nat, body: nat, i: nat)
    requires ValidNames(names) && Mismatching(first, body) && (i == 4 || i == 5)
    ensures ResolvesAt(names, first, body, i)
  {
    hide Definition, StepIndex, RequestIndex, ClosedLoops.Example;
    NamesAreIds(names);
    IndexIs(names);
    DefinitionIds(names, first, body);
    StepsAt(names, first, body);
  }

  lemma BranchDefinition(names: seq<string>, first: nat, body: nat)
    requires ValidNames(names) && Mismatching(first, body)
    ensures var steps := Definition(names, first, body).steps;
            && |steps| == 6 && RoutesBefore(steps, 1) == 0 && steps[4].kind == JoinKind
            && steps[1].id == names[1] && steps[1].kind == BranchKind && steps[1].joinStepID == names[4]
            && steps[1].routes == [RouteDefinition(names[2], names[2], names[2], 1),
                                   RouteDefinition(names[3], names[3], names[3], 1)]
  {
    DefinitionIds(names, first, body);
    assert RoutesBefore(Definition(names, first, body).steps, 0) == 0;
  }

  lemma BranchIndexes(names: seq<string>)
    requires ValidNames(names)
    ensures forall i | 2 <= i <= 4 :: TargetExists(names[i], StepIndex(names)) && StepIndex(names)[names[i]] == i
    ensures forall id | id in StepIndex(names) :: StepIndex(names)[id] < 6
  {
    hide StepIndex;
    NamesAreIds(names);
    IndexIs(names);
  }

  lemma BranchResolves(names: seq<string>, first: nat, body: nat)
    requires ValidNames(names) && Mismatching(first, body)
    ensures ResolvesAt(names, first, body, 1)
  {
    hide Definition, StepIndex, RequestIndex, ClosedLoops.Example, CompiledStep, DefinitionAccepted, TargetExists,
         RoutesBefore, ScopeKey;
    BranchIndexes(names);
    BranchDefinition(names, first, body);
    StepsAt(names, first, body);
    TwoRoutesCompile(Definition(names, first, body).steps, 1, StepIndex(names), RequestIndex(names));
  }

  lemma ExamplePlansAll(names: seq<string>, first: nat, body: nat)
    requires |names| == 7 && Mismatching(first, body)
    ensures CoversScenario(ClosedLoops.Example(names, first, body), Requests(names))
  {
    var steps := ClosedLoops.Example(names, first, body);
    assert steps[0].Scenario? && steps[2].Scenario? && steps[3].Scenario?;
    assert Planned(steps, 0) && Planned(steps, 1) && Planned(steps, 2);
  }

  lemma ExampleStart(names: seq<string>, first: nat, body: nat)
    requires ValidNames(names) && Mismatching(first, body)
    ensures TargetExists(names[0], StepIndex(names)) && StepIndex(names)[names[0]] == 0
    ensures |ClosedLoops.Example(names, first, body)| == 6 && ClosedLoops.Example(names, first, body)[0].Scenario?
    ensures ClosedLoops.Example(names, first, body)[0].scenarioIndex == 0 && Requests(names)[0].RequestKind?
  {
    NamesAreIds(names);
    IndexIs(names);
  }

  lemma StepsResolve(names: seq<string>, first: nat, body: nat, i: nat)
    requires ValidNames(names) && Mismatching(first, body) && i < 6
    ensures ResolvesAt(names, first, body, i)
  {
    hide ResolvesAt;
    if i == 1 {
      BranchResolves(names, first, body);
    } else if i < 4 {
      RequestResolves(names, first, body, i);
    } else {
      ControlResolves(names, first, body, i);
    }
  }

  lemma DefinitionResolves(names: seq<string>, first: nat, body: nat)
    requires ValidNames(names) && Mismatching(first, body)
    ensures ResolvesTo(Definition(names, first, body), Requests(names), StepIndex(names), RequestIndex(names), 0,
                       ClosedLoops.Example(names, first, body))
  {
    hide StepIndex, RequestIndex, Requests, ClosedLoops.Example, DefinitionAt, CoversScenario, ScenarioIndexed,
         DefinitionAccepted, CompiledStep, Resolved, IdsAccepted, Indexes, TargetExists, Definition;
    var definition, steps := Definition(names, first, body), ClosedLoops.Example(names, first, body);
    DefinitionIds(names, first, body);
    DefinitionIndexed(names, first, body);
    IndexIs(names);
    RequestIndexIs(names);
    ExamplePlansAll(names, first, body);
    ExampleStart(names, first, body);
    ExampleResolved(names, first, body);
    forall i: nat | i < 6
      ensures ResolvesAt(names, first, body, i)
    {
      StepsResolve(names, first, body, i);
    }
    assert forall i: nat | i < |steps| ::
        DefinitionAccepted(definition.steps, i, StepIndex(names), RequestIndex(names))
        && steps[i] == CompiledStep(definition.steps, i, StepIndex(names), RequestIndex(names)) by {
      forall i: nat | i < |steps|
        ensures DefinitionAccepted(definition.steps, i, StepIndex(names), RequestIndex(names))
        ensures steps[i] == CompiledStep(definition.steps, i, StepIndex(names), RequestIndex(names))
      {
        assert ResolvesAt(names, first, body, i);
      }
    }
  }

  lemma ExampleResolved(names: seq<string>, first: nat, body: nat)
    requires ValidNames(names) && Mismatching(first, body)
    ensures Resolved(ClosedLoops.Example(names, first, body))
    ensures Definition(names, first, body).schemaVersion == PLAN_SCHEMA_VERSION
    ensures Definition(names, first, body).entryStepID == names[0]
  {
    ClosedLoops.ExampleEdges(names, first, body);
  }

  /** The compiled plan. */
  ghost function Plan(names: seq<string>, first: nat, body: nat): Program
    requires |names| == 7
  {
    var steps := ClosedLoops.Example(names, first, body);
    Program(0, steps, TransitionBound(steps), Requests(names), 0)
  }

  lemma ExampleIsSimple(names: seq<string>, first: nat, body: nat)
    requires |names| == 7 && Mismatching(first, body)
    ensures ShortLoops(ClosedLoops.Example(names, first, body)) && OnlyRequests(Requests(names))
    ensures var q := Draft(0, ClosedLoops.Example(names, first, body), Requests(names), 0);
            Sound(q) && TemplatesCovered(q, {})
  {
    ClosedLoops.ExampleEdges(names, first, body);
  }

  lemma ExampleCompiles(names: seq<string>, first: nat, body: nat)
    requires ValidNames(names) && Mismatching(first, body)
    ensures Unbound(Requests(names), 0)
    ensures Compiles(Definition(names, first, body), Requests(names), 0, {}, Plan(names, first, body))
  {
    hide Definition, StepIndex, RequestIndex, Requests, ClosedLoops.Example, ResolvesTo, WellStructured;
    DefinitionResolves(names, first, body);
    ClosedLoops.ExampleReachable(names, first, body);
    ExampleIsSimple(names, first, body);
    SimplePlanCompiles(Definition(names, first, body), Requests(names), {}, StepIndex(names), RequestIndex(names), 0,
                       ClosedLoops.Example(names, first, body));
  }

  // ----- accepted, and yet they mismatch

  /** The front end accepts the canvas and emits the definition, the definition
      compiles to the plan, and a run of the plan ends in a mismatch. */
  ghost predicate AcceptedButMismatches(c: Canvas, entry: nat, engine: nat, order: seq<nat>, definition: PlanDefinition,
                                        scenario: seq<ScenarioStep>, p: Program)
    requires Unbound(scenario, 0)
  {
    && CanvasAccepted(c, entry, engine, engine) && ExecutionOrder(c, entry, engine, order)
    && EmitsPlan(c, order, map[], definition)
    && Compiles(definition, scenario, 0, {}, p)
    && Sound(p) && Mismatches(p.steps, p.entry)
  }

  lemma DrawingMismatches(names: seq<string>, first: nat, body: nat)
    requires ValidNames(names) && Mismatching(first, body)
    ensures Unbound(Requests(names), 0)
    ensures AcceptedButMismatches(Drawing(names, first, body), 0, 6, Order(), Definition(names, first, body),
                                  Requests(names), Plan(names, first, body))
  {
    hide Drawing, Definition, Requests, ClosedLoops.Example, CanvasAccepted, ExecutionOrder, EmitsPlan, Compiles,
         Mismatches;
    DrawingAccepted(names, first, body);
    DrawingOrder(names, first, body);
    DrawingEmits(names, first, body);
    ExampleCompiles(names, first, body);
    ExampleIsSimple(names, first, body);
    ClosedLoops.ExampleMismatches(names, first, body);
  }

  /** A loop whose body is the join of the branch before it: the second visit
      to the join ends the iteration. */
  lemma LoopBackToJoinMismatches(names: seq<string>)
    requires ValidNames(names)
    ensures Unbound(Requests(names), 0)
    ensures AcceptedButMismatches(Drawing(names, 1, 4), 0, 6, Order(), Definition(names, 1, 4), Requests(names),
                                  Plan(names, 1, 4))
    ensures Resolved(Plan(names, 1, 4).steps) && !LoopBodiesClosed(Plan(names, 1, 4).steps)
  {
    hide Drawing, Definition, Requests, ClosedLoops.Example, AcceptedButMismatches, LoopBodiesClosed;
    DrawingMismatches(names, 1, 4);
    ClosedLoops.ExampleBodies(names);
  }

  /** Closed loop bodies are not enough: here the request itself enters the
      body at its join, and the first visit to the join ends the iteration. */
  lemma ClosedBodiesAreNotEnough(names: seq<string>)
    requires ValidNames(names)
    ensures Unbound(Requests(names), 0)
    ensures AcceptedButMismatches(Drawing(names, 4, 1), 0, 6, Order(), Definition(names, 4, 1), Requests(names),
                                  Plan(names, 4, 1))
    ensures Resolved(Plan(names, 4, 1).steps) && LoopBodiesClosed(Plan(names, 4, 1).steps)
  {
    hide Drawing, Definition, Requests, ClosedLoops.Example, AcceptedButMismatches, LoopBodiesClosed;
    DrawingMismatches(names, 4, 1);
    ClosedLoops.ExampleBodies(names);
  }

  lemma NamesExist()
    ensures ValidNames(["n0", "n1", "n2", "n3", "n4", "n5", "n6"])
  {
  }
}
