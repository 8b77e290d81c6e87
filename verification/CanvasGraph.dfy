/** The scenario canvas of the front end: nodes, connections, what its
    validation accepts, the request that each assertion judges, and the plan
    definition it emits. */
module CanvasGraph {
  import opened Walks
  import opened GraphSearch
  import opened PlanDefinition

  datatype NodeKind =
    | RequestNode | EngineNode | AssertionNode | DelayNode | BranchNode | JoinNode | LoopNode | MetricsNode | WindowNode

  /** White space of the front end, which differs from that of the compiler in
      two characters. */
  predicate IsWhite(c: char) {
    (IsSpace(c) && c as int != 0x85) || c as int == 0xFEFF
  }

  function Trim(s: string): string {
    if s == [] then s
    else if IsWhite(s[0]) then Trim(s[1..])
    else if IsWhite(s[|s| - 1]) then Trim(s[..|s| - 1])
    else s
  }

  /** `weights` are the parsed route weights of a branch, by target id. */
  datatype Node = Node(id: string, kind: NodeKind, title: string, loopBody: string, maxIterations: int,
                       joinID: string, weights: map<string, int>)
  {
    function BodyID(): string {
      Trim(loopBody)
    }

    function JoinID(): string {
      Trim(joinID)
    }
  }

  /** Connections are lists of node numbers, without duplicates, in the order
      of the target ids. */
  datatype Canvas = Canvas(nodes: seq<Node>, outgoing: Adjacency)

  ghost predicate Valid(c: Canvas) {
    && |c.outgoing| == |c.nodes| && WellFormed(c.outgoing)
    && (forall u: nat, v: nat | u < v < |c.nodes| :: c.nodes[u].id != c.nodes[v].id)
    && (forall u: nat | u < |c.nodes| :: Distinct(c.outgoing[u]))
  }

  predicate Kind(c: Canvas, v: int, kind: NodeKind) {
    0 <= v < |c.nodes| && c.nodes[v].kind == kind
  }

  predicate Executable(kind: NodeKind) {
    kind.RequestNode? || kind.AssertionNode? || kind.DelayNode? || kind.BranchNode? || kind.JoinNode? || kind.LoopNode?
  }

  predicate InRange(c: Canvas, targets: seq<nat>) {
    forall k | 0 <= k < |targets| :: targets[k] < |c.nodes|
  }

  predicate HasTargets(c: Canvas, v: nat) {
    v < |c.nodes| == |c.outgoing| && InRange(c, c.outgoing[v])
  }

  /** The targets other than the one called id. */
  function Others(c: Canvas, targets: seq<nat>, id: string): (r: seq<nat>)
    requires InRange(c, targets)
    ensures forall t: nat :: t in r <==> t in targets && c.nodes[t].id != id
    ensures |r| <= |targets| && InRange(c, r)
  {
    if targets == [] then []
    else
      assert targets == [targets[0]] + targets[1..];
      (if c.nodes[targets[0]].id != id then [targets[0]] else []) + Others(c, targets[1..], id)
  }

  /** Connections without those into loop bodies. */
  function ReducedTargets(c: Canvas, v: nat): (r: seq<nat>)
    requires HasTargets(c, v)
    ensures InRange(c, r)
  {
    if c.nodes[v].kind.LoopNode? then Others(c, c.outgoing[v], c.nodes[v].BodyID()) else c.outgoing[v]
  }

  ghost function ReducedOutgoing(c: Canvas): (adj: Adjacency)
    requires Valid(c)
    ensures |adj| == |c.nodes|
  {
    seq(|c.nodes|, v requires 0 <= v < |c.nodes| => ReducedTargets(c, v))
  }

  lemma ReducedEdge(c: Canvas, u: nat, v: nat)
    requires Valid(c)
    ensures Edge(ReducedOutgoing(c), u, v) <==>
            Edge(c.outgoing, u, v) && (Kind(c, u, LoopNode) ==> c.nodes[v].id != c.nodes[u].BodyID())
  {
    if u < |c.nodes| {
      assert ReducedOutgoing(c)[u] == ReducedTargets(c, u);
    }
  }

  lemma ReducedIsGraph(c: Canvas)
    requires Valid(c)
    ensures WellFormed(ReducedOutgoing(c)) && SubGraph(ReducedOutgoing(c), c.outgoing)
  {
    var reduced := ReducedOutgoing(c);
    forall u, k | 0 <= u < |reduced| && 0 <= k < |reduced[u]|
      ensures reduced[u][k] < |reduced|
    {
      assert reduced[u][k] in ReducedTargets(c, u);
    }
    forall u: nat, v: nat | Edge(reduced, u, v)
      ensures Edge(c.outgoing, u, v)
    {
      ReducedEdge(c, u, v);
    }
  }

  // ----- the request that an assertion judges

  /** A walk of which only the first node may be a request. */
  ghost predicate ClearWalk(c: Canvas, r: nat, w: seq<nat>, a: nat) {
    Connects(c.outgoing, r, w, a) && forall i | 0 < i < |w| :: !Kind(c, w[i], RequestNode)
  }

  /** Some walk from r to a meets no request after r. */
  ghost predicate ClearlyReaches(c: Canvas, r: nat, a: nat) {
    exists w :: ClearWalk(c, r, w, a)
  }

  ghost predicate NearestRequest(c: Canvas, r: nat, a: nat) {
    Kind(c, r, RequestNode) && ClearlyReaches(c, r, a)
  }

  ghost predicate UniqueRequest(c: Canvas, r: nat, a: nat) {
    NearestRequest(c, r, a) && forall s: nat | NearestRequest(c, s, a) :: s == r
  }

  lemma ExtendClear(c: Canvas, u: nat, v: nat, a: nat)
    requires Valid(c) && Edge(c.outgoing, u, v) && ClearlyReaches(c, v, a) && !Kind(c, v, RequestNode)
    ensures ClearlyReaches(c, u, a)
  {
    var w :| ClearWalk(c, v, w, a);
    assert ClearWalk(c, u, [u] + w, a);
  }

  /** A set that holds a and the predecessors of the nodes other than requests
      in it holds all nearest requests of a. */
  lemma {:induction false} ClosedBackwards(c: Canvas, s: set<nat>, r: nat, w: seq<nat>, a: nat)
    requires Valid(c) && ClearWalk(c, r, w, a) && a in s && !Kind(c, a, RequestNode)
    requires forall u: nat, v: nat | Edge(c.outgoing, u, v) && v in s && !Kind(c, v, RequestNode) :: u in s
    ensures r in s
    decreases |w|
  {
    if |w| > 1 {
      SubWalk(c.outgoing, w, 1, |w| - 1);
      assert ClearWalk(c, w[1], w[1..], a);
      ClosedBackwards(c, s, w[1], w[1..], a);
      assert Edge(c.outgoing, w[0], w[1]) && !Kind(c, w[1], RequestNode);
    }
  }

  /** Search backwards from an assertion, stopping at requests. */
  method PrecedingRequests(c: Canvas, incoming: Adjacency, a: nat) returns (requests: set<nat>)
    requires Valid(c) && Reverses(incoming, c.outgoing) && WellFormed(incoming)
    requires a < |c.nodes| && !Kind(c, a, RequestNode)
    ensures forall r: nat :: r in requests <==> NearestRequest(c, r, a)
  {
    var visited: set<nat> := {};
    requests := {};
    var queue: seq<nat>, cursor := incoming[a], 0;
    assert ClearWalk(c, a, [a], a);
    FirstQueue(c, incoming, a);
    while cursor < |queue|
      invariant cursor <= |queue|
      invariant forall v: nat | v in queue :: v < |c.nodes| && ClearlyReaches(c, v, a)
      invariant visited == set v | v in queue[..cursor]
      invariant requests == set v | v in visited && Kind(c, v, RequestNode)
      invariant forall u: nat, v: nat |
                  Edge(c.outgoing, u, v) && (v == a || (v in visited && !Kind(c, v, RequestNode))) ::
                  u in queue
      decreases Nodes(|c.nodes|) - visited, |queue| - cursor
    {
      var current := queue[cursor];
      assert queue[..cursor + 1] == queue[..cursor] + [current];
      assert current in queue && Below(current, |c.nodes|);
      cursor := cursor + 1;
      if current in visited {
        continue;
      }
      ghost var before := visited;
      visited := visited + {current};
      assert Nodes(|c.nodes|) - visited < Nodes(|c.nodes|) - before by {
        assert current in Nodes(|c.nodes|) - before;
      }
      if Kind(c, current, RequestNode) {
        requests := requests + {current};
        continue;
      }
      forall v | v in incoming[current]
        ensures v < |c.nodes| && ClearlyReaches(c, v, a)
      {
        assert Edge(incoming, current, v);
        EdgeBound(incoming, current, v);
        ExtendClear(c, v, current, a);
      }
      forall u: nat | Edge(c.outgoing, u, current)
        ensures u in incoming[current]
      {
        assert Edge(incoming, current, u);
      }
      assert (queue + incoming[current])[..cursor] == queue[..cursor];
      queue := queue + incoming[current];
    }
    assert queue[..cursor] == queue;
    forall r: nat | NearestRequest(c, r, a)
      ensures r in requests
    {
      var w :| ClearWalk(c, r, w, a);
      ClosedBackwards(c, visited + {a}, r, w, a);
    }
  }

  lemma FirstQueue(c: Canvas, incoming: Adjacency, a: nat)
    requires Valid(c) && Reverses(incoming, c.outgoing) && WellFormed(incoming)
    requires a < |c.nodes| && !Kind(c, a, RequestNode)
    ensures forall v | v in incoming[a] :: v < |c.nodes| && ClearlyReaches(c, v, a)
    ensures forall u: nat | Edge(c.outgoing, u, a) :: u in incoming[a]
  {
    assert ClearWalk(c, a, [a], a);
    forall v | v in incoming[a]
      ensures v < |c.nodes| && ClearlyReaches(c, v, a)
    {
      assert Edge(incoming, a, v);
      EdgeBound(incoming, a, v);
      ExtendClear(c, v, a, a);
    }
    forall u: nat | Edge(c.outgoing, u, a)
      ensures u in incoming[a]
    {
      assert Edge(incoming, a, u);
    }
  }

  method ResolveAssertionRequests(c: Canvas, order: seq<nat>, incoming: Adjacency)
    returns (ok: bool, result: map<nat, nat>)
    requires Valid(c) && Reverses(incoming, c.outgoing) && WellFormed(incoming)
    ensures ok <==> forall a: nat | a in order && Kind(c, a, AssertionNode) :: exists r: nat :: UniqueRequest(c, r, a)
    ensures forall a: nat ::
              a in result <==> a in order && Kind(c, a, AssertionNode) && exists r: nat :: UniqueRequest(c, r, a)
    ensures forall a | a in result :: UniqueRequest(c, result[a], a)
  {
    ok, result := true, map[];
    for i := 0 to |order|
      invariant ok <==> forall a: nat | a in order[..i] && Kind(c, a, AssertionNode) ::
                          exists r: nat :: UniqueRequest(c, r, a)
      invariant forall a: nat ::
                  a in result <==>
                  a in order[..i] && Kind(c, a, AssertionNode) && exists r: nat :: UniqueRequest(c, r, a)
      invariant forall a | a in result :: UniqueRequest(c, result[a], a)
    {
      var a := order[i];
      assert order[..i + 1] == order[..i] + [a];
      if !Kind(c, a, AssertionNode) {
        continue;
      }
      var requests := PrecedingRequests(c, incoming, a);
      if |requests| != 1 {
        NotUnique(c, requests, a);
        ok := false;
        continue;
      }
      var r :| r in requests;
      OnlyMember(requests, r);
      assert UniqueRequest(c, r, a);
      result := result[a := r];
    }
    assert order[..|order|] == order;
  }

  lemma OnlyMember(s: set<nat>, r: nat)
    requires |s| == 1 && r in s
    ensures s == {r}
  {
    assert |s - {r}| == 0;
  }

  lemma NotUnique(c: Canvas, requests: set<nat>, a: nat)
    requires |requests| != 1 && forall r: nat :: r in requests <==> NearestRequest(c, r, a)
    ensures !exists r: nat :: UniqueRequest(c, r, a)
  {
    if r: nat :| UniqueRequest(c, r, a) {
      Singleton(requests, r);
    }
  }

  lemma Singleton(s: set<nat>, r: nat)
    requires r in s && forall x | x in s :: x == r
    ensures |s| == 1
  {
    assert s == {r};
  }

  /** The chosen request is the last one on every walk from the entry. */
  lemma LastRequestOnEveryWalk(c: Canvas, entry: nat, r: nat, a: nat, w: seq<nat>) returns (i: nat)
    requires Valid(c) && Kind(c, entry, RequestNode) && !Kind(c, a, RequestNode) && UniqueRequest(c, r, a)
    requires Connects(c.outgoing, entry, w, a)
    ensures i < |w| - 1 && w[i] == r && forall j | i < j < |w| :: !Kind(c, w[j], RequestNode)
  {
    i := |w| - 1;
    while !Kind(c, w[i], RequestNode)
      invariant i < |w| && forall j | i < j < |w| :: !Kind(c, w[j], RequestNode)
      decreases i
    {
      i := i - 1;
    }
    SubWalk(c.outgoing, w, i, |w| - 1);
    assert w[i..|w| - 1 + 1] == w[i..];
    assert ClearWalk(c, w[i], w[i..], a);
    assert NearestRequest(c, w[i], a);
  }

  lemma ChosenRequestDominates(c: Canvas, entry: nat, r: nat, a: nat)
    requires Valid(c) && Kind(c, entry, RequestNode) && !Kind(c, a, RequestNode) && UniqueRequest(c, r, a)
    ensures r != a && Dominates(c.outgoing, entry, r, a)
  {
    forall w | Connects(c.outgoing, entry, w, a)
      ensures r in w
    {
      var i := LastRequestOnEveryWalk(c, entry, r, a, w);
    }
  }
}
