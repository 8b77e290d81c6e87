/** Directed graphs given by adjacency lists, walks in them, and reachability.
    A step of an execution plan is a node; the lists keep duplicate edges,
    because two routes of one branch may name the same target. */
module Walks {

  type Adjacency = seq<seq<nat>>

  predicate Below(x: int, n: nat) {
    0 <= x < n
  }

  ghost function Nodes(n: nat): set<nat> {
    set x: nat | x < n && Below(x, n)
  }

  ghost predicate WellFormed(adj: Adjacency) {
    forall u, k | 0 <= u < |adj| && 0 <= k < |adj[u]| :: adj[u][k] < |adj|
  }

  predicate Edge(adj: Adjacency, u: int, v: int) {
    0 <= u < |adj| && v in adj[u]
  }

  ghost predicate Walk(adj: Adjacency, w: seq<nat>) {
    && |w| >= 1
    && (forall i | 0 <= i < |w| :: w[i] < |adj|)
    && (forall i, j | 0 <= i && j == i + 1 && j < |w| :: Edge(adj, w[i], w[j]))
  }

  ghost predicate Connects(adj: Adjacency, u: nat, w: seq<nat>, v: nat) {
    Walk(adj, w) && w[0] == u && w[|w| - 1] == v
  }

  /** Some walk leads from u to v without visiting x.  Nodes are never
      negative, so `Reach` below is the unrestricted relation. */
  ghost predicate ReachAvoiding(adj: Adjacency, u: nat, v: nat, x: int) {
    exists w :: Connects(adj, u, w, v) && x !in w
  }

  ghost predicate Reach(adj: Adjacency, u: nat, v: nat) {
    ReachAvoiding(adj, u, v, -1)
  }

  /** No walk returns to its start. */
  ghost predicate Acyclic(adj: Adjacency) {
    forall u: nat, v: nat | Edge(adj, u, v) :: !Reach(adj, v, u)
  }

  /** Every walk from the entry to v visits d. */
  ghost predicate Dominates(adj: Adjacency, entry: nat, d: int, v: nat) {
    !ReachAvoiding(adj, entry, v, d)
  }

  lemma EdgeBound(adj: Adjacency, u: nat, v: nat)
    requires WellFormed(adj) && Edge(adj, u, v)
    ensures u < |adj| && v < |adj|
  {
    var k :| 0 <= k < |adj[u]| && adj[u][k] == v;
  }

  lemma ReachSelf(adj: Adjacency, u: nat, x: int)
    requires u < |adj| && u != x
    ensures ReachAvoiding(adj, u, u, x)
  {
    assert Connects(adj, u, [u], u) && x !in [u];
  }

  lemma ReachEnds(adj: Adjacency, u: nat, v: nat, x: int)
    requires ReachAvoiding(adj, u, v, x)
    ensures u < |adj| && v < |adj| && u != x && v != x
  {
  }

  lemma ReachEdge(adj: Adjacency, u: nat, v: nat, x: int)
    requires WellFormed(adj) && Edge(adj, u, v) && u != x && v != x
    ensures ReachAvoiding(adj, u, v, x)
  {
    assert Connects(adj, u, [u, v], v) && x !in [u, v];
  }

  lemma ReachTrans(adj: Adjacency, a: nat, b: nat, c: nat, x: int)
    requires ReachAvoiding(adj, a, b, x) && ReachAvoiding(adj, b, c, x)
    ensures ReachAvoiding(adj, a, c, x)
  {
    var p :| Connects(adj, a, p, b) && x !in p;
    var q :| Connects(adj, b, q, c) && x !in q;
    var w := p + q[1..];
    forall i, j | 0 <= i && j == i + 1 && j < |w|
      ensures Edge(adj, w[i], w[j])
    {
      if j >= |p| {
        assert w[j] == q[j - |p| + 1] && w[i] == q[i - |p| + 1];
      }
    }
    assert Connects(adj, a, w, c) && x !in w;
  }

  lemma ReachThen(adj: Adjacency, a: nat, b: nat, c: nat, x: int)
    requires WellFormed(adj)
    requires ReachAvoiding(adj, a, b, x) && Edge(adj, b, c) && c != x
    ensures ReachAvoiding(adj, a, c, x)
  {
    ReachEdge(adj, b, c, x);
    ReachTrans(adj, a, b, c, x);
  }

  lemma ThenReach(adj: Adjacency, a: nat, b: nat, c: nat, x: int)
    requires WellFormed(adj)
    requires Edge(adj, a, b) && a != x && ReachAvoiding(adj, b, c, x)
    ensures ReachAvoiding(adj, a, c, x)
  {
    ReachEdge(adj, a, b, x);
    ReachTrans(adj, a, b, c, x);
  }

  /** Forgetting what a walk avoids. */
  lemma ReachPlain(adj: Adjacency, u: nat, v: nat, x: int)
    requires ReachAvoiding(adj, u, v, x)
    ensures Reach(adj, u, v)
  {
    var w :| Connects(adj, u, w, v) && x !in w;
    assert -1 !in w;
  }

  /** The part of a walk between two of its positions. */
  lemma SubWalk(adj: Adjacency, w: seq<nat>, i: nat, j: nat)
    requires Walk(adj, w) && i <= j < |w|
    ensures Connects(adj, w[i], w[i..j + 1], w[j])
  {
  }

  /** A walk either avoids x or can be cut at x. */
  lemma ReachSplit(adj: Adjacency, u: nat, v: nat, x: nat)
    requires Reach(adj, u, v)
    ensures ReachAvoiding(adj, u, v, x) || (Reach(adj, u, x) && Reach(adj, x, v))
  {
    var w :| Connects(adj, u, w, v) && -1 !in w;
    if x in w {
      var i :| 0 <= i < |w| && w[i] == x;
      SubWalk(adj, w, 0, i);
      SubWalk(adj, w, i, |w| - 1);
      assert -1 !in w[0..i + 1] && -1 !in w[i..|w| - 1 + 1];
    }
  }

  lemma ReachFirst(adj: Adjacency, u: nat, v: nat, x: int)
    requires ReachAvoiding(adj, u, v, x) && u != v
    ensures exists s: nat :: Edge(adj, u, s) && ReachAvoiding(adj, s, v, x)
  {
    var w :| Connects(adj, u, w, v) && x !in w;
    var s := w[1];
    SubWalk(adj, w, 1, |w| - 1);
    assert x !in w[1..|w| - 1 + 1];
    assert Edge(adj, u, s);
  }

  /** A set that holds u and is closed under the edges that do not enter x
      holds everything u reaches without x. */
  lemma {:induction false} ClosedUnderReach(adj: Adjacency, s: set<nat>, u: nat, w: seq<nat>, v: nat, x: int)
    requires Connects(adj, u, w, v) && x !in w && u in s
    requires forall a: nat, b: nat | a in s && Edge(adj, a, b) && b != x :: b in s
    ensures v in s
    decreases |w|
  {
    if |w| > 1 {
      SubWalk(adj, w, 0, |w| - 2);
      assert x !in w[0..|w| - 2 + 1];
      ClosedUnderReach(adj, s, u, w[0..|w| - 2 + 1], w[|w| - 2], x);
      assert Edge(adj, w[|w| - 2], v);
    }
  }

  lemma ReachStaysIn(adj: Adjacency, s: set<nat>, u: nat, v: nat, x: int)
    requires ReachAvoiding(adj, u, v, x) && u in s
    requires forall a: nat, b: nat | a in s && Edge(adj, a, b) && b != x :: b in s
    ensures v in s
  {
    var w :| Connects(adj, u, w, v) && x !in w;
    ClosedUnderReach(adj, s, u, w, v, x);
  }

  /** A walk cut where it first arrives. */
  lemma FirstArrival(adj: Adjacency, u: nat, v: nat) returns (q: nat)
    requires WellFormed(adj) && Reach(adj, u, v) && u != v
    ensures ReachAvoiding(adj, u, q, v) && Edge(adj, q, v)
  {
    if forall a: nat | ReachAvoiding(adj, u, a, v) :: !Edge(adj, a, v) {
      var s := set x: nat | x < |adj| && ReachAvoiding(adj, u, x, v);
      ReachEnds(adj, u, v, -1);
      ReachSelf(adj, u, v);
      forall a: nat, b: nat | a in s && Edge(adj, a, b) && b != -1
        ensures b in s
      {
        EdgeBound(adj, a, b);
        ReachThen(adj, u, a, b, v);
      }
      ReachStaysIn(adj, s, u, v, -1);
    }
    q :| ReachAvoiding(adj, u, q, v) && Edge(adj, q, v);
  }

  ghost predicate SubGraph(a: Adjacency, b: Adjacency) {
    |a| == |b| && forall u: nat, v: nat | Edge(a, u, v) :: Edge(b, u, v)
  }

  lemma ReachSubGraph(a: Adjacency, b: Adjacency, u: nat, v: nat, x: int)
    requires SubGraph(a, b) && ReachAvoiding(a, u, v, x)
    ensures ReachAvoiding(b, u, v, x)
  {
    var w :| Connects(a, u, w, v) && x !in w;
    assert Connects(b, u, w, v);
  }

  /** In an acyclic graph mutual reachability is equality. */
  lemma AcyclicAntisymmetric(adj: Adjacency, u: nat, v: nat)
    requires WellFormed(adj) && Acyclic(adj)
    requires Reach(adj, u, v) && Reach(adj, v, u)
    ensures u == v
  {
    if u != v {
      ReachFirst(adj, u, v, -1);
      var s: nat :| Edge(adj, u, s) && ReachAvoiding(adj, s, v, -1);
      ReachTrans(adj, s, v, u, -1);
    }
  }

  /** Edges that only go up lead only up. */
  lemma IncreasingReach(adj: Adjacency, u: nat, v: nat)
    requires WellFormed(adj) && Reach(adj, u, v)
    requires forall a: nat, b: nat | Edge(adj, a, b) :: a < b
    ensures u <= v
  {
    ReachEnds(adj, u, v, -1);
    var s := set x: nat | x < |adj| && u <= x && Below(x, |adj|);
    forall a: nat, b: nat | a in s && Edge(adj, a, b) && b != -1
      ensures b in s
    {
      EdgeBound(adj, a, b);
    }
    ReachStaysIn(adj, s, u, v, -1);
  }
}
