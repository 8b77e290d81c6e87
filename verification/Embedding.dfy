/** One graph as a predecessor-closed part of another, numbered by a sequence
    of distinct nodes. */
module Embedding {
  import opened Walks
  import opened GraphSearch

  ghost predicate Embeds(part: Adjacency, whole: Adjacency, order: seq<nat>) {
    && |part| == |order| && Distinct(order)
    && (forall i | 0 <= i < |order| :: order[i] < |whole|)
    && (forall i, j | 0 <= i < |order| && 0 <= j < |order| :: Edge(part, i, j) <==> Edge(whole, order[i], order[j]))
    && (forall u: nat, v: nat | Edge(whole, u, v) && v in order :: u in order)
  }

  /** The node of the whole that the part avoids, if any. */
  function Image(order: seq<nat>, x: int): int {
    if 0 <= x < |order| then order[x] else -1
  }

  lemma WalkOut(part: Adjacency, whole: Adjacency, order: seq<nat>, i: nat, j: nat, x: int)
    requires Embeds(part, whole, order) && ReachAvoiding(part, i, j, x)
    ensures i < |order| && j < |order| && ReachAvoiding(whole, order[i], order[j], Image(order, x))
  {
    var w :| Connects(part, i, w, j) && x !in w;
    var image := seq(|w|, k requires 0 <= k < |w| => order[w[k]]);
    assert Connects(whole, order[i], image, order[j]);
    forall k | 0 <= k < |image|
      ensures image[k] != Image(order, x)
    {
      assert w[k] in w;
    }
  }

  /** Whatever leads into the part starts there. */
  lemma {:induction false} WalkStays(part: Adjacency, whole: Adjacency, order: seq<nat>, w: seq<nat>, k: nat)
    requires Embeds(part, whole, order) && Walk(whole, w) && w[|w| - 1] in order && k < |w|
    ensures w[k] in order
    decreases |w| - k
  {
    if k + 1 < |w| {
      WalkStays(part, whole, order, w, k + 1);
      assert Edge(whole, w[k], w[k + 1]);
    }
  }

  function Position(order: seq<nat>, v: nat): (k: nat)
    requires v in order
    ensures k < |order| && order[k] == v
  {
    if order[0] == v then 0 else 1 + Position(order[1..], v)
  }

  lemma WalkIn(part: Adjacency, whole: Adjacency, order: seq<nat>, i: nat, j: nat, x: int)
    requires Embeds(part, whole, order) && i < |order| && j < |order| && x < |order|
    requires ReachAvoiding(whole, order[i], order[j], Image(order, x))
    ensures ReachAvoiding(part, i, j, x)
  {
    var w :| Connects(whole, order[i], w, order[j]) && Image(order, x) !in w;
    forall k: nat | k < |w|
      ensures w[k] in order
    {
      WalkStays(part, whole, order, w, k);
    }
    var inner := seq(|w|, k requires 0 <= k < |w| && w[k] in order => Position(order, w[k]));
    forall k, l | 0 <= k && l == k + 1 && l < |inner|
      ensures Edge(part, inner[k], inner[l])
    {
      assert Edge(whole, w[k], w[l]);
    }
    assert Connects(part, i, inner, j);
    forall k | 0 <= k < |inner|
      ensures inner[k] != x
    {
      assert order[inner[k]] == w[k] && w[k] in w;
    }
  }

  lemma ReachMatches(part: Adjacency, whole: Adjacency, order: seq<nat>, i: nat, j: nat, x: int)
    requires Embeds(part, whole, order) && i < |order| && j < |order| && x < |order|
    ensures ReachAvoiding(part, i, j, x) <==> ReachAvoiding(whole, order[i], order[j], Image(order, x))
  {
    if ReachAvoiding(part, i, j, x) {
      WalkOut(part, whole, order, i, j, x);
    }
    if ReachAvoiding(whole, order[i], order[j], Image(order, x)) {
      WalkIn(part, whole, order, i, j, x);
    }
  }

  lemma AcyclicPart(part: Adjacency, whole: Adjacency, order: seq<nat>)
    requires Embeds(part, whole, order) && Acyclic(whole) && WellFormed(part)
    ensures Acyclic(part)
  {
    forall u: nat, v: nat | Edge(part, u, v)
      ensures !Reach(part, v, u)
    {
      EdgeBound(part, u, v);
      assert Edge(whole, order[u], order[v]);
      ReachMatches(part, whole, order, v, u, -1);
    }
  }
}
