/** The worklist algorithms of the plan compiler, each proved to compute the
    set of nodes that its name promises. */
module GraphSearch {
  import opened Walks

  ghost predicate Distinct(s: seq<nat>) {
    forall i, j | 0 <= i < j < |s| :: s[i] != s[j]
  }

  ghost function Elements(s: seq<nat>): set<nat> {
    set x | x in s
  }

  /** A list of different numbers below n is no longer than n. */
  lemma {:induction false} DistinctBound(s: seq<nat>, n: nat)
    requires Distinct(s) && forall x | x in s :: x < n
    ensures |s| <= n
    ensures |Elements(s)| == |s|
  {
    DistinctSize(s);
    SizeBelow(n);
    SubsetSize(Elements(s), Nodes(n));
  }

  lemma {:induction false} DistinctSize(s: seq<nat>)
    requires Distinct(s)
    ensures |Elements(s)| == |s|
  {
    if s != [] {
      var last := |s| - 1;
      DistinctSize(s[..last]);
      assert Elements(s) == Elements(s[..last]) + {s[last]};
    } else {
      assert Elements(s) == {};
    }
  }

  lemma {:induction false} SizeBelow(n: nat)
    ensures |Nodes(n)| == n
  {
    if n > 0 {
      SizeBelow(n - 1);
      assert Nodes(n) == Nodes(n - 1) + {n - 1};
    }
  }

  lemma {:induction false} SubsetSize<T>(a: set<T>, b: set<T>)
    requires a <= b
    ensures |a| <= |b|
    ensures a != b ==> |a| < |b|
  {
    if a != {} {
      var x :| x in a;
      SubsetSize(a - {x}, b - {x});
    }
  }

  // ----- predecessors

  ghost predicate Reverses(reverse: Adjacency, adj: Adjacency) {
    && |reverse| == |adj|
    && (forall u: nat, v: nat :: Edge(reverse, v, u) <==> Edge(adj, u, v))
  }

  method ExecutionPredecessors(adjacency: Adjacency) returns (predecessors: Adjacency)
    requires WellFormed(adjacency)
    ensures Reverses(predecessors, adjacency) && WellFormed(predecessors)
  {
    var n := |adjacency|;
    var lists := new seq<nat>[n](_ => []);
    for source := 0 to n
      invariant forall u: nat, v: nat | v < n :: u in lists[v] <==> u < source && Edge(adjacency, u, v)
    {
      var targets := adjacency[source];
      for k := 0 to |targets|
        invariant forall u: nat, v: nat | v < n ::
                    u in lists[v] <==> (u < source && Edge(adjacency, u, v)) || (u == source && v in targets[..k])
      {
        lists[targets[k]] := lists[targets[k]] + [source];
        assert targets[..k + 1] == targets[..k] + [targets[k]];
      }
      assert targets[..|targets|] == targets;
    }
    predecessors := lists[..];
    ListsReverse(predecessors, adjacency);
  }

  lemma ListsReverse(lists: Adjacency, adj: Adjacency)
    requires WellFormed(adj) && |lists| == |adj|
    requires forall u: nat, v: nat | v < |adj| :: u in lists[v] <==> Edge(adj, u, v)
    ensures Reverses(lists, adj) && WellFormed(lists)
  {
    forall u: nat, v: nat
      ensures Edge(lists, v, u) <==> Edge(adj, u, v)
    {
      if Edge(adj, u, v) {
        EdgeBound(adj, u, v);
      }
    }
    forall v, k | 0 <= v < |lists| && 0 <= k < |lists[v]|
      ensures lists[v][k] < |lists|
    {
      assert lists[v][k] in lists[v];
    }
  }

  // ----- reachability

  /** A set that holds v and every predecessor of its members holds
      everything that reaches v. */
  lemma ReachCameFrom(adj: Adjacency, s: set<nat>, u: nat, v: nat)
    requires WellFormed(adj) && Reach(adj, u, v) && v in s
    requires forall a: nat, b: nat | Edge(adj, a, b) && b in s :: a in s
    ensures u in s
  {
    if u !in s {
      var rest := Nodes(|adj|) - s;
      forall a: nat, b: nat | a in rest && Edge(adj, a, b) && b != -1
        ensures b in rest
      {
        EdgeBound(adj, a, b);
      }
      ReachStaysIn(adj, rest, u, v, -1);
    }
  }

  /** The nodes marked by a breadth-first search that has emptied its queue. */
  lemma MarkedIsReachable(adj: Adjacency, start: nat, marked: seq<bool>)
    requires WellFormed(adj) && start < |adj| == |marked| && marked[start]
    requires forall v: nat | v < |adj| && marked[v] :: Reach(adj, start, v)
    requires forall u: nat, v: nat | u < |adj| && marked[u] && Edge(adj, u, v) :: v < |adj| && marked[v]
    ensures forall v: nat | v < |adj| :: marked[v] <==> Reach(adj, start, v)
  {
    var s := set v: nat | v < |adj| && marked[v];
    forall v: nat | v < |adj| && Reach(adj, start, v)
      ensures marked[v]
    {
      ReachStaysIn(adj, s, start, v, -1);
    }
  }

  /** The loop shared by the forward and the backward search: mark a node when
      it enters the queue, and scan the neighbours of the node at the cursor. */
  method Mark(start: nat, adjacency: Adjacency) returns (visited: seq<bool>)
    requires WellFormed(adjacency) && start < |adjacency|
    ensures |visited| == |adjacency|
    ensures forall v: nat | v < |adjacency| :: visited[v] <==> Reach(adjacency, start, v)
  {
    var n := |adjacency|;
    var marks := new bool[n](_ => false);
    var queue: seq<nat> := [start];
    marks[start] := true;
    ReachSelf(adjacency, start, -1);
    var cursor := 0;
    while cursor < |queue|
      invariant 0 <= cursor <= |queue| <= n
      invariant Distinct(queue) && start in queue
      invariant forall v: nat | v < n :: marks[v] <==> v in queue
      invariant forall v | v in queue :: v < n && Reach(adjacency, start, v)
      invariant forall i, v: nat | 0 <= i < cursor && Edge(adjacency, queue[i], v) :: v in queue
      decreases n - cursor
    {
      var current := queue[cursor];
      assert current in queue;
      var targets := adjacency[current];
      for k := 0 to |targets|
        invariant cursor < |queue| <= n && queue[cursor] == current && current in queue
        invariant Distinct(queue) && start in queue
        invariant forall v: nat | v < n :: marks[v] <==> v in queue
        invariant forall v | v in queue :: v < n && Reach(adjacency, start, v)
        invariant forall i, v: nat | 0 <= i < cursor && Edge(adjacency, queue[i], v) :: v in queue
        invariant forall j | 0 <= j < k :: targets[j] in queue
      {
        var target := targets[k];
        if !marks[target] {
          marks[target] := true;
          assert Edge(adjacency, current, target);
          ReachThen(adjacency, start, current, target, -1);
          queue := queue + [target];
          DistinctBound(queue, n);
        }
      }
      cursor := cursor + 1;
    }
    visited := marks[..];
    forall u: nat, v: nat | u < n && visited[u] && Edge(adjacency, u, v)
      ensures v < n && visited[v]
    {
      var i :| 0 <= i < |queue| && queue[i] == u;
      assert v in queue;
    }
    MarkedIsReachable(adjacency, start, visited);
  }

  lemma ReverseReach(reverse: Adjacency, adj: Adjacency, u: nat, v: nat)
    requires WellFormed(adj) && WellFormed(reverse) && Reverses(reverse, adj)
    ensures Reach(reverse, v, u) <==> Reach(adj, u, v)
  {
    if Reach(reverse, v, u) {
      var s := set x: nat | x < |adj| && Reach(adj, x, v);
      ReachEnds(reverse, v, u, -1);
      ReachSelf(adj, v, -1);
      forall a: nat, b: nat | a in s && Edge(reverse, a, b) && b != -1
        ensures b in s
      {
        assert Edge(adj, b, a);
        ThenReach(adj, b, a, v, -1);
      }
      ReachStaysIn(reverse, s, v, u, -1);
    }
    if Reach(adj, u, v) {
      var s := set x: nat | x < |adj| && Reach(reverse, x, u);
      ReachEnds(adj, u, v, -1);
      ReachSelf(reverse, u, -1);
      forall a: nat, b: nat | a in s && Edge(adj, a, b) && b != -1
        ensures b in s
      {
        assert Edge(reverse, b, a);
        ThenReach(reverse, b, a, u, -1);
      }
      ReachStaysIn(adj, s, u, v, -1);
    }
  }

  /** `reverse` lists predecessors; the result marks what can reach `target`. */
  method ReverseReachable(target: nat, reverse: Adjacency, ghost adjacency: Adjacency)
    returns (reachable: seq<bool>)
    requires WellFormed(adjacency) && WellFormed(reverse) && Reverses(reverse, adjacency)
    requires target < |reverse|
    ensures |reachable| == |adjacency|
    ensures forall u: nat | u < |adjacency| :: reachable[u] <==> Reach(adjacency, u, target)
  {
    reachable := Mark(target, reverse);
    forall u: nat | u < |adjacency|
      ensures reachable[u] <==> Reach(adjacency, u, target)
    {
      ReverseReach(reverse, adjacency, u, target);
    }
  }

  /** The first step that no walk from the entry visits, or -1. */
  method FirstUnreachable(entry: nat, adjacency: Adjacency) returns (index: int)
    requires WellFormed(adjacency) && entry < |adjacency|
    ensures index < 0 ==> forall v: nat | v < |adjacency| :: Reach(adjacency, entry, v)
    ensures index >= 0 ==> index < |adjacency| && !Reach(adjacency, entry, index)
                           && forall v: nat | v < index :: Reach(adjacency, entry, v)
  {
    var visited := Mark(entry, adjacency);
    for i := 0 to |visited|
      invariant forall v: nat | v < i :: Reach(adjacency, entry, v)
    {
      if !visited[i] {
        return i;
      }
    }
    return -1;
  }

  /** Everything the entry reaches without visiting `stop`.  Nodes are marked
      when they leave the queue, so the queue may hold a node twice. */
  method ForwardUntil(entry: nat, stop: nat, adjacency: Adjacency) returns (visited: set<nat>)
    requires WellFormed(adjacency) && entry < |adjacency|
    ensures forall v: nat :: v in visited <==> ReachAvoiding(adjacency, entry, v, stop)
  {
    var n := |adjacency|;
    visited := {};
    var queue: seq<nat> := [entry];
    var cursor := 0;
    ghost var all := Nodes(n);
    if entry != stop {
      ReachSelf(adjacency, entry, stop);
    }
    while cursor < |queue|
      invariant 0 <= cursor <= |queue|
      invariant visited <= all && stop !in visited
      invariant forall v | v in queue :: v < n && (v == stop || ReachAvoiding(adjacency, entry, v, stop))
      invariant forall v | v in visited :: ReachAvoiding(adjacency, entry, v, stop)
      invariant entry == stop || entry in visited || entry in queue[cursor..]
      invariant forall u: nat, v: nat | u in visited && Edge(adjacency, u, v) ::
                  v == stop || v in visited || v in queue[cursor..]
      decreases all - visited, |queue| - cursor
    {
      var current := queue[cursor];
      ghost var rest := queue[cursor + 1..];
      assert queue[cursor..] == [current] + rest;
      cursor := cursor + 1;
      if current == stop || current in visited {
        continue;
      }
      assert current in queue && current < n;
      visited := visited + {current};
      forall v | v in adjacency[current]
        ensures v < n && (v == stop || ReachAvoiding(adjacency, entry, v, stop))
      {
        assert Edge(adjacency, current, v);
        EdgeBound(adjacency, current, v);
        if v != stop {
          ReachThen(adjacency, entry, current, v, stop);
        }
      }
      queue := queue + adjacency[current];
      assert queue[cursor..] == rest + adjacency[current];
    }
    forall v: nat | ReachAvoiding(adjacency, entry, v, stop)
      ensures v in visited
    {
      ReachEnds(adjacency, entry, v, stop);
      ReachStaysIn(adjacency, visited, entry, v, stop);
    }
  }

  // ----- Kahn's cycle check

  /** v is on a cycle or is reached from one. */
  ghost predicate AfterCycle(adj: Adjacency, v: nat) {
    exists u: nat, s: nat :: Edge(adj, u, s) && Reach(adj, s, u) && Reach(adj, u, v)
  }

  lemma AcyclicIffNoneAfterCycle(adj: Adjacency)
    requires WellFormed(adj)
    ensures Acyclic(adj) <==> forall v: nat | v < |adj| :: !AfterCycle(adj, v)
  {
    if v: nat :| v < |adj| && AfterCycle(adj, v) {
      var u: nat, s: nat :| Edge(adj, u, s) && Reach(adj, s, u) && Reach(adj, u, v);
      assert !Acyclic(adj);
    }
    if !Acyclic(adj) {
      var u: nat, s: nat :| Edge(adj, u, s) && Reach(adj, s, u);
      ReachSelf(adj, u, -1);
      assert AfterCycle(adj, u);
    }
  }

  /** Edges into v from sources below n that are not in `done`. */
  ghost function EdgesInto(adj: Adjacency, v: nat, done: set<nat>, n: nat): nat
    requires n <= |adj|
  {
    if n == 0 then 0
    else EdgesInto(adj, v, done, n - 1) + (if n - 1 in done then 0 else multiset(adj[n - 1])[v])
  }

  lemma {:induction false} EdgesIntoRemove(adj: Adjacency, v: nat, done: set<nat>, u: nat, n: nat)
    requires n <= |adj| && u !in done
    ensures EdgesInto(adj, v, done, n)
         == EdgesInto(adj, v, done + {u}, n) + if u < n then multiset(adj[u])[v] else 0
  {
    if n > 0 {
      EdgesIntoRemove(adj, v, done, u, n - 1);
    }
  }

  lemma {:induction false} EdgesIntoPositive(adj: Adjacency, v: nat, done: set<nat>, n: nat)
    requires n <= |adj|
    ensures EdgesInto(adj, v, done, n) > 0 <==> exists u: nat :: u < n && u !in done && v in adj[u]
  {
    if n > 0 {
      EdgesIntoPositive(adj, v, done, n - 1);
      assert v in adj[n - 1] <==> multiset(adj[n - 1])[v] > 0;
    }
  }

  /** Every predecessor of a listed node is listed before it. */
  ghost predicate PredecessorsFirst(adj: Adjacency, order: seq<nat>) {
    forall j, u: nat | 0 <= j < |order| && Edge(adj, u, order[j]) :: u in order[..j]
  }

  lemma ListedIsAfterNoCycle(adj: Adjacency, order: seq<nat>, j: nat)
    requires WellFormed(adj) && Distinct(order) && PredecessorsFirst(adj, order) && j < |order|
    ensures !AfterCycle(adj, order[j])
  {
    if AfterCycle(adj, order[j]) {
      var u: nat, s: nat :| Edge(adj, u, s) && Reach(adj, s, u) && Reach(adj, u, order[j]);
      var i := Earlier(adj, order, u, j);
      var k := Earlier(adj, order, s, i);
      assert false;
    }
  }

  lemma Earlier(adj: Adjacency, order: seq<nat>, u: nat, j: nat) returns (i: nat)
    requires WellFormed(adj) && PredecessorsFirst(adj, order) && j < |order|
    requires Reach(adj, u, order[j])
    ensures i <= j && order[i] == u
  {
    var s := Elements(order[..j + 1]);
    forall a: nat, b: nat | Edge(adj, a, b) && b in s
      ensures a in s
    {
      var k :| 0 <= k < j + 1 && order[k] == b;
      assert a in order[..k];
    }
    ReachCameFrom(adj, s, u, order[j]);
    i :| 0 <= i < j + 1 && order[i] == u;
  }

  ghost predicate HasPredecessorIn(adj: Adjacency, s: set<nat>, v: nat) {
    exists p: nat :: p in s && Edge(adj, p, v)
  }

  /** Walking backwards inside a finite set in which every node has a
      predecessor must come back to a node already passed.  `head` is where
      the walk stands and `passed` what it has gone through. */
  lemma {:induction false} EveryoneHasPredecessor(adj: Adjacency, s: set<nat>, passed: set<nat>, head: nat, v: nat)
    requires WellFormed(adj) && passed <= s && head in passed && Reach(adj, head, v)
    requires forall x | x in passed :: Reach(adj, head, x)
    requires forall x {:trigger HasPredecessorIn(adj, s, x)} | x in s :: HasPredecessorIn(adj, s, x)
    ensures AfterCycle(adj, v)
    decreases s - passed
  {
    assert HasPredecessorIn(adj, s, head);
    var p: nat :| p in s && Edge(adj, p, head);
    EdgeBound(adj, p, head);
    ThenReach(adj, p, head, v, -1);
    if p in passed {
      assert Reach(adj, head, p);
    } else {
      forall x | x in passed + {p}
        ensures Reach(adj, p, x)
      {
        if x == p {
          ReachSelf(adj, p, -1);
        } else {
          ThenReach(adj, p, head, x, -1);
        }
      }
      EveryoneHasPredecessor(adj, s, passed + {p}, p, v);
    }
  }

  /** When the queue of Kahn's algorithm runs dry, the nodes it never held
      are exactly those on or after a cycle. */
  lemma KahnVerdict(adj: Adjacency, queue: seq<nat>)
    requires WellFormed(adj) && Distinct(queue) && PredecessorsFirst(adj, queue)
    requires forall v: nat | v < |adj| && v !in queue :: EdgesInto(adj, v, Elements(queue), |adj|) > 0
    ensures forall v: nat | v < |adj| :: v in queue <==> !AfterCycle(adj, v)
  {
    var stuck := Nodes(|adj|) - Elements(queue);
    forall x | x in stuck
      ensures HasPredecessorIn(adj, stuck, x)
    {
      EdgesIntoPositive(adj, x, Elements(queue), |adj|);
      var p: nat :| p < |adj| && p !in Elements(queue) && x in adj[p];
      assert p in stuck && Edge(adj, p, x);
    }
    forall v: nat | v < |adj|
      ensures v in queue <==> !AfterCycle(adj, v)
    {
      if v in queue {
        var j :| 0 <= j < |queue| && queue[j] == v;
        ListedIsAfterNoCycle(adj, queue, j);
      } else {
        assert v in stuck;
        ReachSelf(adj, v, -1);
        EveryoneHasPredecessor(adj, stuck, {v}, v, v);
      }
    }
  }

  /** The first node that is on a cycle or after one, or -1 when there is no
      cycle: nodes whose incoming counter never drops to zero. */
  method ExecutionCycleNode(adjacency: Adjacency) returns (cycle: int)
    requires WellFormed(adjacency)
    ensures cycle < 0 <==> Acyclic(adjacency)
    ensures cycle >= 0 ==> cycle < |adjacency| && AfterCycle(adjacency, cycle)
                           && forall v: nat | v < cycle :: !AfterCycle(adjacency, v)
  {
    var n := |adjacency|;
    var incoming := new nat[n](_ => 0);
    CountIncoming(incoming, adjacency);
    var queue: seq<nat> := [];
    for index := 0 to n
      invariant |queue| <= index && Distinct(queue)
      invariant forall v: nat :: v in queue <==> v < index && incoming[v] == 0
    {
      if incoming[index] == 0 {
        queue := queue + [index];
      }
    }
    forall v: nat, u: nat | v in queue
      ensures !Edge(adjacency, u, v)
    {
      EdgesIntoPositive(adjacency, v, {}, n);
    }
    var cursor := 0;
    assert Elements(queue[..0]) == {};
    while cursor < |queue|
      invariant 0 <= cursor <= |queue| <= n
      invariant Distinct(queue) && PredecessorsFirst(adjacency, queue)
      invariant Counted(adjacency, incoming[..], queue, Elements(queue[..cursor]), [])
      decreases n - cursor
    {
      var current := queue[cursor];
      assert current in queue;
      queue := Release(incoming, adjacency, queue, cursor);
      cursor := cursor + 1;
    }
    assert queue[..cursor] == queue;
    KahnVerdict(adjacency, queue);
    AcyclicIffNoneAfterCycle(adjacency);
    for index := 0 to n
      invariant forall v: nat | v < index :: v in queue
    {
      if incoming[index] > 0 {
        return index;
      }
    }
    return -1;
  }

  /** The counting loop: one for every edge. */
  method CountIncoming(incoming: array<nat>, adjacency: Adjacency)
    requires WellFormed(adjacency) && incoming.Length == |adjacency|
    requires forall v | 0 <= v < incoming.Length :: incoming[v] == 0
    modifies incoming
    ensures forall v: nat | v < |adjacency| :: incoming[v] == EdgesInto(adjacency, v, {}, |adjacency|)
  {
    for source := 0 to |adjacency|
      invariant forall v: nat | v < incoming.Length :: incoming[v] == EdgesInto(adjacency, v, {}, source)
    {
      var targets := adjacency[source];
      for k := 0 to |targets|
        invariant forall v: nat | v < incoming.Length ::
                    incoming[v] == EdgesInto(adjacency, v, {}, source) + multiset(targets[..k])[v]
      {
        incoming[targets[k]] := incoming[targets[k]] + 1;
        assert targets[..k + 1] == targets[..k] + [targets[k]];
      }
      assert targets[..|targets|] == targets;
    }
  }

  /** A node may be listed once, after its predecessors. */
  lemma ListedAfter(adj: Adjacency, order: seq<nat>, v: nat)
    requires PredecessorsFirst(adj, order) && forall u: nat | Edge(adj, u, v) :: u in order
    requires Distinct(order) && v !in order
    ensures PredecessorsFirst(adj, order + [v]) && Distinct(order + [v])
  {
    forall j, u: nat | 0 <= j < |order| + 1 && Edge(adj, u, (order + [v])[j])
      ensures u in (order + [v])[..j]
    {
      assert (order + [v])[..j] == order[..j];
      assert order[..|order|] == order;
    }
  }

  /** Each counter holds the edges that are left, the queue the nodes without
      any. */
  ghost predicate Counted(adj: Adjacency, incoming: seq<nat>, queue: seq<nat>, done: set<nat>, rest: seq<nat>) {
    && |incoming| == |adj|
    && (forall v: nat :: v in queue <==> v < |adj| && incoming[v] == 0)
    && (forall v: nat | v < |adj| :: incoming[v] == EdgesInto(adj, v, done, |adj|) + multiset(rest)[v])
  }

  predicate AllBelow(targets: seq<nat>, n: nat) {
    forall k | 0 <= k < |targets| :: targets[k] < n
  }

  ghost predicate Queued(adj: Adjacency, queue: seq<nat>, done: set<nat>) {
    Distinct(queue) && PredecessorsFirst(adj, queue) && forall u | u in done :: u in queue
  }

  lemma BeginRelease(adj: Adjacency, incoming: seq<nat>, queue: seq<nat>, cursor: nat)
    requires WellFormed(adj) && cursor < |queue| && queue[cursor] < |adj|
    requires Distinct(queue) && PredecessorsFirst(adj, queue)
    requires Counted(adj, incoming, queue, Elements(queue[..cursor]), [])
    ensures Counted(adj, incoming, queue, Elements(queue[..cursor + 1]), adj[queue[cursor]])
    ensures Queued(adj, queue, Elements(queue[..cursor + 1]))
  {
    var current, before := queue[cursor], Elements(queue[..cursor]);
    assert Elements(queue[..cursor + 1]) == before + {current};
    forall v: nat | v < |adj|
      ensures EdgesInto(adj, v, before, |adj|)
              == EdgesInto(adj, v, before + {current}, |adj|) + multiset(adj[current])[v]
    {
      EdgesIntoRemove(adj, v, before, current, |adj|);
    }
  }

  lemma LessOne(adj: Adjacency, incoming: seq<nat>, queue: seq<nat>, done: set<nat>, target: nat, rest: seq<nat>)
    requires target < |adj| && Counted(adj, incoming, queue, done, [target] + rest)
    ensures incoming[target] > 0 && target !in queue
    ensures var fewer := incoming[target := incoming[target] - 1];
            var longer := if fewer[target] == 0 then queue + [target] else queue;
            Counted(adj, fewer, longer, done, rest)
  {
    assert multiset([target] + rest) == multiset{target} + multiset(rest);
  }

  lemma ReleaseOne(adj: Adjacency, incoming: seq<nat>, queue: seq<nat>, done: set<nat>, target: nat, rest: seq<nat>)
    requires target < |adj| && Counted(adj, incoming, queue, done, [target] + rest) && Queued(adj, queue, done)
    requires WellFormed(adj) && incoming[target] == 1
    ensures Queued(adj, queue + [target], done)
  {
    LessOne(adj, incoming, queue, done, target, rest);
    assert multiset([target] + rest)[target] >= 1;
    EdgesIntoPositive(adj, target, done, |adj|);
    forall u: nat | Edge(adj, u, target)
      ensures u in queue
    {
      EdgeBound(adj, u, target);
      assert u in done;
    }
    ListedAfter(adj, queue, target);
  }

  lemma AllQueued(adj: Adjacency, incoming: seq<nat>, queue: seq<nat>, done: set<nat>)
    requires Queued(adj, queue, done) && Counted(adj, incoming, queue, done, [])
    ensures Distinct(queue) && PredecessorsFirst(adj, queue) && forall v: nat | v in queue :: v < |adj|
  {
  }

  /** Take one edge away, and append its target when that was the last. */
  method ReleaseEdge(incoming: array<nat>, ghost adjacency: Adjacency, queue: seq<nat>, target: nat,
                     ghost done: set<nat>, ghost rest: seq<nat>) returns (longer: seq<nat>)
    requires WellFormed(adjacency) && target < |adjacency| == incoming.Length
    requires Counted(adjacency, incoming[..], queue, done, [target] + rest) && Queued(adjacency, queue, done)
    modifies incoming
    ensures queue <= longer
    ensures Counted(adjacency, incoming[..], longer, done, rest) && Queued(adjacency, longer, done)
  {
    LessOne(adjacency, incoming[..], queue, done, target, rest);
    if incoming[target] == 1 {
      ReleaseOne(adjacency, incoming[..], queue, done, target, rest);
    }
    hide Counted, Queued, WellFormed;
    ghost var before := incoming[..];
    incoming[target] := incoming[target] - 1;
    assert incoming[..] == before[target := before[target] - 1];
    longer := if incoming[target] == 0 then queue + [target] else queue;
  }

  /** One turn of the queue loop: take the edges of the node at the cursor
      away and append the nodes that lose their last incoming edge. */
  method Release(incoming: array<nat>, adjacency: Adjacency, queue: seq<nat>, cursor: nat)
    returns (longer: seq<nat>)
    requires WellFormed(adjacency) && cursor < |queue| && queue[cursor] < |adjacency|
    requires Distinct(queue) && PredecessorsFirst(adjacency, queue)
    requires Counted(adjacency, incoming[..], queue, Elements(queue[..cursor]), [])
    modifies incoming
    ensures queue <= longer && |longer| <= |adjacency|
    ensures Distinct(longer) && PredecessorsFirst(adjacency, longer)
    ensures Counted(adjacency, incoming[..], longer, Elements(longer[..cursor + 1]), [])
  {
    var targets := adjacency[queue[cursor]];
    ghost var done := Elements(queue[..cursor + 1]);
    BeginRelease(adjacency, incoming[..], queue, cursor);
    assert incoming.Length == |adjacency| && AllBelow(targets, |adjacency|);
    hide Counted, Queued, WellFormed, Distinct, PredecessorsFirst, Elements;
    longer := queue;
    assert targets[0..] == targets;
    for k := 0 to |targets|
      invariant queue <= longer && Queued(adjacency, longer, done)
      invariant Counted(adjacency, incoming[..], longer, done, targets[k..])
    {
      assert targets[k..] == [targets[k]] + targets[k + 1..];
      longer := ReleaseEdge(incoming, adjacency, longer, targets[k], done, targets[k + 1..]);
    }
    assert targets[|targets|..] == [];
    AllQueued(adjacency, incoming[..], longer, done);
    DistinctBound(longer, |adjacency|);
    assert longer[..cursor + 1] == queue[..cursor + 1];
  }
}
