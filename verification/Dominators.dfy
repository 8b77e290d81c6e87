/** The in-place dominator fixpoint of the plan compiler, over rows of 64-bit
    words, and its exactness: a bit is set when and only when every walk from
    the entry visits the node of that bit. */
module Dominators {
  import opened Walks
  import opened Bitset
  import GraphSearch

  type Rows = seq<seq<bv64>>

  ghost predicate Shaped(rows: Rows, n: nat, words: nat) {
    |rows| == n <= 64 * words && forall v | 0 <= v < n :: |rows[v]| == words
  }

  /** d belongs to what the equation of `node` yields for the current rows. */
  ghost predicate InMeet(rows: Rows, predecessors: seq<nat>, node: nat, d: nat)
    requires forall p | p in predecessors :: p < |rows|
  {
    d == node || forall p | p in predecessors :: d in Members(rows[p])
  }

  /** The rows hold every true dominator and only ever shrink towards the
      solution of the equations. */
  ghost predicate Approximates(rows: Rows, adj: Adjacency, reverse: Adjacency, entry: nat, words: nat)
  {
    && entry < |adj| == |reverse|
    && WellFormed(reverse)
    && Shaped(rows, |adj|, words)
    && Members(rows[entry]) == {entry}
    && (forall v: nat, d: nat | v < |adj| && d < 64 * words && Dominates(adj, entry, d, v) :: d in Members(rows[v]))
    && (forall v: nat, d: nat | v < |adj| && v != entry && d < 64 * words && InMeet(rows, reverse[v], v, d) ::
          d in Members(rows[v]))
  }

  /** The row of v satisfies its equation. */
  ghost predicate Settled(rows: Rows, reverse: Adjacency, v: nat)
    requires v < |reverse| && forall p | p in reverse[v] :: p < |rows|
    requires v < |rows|
  {
    reverse[v] != [] ==> forall d | d in Members(rows[v]) :: InMeet(rows, reverse[v], v, d)
  }

  ghost predicate SettledBelow(rows: Rows, reverse: Adjacency, entry: nat, n: nat)
    requires WellFormed(reverse) && |rows| == |reverse| && n <= |reverse|
  {
    forall v: nat | v < n && v != entry :: (InReverse(reverse, v); Settled(rows, reverse, v))
  }

  ghost function TotalSize(rows: Rows): nat {
    if rows == [] then 0 else TotalSize(rows[..|rows| - 1]) + |Members(rows[|rows| - 1])|
  }

  lemma {:induction false} SmallerRow(rows: Rows, v: nat, row: seq<bv64>)
    requires v < |rows| && Members(row) < Members(rows[v])
    ensures TotalSize(rows[v := row]) < TotalSize(rows)
  {
    var last := |rows| - 1;
    if v == last {
      assert rows[v := row][..last] == rows[..last];
      GraphSearch.SubsetSize(Members(row), Members(rows[v]));
    } else {
      assert rows[v := row][..last] == rows[..last][v := row];
      SmallerRow(rows[..last], v, row);
    }
  }

  lemma InReverse(reverse: Adjacency, v: nat)
    requires WellFormed(reverse) && v < |reverse|
    ensures forall p | p in reverse[v] :: p < |reverse|
  {
  }

  /** The right-hand side of one equation. */
  method Meet(rows: Rows, node: nat, predecessors: seq<nat>, words: nat) returns (row: seq<bv64>)
    requires Shaped(rows, |rows|, words) && node < |rows|
    requires predecessors != [] && forall p | p in predecessors :: p < |rows|
    ensures |row| == words
    ensures forall d: nat :: d in Members(row) <==> d < 64 * words && InMeet(rows, predecessors, node, d)
  {
    assert predecessors[0] in predecessors;
    var first := rows[predecessors[0]];
    var next := new bv64[words](i requires 0 <= i < |first| => first[i]);
    assert next[..] == first;
    for k := 1 to |predecessors|
      invariant forall i | 0 <= i < |predecessors| :: predecessors[i] in predecessors
      invariant forall d: nat :: d in Members(next[..]) <==>
                  d < 64 * words && forall i | 0 <= i < k :: d in Members(rows[predecessors[i]])
    {
      IntersectInto(next, rows[predecessors[k]]);
    }
    row := SetBit(next[..], node);
    forall d: nat
      ensures d in Members(row) <==> d < 64 * words && InMeet(rows, predecessors, node, d)
    {
      if d in Members(next[..]) {
        forall p | p in predecessors
          ensures d in Members(rows[p])
        {
          var i :| 0 <= i < |predecessors| && predecessors[i] == p;
        }
      }
    }
  }

  lemma DominatorsAreInMeet(rows: Rows, adj: Adjacency, reverse: Adjacency, entry: nat, words: nat, node: nat, d: nat)
    requires WellFormed(adj) && GraphSearch.Reverses(reverse, adj)
    requires Approximates(rows, adj, reverse, entry, words)
    requires node < |adj| && d < 64 * words && Dominates(adj, entry, d, node)
    ensures forall p | p in reverse[node] :: p < |rows|
    ensures InMeet(rows, reverse[node], node, d)
  {
    InReverse(reverse, node);
    if d != node {
      forall p | p in reverse[node]
        ensures d in Members(rows[p])
      {
        assert Edge(reverse, node, p);
        if !Dominates(adj, entry, d, p) {
          ReachThen(adj, entry, p, node, d);
        }
      }
    }
  }

  /** Replacing one row by the meet of its predecessors keeps the rows an
      approximation, and makes the total smaller when it changes anything. */
  lemma UpdateApproximates(rows: Rows, adj: Adjacency, reverse: Adjacency, entry: nat, words: nat,
                           node: nat, row: seq<bv64>)
    requires WellFormed(adj) && GraphSearch.Reverses(reverse, adj)
    requires Approximates(rows, adj, reverse, entry, words)
    requires node < |adj| && node != entry && |row| == words
    requires forall p | p in reverse[node] :: p < |rows|
    requires forall d: nat :: d in Members(row) <==> d < 64 * words && InMeet(rows, reverse[node], node, d)
    ensures Approximates(rows[node := row], adj, reverse, entry, words)
    ensures Members(row) <= Members(rows[node])
  {
    var next := rows[node := row];
    assert Members(row) <= Members(rows[node]);
    forall v: nat, d: nat | v < |adj| && d < 64 * words && Dominates(adj, entry, d, v)
      ensures d in Members(next[v])
    {
      if v == node {
        DominatorsAreInMeet(rows, adj, reverse, entry, words, node, d);
      }
    }
    forall v: nat, d: nat | v < |adj| && v != entry && d < 64 * words && InMeet(next, reverse[v], v, d)
      ensures d in Members(next[v])
    {
      InReverse(reverse, v);
      assert InMeet(rows, reverse[v], v, d);
    }
  }

  lemma SettledStep(rows: Rows, adj: Adjacency, reverse: Adjacency, entry: nat, a: nat, b: nat, d: nat)
    requires WellFormed(adj) && WellFormed(reverse) && GraphSearch.Reverses(reverse, adj) && |rows| == |adj|
    requires SettledBelow(rows, reverse, entry, |adj|)
    requires Edge(adj, a, b) && b < |adj| && b != entry && b != d
    requires d !in Members(rows[a])
    ensures d !in Members(rows[b])
  {
    InReverse(reverse, b);
    assert Settled(rows, reverse, b);
    assert Edge(reverse, b, a);
  }

  /** Rows that solve every equation hold nothing but dominators. */
  lemma SettledIsExact(rows: Rows, adj: Adjacency, reverse: Adjacency, entry: nat, words: nat, v: nat, d: nat)
    requires WellFormed(adj) && GraphSearch.Reverses(reverse, adj)
    requires Approximates(rows, adj, reverse, entry, words)
    requires SettledBelow(rows, reverse, entry, |adj|)
    requires v < |adj| && d < 64 * words
    ensures HasBit(rows[v], d) <==> Dominates(adj, entry, d, v)
  {
    if d in Members(rows[v]) && !Dominates(adj, entry, d, v) {
      ReachEnds(adj, entry, v, d);
      var free := set x: nat | x < |adj| && d !in Members(rows[x]);
      forall a: nat, b: nat | a in free && Edge(adj, a, b) && b != d
        ensures b in free
      {
        EdgeBound(adj, a, b);
        if b != entry {
          SettledStep(rows, adj, reverse, entry, a, b, d);
        }
      }
      ReachStaysIn(adj, free, entry, v, d);
    }
  }

  lemma StartApproximates(rows: Rows, adj: Adjacency, reverse: Adjacency, entry: nat, words: nat)
    requires entry < |adj| == |reverse| && WellFormed(reverse) && Shaped(rows, |adj|, words)
    requires forall v: nat, d: nat | v < |adj| && d < 64 * words ::
               d in Members(rows[v]) <==> v != entry || d == entry
    ensures Approximates(rows, adj, reverse, entry, words)
  {
    forall v: nat, d: nat | v < |adj| && d < 64 * words && Dominates(adj, entry, d, v)
      ensures d in Members(rows[v])
    {
      if v == entry && d != entry {
        ReachSelf(adj, entry, d);
      }
    }
    assert forall d | d in Members(rows[entry]) :: d == entry;
  }

  method StartRows(entry: nat, n: nat, words: nat) returns (rows: array<seq<bv64>>)
    requires entry < n <= 64 * words
    ensures fresh(rows) && Shaped(rows[..], n, words)
    ensures forall v: nat, d: nat | v < n && d < 64 * words ::
              d in Members(rows[..][v]) <==> v != entry || d == entry
  {
    rows := new seq<bv64>[n](_ => []);
    for index := 0 to n
      invariant forall v | 0 <= v < index :: |rows[v]| == words
      invariant forall v: nat, d: nat | v < index && d < 64 * words ::
                  d in Members(rows[v]) <==> v != entry || d == entry
    {
      rows[index] := if index == entry then SetBit(Zeros(words), index) else Ones(words);
    }
  }

  /** One sweep over the nodes, in place. */
  method Sweep(rows: array<seq<bv64>>, entry: nat, predecessors: Adjacency, words: nat, ghost adjacency: Adjacency)
    returns (changed: bool)
    requires WellFormed(adjacency) && GraphSearch.Reverses(predecessors, adjacency)
    requires Approximates(rows[..], adjacency, predecessors, entry, words)
    modifies rows
    ensures Approximates(rows[..], adjacency, predecessors, entry, words)
    ensures changed ==> TotalSize(rows[..]) < TotalSize(old(rows[..]))
    ensures !changed ==> rows[..] == old(rows[..]) && SettledBelow(rows[..], predecessors, entry, |adjacency|)
  {
    changed := false;
    ghost var atStart := rows[..];
    for node := 0 to |predecessors|
      invariant Approximates(rows[..], adjacency, predecessors, entry, words)
      invariant if changed then TotalSize(rows[..]) < TotalSize(atStart) else rows[..] == atStart
      invariant !changed ==> SettledBelow(rows[..], predecessors, entry, node)
    {
      if node == entry || |predecessors[node]| == 0 {
        continue;
      }
      InReverse(predecessors, node);
      ghost var before := rows[..];
      var next := Meet(rows[..], node, predecessors[node], words);
      UpdateApproximates(before, adjacency, predecessors, entry, words, node, next);
      var equal := EqualBits(next, rows[node]);
      if !equal {
        SmallerRow(before, node, next);
        rows[node] := next;
        assert rows[..] == before[node := next];
        changed := true;
      }
    }
  }

  method ExecutionDominators(entry: nat, predecessors: Adjacency, ghost adjacency: Adjacency)
    returns (dominators: Rows)
    requires WellFormed(adjacency) && WellFormed(predecessors)
    requires GraphSearch.Reverses(predecessors, adjacency) && entry < |predecessors|
    ensures Shaped(dominators, |adjacency|, (|adjacency| + 63) / 64)
    ensures forall v: nat, d: nat | v < |adjacency| && d < |adjacency| ::
              HasBit(dominators[v], d) <==> Dominates(adjacency, entry, d, v)
  {
    var words := (|predecessors| + 63) / 64;
    var rows := StartRows(entry, |predecessors|, words);
    StartApproximates(rows[..], adjacency, predecessors, entry, words);
    var changed := true;
    while changed
      invariant Approximates(rows[..], adjacency, predecessors, entry, words)
      invariant !changed ==> SettledBelow(rows[..], predecessors, entry, |adjacency|)
      decreases TotalSize(rows[..]), changed
    {
      changed := Sweep(rows, entry, predecessors, words, adjacency);
    }
    dominators := rows[..];
    forall v: nat, d: nat | v < |adjacency| && d < |adjacency|
      ensures HasBit(dominators[v], d) <==> Dominates(adjacency, entry, d, v)
    {
      SettledIsExact(dominators, adjacency, predecessors, entry, words, v, d);
    }
  }
}
