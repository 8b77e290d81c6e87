/** Reading a drawing: nodes with ids, and connections between ids, become
    lists of node numbers. */
module CanvasReading {
  import opened Walks
  import opened GraphSearch
  import opened CanvasGraph

  datatype Connection = Connection(source: string, target: string)

  ghost predicate DistinctIDs(nodes: seq<Node>) {
    forall u: nat, v: nat | u < v < |nodes| :: nodes[u].id != nodes[v].id
  }

  ghost predicate Named(nodes: seq<Node>, id: string) {
    exists v: nat :: v < |nodes| && nodes[v].id == id
  }

  ghost predicate Readable(nodes: seq<Node>, connections: seq<Connection>) {
    && DistinctIDs(nodes)
    && (forall e | e in connections :: Named(nodes, e.source) && Named(nodes, e.target))
    && (forall i, j | 0 <= i < j < |connections| :: connections[i] != connections[j])
  }

  ghost predicate IndexesNodes(nodes: seq<Node>, byID: map<string, nat>, n: nat) {
    && (forall v: nat | v < n && v < |nodes| :: nodes[v].id in byID && byID[nodes[v].id] == v)
    && (forall id | id in byID :: byID[id] < |nodes| && nodes[byID[id]].id == id)
  }

  method IndexNodes(nodes: seq<Node>) returns (ok: bool, byID: map<string, nat>)
    ensures ok <==> DistinctIDs(nodes)
    ensures ok ==> IndexesNodes(nodes, byID, |nodes|)
  {
    byID := map[];
    for v := 0 to |nodes|
      invariant IndexesNodes(nodes, byID, v) && forall id | id in byID :: byID[id] < v
    {
      if nodes[v].id in byID {
        assert nodes[byID[nodes[v].id]].id == nodes[v].id;
        return false, byID;
      }
      byID := byID[nodes[v].id := v];
    }
    forall u: nat, v: nat | u < v < |nodes|
      ensures nodes[u].id != nodes[v].id
    {
      assert byID[nodes[u].id] == u && byID[nodes[v].id] == v;
    }
    return true, byID;
  }

  /** The lists hold the connections, each once. */
  ghost predicate Lists(nodes: seq<Node>, connections: seq<Connection>, outgoing: Adjacency) {
    && |outgoing| == |nodes|
    && (forall u: nat | u < |nodes| :: Distinct(outgoing[u]))
    && (forall u: nat, v: nat | u < |nodes| && v in outgoing[u] :: v < |nodes|)
    && (forall u: nat, v: nat | u < |nodes| && v < |nodes| ::
          v in outgoing[u] <==> Connection(nodes[u].id, nodes[v].id) in connections)
  }

  lemma ListsGrow(nodes: seq<Node>, before: seq<Connection>, outgoing: Adjacency, u: nat, v: nat)
    requires DistinctIDs(nodes) && Lists(nodes, before, outgoing) && u < |nodes| && v < |nodes| && v !in outgoing[u]
    ensures Lists(nodes, before + [Connection(nodes[u].id, nodes[v].id)], outgoing[u := outgoing[u] + [v]])
  {
    var connection := Connection(nodes[u].id, nodes[v].id);
    var more := outgoing[u := outgoing[u] + [v]];
    forall s: nat, t: nat | s < |nodes| && t < |nodes|
      ensures t in more[s] <==> Connection(nodes[s].id, nodes[t].id) in before + [connection]
    {
      assert Connection(nodes[s].id, nodes[t].id) == connection ==> s == u && t == v;
    }
  }

  lemma ListsAreCanvas(nodes: seq<Node>, connections: seq<Connection>, outgoing: Adjacency)
    requires DistinctIDs(nodes) && Lists(nodes, connections, outgoing)
    ensures Valid(Canvas(nodes, outgoing))
  {
    forall u, k | 0 <= u < |outgoing| && 0 <= k < |outgoing[u]|
      ensures outgoing[u][k] < |outgoing|
    {
      assert outgoing[u][k] in outgoing[u];
    }
  }

  /** The connections so far are between nodes, differ, and are listed. */
  ghost predicate ReadBelow(nodes: seq<Node>, connections: seq<Connection>, outgoing: Adjacency, n: nat)
    requires n <= |connections|
  {
    && Lists(nodes, connections[..n], outgoing)
    && (forall k | 0 <= k < n :: Named(nodes, connections[k].source) && Named(nodes, connections[k].target))
    && (forall i, j | 0 <= i < j < n :: connections[i] != connections[j])
  }

  lemma ReadNext(nodes: seq<Node>, connections: seq<Connection>, outgoing: Adjacency, n: nat, u: nat, v: nat)
    requires DistinctIDs(nodes) && n < |connections| && ReadBelow(nodes, connections, outgoing, n)
    requires u < |nodes| && v < |nodes| && connections[n] == Connection(nodes[u].id, nodes[v].id)
    ensures |outgoing| == |nodes|
    ensures v in outgoing[u] ==> !Readable(nodes, connections)
    ensures v !in outgoing[u] ==> ReadBelow(nodes, connections, outgoing[u := outgoing[u] + [v]], n + 1)
  {
    if v in outgoing[u] {
      assert connections[n] in connections[..n];
    } else {
      ListsGrow(nodes, connections[..n], outgoing, u, v);
      assert connections[..n + 1] == connections[..n] + [connections[n]];
      forall i, j | 0 <= i < j < n + 1
        ensures connections[i] != connections[j]
      {
        assert j == n ==> connections[i] in connections[..n];
      }
      assert nodes[u].id == connections[n].source && nodes[v].id == connections[n].target;
    }
  }

  lemma NothingRead(nodes: seq<Node>, connections: seq<Connection>)
    ensures ReadBelow(nodes, connections, seq(|nodes|, _ => []), 0)
  {
  }

  lemma AllRead(nodes: seq<Node>, connections: seq<Connection>, outgoing: Adjacency)
    requires DistinctIDs(nodes) && ReadBelow(nodes, connections, outgoing, |connections|)
    ensures Readable(nodes, connections) && Lists(nodes, connections, outgoing)
  {
    assert connections[..|connections|] == connections;
  }

  /** Node ids must differ, and connections must be between nodes and differ. */
  method ReadCanvas(nodes: seq<Node>, connections: seq<Connection>) returns (ok: bool, c: Canvas)
    ensures ok <==> Readable(nodes, connections)
    ensures ok ==> Valid(c) && c.nodes == nodes && Lists(nodes, connections, c.outgoing)
  {
    c := Canvas(nodes, []);
    var byID;
    ok, byID := IndexNodes(nodes);
    if !ok {
      return;
    }
    hide ReadBelow, DistinctIDs, Lists, Valid;
    var outgoing: Adjacency := seq(|nodes|, _ => []);
    NothingRead(nodes, connections);
    for k := 0 to |connections|
      invariant ReadBelow(nodes, connections, outgoing, k)
    {
      var connection := connections[k];
      if connection.source !in byID || connection.target !in byID {
        assert connection in connections && !(Named(nodes, connection.source) && Named(nodes, connection.target));
        return false, c;
      }
      var u, v := byID[connection.source], byID[connection.target];
      assert connection == Connection(nodes[u].id, nodes[v].id);
      ReadNext(nodes, connections, outgoing, k, u, v);
      if v in outgoing[u] {
        return false, c;
      }
      outgoing := outgoing[u := outgoing[u] + [v]];
    }
    AllRead(nodes, connections, outgoing);
    ListsAreCanvas(nodes, connections, outgoing);
    return true, Canvas(nodes, outgoing);
  }
}
