/**
 What `findEdgesWithOneEndInCluster` finds, and why appending a new edge to
 both of its endpoints keeps the graph invariant.
 */
module OuterEdges {
  import opened Seqs
  import opened Graphs
  import opened Quotient
  import opened Replacement

  /** How many endpoint slots of `e` lie in `s`. */
  function Inside(e: Edge, s: set<VertexId>): nat {
    (if e.v1 in s then 1 else 0) + (if e.v2 in s then 1 else 0)
  }

  /** Adding a vertex not yet counted adds its endpoint slots. */
  lemma InsideAdd(e: Edge, s: set<VertexId>, m: VertexId)
    requires m !in s
    ensures Inside(e, {m} + s) == Slots(e, m) + Inside(e, s)
  {
  }

  /** In a consistent graph without loops, a vertex lists an edge once per endpoint slot, and lists nothing else. */
  lemma BranchCount(g: Graph, m: VertexId, e: EdgeId)
    requires Consistent(g) && LoopFree(g) && m in g.vertices
    ensures multiset(g.vertices[m].branches)[e] == if e in g.edges then Slots(g.edges[e], m) else 0
  {
    if e in g.edges {
      ExactCount(g, m, e);
    } else {
      assert e !in g.vertices[m].branches;
    }
  }

  /**
   The pooled branch lists of distinct vertices hold each edge once per
   endpoint slot among them.
   */
  lemma {:induction false} PooledCount(g: Graph, members: seq<VertexId>, e: EdgeId)
    requires Consistent(g) && LoopFree(g)
    requires Distinct(members) && forall v | v in members :: v in g.vertices
    ensures Pooled(g.vertices, members)[e] == if e in g.edges then Inside(g.edges[e], Elems(members)) else 0
    decreases |members|
  {
    if members != [] {
      var m := members[0];
      var rest := members[1..];
      DistinctTail(members);
      PooledCount(g, rest, e);
      BranchCount(g, m, e);
      assert Elems(members) == {m} + Elems(rest);
      if e in g.edges {
        InsideAdd(g.edges[e], Elems(rest), m);
      }
    }
  }

  /**
   On a consistent graph without loops, the edges found for a cluster are
   exactly the edges with one endpoint inside it and one outside.
   */
  lemma OuterEdgesOneEnd(g: Graph, cluster: set<VertexId>)
    requires Consistent(g) && LoopFree(g) && cluster <= g.vertices.Keys
    ensures forall e :: e in FindEdgesWithOneEndInCluster(g.vertices, cluster) <==>
      e in g.edges && OneEndIn(g.edges[e], cluster)
  {
    var members := Enumerate(cluster);
    assert Elems(members) == cluster;
    forall e
      ensures e in FindEdgesWithOneEndInCluster(g.vertices, cluster) <==>
        e in g.edges && OneEndIn(g.edges[e], cluster)
    {
      PooledCount(g, members, e);
    }
  }

  /** Appending changes the count of the appended id only, and only at that vertex. */
  lemma AppendCount(vs: map<VertexId, Vertex>, v: VertexId, id: EdgeId, u: VertexId, x: EdgeId)
    requires v in vs && u in vs
    ensures multiset(Append(vs, v, id)[u].branches)[x] ==
      multiset(vs[u].branches)[x] + (if u == v && x == id then 1 else 0)
  {
    if u == v {
      assert Append(vs, v, id)[u].branches == vs[u].branches + [id];
    }
  }

  /** The branch counts after adding a new edge: one more occurrence of it per endpoint slot. */
  lemma AddEdgeCount(a: Graph, id: EdgeId, n: Edge, u: VertexId, x: EdgeId)
    requires n.v1 in a.vertices && n.v2 in a.vertices && u in a.vertices
    ensures Count(AddEdge(a, id, n).vertices[u].branches, x) ==
      Count(a.vertices[u].branches, x) + (if x == id then Slots(n, u) else 0)
  {
    var vs1 := Append(a.vertices, n.v1, id);
    AppendCount(a.vertices, n.v1, id, u, x);
    AppendCount(vs1, n.v2, id, u, x);
  }

  /** The side conditions of adding edge `n` under the fresh id `id`. */
  predicate Addable(a: Graph, id: EdgeId, n: Edge) {
    id !in a.edges && n.v1 != n.v2 && n.v1 in a.vertices && n.v2 in a.vertices
  }

  lemma AddEdgeNoExcess(a: Graph, id: EdgeId, n: Edge)
    requires Consistent(a) && Addable(a, id, n)
    ensures NoExcess(AddEdge(a, id, n))
  {
    var r := AddEdge(a, id, n);
    forall v, e | v in r.vertices && e in r.edges
      ensures Count(r.vertices[v].branches, e) <= Slots(r.edges[e], v)
    {
      AddEdgeCount(a, id, n, v, e);
      if e == id {
        assert id !in a.vertices[v].branches;
        assert Count(a.vertices[v].branches, e) == 0;
      }
    }
  }

  lemma AddEdgeListed(a: Graph, id: EdgeId, n: Edge)
    requires Consistent(a) && Addable(a, id, n)
    ensures Listed(AddEdge(a, id, n)) && BranchesInEdges(AddEdge(a, id, n))
  {
    var r := AddEdge(a, id, n);
    forall v, e | v in r.vertices
      ensures e in r.vertices[v].branches <==>
        e in a.vertices[v].branches || (e == id && Slots(n, v) > 0)
    {
      AddEdgeCount(a, id, n, v, e);
    }
  }

  /** Adding a fresh edge between two different vertices keeps the graph invariant and keeps loops out. */
  lemma AddEdgeConsistent(a: Graph, id: EdgeId, n: Edge)
    requires Consistent(a) && LoopFree(a) && Addable(a, id, n)
    ensures Consistent(AddEdge(a, id, n)) && LoopFree(AddEdge(a, id, n))
  {
    AddEdgeNoExcess(a, id, n);
    AddEdgeListed(a, id, n);
  }
}
