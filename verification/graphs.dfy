/**
 The graph the pruning works on, as index-based arenas: vertices and edges are
 addressed by ids, an edge holds the ids of its two endpoints, and a vertex
 holds the list of ids of its incident edges (its "branches", an `ArrayList` in
 the Java code, so an id may occur more than once).
 */
module Graphs {
  import opened Seqs

  type VertexId = nat
  type EdgeId = nat

  datatype Point = Point(x: int, y: int, z: int)

  datatype Vertex = Vertex(points: seq<Point>, branches: seq<EdgeId>)

  /** `length` is the edge's cached length; only `<` against the tolerance is used. */
  datatype Edge = Edge(v1: VertexId, v2: VertexId, length: real)

  datatype Graph = Graph(vertices: map<VertexId, Vertex>, edges: map<EdgeId, Edge>)

  /** Both endpoints of the edge are the same vertex. */
  predicate IsLoop(e: Edge) {
    e.v1 == e.v2
  }

  /** How many of the two endpoint slots of `e` hold `v` (2 for a loop at `v`). */
  function Slots(e: Edge, v: VertexId): nat {
    (if e.v1 == v then 1 else 0) + (if e.v2 == v then 1 else 0)
  }

  /** The endpoint of `e` across from `v` (`Edge.getOppositeVertex`). */
  function Opposite(e: Edge, v: VertexId): VertexId {
    if e.v1 == v then e.v2 else e.v1
  }

  /** The two edges join the same unordered pair of vertices. */
  predicate SamePair(a: Edge, b: Edge) {
    || (a.v1 == b.v1 && a.v2 == b.v2)
    || (a.v1 == b.v2 && a.v2 == b.v1)
  }

  /** How often edge `e` occurs in a branch list. */
  function Count(branches: seq<EdgeId>, e: EdgeId): nat {
    multiset(branches)[e]
  }

  /** The number of branches of a vertex. */
  function Degree(g: Graph, v: VertexId): nat
    requires v in g.vertices
  {
    |g.vertices[v].branches|
  }

  /** Every edge's endpoints belong to the vertex set. */
  predicate Closed(g: Graph) {
    forall e | e in g.edges :: g.edges[e].v1 in g.vertices && g.edges[e].v2 in g.vertices
  }

  /** Every branch of every vertex is an edge of the graph. */
  predicate BranchesInEdges(g: Graph) {
    forall v, e {:trigger e in g.vertices[v].branches} | v in g.vertices && e in g.vertices[v].branches :: e in g.edges
  }

  /** No vertex lists an edge more often than it is an endpoint of it. */
  predicate NoExcess(g: Graph) {
    forall v, e {:trigger Count(g.vertices[v].branches, e)} | v in g.vertices && e in g.edges ::
      Count(g.vertices[v].branches, e) <= Slots(g.edges[e], v)
  }

  /** Every edge is listed among the branches of both of its endpoints. */
  predicate Listed(g: Graph) {
    forall e | e in g.edges ::
      && (g.edges[e].v1 in g.vertices ==> e in g.vertices[g.edges[e].v1].branches)
      && (g.edges[e].v2 in g.vertices ==> e in g.vertices[g.edges[e].v2].branches)
  }

  /**
   The graph invariant: the branch lists are exactly the incidence relation. A
   non-loop edge is listed once at each endpoint and nowhere else; a loop is
   listed once or twice at its vertex.
   */
  predicate Consistent(g: Graph) {
    Closed(g) && BranchesInEdges(g) && NoExcess(g) && Listed(g)
  }

  predicate LoopFree(g: Graph) {
    forall e | e in g.edges :: !IsLoop(g.edges[e])
  }

  /** At most one edge joins any unordered pair of vertices. */
  predicate NoParallel(g: Graph) {
    forall a, b | a in g.edges && b in g.edges && a != b :: !SamePair(g.edges[a], g.edges[b])
  }

  /** In a consistent graph without loops each vertex lists each edge once per endpoint slot. */
  lemma ExactCount(g: Graph, v: VertexId, e: EdgeId)
    requires Consistent(g) && LoopFree(g)
    requires v in g.vertices && e in g.edges
    ensures Count(g.vertices[v].branches, e) == Slots(g.edges[e], v)
  {
  }

  /** `Vertex.getBranches().remove(e)`: one occurrence of `e` leaves the branch list. */
  function DropOne(x: Vertex, e: EdgeId): (y: Vertex)
    ensures y.points == x.points
    ensures multiset(y.branches) == multiset(x.branches) - multiset{e}
  {
    Vertex(x.points, RemoveFirst(x.branches, e))
  }

  /** Removes one occurrence of `e` from the branches of `v`, if `v` is still a vertex. */
  function DropBranch(vs: map<VertexId, Vertex>, v: VertexId, e: EdgeId): (r: map<VertexId, Vertex>)
    ensures forall u :: u in r <==> u in vs
    ensures forall u | u in vs :: r[u].points == vs[u].points
    ensures v in vs ==> r[v] == DropOne(vs[v], e)
    ensures forall u | u in vs && u != v :: r[u] == vs[u]
  {
    if v in vs then vs[v := DropOne(vs[v], e)] else vs
  }

  /**
   `removeBranchFromEndpoints` followed by dropping the edge from the edge
   set: one occurrence of `e` leaves the branch list of `v1`, then one leaves
   that of `v2` (the same list twice for a loop).
   */
  function Detach(g: Graph, e: EdgeId): (r: Graph)
    ensures forall v :: v in r.vertices <==> v in g.vertices
    ensures forall v | v in g.vertices :: r.vertices[v].points == g.vertices[v].points
    ensures r.edges == g.edges - {e}
  {
    if e !in g.edges then g
    else
      var ed := g.edges[e];
      Graph(DropBranch(DropBranch(g.vertices, ed.v1, e), ed.v2, e), g.edges - {e})
  }

  /** Detaches and removes each listed edge in turn. */
  function RemoveEdges(g: Graph, es: seq<EdgeId>): (r: Graph)
    ensures forall v :: v in r.vertices <==> v in g.vertices
    ensures forall v | v in g.vertices :: r.vertices[v].points == g.vertices[v].points
    ensures forall e :: e in r.edges <==> e in g.edges && e !in es
    ensures forall e | e in r.edges :: r.edges[e] == g.edges[e]
    decreases |es|
  {
    if es == [] then g else RemoveEdges(Detach(g, es[0]), es[1..])
  }

  /**
   Detaching an edge that no vertex lists more often than it has endpoint
   slots clears it from every branch list and leaves every other count alone.
   */
  lemma DetachCounts(g: Graph, e: EdgeId)
    requires e in g.edges
    requires forall v | v in g.vertices :: Count(g.vertices[v].branches, e) <= Slots(g.edges[e], v)
    ensures forall v, x | v in g.vertices ::
      Count(Detach(g, e).vertices[v].branches, x) == if x == e then 0 else Count(g.vertices[v].branches, x)
  {
    var ed := g.edges[e];
    var vs1 := DropBranch(g.vertices, ed.v1, e);
    var vs2 := DropBranch(vs1, ed.v2, e);
    assert Detach(g, e).vertices == vs2;
    forall v, x | v in g.vertices
      ensures Count(vs2[v].branches, x) == if x == e then 0 else Count(g.vertices[v].branches, x)
    {
      var m0 := multiset(g.vertices[v].branches);
      var m1 := multiset(vs1[v].branches);
      var m2 := multiset(vs2[v].branches);
      assert m1 == if v == ed.v1 then m0 - multiset{e} else m0;
      assert m2 == if v == ed.v2 then m1 - multiset{e} else m1;
      if x == e {
        assert m0[e] <= Slots(ed, v);
      }
    }
  }

  /**
   Removing a list of distinct edges, none over-listed, clears exactly those
   edges from every branch list.
   */
  lemma {:induction false} RemoveEdgesCounts(g: Graph, es: seq<EdgeId>)
    requires Distinct(es)
    requires forall e | e in es :: e in g.edges
    requires NoExcess(g)
    ensures forall v, x | v in g.vertices ::
      Count(RemoveEdges(g, es).vertices[v].branches, x) == if x in es then 0 else Count(g.vertices[v].branches, x)
    decreases |es|
  {
    if es != [] {
      var h := Detach(g, es[0]);
      DetachCounts(g, es[0]);
      forall v, x | v in h.vertices && x in h.edges
        ensures Count(h.vertices[v].branches, x) <= Slots(h.edges[x], v)
      {
        assert Count(h.vertices[v].branches, x) == Count(g.vertices[v].branches, x);
      }
      DistinctTail(es);
      RemoveEdgesCounts(h, es[1..]);
    }
  }

  /**
   The branch lists of `r` are those of `g` with the edges outside `r`
   cleared: the relation every edge-removing stage establishes.
   */
  ghost predicate ClearedOf(g: Graph, r: Graph, drop: set<EdgeId>) {
    && (forall v :: v in r.vertices <==> v in g.vertices)
    && (forall e :: e in r.edges <==> e in g.edges && e !in drop)
    && (forall e | e in r.edges :: r.edges[e] == g.edges[e])
    && (forall v, x | v in g.vertices ::
          Count(r.vertices[v].branches, x) == if x in drop then 0 else Count(g.vertices[v].branches, x))
  }

  /** Clearing edges from a consistent graph, without removing vertices, keeps it consistent. */
  lemma ClearedConsistent(g: Graph, r: Graph, drop: set<EdgeId>)
    requires Consistent(g)
    requires ClearedOf(g, r, drop)
    ensures Consistent(r)
  {
    ClearedBranches(g, r, drop);
    ClearedNoExcess(g, r, drop);
    ClearedListed(g, r, drop);
    ClearedClosed(g, r, drop);
  }

  lemma ClearedBranches(g: Graph, r: Graph, drop: set<EdgeId>)
    requires BranchesInEdges(g)
    requires ClearedOf(g, r, drop)
    ensures BranchesInEdges(r)
  {
    forall v, e | v in r.vertices && e in r.vertices[v].branches
      ensures e in r.edges
    {
      assert v in g.vertices;
      assert e in multiset(r.vertices[v].branches);
      assert e !in drop && Count(g.vertices[v].branches, e) > 0;
      assert e in multiset(g.vertices[v].branches);
      assert e in g.vertices[v].branches;
    }
  }

  lemma ClearedNoExcess(g: Graph, r: Graph, drop: set<EdgeId>)
    requires NoExcess(g)
    requires ClearedOf(g, r, drop)
    ensures NoExcess(r)
  {
    forall v, e | v in r.vertices && e in r.edges
      ensures Count(r.vertices[v].branches, e) <= Slots(r.edges[e], v)
    {
      assert v in g.vertices;
      assert Count(g.vertices[v].branches, e) <= Slots(g.edges[e], v);
    }
  }

  lemma ClearedListed(g: Graph, r: Graph, drop: set<EdgeId>)
    requires Listed(g)
    requires ClearedOf(g, r, drop)
    ensures Listed(r)
  {
    forall e | e in r.edges
      ensures r.edges[e].v1 in r.vertices ==> e in r.vertices[r.edges[e].v1].branches
      ensures r.edges[e].v2 in r.vertices ==> e in r.vertices[r.edges[e].v2].branches
    {
      var ed := g.edges[e];
      if ed.v1 in r.vertices {
        assert Count(g.vertices[ed.v1].branches, e) > 0;
        assert Count(r.vertices[ed.v1].branches, e) > 0;
      }
      if ed.v2 in r.vertices {
        assert Count(g.vertices[ed.v2].branches, e) > 0;
        assert Count(r.vertices[ed.v2].branches, e) > 0;
      }
    }
  }

  lemma ClearedClosed(g: Graph, r: Graph, drop: set<EdgeId>)
    requires Closed(g)
    requires ClearedOf(g, r, drop)
    ensures Closed(r)
  {
  }

  /** Removing a list of distinct edges clears exactly those edges. */
  lemma RemoveEdgesClears(g: Graph, es: seq<EdgeId>)
    requires Distinct(es)
    requires forall e | e in es :: e in g.edges
    requires NoExcess(g)
    ensures ClearedOf(g, RemoveEdges(g, es), Elems(es))
  {
    RemoveEdgesCounts(g, es);
  }

  /** Removing a set of edges, in ascending order, clears exactly that set. */
  lemma RemoveSetClears(g: Graph, s: set<EdgeId>)
    requires s <= g.edges.Keys
    requires NoExcess(g)
    ensures ClearedOf(g, RemoveEdges(g, Enumerate(s)), s)
  {
    var es := Enumerate(s);
    RemoveEdgesClears(g, es);
    assert Elems(es) == s;
  }

  /**
   The same, phrased by what is gone: the cleared edges are those of `g` that
   `r` lacks, and a consistent graph stays consistent.
   */
  lemma RemoveEdgesClearsMissing(g: Graph, es: seq<EdgeId>)
    requires Distinct(es)
    requires forall e | e in es :: e in g.edges
    requires NoExcess(g)
    ensures ClearedOf(g, RemoveEdges(g, es), g.edges.Keys - RemoveEdges(g, es).edges.Keys)
    ensures Consistent(g) ==> Consistent(RemoveEdges(g, es))
  {
    var r := RemoveEdges(g, es);
    RemoveEdgesClears(g, es);
    forall x
      ensures x in Elems(es) <==> x in g.edges.Keys - r.edges.Keys
    {
    }
    assert Elems(es) == g.edges.Keys - r.edges.Keys;
    if Consistent(g) {
      ClearedConsistent(g, r, Elems(es));
    }
  }
}
