/**
 Replacement edges (`replaceEdge`, `findEdgesWithOneEndInCluster`,
 `mapReplacementEdges`): each cluster in turn is collapsed to its centre by
 creating, for every edge leaving it, a new edge that ends at the centre
 instead.

 The Java code mutates shared objects: a new edge is appended to the branch
 lists of both its endpoints at once, so later clusters see it. Here that
 state is a `Work` value: the arena of all vertices (old ones and centres)
 and all edges created so far, the replacement map from an outer edge to the
 id of its current replacement, and the next free edge id.
 */
module Replacement {
  import opened Options
  import opened Seqs
  import opened Graphs
  import opened Quotient

  /**
   `replaceEdge`: the endpoint in the cluster (the first one, if both are)
   becomes the centre; an edge with no endpoint in the cluster has no
   replacement (Java returns `null`). The new edge's length is 0.0 until it is
   measured.
   */
  function ReplaceEdge(e: Edge, cluster: set<VertexId>, centre: VertexId): (r: Option<Edge>)
    ensures r.Some? <==> e.v1 in cluster || e.v2 in cluster
    ensures r.Some? ==> r.value.length == 0.0
    ensures r.Some? && OneEndIn(e, cluster) ==>
      && r.value.v1 == (if e.v1 in cluster then centre else e.v1)
      && r.value.v2 == (if e.v2 in cluster then centre else e.v2)
    ensures r.Some? && e.v1 in cluster && e.v2 in cluster ==> r.value.v1 == centre && r.value.v2 == e.v2
  {
    if e.v1 in cluster then Some(Edge(centre, e.v2, 0.0))
    else if e.v2 in cluster then Some(Edge(e.v1, centre, 0.0))
    else None
  }

  /** The branch lists of the listed vertices, pooled into one multiset. */
  function Pooled(vs: map<VertexId, Vertex>, members: seq<VertexId>): multiset<EdgeId>
    requires forall v | v in members :: v in vs
  {
    if members == [] then multiset{} else multiset(vs[members[0]].branches) + Pooled(vs, members[1..])
  }

  /**
   `findEdgesWithOneEndInCluster`: the edges that occur exactly once in the
   pooled branch lists of the cluster's vertices.
   */
  function FindEdgesWithOneEndInCluster(vs: map<VertexId, Vertex>, cluster: set<VertexId>): (r: set<EdgeId>)
    requires cluster <= vs.Keys
    ensures forall e :: e in r <==> Pooled(vs, Enumerate(cluster))[e] == 1
  {
    var pooled := Pooled(vs, Enumerate(cluster));
    set e | e in pooled && pooled[e] == 1
  }

  /** `Vertex.setBranch`: appends `id` to the branches of `v`, if `v` is a vertex. */
  function Append(vs: map<VertexId, Vertex>, v: VertexId, id: EdgeId): map<VertexId, Vertex> {
    if v in vs then vs[v := Vertex(vs[v].points, vs[v].branches + [id])] else vs
  }

  /** Appending touches the branch list of `v` alone, and only by adding `id` at its end. */
  lemma AppendFacts(vs: map<VertexId, Vertex>, v: VertexId, id: EdgeId)
    ensures Append(vs, v, id).Keys == vs.Keys
    ensures forall u | u in vs :: Append(vs, v, id)[u].points == vs[u].points
    ensures v in vs ==> Append(vs, v, id)[v].branches == vs[v].branches + [id]
    ensures forall u | u in vs && u != v :: Append(vs, v, id)[u] == vs[u]
  {
  }

  /** Records edge `n` under `id` and appends `id` to the branches of its first, then its second endpoint. */
  function AddEdge(arena: Graph, id: EdgeId, n: Edge): Graph {
    Graph(Append(Append(arena.vertices, n.v1, id), n.v2, id), arena.edges[id := n])
  }

  /** Adding an edge keeps the vertex ids and every vertex's points, and records the edge under `id`. */
  lemma AddEdgeFacts(arena: Graph, id: EdgeId, n: Edge)
    ensures AddEdge(arena, id, n).vertices.Keys == arena.vertices.Keys
    ensures forall u | u in arena.vertices :: AddEdge(arena, id, n).vertices[u].points == arena.vertices[u].points
    ensures AddEdge(arena, id, n).edges == arena.edges[id := n]
  {
    AppendFacts(arena.vertices, n.v1, id);
    AppendFacts(Append(arena.vertices, n.v1, id), n.v2, id);
  }

  /** The arena, the replacement map and the next free edge id. */
  datatype Work = Work(arena: Graph, repl: map<EdgeId, EdgeId>, next: EdgeId)

  /**
   One step of `mapReplacementEdges` for the outer edge `outer`: replace the
   edge currently standing for it (its earlier replacement, or itself) and
   record the result as its replacement. `None` when that edge does not touch
   the cluster, where the Java code records `null` and fails later in the
   same cleaning step, or when the id stands for no edge at all.
   */
  function Rewire(w: Work, outer: EdgeId, cluster: set<VertexId>, centre: VertexId): (r: Option<Work>)
    ensures r.Some? <==>
      var current := if outer in w.repl then w.repl[outer] else outer;
      current in w.arena.edges && (w.arena.edges[current].v1 in cluster || w.arena.edges[current].v2 in cluster)
    ensures r.Some? ==> r.value.arena.vertices.Keys == w.arena.vertices.Keys
  {
    var current := if outer in w.repl then w.repl[outer] else outer;
    if current !in w.arena.edges then None
    else match ReplaceEdge(w.arena.edges[current], cluster, centre)
      case None => None
      case Some(n) => Some(Work(AddEdge(w.arena, w.next, n), w.repl[outer := w.next], w.next + 1))
  }
}
