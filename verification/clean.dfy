/**
 Rebuilding the graph after the clusters are collapsed (`createCleanGraph`,
 `isNotInClusters`, `endpoints`, `lonelyVertices`, `removeDanglingBranches`,
 and the measuring of the new edges by `euclideanDistance`).

 The Java code builds the clean graph from the same vertex and edge objects
 the rewiring mutated. Here those objects are an `objs` graph: the arena of
 the rewiring, with every vertex's branch list as the rewiring left it.
 */
module Cleaning {
  import opened Seqs
  import opened Graphs

  /** `isNotInClusters`: no cluster holds both endpoints of `e`. */
  predicate IsNotInClusters(e: Edge, cs: seq<set<VertexId>>) {
    forall i | 0 <= i < |cs| :: !(e.v1 in cs[i] && e.v2 in cs[i])
  }

  /** `endpoints`: both endpoints of each listed edge, without repetition. */
  function Endpoints(es: map<EdgeId, Edge>, ids: set<EdgeId>): (r: set<VertexId>)
    ensures forall e | e in ids && e in es :: es[e].v1 in r && es[e].v2 in r
  {
    (set e | e in ids && e in es :: es[e].v1) + (set e | e in ids && e in es :: es[e].v2)
  }

  /** Each of the endpoints is an endpoint of one of the listed edges. */
  lemma EndpointOf(es: map<EdgeId, Edge>, ids: set<EdgeId>, v: VertexId) returns (e: EdgeId)
    requires v in Endpoints(es, ids)
    ensures e in ids && e in es && Slots(es[e], v) > 0
  {
    e :| e in ids && e in es && (es[e].v1 == v || es[e].v2 == v);
  }

  /** `lonelyVertices`: the vertices without branches. */
  function LonelyVertices(g: Graph): set<VertexId> {
    set v | v in g.vertices && g.vertices[v].branches == []
  }

  /**
   `removeDanglingBranches`: each vertex drops the branches that are not
   edges of the graph and keeps every occurrence of those that are.
   */
  function RemoveDanglingBranches(g: Graph): (r: Graph)
    ensures r.edges == g.edges && r.vertices.Keys == g.vertices.Keys
    ensures BranchesInEdges(r)
    ensures forall v, e | v in g.vertices && e in g.edges ::
      Count(r.vertices[v].branches, e) == Count(g.vertices[v].branches, e)
    ensures forall v | v in g.vertices :: r.vertices[v].points == g.vertices[v].points
  {
    Graph(map v | v in g.vertices :: Vertex(g.vertices[v].points, Filter(g.vertices[v].branches, e => e in g.edges)), g.edges)
  }

  /**
   Dangling branches are the only way a graph whose edges end at its
   vertices, and whose vertices list their edges, can break the graph
   invariant: dropping them restores it.
   */
  lemma DanglingRemovedConsistent(g: Graph)
    requires Closed(g) && NoExcess(g) && Listed(g)
    ensures Consistent(RemoveDanglingBranches(g))
  {
    var r := RemoveDanglingBranches(g);
    forall e | e in r.edges
      ensures r.edges[e].v1 in r.vertices ==> e in r.vertices[r.edges[e].v1].branches
      ensures r.edges[e].v2 in r.vertices ==> e in r.vertices[r.edges[e].v2].branches
    {
      var v1, v2 := g.edges[e].v1, g.edges[e].v2;
      assert Count(g.vertices[v1].branches, e) > 0;
      assert Count(g.vertices[v2].branches, e) > 0;
    }
  }

  /**
   `clusterConnectingEdges.forEach(euclideanDistance)`: every listed edge
   gets as its length the distance `dist` between the points of its two
   endpoints; no endpoint changes.
   */
  function Measure(a: Graph, ids: set<EdgeId>, dist: (seq<Point>, seq<Point>) -> real): (r: Graph)
    requires Closed(a)
    ensures r.vertices == a.vertices && r.edges.Keys == a.edges.Keys
    ensures forall e | e in a.edges :: r.edges[e].v1 == a.edges[e].v1 && r.edges[e].v2 == a.edges[e].v2
    ensures forall e | e in a.edges && e in ids ::
      r.edges[e].length == dist(a.vertices[a.edges[e].v1].points, a.vertices[a.edges[e].v2].points)
    ensures forall e | e in a.edges && e !in ids :: r.edges[e] == a.edges[e]
  {
    var edges := map e | e in a.edges ::
      var n := a.edges[e];
      if e in ids then Edge(n.v1, n.v2, dist(a.vertices[n.v1].points, a.vertices[n.v2].points)) else n;
    Graph(a.vertices, edges)
  }

  /** The objects `createCleanGraph` reaches from its arguments all exist. */
  ghost predicate Refers(g: Graph, centres: set<VertexId>, objs: Graph, repl: map<EdgeId, EdgeId>) {
    && Closed(g) && Closed(objs)
    && g.vertices.Keys <= objs.vertices.Keys && centres <= objs.vertices.Keys
    && repl.Values <= objs.edges.Keys
  }

  /** `nonClusterEdges`: the graph's edges that were not replaced and lie inside no cluster. */
  function NonClusterEdges(g: Graph, cs: seq<set<VertexId>>, repl: map<EdgeId, EdgeId>): set<EdgeId> {
    set e | e in g.edges && e !in repl && IsNotInClusters(g.edges[e], cs)
  }

  /** The vertex ids `createCleanGraph` adds, each once (`Graph.addVertex` skips duplicates). */
  function CleanVertexIds(g: Graph, cs: seq<set<VertexId>>, centres: set<VertexId>, objs: Graph, repl: map<EdgeId, EdgeId>): set<VertexId> {
    centres
    + Endpoints(g.edges, NonClusterEdges(g, cs, repl))
    + Endpoints(objs.edges, repl.Values)
    + LonelyVertices(g)
  }

  /** Every vertex the clean graph gets exists. */
  lemma CleanVertexIdsExist(g: Graph, cs: seq<set<VertexId>>, centres: set<VertexId>, objs: Graph, repl: map<EdgeId, EdgeId>)
    requires Refers(g, centres, objs, repl)
    ensures CleanVertexIds(g, cs, centres, objs, repl) <= objs.vertices.Keys
  {
    forall v | v in Endpoints(g.edges, NonClusterEdges(g, cs, repl))
      ensures v in g.vertices
    {
      var e := EndpointOf(g.edges, NonClusterEdges(g, cs, repl), v);
    }
    forall v | v in Endpoints(objs.edges, repl.Values)
      ensures v in objs.vertices
    {
      var e := EndpointOf(objs.edges, repl.Values, v);
    }
  }

  /** The edges `createCleanGraph` collects: the non-cluster edges of the graph and the replacement edges. */
  function CollectedEdges(g: Graph, cs: seq<set<VertexId>>, objs: Graph, repl: map<EdgeId, EdgeId>): (r: map<EdgeId, Edge>)
    requires repl.Values <= objs.edges.Keys
    ensures forall e :: e in r <==> e in NonClusterEdges(g, cs, repl) || e in repl.Values
    ensures forall e | e in repl.Values :: r[e] == objs.edges[e]
    ensures forall e | e in r && e !in repl.Values :: e in g.edges && r[e] == g.edges[e]
  {
    (map e | e in NonClusterEdges(g, cs, repl) :: g.edges[e]) + (map e | e in repl.Values :: objs.edges[e])
  }

  /**
   The graph `createCleanGraph` collects before dropping dangling branches:
   the collected edges, and as vertices the centres, the endpoints of those
   edges and the graph's vertices without branches, each with its branch
   list as the rewiring left it.
   */
  function Collected(g: Graph, cs: seq<set<VertexId>>, centres: set<VertexId>, objs: Graph, repl: map<EdgeId, EdgeId>): (r: Graph)
    requires Refers(g, centres, objs, repl)
    ensures r.vertices.Keys == CleanVertexIds(g, cs, centres, objs, repl)
    ensures forall v | v in r.vertices :: v in objs.vertices && r.vertices[v] == objs.vertices[v]
    ensures r.edges == CollectedEdges(g, cs, objs, repl)
  {
    var ids := CleanVertexIds(g, cs, centres, objs, repl);
    CleanVertexIdsExist(g, cs, centres, objs, repl);
    Graph(map v | v in ids :: objs.vertices[v], CollectedEdges(g, cs, objs, repl))
  }

  /** `createCleanGraph`: the collected graph, less the branches that are not its edges. */
  function CreateCleanGraph(g: Graph, cs: seq<set<VertexId>>, centres: set<VertexId>, objs: Graph, repl: map<EdgeId, EdgeId>): Graph
    requires Refers(g, centres, objs, repl)
  {
    RemoveDanglingBranches(Collected(g, cs, centres, objs, repl))
  }
}
