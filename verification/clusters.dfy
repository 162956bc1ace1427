/**
 Cluster discovery (`findClusterVertices`, `findClusters`): the vertices on
 short edges, split into the clusters that `fillCluster` grows from them.
 */
module Clusters {
  import opened Seqs
  import opened Graphs
  import opened DeadEnds
  import opened Filling

  /** `v` is an endpoint of a short edge. */
  predicate OnShortEdge(g: Graph, tolerance: real, v: VertexId) {
    exists e | e in g.edges :: IsShort(g.edges[e], tolerance) && Slots(g.edges[e], v) > 0
  }

  /** `findClusterVertices`: the endpoints of the short edges. */
  function ShortVertices(g: Graph, tolerance: real): (r: set<VertexId>)
    ensures forall v :: v in r <==> v in g.vertices && OnShortEdge(g, tolerance, v)
  {
    set v | v in g.vertices && OnShortEdge(g, tolerance, v)
  }

  /** The short-edge endpoints are closed under short neighbours. */
  lemma ShortVerticesClosed(g: Graph, tolerance: real)
    requires Closed(g)
    ensures ShortClosed(g, tolerance, ShortVertices(g, tolerance))
  {
    forall w, x | w in ShortVertices(g, tolerance) && x in ShortNeighbours(g, tolerance, w)
      ensures x in ShortVertices(g, tolerance)
    {
      var e :| e in g.vertices[w].branches && e in g.edges && IsShort(g.edges[e], tolerance)
        && Opposite(g.edges[e], w) == x;
      assert Slots(g.edges[e], x) > 0;
    }
  }

  /**
   The loop of `findClusters` over the remaining candidates: grow the cluster
   of the first candidate, record it, and drop its members from the
   candidates.
   */
  function FindClustersFrom(g: Graph, tolerance: real, pool: seq<VertexId>): (r: seq<set<VertexId>>)
    requires Closed(g) && Elems(pool) <= g.vertices.Keys
    ensures |r| <= |pool|
    ensures forall i | 0 <= i < |r| :: r[i] <= g.vertices.Keys
    decreases |pool|
  {
    if pool == [] then []
    else
      assert pool[0] in Elems(pool);
      var c := Fill(g, tolerance, pool[0]);
      var rest := Filter(pool, x => x !in c);
      assert Elems(rest) <= Elems(pool);
      var tail := FindClustersFrom(g, tolerance, rest);
      SubsetsCons(c, tail, g.vertices.Keys);
      [c] + tail
  }

  lemma SubsetsCons(c: set<VertexId>, tail: seq<set<VertexId>>, keys: set<VertexId>)
    requires c <= keys
    requires forall i | 0 <= i < |tail| :: tail[i] <= keys
    ensures forall i | 0 <= i < |[c] + tail| :: ([c] + tail)[i] <= keys
  {
    forall i | 1 <= i < |[c] + tail|
      ensures ([c] + tail)[i] <= keys
    {
      assert ([c] + tail)[i] == tail[i - 1];
    }
  }

  /** `findClusters`: the clusters grown from the short-edge endpoints. */
  function FindClusters(g: Graph, tolerance: real): (r: seq<set<VertexId>>)
    requires Closed(g)
    ensures forall i | 0 <= i < |r| :: r[i] <= g.vertices.Keys
  {
    FindClustersFrom(g, tolerance, Enumerate(ShortVertices(g, tolerance)))
  }

  /** `v` lies in one of the clusters. */
  ghost predicate InSome(cs: seq<set<VertexId>>, v: VertexId) {
    exists i | 0 <= i < |cs| :: v in cs[i]
  }

  lemma InSomeCons(c: set<VertexId>, tail: seq<set<VertexId>>, v: VertexId)
    ensures InSome([c] + tail, v) <==> v in c || InSome(tail, v)
  {
    var r := [c] + tail;
    if InSome(r, v) {
      var i :| 0 <= i < |r| && v in r[i];
      if i > 0 {
        assert v in tail[i - 1];
      }
    }
    if InSome(tail, v) {
      var j :| 0 <= j < |tail| && v in tail[j];
      assert v in r[j + 1];
    }
    if v in c {
      assert v in r[0];
    }
  }

  /** One step of the candidate loop: the first cluster and what is left. */
  lemma PoolStep(g: Graph, tolerance: real, pool: seq<VertexId>)
    requires Consistent(g) && pool != []
    requires ShortClosed(g, tolerance, Elems(pool))
    ensures pool[0] in g.vertices
    ensures Fill(g, tolerance, pool[0]) <= Elems(pool)
    ensures Elems(Filter(pool, x => x !in Fill(g, tolerance, pool[0]))) == Elems(pool) - Fill(g, tolerance, pool[0])
    ensures ShortClosed(g, tolerance, Elems(pool) - Fill(g, tolerance, pool[0]))
    ensures FindClustersFrom(g, tolerance, pool) ==
      [Fill(g, tolerance, pool[0])] + FindClustersFrom(g, tolerance, Filter(pool, x => x !in Fill(g, tolerance, pool[0])))
  {
    assert pool[0] in Elems(pool);
    var c := Fill(g, tolerance, pool[0]);
    FillLeast(g, tolerance, pool[0], Elems(pool));
    DifferenceClosed(g, tolerance, Elems(pool), c);
  }

  /** The clusters found from a union of clusters cover exactly that union. */
  lemma {:induction false} ClustersCover(g: Graph, tolerance: real, pool: seq<VertexId>)
    requires Consistent(g)
    requires ShortClosed(g, tolerance, Elems(pool))
    ensures forall v :: InSome(FindClustersFrom(g, tolerance, pool), v) <==> v in Elems(pool)
    decreases |pool|
  {
    if pool != [] {
      PoolStep(g, tolerance, pool);
      var c := Fill(g, tolerance, pool[0]);
      var rest := Filter(pool, x => x !in c);
      ClustersCover(g, tolerance, rest);
      var tail := FindClustersFrom(g, tolerance, rest);
      forall v
        ensures InSome(FindClustersFrom(g, tolerance, pool), v) <==> v in Elems(pool)
      {
        InSomeCons(c, tail, v);
      }
    }
  }

  /** No two clusters share a vertex. */
  ghost predicate PairwiseDisjoint(cs: seq<set<VertexId>>) {
    forall i, j | 0 <= i < j < |cs| :: cs[i] * cs[j] == {}
  }

  lemma DisjointCons(c: set<VertexId>, tail: seq<set<VertexId>>)
    requires PairwiseDisjoint(tail)
    requires forall k | 0 <= k < |tail| :: c * tail[k] == {}
    ensures PairwiseDisjoint([c] + tail)
  {
    var r := [c] + tail;
    forall i, j | 0 <= i < j < |r|
      ensures r[i] * r[j] == {}
    {
      assert r[j] == tail[j - 1];
      if i > 0 {
        assert r[i] == tail[i - 1];
      }
    }
  }

  /** The clusters found from a union of clusters are pairwise disjoint. */
  lemma {:induction false} ClustersDisjoint(g: Graph, tolerance: real, pool: seq<VertexId>)
    requires Consistent(g)
    requires ShortClosed(g, tolerance, Elems(pool))
    ensures PairwiseDisjoint(FindClustersFrom(g, tolerance, pool))
    decreases |pool|
  {
    if pool != [] {
      PoolStep(g, tolerance, pool);
      var c := Fill(g, tolerance, pool[0]);
      var rest := Filter(pool, x => x !in c);
      ClustersDisjoint(g, tolerance, rest);
      ClustersCover(g, tolerance, rest);
      var tail := FindClustersFrom(g, tolerance, rest);
      forall k, x | 0 <= k < |tail| && x in tail[k]
        ensures x !in c
      {
        assert InSome(tail, x);
      }
      DisjointCons(c, tail);
    }
  }

  /** No cluster found is empty: each holds the candidate it was grown from. */
  lemma {:induction false} ClustersNonEmpty(g: Graph, tolerance: real, pool: seq<VertexId>)
    requires Consistent(g)
    requires ShortClosed(g, tolerance, Elems(pool))
    ensures forall i | 0 <= i < |FindClustersFrom(g, tolerance, pool)| :: FindClustersFrom(g, tolerance, pool)[i] != {}
    decreases |pool|
  {
    if pool != [] {
      PoolStep(g, tolerance, pool);
      var c := Fill(g, tolerance, pool[0]);
      var rest := Filter(pool, x => x !in c);
      ClustersNonEmpty(g, tolerance, rest);
      NonEmptyCons(c, FindClustersFrom(g, tolerance, rest));
    }
  }

  lemma NonEmptyCons(c: set<VertexId>, tail: seq<set<VertexId>>)
    requires c != {}
    requires forall i | 0 <= i < |tail| :: tail[i] != {}
    ensures forall i | 0 <= i < |[c] + tail| :: ([c] + tail)[i] != {}
  {
    forall i | 1 <= i < |[c] + tail|
      ensures ([c] + tail)[i] != {}
    {
      assert ([c] + tail)[i] == tail[i - 1];
    }
  }

  /** Every cluster is the cluster grown from any of its members. */
  ghost predicate GrownFromEachMember(g: Graph, tolerance: real, cs: seq<set<VertexId>>)
    requires Closed(g)
  {
    forall i, v | 0 <= i < |cs| && v in cs[i] :: v in g.vertices && Fill(g, tolerance, v) == cs[i]
  }

  lemma GrownCons(g: Graph, tolerance: real, c: set<VertexId>, tail: seq<set<VertexId>>)
    requires Closed(g)
    requires GrownFromEachMember(g, tolerance, tail)
    requires forall v | v in c :: v in g.vertices && Fill(g, tolerance, v) == c
    ensures GrownFromEachMember(g, tolerance, [c] + tail)
  {
    var r := [c] + tail;
    forall i, v | 0 <= i < |r| && v in r[i]
      ensures v in g.vertices && Fill(g, tolerance, v) == r[i]
    {
      if i > 0 {
        assert r[i] == tail[i - 1];
      }
    }
  }

  /** Each cluster found is the cluster of each of its members: a connected component of short edges. */
  lemma {:induction false} ClustersGrown(g: Graph, tolerance: real, pool: seq<VertexId>)
    requires Consistent(g)
    requires ShortClosed(g, tolerance, Elems(pool))
    ensures GrownFromEachMember(g, tolerance, FindClustersFrom(g, tolerance, pool))
    decreases |pool|
  {
    if pool != [] {
      PoolStep(g, tolerance, pool);
      var c := Fill(g, tolerance, pool[0]);
      var rest := Filter(pool, x => x !in c);
      ClustersGrown(g, tolerance, rest);
      forall v | v in c
        ensures v in g.vertices && Fill(g, tolerance, v) == c
      {
        FillSame(g, tolerance, v, pool[0]);
      }
      GrownCons(g, tolerance, c, FindClustersFrom(g, tolerance, rest));
    }
  }

  /** A short edge at a short-edge endpoint. */
  lemma ShortEdgeAt(g: Graph, tolerance: real, v: VertexId) returns (e: EdgeId)
    requires v in ShortVertices(g, tolerance)
    ensures e in g.edges && IsShort(g.edges[e], tolerance) && Slots(g.edges[e], v) > 0
  {
    e :| e in g.edges && IsShort(g.edges[e], tolerance) && Slots(g.edges[e], v) > 0;
  }

  /** The far end of a listed short edge is a short neighbour. */
  lemma NeighbourVia(g: Graph, tolerance: real, v: VertexId, e: EdgeId)
    requires v in g.vertices && e in g.vertices[v].branches && e in g.edges && IsShort(g.edges[e], tolerance)
    ensures Opposite(g.edges[e], v) in ShortNeighbours(g, tolerance, v)
  {
  }

  /** Without loops, a short-edge endpoint has a short neighbour other than itself. */
  lemma OtherShortNeighbour(g: Graph, tolerance: real, v: VertexId) returns (x: VertexId)
    requires Listed(g) && LoopFree(g)
    requires v in ShortVertices(g, tolerance)
    ensures x != v && x in ShortNeighbours(g, tolerance, v)
  {
    var e := ShortEdgeAt(g, tolerance, v);
    assert e in g.vertices[v].branches;
    NeighbourVia(g, tolerance, v, e);
    x := Opposite(g.edges[e], v);
    assert !IsLoop(g.edges[e]);
  }

  lemma TwoMembers(f: set<VertexId>, v: VertexId, x: VertexId)
    requires v != x && v in f && x in f
    ensures |f| >= 2
  {
    assert x in f - {v};
    assert f == (f - {v}) + {v};
  }

  /** Without loops, the cluster of a short-edge endpoint has at least two vertices. */
  lemma FillOfShortVertex(g: Graph, tolerance: real, v: VertexId)
    requires Consistent(g) && LoopFree(g)
    requires v in ShortVertices(g, tolerance)
    ensures |Fill(g, tolerance, v)| >= 2
  {
    var x := OtherShortNeighbour(g, tolerance, v);
    TwoMembers(Fill(g, tolerance, v), v, x);
  }

  /** A cluster grown from a member of a short-closed pool has at least two vertices when loops are gone. */
  lemma {:induction false} ClustersAtLeastTwo(g: Graph, tolerance: real, cs: seq<set<VertexId>>)
    requires Consistent(g) && LoopFree(g)
    requires GrownFromEachMember(g, tolerance, cs)
    requires forall v | InSome(cs, v) :: v in ShortVertices(g, tolerance)
    requires forall i | 0 <= i < |cs| :: cs[i] != {}
    ensures forall i | 0 <= i < |cs| :: |cs[i]| >= 2
  {
    forall i | 0 <= i < |cs|
      ensures |cs[i]| >= 2
    {
      var v :| v in cs[i];
      assert InSome(cs, v);
      FillOfShortVertex(g, tolerance, v);
    }
  }

  /**
   The clusters of `findClusters` partition the short-edge endpoints: every
   endpoint is in one cluster, no two clusters meet, each cluster is the set
   reachable along short edges from any of its members, and, without loops,
   each has at least two vertices.
   */
  lemma FindClustersPartition(g: Graph, tolerance: real)
    requires Consistent(g)
    ensures forall v :: InSome(FindClusters(g, tolerance), v) <==> v in ShortVertices(g, tolerance)
    ensures PairwiseDisjoint(FindClusters(g, tolerance))
    ensures GrownFromEachMember(g, tolerance, FindClusters(g, tolerance))
    ensures LoopFree(g) ==> forall i | 0 <= i < |FindClusters(g, tolerance)| :: |FindClusters(g, tolerance)[i]| >= 2
  {
    var pool := Enumerate(ShortVertices(g, tolerance));
    assert Elems(pool) == ShortVertices(g, tolerance);
    ShortVerticesClosed(g, tolerance);
    ClustersCover(g, tolerance, pool);
    ClustersDisjoint(g, tolerance, pool);
    ClustersGrown(g, tolerance, pool);
    if LoopFree(g) {
      ClustersNonEmpty(g, tolerance, pool);
      var cs := FindClustersFrom(g, tolerance, pool);
      ClustersAtLeastTwo(g, tolerance, cs);
    }
  }
}
