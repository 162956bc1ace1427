/** Parallel-edge removal (`removeParallelEdges`). */
module Parallel {
  import opened Seqs
  import opened Graphs
  import opened PairKeys

  /** The keys of the first `j` edges of the iteration order: the `connections` set after `j` steps. */
  ghost function Seen(g: Graph, ids: map<VertexId, nat>, order: seq<EdgeId>, j: nat): set<int>
    requires j <= |order|
    requires forall e | e in order :: e in g.edges
    requires forall e | e in order :: g.edges[e].v1 in ids && g.edges[e].v2 in ids
  {
    if j == 0 then {} else Seen(g, ids, order, j - 1) + {ConnectionHash(g.edges[order[j - 1]], ids)}
  }

  lemma {:induction false} SeenMembers(g: Graph, ids: map<VertexId, nat>, order: seq<EdgeId>, j: nat, h: int)
    requires j <= |order|
    requires forall e | e in order :: e in g.edges
    requires forall e | e in order :: g.edges[e].v1 in ids && g.edges[e].v2 in ids
    ensures h in Seen(g, ids, order, j) <==> exists k | 0 <= k < j :: ConnectionHash(g.edges[order[k]], ids) == h
  {
    if j > 0 {
      SeenMembers(g, ids, order, j - 1, h);
    }
  }

  /** Some edge before position `j` of the walk has the same key as the edge at `j`. */
  ghost predicate KeySeenBefore(g: Graph, ids: map<VertexId, nat>, order: seq<EdgeId>, j: nat)
    requires j < |order|
    requires forall e | e in order :: e in g.edges
    requires forall e | e in order :: g.edges[e].v1 in ids && g.edges[e].v2 in ids
  {
    exists k | 0 <= k < j :: ConnectionHash(g.edges[order[k]], ids) == ConnectionHash(g.edges[order[j]], ids)
  }

  /** The edge at position `j` of the walk was collected. */
  ghost predicate Collected(parallel: seq<EdgeId>, order: seq<EdgeId>, j: nat)
    requires j < |order|
  {
    order[j] in parallel
  }

  /** Some edge before position `k` of the walk joins the same pair as the edge at `k`. */
  ghost predicate HasEarlierTwin(g: Graph, order: seq<EdgeId>, k: nat)
    requires forall e | e in order :: e in g.edges
    requires k < |order|
  {
    exists j | 0 <= j < k :: SamePair(g.edges[order[j]], g.edges[order[k]])
  }

  /** The edge at position `k` of the walk is not in `r`. */
  ghost predicate Dropped(r: Graph, order: seq<EdgeId>, k: nat)
    requires k < |order|
  {
    order[k] !in r.edges
  }

  /**
   Walking `order`, an edge is missing from `r` exactly when an earlier edge
   of the walk joins the same pair: the first edge of each pair is kept.
   */
  ghost predicate FirstOfEachPair(g: Graph, r: Graph, order: seq<EdgeId>) {
    && (forall e | e in order :: e in g.edges)
    && (forall k | 0 <= k < |order| :: Dropped(r, order, k) <==> HasEarlierTwin(g, order, k))
  }

  /** `SamePair` is an equivalence on edges. */
  lemma SamePairEquivalence(a: Edge, b: Edge, c: Edge)
    ensures SamePair(a, a)
    ensures SamePair(a, b) ==> SamePair(b, a)
    ensures SamePair(a, b) && SamePair(b, c) ==> SamePair(a, c)
  {
  }

  /**
   If the edges dropped from an iteration order are exactly those joining the
   same pair as some earlier edge, then each edge of the order has a kept edge
   joining its pair no later than itself.
   */
  lemma {:induction false} KeptRepresentative(g: Graph, r: Graph, order: seq<EdgeId>, i: nat)
    requires FirstOfEachPair(g, r, order)
    requires i < |order|
    ensures exists j | 0 <= j <= i :: order[j] in r.edges && SamePair(g.edges[order[j]], g.edges[order[i]])
    decreases i
  {
    if !Dropped(r, order, i) {
      SamePairEquivalence(g.edges[order[i]], g.edges[order[i]], g.edges[order[i]]);
    } else {
      assert HasEarlierTwin(g, order, i);
      var j :| 0 <= j < i && SamePair(g.edges[order[j]], g.edges[order[i]]);
      KeptRepresentative(g, r, order, j);
      var k :| 0 <= k <= j && order[k] in r.edges && SamePair(g.edges[order[k]], g.edges[order[j]]);
      SamePairEquivalence(g.edges[order[k]], g.edges[order[j]], g.edges[order[i]]);
    }
  }

  /**
   The walk of `removeParallelEdges` over the edges: `connections.add(hash)`
   fails exactly for an edge whose key an earlier edge already had, and such
   an edge is collected.
   */
  method CollectParallel(g: Graph, ids: map<VertexId, nat>, order: seq<EdgeId>) returns (parallel: seq<EdgeId>)
    requires Distinct(order)
    requires forall e | e in order :: e in g.edges
    requires forall e | e in order :: g.edges[e].v1 in ids && g.edges[e].v2 in ids
    ensures Distinct(parallel)
    ensures forall x | x in parallel :: x in order
    ensures forall j | 0 <= j < |order| :: Collected(parallel, order, j) <==> KeySeenBefore(g, ids, order, j)
  {
    var connections: set<int> := {};
    parallel := [];
    var i := 0;
    while i < |order|
      invariant 0 <= i <= |order|
      invariant connections == Seen(g, ids, order, i)
      invariant forall j | 0 <= j < i :: Collected(parallel, order, j) <==> KeySeenBefore(g, ids, order, j)
      invariant forall j | i <= j < |order| :: order[j] !in parallel
      invariant forall x | x in parallel :: x in order
      invariant Distinct(parallel)
    {
      var e := order[i];
      var hash := ConnectionHash(g.edges[e], ids);
      SeenMembers(g, ids, order, i, hash);
      assert hash in connections <==> KeySeenBefore(g, ids, order, i);
      ghost var before := parallel;
      if hash in connections {
        DistinctAppend(parallel, e);
        parallel := parallel + [e];
      }
      forall j | 0 <= j < i
        ensures Collected(parallel, order, j) <==> Collected(before, order, j)
      {
      }
      connections := connections + {hash};
      i := i + 1;
    }
  }

  /** Under a dense numbering, an edge's key was seen before exactly when an earlier edge joins its pair. */
  lemma KeySeenIffEarlierTwin(g: Graph, ids: map<VertexId, nat>, order: seq<EdgeId>, k: nat)
    requires forall e | e in order :: e in g.edges
    requires forall e | e in order :: g.edges[e].v1 in ids && g.edges[e].v2 in ids
    requires Dense(ids)
    requires k < |order|
    ensures KeySeenBefore(g, ids, order, k) <==> HasEarlierTwin(g, order, k)
  {
    if KeySeenBefore(g, ids, order, k) {
      var j :| 0 <= j < k && ConnectionHash(g.edges[order[j]], ids) == ConnectionHash(g.edges[order[k]], ids);
      HashSamePair(g.edges[order[j]], g.edges[order[k]], ids);
    }
    if HasEarlierTwin(g, order, k) {
      var j :| 0 <= j < k && SamePair(g.edges[order[j]], g.edges[order[k]]);
      HashSamePair(g.edges[order[j]], g.edges[order[k]], ids);
    }
  }

  /** Every edge of the order has a kept edge joining its pair. */
  lemma EveryPairKept(g: Graph, r: Graph, order: seq<EdgeId>)
    requires forall e :: e in order <==> e in g.edges
    requires forall e | e in r.edges :: e in g.edges && r.edges[e] == g.edges[e]
    requires FirstOfEachPair(g, r, order)
    ensures forall e | e in g.edges :: exists k | k in r.edges :: SamePair(r.edges[k], g.edges[e])
  {
    forall e | e in g.edges
      ensures exists k | k in r.edges :: SamePair(r.edges[k], g.edges[e])
    {
      var i :| 0 <= i < |order| && order[i] == e;
      KeptRepresentative(g, r, order, i);
      var j :| 0 <= j <= i && order[j] in r.edges && SamePair(g.edges[order[j]], g.edges[order[i]]);
      assert r.edges[order[j]] == g.edges[order[j]];
    }
  }

  /** Dropping every edge that has an earlier twin leaves at most one edge per pair. */
  lemma FirstOfEachPairOnly(g: Graph, r: Graph, order: seq<EdgeId>)
    requires forall e :: e in order <==> e in g.edges
    requires forall e | e in r.edges :: e in g.edges && r.edges[e] == g.edges[e]
    requires FirstOfEachPair(g, r, order)
    ensures NoParallel(r)
  {
    forall a, b | a in r.edges && b in r.edges && a != b
      ensures !SamePair(r.edges[a], r.edges[b])
    {
      var ia :| 0 <= ia < |order| && order[ia] == a;
      var ib :| 0 <= ib < |order| && order[ib] == b;
      if ia < ib {
        assert !Dropped(r, order, ib);
        assert !HasEarlierTwin(g, order, ib);
      } else {
        assert !Dropped(r, order, ia);
        assert !HasEarlierTwin(g, order, ia);
        SamePairEquivalence(g.edges[a], g.edges[b], g.edges[a]);
      }
    }
  }

  /** Removing the collected edges drops exactly the edges with an earlier twin. */
  lemma DroppedIffEarlierTwin(g: Graph, ids: map<VertexId, nat>, order: seq<EdgeId>, parallel: seq<EdgeId>, r: Graph)
    requires forall e | e in order :: e in g.edges
    requires forall e | e in order :: g.edges[e].v1 in ids && g.edges[e].v2 in ids
    requires Dense(ids)
    requires forall j | 0 <= j < |order| :: Collected(parallel, order, j) <==> KeySeenBefore(g, ids, order, j)
    requires forall e :: e in r.edges <==> e in g.edges && e !in parallel
    ensures FirstOfEachPair(g, r, order)
  {
    forall k | 0 <= k < |order|
      ensures Dropped(r, order, k) <==> HasEarlierTwin(g, order, k)
    {
      KeySeenIffEarlierTwin(g, ids, order, k);
      assert Dropped(r, order, k) <==> Collected(parallel, order, k);
    }
  }

  /**
   Numbers the vertices along `vertexOrder`, walks the edges along
   `edgeOrder` remembering each pair key, collects every edge whose key was
   already seen, then detaches and drops the collected edges. The orders stand
   for the iteration orders of the Java lists; which edge of a parallel bundle
   survives depends on them, the resulting connectivity does not.
   */
  method RemoveParallelEdges(g: Graph, vertexOrder: seq<VertexId>, edgeOrder: seq<EdgeId>) returns (r: Graph)
    requires Closed(g)
    requires Distinct(vertexOrder) && forall v :: v in vertexOrder <==> v in g.vertices
    requires Distinct(edgeOrder) && forall e :: e in edgeOrder <==> e in g.edges
    ensures forall v :: v in r.vertices <==> v in g.vertices
    ensures forall v | v in g.vertices :: r.vertices[v].points == g.vertices[v].points
    ensures forall e | e in r.edges :: e in g.edges && r.edges[e] == g.edges[e]
    ensures FirstOfEachPair(g, r, edgeOrder)
    ensures forall e | e in g.edges :: exists k | k in r.edges :: SamePair(r.edges[k], g.edges[e])
    ensures NoParallel(r)
    ensures NoExcess(g) ==> ClearedOf(g, r, g.edges.Keys - r.edges.Keys)
    ensures Consistent(g) ==> Consistent(r)
  {
    var ids := MapVertexIds(vertexOrder);
    var parallel := CollectParallel(g, ids, edgeOrder);
    r := RemoveEdges(g, parallel);
    DroppedIffEarlierTwin(g, ids, edgeOrder, parallel, r);
    EveryPairKept(g, r, edgeOrder);
    FirstOfEachPairOnly(g, r, edgeOrder);
    if NoExcess(g) {
      RemoveEdgesClearsMissing(g, parallel);
    }
  }
}
