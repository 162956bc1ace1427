/**
 The state the replacement loops of `cleaningStep` start from: the graph's
 vertices and edges, plus one new vertex per cluster (`getClusterCentre`,
 collected into `clusterCentres`), and an empty replacement map.
 */
module Initial {
  import opened Seqs
  import opened Graphs
  import opened Centres
  import opened Quotient
  import opened Replacement
  import opened Rewiring

  /** The centre of cluster `i`, under the id `base + i`, for every cluster in turn. */
  function CentreMap(vs: map<VertexId, Vertex>, cs: seq<set<VertexId>>, base: nat): (m: map<VertexId, Vertex>)
    requires forall i | 0 <= i < |cs| :: cs[i] <= vs.Keys
    ensures m.Keys == CentreIds(base, |cs|)
    ensures forall c | c in m :: m[c].branches == [] && |m[c].points| == 1
    decreases |cs|
  {
    if cs == [] then map[]
    else
      var earlier := CentreMap(vs, cs[..|cs| - 1], base);
      var last := ClusterCentre(vs, cs[|cs| - 1]);
      assert CentreIds(base, |cs|) == CentreIds(base, |cs| - 1) + {base + |cs| - 1};
      earlier[base + |cs| - 1 := last]
  }

  /** The last cluster's centre is the one `getClusterCentre` makes. */
  lemma CentreLast(vs: map<VertexId, Vertex>, cs: seq<set<VertexId>>, base: nat)
    requires forall j | 0 <= j < |cs| :: cs[j] <= vs.Keys
    requires cs != []
    ensures base + |cs| - 1 in CentreMap(vs, cs, base)
    ensures CentreMap(vs, cs, base)[base + |cs| - 1].points == ClusterCentre(vs, cs[|cs| - 1]).points
  {
  }

  /** Adding the last cluster's centre leaves the earlier centres as they were. */
  lemma CentreKept(vs: map<VertexId, Vertex>, cs: seq<set<VertexId>>, base: nat, i: nat)
    requires forall j | 0 <= j < |cs| :: cs[j] <= vs.Keys
    requires i < |cs| - 1
    ensures base + i in CentreMap(vs, cs[..|cs| - 1], base)
    ensures CentreMap(vs, cs, base)[base + i] == CentreMap(vs, cs[..|cs| - 1], base)[base + i]
  {
  }

  /** The centre of cluster `i` is the one `getClusterCentre` makes. */
  lemma {:induction false} CentreAt(vs: map<VertexId, Vertex>, cs: seq<set<VertexId>>, base: nat, i: nat)
    requires forall j | 0 <= j < |cs| :: cs[j] <= vs.Keys
    requires i < |cs|
    ensures base + i in CentreMap(vs, cs, base) && CentreMap(vs, cs, base)[base + i].points == ClusterCentre(vs, cs[i]).points
    decreases |cs|
  {
    if i < |cs| - 1 {
      var init := cs[..|cs| - 1];
      assert init[i] == cs[i];
      CentreAt(vs, init, base, i);
      CentreKept(vs, cs, base, i);
    } else {
      CentreLast(vs, cs, base);
    }
  }

  /** Next to vertices below `base`, the centre of cluster `i` is the one `getClusterCentre` makes. */
  lemma MergedCentre(vs: map<VertexId, Vertex>, cs: seq<set<VertexId>>, base: nat, i: nat)
    requires forall j | 0 <= j < |cs| :: cs[j] <= vs.Keys
    requires i < |cs| && base + i !in vs
    ensures base + i in vs + CentreMap(vs, cs, base)
    ensures (vs + CentreMap(vs, cs, base))[base + i].points == ClusterCentre(vs, cs[i]).points
  {
    CentreAt(vs, cs, base, i);
  }

  /**
   The starting vertices of the frame are the graph's, as they were, and one
   centre per cluster, without branches and at the point `getClusterCentre`
   computes.
   */
  ghost predicate Started(f: Frame) {
    StartedFrom(f.g.vertices, f.cs, f.base, f.start)
  }

  /** `start` holds `vs`, as they were, and the centres of the clusters `cs` under the ids from `base` on. */
  ghost predicate StartedFrom(vs: map<VertexId, Vertex>, cs: seq<set<VertexId>>, base: nat, start: map<VertexId, Vertex>) {
    && (forall i | 0 <= i < |cs| :: cs[i] <= vs.Keys)
    && start.Keys == vs.Keys + CentreIds(base, |cs|)
    && KeepsOld(vs, start)
    && BareNew(vs, start)
    && CentresAt(vs, cs, base, start)
  }

  /** Every vertex of `vs` is in `start` with its record unchanged. */
  ghost predicate KeepsOld(vs: map<VertexId, Vertex>, start: map<VertexId, Vertex>) {
    forall v | v in vs :: v in start && start[v] == vs[v]
  }

  /** Every vertex of `start` that is not in `vs` has no branches. */
  ghost predicate BareNew(vs: map<VertexId, Vertex>, start: map<VertexId, Vertex>) {
    forall v | v in start && v !in vs :: start[v].branches == []
  }

  /** The vertex `base + i` of `start` has the point `getClusterCentre` computes for cluster `i`. */
  ghost predicate CentresAt(vs: map<VertexId, Vertex>, cs: seq<set<VertexId>>, base: nat, start: map<VertexId, Vertex>)
    requires forall i | 0 <= i < |cs| :: cs[i] <= vs.Keys
  {
    forall i | 0 <= i < |cs| :: base + i in start && start[base + i].points == ClusterCentre(vs, cs[i]).points
  }

  /** Nothing rewired yet: the starting vertices, the graph's edges, no replacements. */
  function StartWork(f: Frame): Work {
    Work(Graph(f.start, f.g.edges), map[], f.ebase)
  }

  /** Merged with the centres, the vertices are those of `vs` and the centre ids. */
  lemma MergeKeys(vs: map<VertexId, Vertex>, cs: seq<set<VertexId>>, base: nat)
    requires forall i | 0 <= i < |cs| :: cs[i] <= vs.Keys
    ensures (vs + CentreMap(vs, cs, base)).Keys == vs.Keys + CentreIds(base, |cs|)
  {
  }

  /** Merged below the centres, every vertex of `vs` keeps its record. */
  lemma MergeKeepsOld(vs: map<VertexId, Vertex>, cs: seq<set<VertexId>>, base: nat)
    requires forall i | 0 <= i < |cs| :: cs[i] <= vs.Keys
    requires forall v | v in vs :: v < base
    ensures KeepsOld(vs, vs + CentreMap(vs, cs, base))
  {
    var m := CentreMap(vs, cs, base);
    forall v | v in vs
      ensures (vs + m)[v] == vs[v]
    {
      assert v !in m;
    }
  }

  /** Every merged vertex that is not in `vs` is a centre, so it has no branches. */
  lemma MergeCentresBare(vs: map<VertexId, Vertex>, cs: seq<set<VertexId>>, base: nat)
    requires forall i | 0 <= i < |cs| :: cs[i] <= vs.Keys
    ensures BareNew(vs, vs + CentreMap(vs, cs, base))
  {
    var m := CentreMap(vs, cs, base);
    forall v | v in vs + m && v !in vs
      ensures (vs + m)[v].branches == []
    {
      assert v in m;
    }
  }

  /** Merged above `vs`, every centre is the one `getClusterCentre` makes. */
  lemma {:induction false} MergeCentrePoints(vs: map<VertexId, Vertex>, cs: seq<set<VertexId>>, base: nat)
    requires forall i | 0 <= i < |cs| :: cs[i] <= vs.Keys
    requires forall v | v in vs :: v < base
    ensures CentresAt(vs, cs, base, vs + CentreMap(vs, cs, base))
  {
    var start := vs + CentreMap(vs, cs, base);
    forall i | 0 <= i < |cs|
      ensures base + i in start && start[base + i].points == ClusterCentre(vs, cs[i]).points
    {
      MergedCentre(vs, cs, base, i);
    }
  }

  /** The graph's vertices merged with the centres, all above the graph's ids, make a valid start. */
  lemma MergeStarted(vs: map<VertexId, Vertex>, cs: seq<set<VertexId>>, base: nat)
    requires forall i | 0 <= i < |cs| :: cs[i] <= vs.Keys
    requires forall v | v in vs :: v < base
    ensures StartedFrom(vs, cs, base, vs + CentreMap(vs, cs, base))
  {
    MergeKeys(vs, cs, base);
    MergeKeepsOld(vs, cs, base);
    MergeCentresBare(vs, cs, base);
    MergeCentrePoints(vs, cs, base);
  }

  /** The starting arena keeps the graph invariant: centres have no branches and no edge touches them. */
  lemma StartConsistent(f: Frame)
    requires Setup(f) && Started(f)
    ensures Consistent(StartWork(f).arena) && LoopFree(StartWork(f).arena)
  {
    var a := StartWork(f).arena;
    forall v, e | v in a.vertices && e in a.vertices[v].branches
      ensures e in a.edges
    {
      assert v in f.g.vertices;
    }
    forall v, e | v in a.vertices && e in a.edges
      ensures Count(a.vertices[v].branches, e) <= Slots(a.edges[e], v)
    {
      if v !in f.g.vertices {
        assert a.vertices[v].branches == [];
      }
    }
  }

  /** Every edge of the graph is its own original. */
  lemma StartImages(f: Frame)
    ensures Images(f, StartWork(f))
  {
    forall n | n in f.g.edges
      ensures FromOriginal(f, f.g.edges[n])
    {
      assert SameImage(f, f.g.edges[n], f.g.edges[n]);
    }
  }

  /** Before any cluster is collapsed the loop invariant holds. */
  lemma StartBetween(f: Frame)
    requires Setup(f) && Started(f)
    ensures Between(f, StartWork(f), 0)
  {
    StartConsistent(f);
    StartImages(f);
  }
}
