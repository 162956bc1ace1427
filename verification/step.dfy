/**
 One cleaning step (`cleaningStep`): find the clusters of short edges,
 collapse each to a new centre vertex, measure the new edges and rebuild the
 graph from what is left.

 The lemmas here read the invariant of the replacement loops, once every
 cluster is collapsed, as facts about the clean graph.
 */
module Step {
  import opened Seqs
  import opened Graphs
  import opened Clusters
  import opened Centres
  import opened Quotient
  import opened Replacement
  import opened Rewiring
  import opened Collapsing
  import opened Initial
  import opened Cleaning

  /**
   The fixed data of the cleaning step of `g`: its clusters, the id of the
   first centre and of the first new edge (one above the largest id in use:
   fresh ids for the objects `createCleanGraph` creates), and the starting
   vertices.
   */
  function CleanFrame(g: Graph, tolerance: real): Frame
    requires Closed(g)
  {
    var cs := FindClusters(g, tolerance);
    var base := NextId(g.vertices.Keys);
    Frame(g, cs, base, NextId(g.edges.Keys), g.vertices + CentreMap(g.vertices, cs, base))
  }

  /** Every cluster member has a branch. */
  ghost predicate MembersBusy(f: Frame) {
    forall i, v | 0 <= i < |f.cs| && v in f.cs[i] :: v in f.g.vertices && f.g.vertices[v].branches != []
  }

  /** A vertex is outside every cluster exactly when it is on no short edge. */
  lemma OutsideShort(g: Graph, tolerance: real, v: VertexId)
    requires Consistent(g)
    ensures Outside(FindClusters(g, tolerance), |FindClusters(g, tolerance)|, v) <==> v !in ShortVertices(g, tolerance)
  {
    var cs := FindClusters(g, tolerance);
    FindClustersPartition(g, tolerance);
    OutsideIff(cs, |cs|, v);
    if InSome(cs, v) {
      var i :| 0 <= i < |cs| && v in cs[i];
    }
  }

  /** The clusters cover the short-edge endpoints and do not meet. */
  lemma ClustersCoverShort(g: Graph, tolerance: real)
    requires Consistent(g)
    ensures forall v :: InSome(FindClusters(g, tolerance), v) <==> v in ShortVertices(g, tolerance)
    ensures PairwiseDisjoint(FindClusters(g, tolerance))
  {
    FindClustersPartition(g, tolerance);
  }

  /** Clusters, centres and new edges of the frame are laid out as the replacement loops need. */
  lemma FrameLayout(g: Graph, tolerance: real)
    requires Consistent(g)
    ensures Layout(CleanFrame(g, tolerance))
  {
    var f := CleanFrame(g, tolerance);
    ClustersCoverShort(g, tolerance);
    forall i, v | 0 <= i < |f.cs| && v in f.cs[i]
      ensures v < f.base
    {
      assert v in g.vertices;
    }
  }

  /** A short-edge endpoint has a branch. */
  lemma ShortBusy(g: Graph, tolerance: real, v: VertexId)
    requires Consistent(g) && v in ShortVertices(g, tolerance)
    ensures v in g.vertices && g.vertices[v].branches != []
  {
    var e := ShortEdgeAt(g, tolerance, v);
    assert e in g.vertices[v].branches;
  }

  /** Every cluster member is on a short edge, so it has a branch. */
  lemma FrameBusy(g: Graph, tolerance: real)
    requires Consistent(g)
    ensures MembersBusy(CleanFrame(g, tolerance))
  {
    var cs := FindClusters(g, tolerance);
    ClustersCoverShort(g, tolerance);
    forall i, v | 0 <= i < |cs| && v in cs[i]
      ensures v in g.vertices && g.vertices[v].branches != []
    {
      assert InSome(cs, v);
      ShortBusy(g, tolerance, v);
    }
  }

  /** The frame of a consistent loop-free graph is a valid start for the replacement loops. */
  lemma FrameReady(g: Graph, tolerance: real)
    requires Consistent(g) && LoopFree(g)
    ensures Setup(CleanFrame(g, tolerance)) && Started(CleanFrame(g, tolerance))
    ensures MembersBusy(CleanFrame(g, tolerance))
  {
    FrameLayout(g, tolerance);
    FrameBusy(g, tolerance);
    MergeStarted(g.vertices, FindClusters(g, tolerance), NextId(g.vertices.Keys));
  }

  /** The edges the rewiring made, with their lengths measured. */
  function Measured(w: Work, dist: (seq<Point>, seq<Point>) -> real): Graph
    requires Closed(w.arena)
  {
    Measure(w.arena, w.repl.Values, dist)
  }

  /** Once all clusters are collapsed, everything the clean graph is built from exists. */
  lemma MeasuredRefers(f: Frame, w: Work, dist: (seq<Point>, seq<Point>) -> real)
    requires Consistent(f.g) && Between(f, w, |f.cs|)
    ensures Refers(f.g, CentreIds(f.base, |f.cs|), Measured(w, dist), w.repl)
  {
    var objs := Measured(w, dist);
    forall n | n in w.repl.Values
      ensures n in objs.edges
    {
      var o :| o in w.repl && w.repl[o] == n;
    }
  }

  /** `createCleanGraph` applied to the result of the replacement loops. */
  function Cleaned(f: Frame, w: Work, dist: (seq<Point>, seq<Point>) -> real): Graph
    requires Consistent(f.g) && Between(f, w, |f.cs|)
  {
    MeasuredRefers(f, w, dist);
    CreateCleanGraph(f.g, f.cs, CentreIds(f.base, |f.cs|), Measured(w, dist), w.repl)
  }

  /** The collected graph behind `Cleaned`. */
  function Raw(f: Frame, w: Work, dist: (seq<Point>, seq<Point>) -> real): Graph
    requires Consistent(f.g) && Between(f, w, |f.cs|)
  {
    MeasuredRefers(f, w, dist);
    Collected(f.g, f.cs, CentreIds(f.base, |f.cs|), Measured(w, dist), w.repl)
  }

  /** A graph edge has a replacement exactly when it has one end in some cluster. */
  lemma ReplacedIffCrosses(f: Frame, w: Work, e: EdgeId)
    requires Between(f, w, |f.cs|) && e in f.g.edges
    ensures e in w.repl <==> Crosses(f.cs, |f.cs|, f.g.edges[e])
  {
    if e in w.repl {
      assert w.repl[e] in w.arena.edges;
    }
  }

  /** No cluster holds both ends and none holds exactly one: no cluster holds either. */
  lemma NotInClustersIff(cs: seq<set<VertexId>>, e: Edge)
    ensures IsNotInClusters(e, cs) && !Crosses(cs, |cs|, e) <==> Outside(cs, |cs|, e.v1) && Outside(cs, |cs|, e.v2)
  {
    CrossesIff(cs, |cs|, e);
    OutsideIff(cs, |cs|, e.v1);
    OutsideIff(cs, |cs|, e.v2);
    if IsNotInClusters(e, cs) && !Crosses(cs, |cs|, e) {
      forall i | 0 <= i < |cs|
        ensures e.v1 !in cs[i] && e.v2 !in cs[i]
      {
        assert !OneEndIn(e, cs[i]);
      }
    }
  }

  /** A graph edge is kept as it is exactly when both its ends are outside every cluster. */
  lemma KeptIff(f: Frame, w: Work, e: EdgeId)
    requires Between(f, w, |f.cs|) && e in f.g.edges
    ensures e in NonClusterEdges(f.g, f.cs, w.repl) <==>
      Outside(f.cs, |f.cs|, f.g.edges[e].v1) && Outside(f.cs, |f.cs|, f.g.edges[e].v2)
  {
    ReplacedIffCrosses(f, w, e);
    NotInClustersIff(f.cs, f.g.edges[e]);
  }

  /** The current replacement of a key joins the representatives of the key's ends. */
  lemma ValueEnds(f: Frame, w: Work, o: EdgeId)
    requires Between(f, w, |f.cs|) && o in w.repl
    ensures o in w.arena.edges && w.repl[o] in w.arena.edges
    ensures RepEnds(f.cs, f.base, |f.cs|, w.arena.edges[o], w.arena.edges[w.repl[o]])
  {
  }

  /** A replacement edge is new, and both its ends lie outside every cluster. */
  lemma ValueOutside(f: Frame, w: Work, n: EdgeId)
    requires Layout(f) && Between(f, w, |f.cs|) && n in w.repl.Values
    ensures n in w.arena.edges && n !in f.g.edges
    ensures Outside(f.cs, |f.cs|, w.arena.edges[n].v1) && Outside(f.cs, |f.cs|, w.arena.edges[n].v2)
  {
    var o :| o in w.repl && w.repl[o] == n;
    ValueEnds(f, w, o);
    var e := w.arena.edges[o];
    RepOutsideAll(f.cs, f.base, |f.cs|, e.v1);
    RepOutsideAll(f.cs, f.base, |f.cs|, e.v2);
  }

  /** An endpoint of a kept edge is a graph vertex outside every cluster. */
  lemma KeptEndOutside(f: Frame, w: Work, v: VertexId)
    requires Consistent(f.g) && Between(f, w, |f.cs|)
    requires v in Endpoints(f.g.edges, NonClusterEdges(f.g, f.cs, w.repl))
    ensures v in f.g.vertices && Outside(f.cs, |f.cs|, v)
  {
    var e := EndpointOf(f.g.edges, NonClusterEdges(f.g, f.cs, w.repl), v);
    KeptIff(f, w, e);
  }

  /** An endpoint of a replacement edge is a centre or a graph vertex outside every cluster. */
  lemma ValueEndOutside(f: Frame, w: Work, dist: (seq<Point>, seq<Point>) -> real, v: VertexId)
    requires Layout(f) && Between(f, w, |f.cs|)
    requires v in Endpoints(Measured(w, dist).edges, w.repl.Values)
    ensures (v in f.g.vertices && Outside(f.cs, |f.cs|, v)) || v in CentreIds(f.base, |f.cs|)
  {
    var n := EndpointOf(Measured(w, dist).edges, w.repl.Values, v);
    ValueOutside(f, w, n);
    assert v in w.arena.vertices;
  }

  /** A vertex without branches is in no cluster. */
  lemma LonelyOutside(f: Frame, v: VertexId)
    requires MembersBusy(f) && v in LonelyVertices(f.g)
    ensures v in f.g.vertices && Outside(f.cs, |f.cs|, v)
  {
    OutsideIff(f.cs, |f.cs|, v);
  }

  /** Every vertex of the clean graph is a centre or a graph vertex outside every cluster. */
  lemma VertexSound(f: Frame, w: Work, dist: (seq<Point>, seq<Point>) -> real, v: VertexId)
    requires Setup(f) && Between(f, w, |f.cs|) && MembersBusy(f)
    requires v in CleanVertexIds(f.g, f.cs, CentreIds(f.base, |f.cs|), Measured(w, dist), w.repl)
    ensures (v in f.g.vertices && Outside(f.cs, |f.cs|, v)) || v in CentreIds(f.base, |f.cs|)
  {
    if v in Endpoints(f.g.edges, NonClusterEdges(f.g, f.cs, w.repl)) {
      KeptEndOutside(f, w, v);
    } else if v in Endpoints(Measured(w, dist).edges, w.repl.Values) {
      ValueEndOutside(f, w, dist, v);
    } else if v in LonelyVertices(f.g) {
      LonelyOutside(f, v);
    }
  }

  /** An endpoint of the replacement of a crossing graph edge `e` that lies outside every cluster is an endpoint of `e` itself. */
  lemma CrossingEndKept(f: Frame, w: Work, dist: (seq<Point>, seq<Point>) -> real, e: EdgeId, v: VertexId)
    requires Setup(f) && Between(f, w, |f.cs|)
    requires e in f.g.edges && e in w.repl && Slots(f.g.edges[e], v) > 0 && Outside(f.cs, |f.cs|, v)
    ensures v in Endpoints(Measured(w, dist).edges, w.repl.Values)
  {
    ValueEnds(f, w, e);
    RepOutside(f.cs, f.base, |f.cs|, v);
    var n := w.repl[e];
    assert n in w.repl.Values;
    assert Slots(w.arena.edges[n], v) > 0;
  }

  /** An end outside every cluster of a graph edge stays: as an end of the edge, or of its replacement. */
  lemma EdgeEndKept(f: Frame, w: Work, dist: (seq<Point>, seq<Point>) -> real, e: EdgeId, v: VertexId)
    requires Setup(f) && Between(f, w, |f.cs|)
    requires e in f.g.edges && Slots(f.g.edges[e], v) > 0 && Outside(f.cs, |f.cs|, v)
    ensures v in Endpoints(f.g.edges, NonClusterEdges(f.g, f.cs, w.repl)) || v in Endpoints(Measured(w, dist).edges, w.repl.Values)
  {
    var ed := f.g.edges[e];
    var u := Opposite(ed, v);
    if Outside(f.cs, |f.cs|, u) {
      KeptIff(f, w, e);
      assert e in NonClusterEdges(f.g, f.cs, w.repl);
    } else {
      OutsideIff(f.cs, |f.cs|, u);
      OutsideIff(f.cs, |f.cs|, v);
      var i :| 0 <= i < |f.cs| && u in f.cs[i];
      assert OneEndIn(ed, f.cs[i]);
      CrossesIff(f.cs, |f.cs|, ed);
      ReplacedIffCrosses(f, w, e);
      CrossingEndKept(f, w, dist, e, v);
    }
  }

  /** A branch of a vertex is an edge of which the vertex is an end. */
  lemma BranchEnd(g: Graph, v: VertexId, e: EdgeId)
    requires Consistent(g) && v in g.vertices && e in g.vertices[v].branches
    ensures e in g.edges && Slots(g.edges[e], v) > 0
  {
    assert Count(g.vertices[v].branches, e) > 0;
  }

  /** Every graph vertex outside every cluster is a vertex of the clean graph. */
  lemma VertexComplete(f: Frame, w: Work, dist: (seq<Point>, seq<Point>) -> real, v: VertexId)
    requires Setup(f) && Between(f, w, |f.cs|)
    requires v in f.g.vertices && Outside(f.cs, |f.cs|, v)
    ensures v in CleanVertexIds(f.g, f.cs, CentreIds(f.base, |f.cs|), Measured(w, dist), w.repl)
  {
    var bs := f.g.vertices[v].branches;
    if bs != [] {
      BranchEnd(f.g, v, bs[0]);
      EdgeEndKept(f, w, dist, bs[0], v);
    }
  }

  /** The clean graph's vertices are the centres and the graph vertices outside every cluster. */
  lemma CleanVertices(f: Frame, w: Work, dist: (seq<Point>, seq<Point>) -> real)
    requires Setup(f) && Between(f, w, |f.cs|) && MembersBusy(f)
    ensures forall v :: v in Cleaned(f, w, dist).vertices <==>
      (v in f.g.vertices && Outside(f.cs, |f.cs|, v)) || v in CentreIds(f.base, |f.cs|)
  {
    assert Cleaned(f, w, dist).vertices.Keys == Raw(f, w, dist).vertices.Keys;
    forall v
      ensures v in Raw(f, w, dist).vertices <==> (v in f.g.vertices && Outside(f.cs, |f.cs|, v)) || v in CentreIds(f.base, |f.cs|)
    {
      if v in Raw(f, w, dist).vertices {
        VertexSound(f, w, dist, v);
      }
      if v in f.g.vertices && Outside(f.cs, |f.cs|, v) {
        VertexComplete(f, w, dist, v);
      }
    }
  }

  /** The collected edges keep the ends they have in the arena. */
  lemma RawEdgeEnds(f: Frame, w: Work, dist: (seq<Point>, seq<Point>) -> real)
    requires Consistent(f.g) && Between(f, w, |f.cs|)
    ensures forall e | e in Raw(f, w, dist).edges ::
      e in w.arena.edges && Raw(f, w, dist).edges[e].v1 == w.arena.edges[e].v1 && Raw(f, w, dist).edges[e].v2 == w.arena.edges[e].v2
  {
    var r := Raw(f, w, dist);
    forall e | e in r.edges
      ensures e in w.arena.edges && r.edges[e].v1 == w.arena.edges[e].v1 && r.edges[e].v2 == w.arena.edges[e].v2
    {
      if e in w.repl.Values {
        var o :| o in w.repl && w.repl[o] == e;
      }
    }
  }

  /** The collected vertices are arena vertices, branch lists and all. */
  lemma RawVertices(f: Frame, w: Work, dist: (seq<Point>, seq<Point>) -> real)
    requires Consistent(f.g) && Between(f, w, |f.cs|)
    ensures forall v | v in Raw(f, w, dist).vertices :: v in w.arena.vertices && Raw(f, w, dist).vertices[v] == w.arena.vertices[v]
  {
  }

  /** Every collected edge ends at collected vertices. */
  lemma RawClosed(f: Frame, w: Work, dist: (seq<Point>, seq<Point>) -> real)
    requires Consistent(f.g) && Between(f, w, |f.cs|)
    ensures Closed(Raw(f, w, dist))
  {
    var r := Raw(f, w, dist);
    var objs := Measured(w, dist);
    forall e | e in r.edges
      ensures r.edges[e].v1 in r.vertices && r.edges[e].v2 in r.vertices
    {
      if e in w.repl.Values {
        assert e in objs.edges;
      } else {
        assert e in NonClusterEdges(f.g, f.cs, w.repl);
      }
    }
  }

  /**
   A graph whose vertices are vertices of `a`, branch lists and all, and
   whose edges are edges of `a` with the same ends lists no edge more often
   than `a` allows, and lists every edge wherever `a` does.
   */
  lemma IncidenceFrom(a: Graph, r: Graph)
    requires NoExcess(a) && Listed(a)
    requires forall v | v in r.vertices :: v in a.vertices && r.vertices[v] == a.vertices[v]
    requires forall e | e in r.edges :: e in a.edges && r.edges[e].v1 == a.edges[e].v1 && r.edges[e].v2 == a.edges[e].v2
    ensures NoExcess(r) && Listed(r)
  {
    forall v, e | v in r.vertices && e in r.edges
      ensures Count(r.vertices[v].branches, e) <= Slots(r.edges[e], v)
    {
      assert Count(a.vertices[v].branches, e) <= Slots(a.edges[e], v);
    }
  }

  /** The clean graph keeps the graph invariant and has no loops. */
  lemma CleanConsistent(f: Frame, w: Work, dist: (seq<Point>, seq<Point>) -> real)
    requires Consistent(f.g) && Between(f, w, |f.cs|)
    ensures Consistent(Cleaned(f, w, dist)) && LoopFree(Cleaned(f, w, dist))
  {
    RawClosed(f, w, dist);
    RawEdgeEnds(f, w, dist);
    RawVertices(f, w, dist);
    IncidenceFrom(w.arena, Raw(f, w, dist));
    DanglingRemovedConsistent(Raw(f, w, dist));
    assert Cleaned(f, w, dist) == RemoveDanglingBranches(Raw(f, w, dist));
  }

  /** Every clean vertex has the points it started with. */
  lemma CleanPointsStay(f: Frame, w: Work, dist: (seq<Point>, seq<Point>) -> real)
    requires Setup(f) && Started(f) && Between(f, w, |f.cs|)
    ensures forall v | v in Cleaned(f, w, dist).vertices :: v in f.start && Cleaned(f, w, dist).vertices[v].points == f.start[v].points
  {
    RawVertices(f, w, dist);
    assert Cleaned(f, w, dist) == RemoveDanglingBranches(Raw(f, w, dist));
  }

  /** A graph vertex in the clean graph keeps its points. */
  lemma CleanPoints(f: Frame, w: Work, dist: (seq<Point>, seq<Point>) -> real)
    requires Setup(f) && Started(f) && Between(f, w, |f.cs|)
    ensures forall v | v in f.g.vertices && v in Cleaned(f, w, dist).vertices ::
      Cleaned(f, w, dist).vertices[v].points == f.g.vertices[v].points
  {
    CleanPointsStay(f, w, dist);
  }

  /** A graph whose vertices keep their starting points gives each centre the points `getClusterCentre` gave it. */
  lemma CentrePointsFrom(f: Frame, c: Graph)
    requires Started(f)
    requires forall v | v in c.vertices :: v in f.start && c.vertices[v].points == f.start[v].points
    ensures forall i | 0 <= i < |f.cs| && f.base + i in c.vertices ::
      c.vertices[f.base + i].points == ClusterCentre(f.g.vertices, f.cs[i]).points
  {
  }

  /** The centre of cluster `i` has the points `getClusterCentre` gave it. */
  lemma CleanCentrePoints(f: Frame, w: Work, dist: (seq<Point>, seq<Point>) -> real)
    requires Setup(f) && Started(f) && Between(f, w, |f.cs|)
    ensures forall i | 0 <= i < |f.cs| && f.base + i in Cleaned(f, w, dist).vertices ::
      Cleaned(f, w, dist).vertices[f.base + i].points == ClusterCentre(f.g.vertices, f.cs[i]).points
  {
    CleanPointsStay(f, w, dist);
    CentrePointsFrom(f, Cleaned(f, w, dist));
  }

  /** A graph edge stays, unchanged, exactly when both its ends lie outside every cluster. */
  lemma KeptEdge(f: Frame, w: Work, dist: (seq<Point>, seq<Point>) -> real, e: EdgeId)
    requires Setup(f) && Between(f, w, |f.cs|) && e in f.g.edges
    ensures e in Cleaned(f, w, dist).edges <==> Outside(f.cs, |f.cs|, f.g.edges[e].v1) && Outside(f.cs, |f.cs|, f.g.edges[e].v2)
    ensures e in Cleaned(f, w, dist).edges ==> Cleaned(f, w, dist).edges[e] == f.g.edges[e]
  {
    assert Cleaned(f, w, dist).edges == Raw(f, w, dist).edges;
    if e in w.repl.Values {
      ValueOutside(f, w, e);
    }
    KeptIff(f, w, e);
  }

  /** The graph edges of the clean graph. */
  lemma CleanKeptEdges(f: Frame, w: Work, dist: (seq<Point>, seq<Point>) -> real)
    requires Setup(f) && Between(f, w, |f.cs|)
    ensures forall e | e in f.g.edges ::
      e in Cleaned(f, w, dist).edges <==> Outside(f.cs, |f.cs|, f.g.edges[e].v1) && Outside(f.cs, |f.cs|, f.g.edges[e].v2)
    ensures forall e | e in f.g.edges && e in Cleaned(f, w, dist).edges :: Cleaned(f, w, dist).edges[e] == f.g.edges[e]
  {
    forall e | e in f.g.edges
      ensures e in Cleaned(f, w, dist).edges <==> Outside(f.cs, |f.cs|, f.g.edges[e].v1) && Outside(f.cs, |f.cs|, f.g.edges[e].v2)
      ensures e in Cleaned(f, w, dist).edges ==> Cleaned(f, w, dist).edges[e] == f.g.edges[e]
    {
      KeptEdge(f, w, dist, e);
    }
  }

  /** An edge of the clean graph that is not a graph edge is a replacement edge, as measured. */
  lemma NewIsValue(f: Frame, w: Work, dist: (seq<Point>, seq<Point>) -> real, n: EdgeId)
    requires Setup(f) && Between(f, w, |f.cs|)
    requires n in Cleaned(f, w, dist).edges && n !in f.g.edges
    ensures n in w.repl.Values && n in w.arena.edges
    ensures Cleaned(f, w, dist).edges[n] == Measured(w, dist).edges[n]
  {
    assert Cleaned(f, w, dist).edges == Raw(f, w, dist).edges;
    ValueOutside(f, w, n);
  }

  /** A replacement edge has a centre at one end at least: the end standing for its key's member end. */
  lemma ValueCentreEnd(f: Frame, w: Work, n: EdgeId)
    requires Layout(f) && Between(f, w, |f.cs|) && n in w.repl.Values
    ensures n in w.arena.edges
    ensures w.arena.edges[n].v1 >= f.base || w.arena.edges[n].v2 >= f.base
  {
    var o :| o in w.repl && w.repl[o] == n;
    ValueEnds(f, w, o);
    assert n < w.next;
    var e := w.arena.edges[o];
    assert Crosses(f.cs, |f.cs|, e);
    CrossesIff(f.cs, |f.cs|, e);
    var i :| 0 <= i < |f.cs| && OneEndIn(e, f.cs[i]);
    if e.v1 in f.cs[i] {
      RepMember(f.cs, f.base, |f.cs|, i, e.v1);
    } else {
      RepMember(f.cs, f.base, |f.cs|, i, e.v2);
    }
  }

  /**
   A new edge of the clean graph joins the representatives of the ends of
   some graph edge that crosses a cluster, and its length is the distance between the points of its
   ends.
   */
  lemma NewEdge(f: Frame, w: Work, dist: (seq<Point>, seq<Point>) -> real, n: EdgeId)
    requires Setup(f) && Between(f, w, |f.cs|)
    requires n in Cleaned(f, w, dist).edges && n !in f.g.edges
    ensures exists o | o in f.g.edges :: Crosses(f.cs, |f.cs|, f.g.edges[o]) && RepEnds(f.cs, f.base, |f.cs|, f.g.edges[o], Cleaned(f, w, dist).edges[n])
    ensures Cleaned(f, w, dist).edges[n].v1 in Cleaned(f, w, dist).vertices
    ensures Cleaned(f, w, dist).edges[n].v2 in Cleaned(f, w, dist).vertices
    ensures Cleaned(f, w, dist).edges[n].length ==
      dist(Cleaned(f, w, dist).vertices[Cleaned(f, w, dist).edges[n].v1].points,
           Cleaned(f, w, dist).vertices[Cleaned(f, w, dist).edges[n].v2].points)
  {
    NewIsValue(f, w, dist, n);
    ValueOutside(f, w, n);
    var a := w.arena.edges[n];
    assert FromOriginal(f, a);
    var o :| o in f.g.edges && SameImage(f, a, f.g.edges[o]);
    RepOutside(f.cs, f.base, |f.cs|, a.v1);
    RepOutside(f.cs, f.base, |f.cs|, a.v2);
    ValueCentreEnd(f, w, n);
    UncrossedImage(f.cs, f.base, f.g.edges[o]);
    assert !IsLoop(a);
    assert f.g.edges[o].v1 in f.g.vertices && f.g.edges[o].v2 in f.g.vertices;
    CleanConsistent(f, w, dist);
    RawVertices(f, w, dist);
    assert Cleaned(f, w, dist) == RemoveDanglingBranches(Raw(f, w, dist));
  }

  /** Every graph edge with one end in a cluster has a replacement in the clean graph joining the representatives of its ends. */
  lemma CrossingReplaced(f: Frame, w: Work, dist: (seq<Point>, seq<Point>) -> real, o: EdgeId)
    requires Setup(f) && Between(f, w, |f.cs|)
    requires o in f.g.edges && Crosses(f.cs, |f.cs|, f.g.edges[o])
    ensures w.repl[o] in Cleaned(f, w, dist).edges && o in w.repl
    ensures RepEnds(f.cs, f.base, |f.cs|, f.g.edges[o], Cleaned(f, w, dist).edges[w.repl[o]])
  {
    ReplacedIffCrosses(f, w, o);
    ValueEnds(f, w, o);
    assert w.repl[o] in w.repl.Values;
    RawEdgeEnds(f, w, dist);
    assert Cleaned(f, w, dist).edges == Raw(f, w, dist).edges;
  }

  /** All members of the clusters. */
  function Members(cs: seq<set<VertexId>>): set<VertexId> {
    if cs == [] then {} else cs[0] + Members(cs[1..])
  }

  /** `Members` holds the vertices in some cluster. */
  lemma {:induction false} MembersIff(cs: seq<set<VertexId>>, v: VertexId)
    ensures v in Members(cs) <==> InSome(cs, v)
    decreases |cs|
  {
    if cs != [] {
      MembersIff(cs[1..], v);
      assert cs == [cs[0]] + cs[1..];
      InSomeCons(cs[0], cs[1..], v);
    }
  }

  /** The tail of pairwise disjoint clusters is pairwise disjoint and misses the head. */
  lemma DisjointTail(cs: seq<set<VertexId>>)
    requires PairwiseDisjoint(cs) && cs != []
    ensures PairwiseDisjoint(cs[1..])
    ensures cs[0] * Members(cs[1..]) == {}
  {
    var tail := cs[1..];
    forall i, j | 0 <= i < j < |tail|
      ensures tail[i] * tail[j] == {}
    {
      assert tail[i] == cs[i + 1] && tail[j] == cs[j + 1];
    }
    forall v | v in Members(tail)
      ensures v !in cs[0]
    {
      MembersIff(tail, v);
      var j :| 0 <= j < |tail| && v in tail[j];
      assert tail[j] == cs[j + 1] && cs[0] * cs[j + 1] == {};
      assert v !in cs[0] * cs[j + 1];
    }
  }

  /** Pairwise disjoint clusters of at least two vertices each have at least twice as many members as there are clusters. */
  lemma {:induction false} MembersAtLeastTwice(cs: seq<set<VertexId>>)
    requires PairwiseDisjoint(cs)
    requires forall i | 0 <= i < |cs| :: |cs[i]| >= 2
    ensures |Members(cs)| >= 2 * |cs|
    decreases |cs|
  {
    if cs != [] {
      DisjointTail(cs);
      MembersAtLeastTwice(cs[1..]);
    }
  }

  /** Replacing the members of the clusters by one centre each. */
  lemma CountAfterCollapse(keys: set<VertexId>, short: set<VertexId>, centres: set<VertexId>)
    requires short <= keys && keys * centres == {}
    ensures |(keys - short) + centres| == |keys| - |short| + |centres|
  {
    assert (keys - short) * centres == {};
    assert keys == (keys - short) + short;
  }

  /** Without loops, every cluster has at least two vertices. */
  lemma ClustersOfTwo(g: Graph, tolerance: real)
    requires Consistent(g) && LoopFree(g)
    ensures forall i | 0 <= i < |FindClusters(g, tolerance)| :: |FindClusters(g, tolerance)[i]| >= 2
  {
    FindClustersPartition(g, tolerance);
  }

  /** The members of the clusters are short-edge endpoints. */
  lemma MembersAreShort(g: Graph, tolerance: real)
    requires Consistent(g)
    ensures Members(FindClusters(g, tolerance)) <= ShortVertices(g, tolerance)
  {
    var cs := FindClusters(g, tolerance);
    ClustersCoverShort(g, tolerance);
    forall v | v in Members(cs)
      ensures v in ShortVertices(g, tolerance)
    {
      MembersIff(cs, v);
    }
  }

  /** Without loops, there are at least twice as many short-edge endpoints as clusters. */
  lemma ShortAtLeastTwice(g: Graph, tolerance: real)
    requires Consistent(g) && LoopFree(g)
    ensures |ShortVertices(g, tolerance)| >= 2 * |FindClusters(g, tolerance)|
  {
    ClustersCoverShort(g, tolerance);
    ClustersOfTwo(g, tolerance);
    MembersAtLeastTwice(FindClusters(g, tolerance));
    MembersAreShort(g, tolerance);
    SubsetNoLarger(Members(FindClusters(g, tolerance)), ShortVertices(g, tolerance));
  }

  /** A subset is no larger. */
  lemma SubsetNoLarger(a: set<VertexId>, b: set<VertexId>)
    requires a <= b
    ensures |a| <= |b|
  {
    assert b == a + (b - a);
  }

  /** The vertex ids that are outside every cluster, or centres, are those on no short edge, or centres. */
  lemma KeysFromOutside(f: Frame, tolerance: real, keys: set<VertexId>)
    requires Consistent(f.g) && f.cs == FindClusters(f.g, tolerance)
    requires forall v :: v in keys <==> (v in f.g.vertices && Outside(f.cs, |f.cs|, v)) || v in CentreIds(f.base, |f.cs|)
    ensures keys == (f.g.vertices.Keys - ShortVertices(f.g, tolerance)) + CentreIds(f.base, |f.cs|)
  {
    forall v
      ensures v in keys <==> v in (f.g.vertices.Keys - ShortVertices(f.g, tolerance)) + CentreIds(f.base, |f.cs|)
    {
      OutsideShort(f.g, tolerance, v);
    }
  }

  /** The frame of the cleaning step of `f.g` with tolerance `tolerance`, ready for the replacement loops. */
  ghost predicate Ready(f: Frame, tolerance: real) {
    && Setup(f) && Started(f) && MembersBusy(f)
    && f.cs == FindClusters(f.g, tolerance) && f.base == NextId(f.g.vertices.Keys)
  }

  /**
   The vertices after a cleaning step of `g` that found the clusters `cs`
   are those on no short edge, with their points, and one centre per
   cluster, numbered from `base`, with the point `getClusterCentre` gives;
   each cluster takes at least one vertex off the count.
   */
  ghost predicate VerticesAfter(g: Graph, tolerance: real, cs: seq<set<VertexId>>, base: nat, r: Graph) {
    && (forall i | 0 <= i < |cs| :: cs[i] <= g.vertices.Keys)
    && r.vertices.Keys == (g.vertices.Keys - ShortVertices(g, tolerance)) + CentreIds(base, |cs|)
    && |r.vertices| + |cs| <= |g.vertices|
    && (forall v | v in g.vertices && v in r.vertices :: r.vertices[v].points == g.vertices[v].points)
    && (forall i | 0 <= i < |cs| :: r.vertices[base + i].points == ClusterCentre(g.vertices, cs[i]).points)
  }

  /** The vertex ids after the step. */
  lemma StepVertexSet(f: Frame, tolerance: real, dist: (seq<Point>, seq<Point>) -> real, w: Work)
    requires Ready(f, tolerance) && Between(f, w, |f.cs|)
    ensures Cleaned(f, w, dist).vertices.Keys == (f.g.vertices.Keys - ShortVertices(f.g, tolerance)) + CentreIds(f.base, |f.cs|)
  {
    CleanVertices(f, w, dist);
    KeysFromOutside(f, tolerance, Cleaned(f, w, dist).vertices.Keys);
  }

  /** Vertex ids, points and centres as the step leaves them make up `VerticesAfter`. */
  lemma VerticesFrom(f: Frame, tolerance: real, r: Graph)
    requires Consistent(f.g) && LoopFree(f.g) && f.cs == FindClusters(f.g, tolerance)
    requires f.base == NextId(f.g.vertices.Keys)
    requires r.vertices.Keys == (f.g.vertices.Keys - ShortVertices(f.g, tolerance)) + CentreIds(f.base, |f.cs|)
    requires forall v | v in f.g.vertices && v in r.vertices :: r.vertices[v].points == f.g.vertices[v].points
    requires forall i | 0 <= i < |f.cs| && f.base + i in r.vertices ::
      r.vertices[f.base + i].points == ClusterCentre(f.g.vertices, f.cs[i]).points
    ensures VerticesAfter(f.g, tolerance, f.cs, f.base, r)
  {
    forall v | v in f.g.vertices.Keys
      ensures v !in CentreIds(f.base, |f.cs|)
    {
    }
    CountAfterCollapse(f.g.vertices.Keys, ShortVertices(f.g, tolerance), CentreIds(f.base, |f.cs|));
    ShortAtLeastTwice(f.g, tolerance);
  }

  /** The vertices after the step, as `VerticesAfter` states them. */
  lemma StepVertices(f: Frame, tolerance: real, dist: (seq<Point>, seq<Point>) -> real, w: Work)
    requires Ready(f, tolerance) && Between(f, w, |f.cs|)
    ensures VerticesAfter(f.g, tolerance, f.cs, f.base, Cleaned(f, w, dist))
  {
    StepVertexSet(f, tolerance, dist, w);
    CleanPoints(f, w, dist);
    CleanCentrePoints(f, w, dist);
    VerticesFrom(f, tolerance, Cleaned(f, w, dist));
  }

  /**
   The edges after a cleaning step that found the clusters `cs`: a graph
   edge stays, unchanged, exactly when neither end is in a cluster; every
   edge leaving a cluster has a stand-in joining the representatives of its
   ends; and every new edge is such a stand-in, measured by `dist` between
   the points of its ends.
   */
  ghost predicate EdgesAfter(g: Graph, cs: seq<set<VertexId>>, base: nat, dist: (seq<Point>, seq<Point>) -> real, r: Graph) {
    && (forall e | e in g.edges :: e in r.edges <==> Outside(cs, |cs|, g.edges[e].v1) && Outside(cs, |cs|, g.edges[e].v2))
    && (forall e | e in g.edges && e in r.edges :: r.edges[e] == g.edges[e])
    && (forall o | o in g.edges && Crosses(cs, |cs|, g.edges[o]) ::
          exists n | n in r.edges :: RepEnds(cs, base, |cs|, g.edges[o], r.edges[n]))
    && (forall n | n in r.edges && n !in g.edges ::
          exists o | o in g.edges :: Crosses(cs, |cs|, g.edges[o]) && RepEnds(cs, base, |cs|, g.edges[o], r.edges[n]))
    && (forall n | n in r.edges && n !in g.edges ::
          && r.edges[n].v1 in r.vertices && r.edges[n].v2 in r.vertices
          && r.edges[n].length == dist(r.vertices[r.edges[n].v1].points, r.vertices[r.edges[n].v2].points))
  }

  /** Every edge leaving a cluster has its stand-in in the clean graph. */
  lemma StepCrossing(f: Frame, dist: (seq<Point>, seq<Point>) -> real, w: Work)
    requires Setup(f) && Between(f, w, |f.cs|)
    ensures forall o | o in f.g.edges && Crosses(f.cs, |f.cs|, f.g.edges[o]) ::
      exists n | n in Cleaned(f, w, dist).edges :: RepEnds(f.cs, f.base, |f.cs|, f.g.edges[o], Cleaned(f, w, dist).edges[n])
  {
    forall o | o in f.g.edges && Crosses(f.cs, |f.cs|, f.g.edges[o])
      ensures exists n | n in Cleaned(f, w, dist).edges :: RepEnds(f.cs, f.base, |f.cs|, f.g.edges[o], Cleaned(f, w, dist).edges[n])
    {
      CrossingReplaced(f, w, dist, o);
    }
  }

  /** Every new edge of the clean graph is a measured stand-in. */
  lemma StepNew(f: Frame, dist: (seq<Point>, seq<Point>) -> real, w: Work)
    requires Setup(f) && Between(f, w, |f.cs|)
    ensures forall n | n in Cleaned(f, w, dist).edges && n !in f.g.edges ::
      exists o | o in f.g.edges :: Crosses(f.cs, |f.cs|, f.g.edges[o]) && RepEnds(f.cs, f.base, |f.cs|, f.g.edges[o], Cleaned(f, w, dist).edges[n])
    ensures forall n | n in Cleaned(f, w, dist).edges && n !in f.g.edges ::
      && Cleaned(f, w, dist).edges[n].v1 in Cleaned(f, w, dist).vertices
      && Cleaned(f, w, dist).edges[n].v2 in Cleaned(f, w, dist).vertices
      && Cleaned(f, w, dist).edges[n].length ==
           dist(Cleaned(f, w, dist).vertices[Cleaned(f, w, dist).edges[n].v1].points,
                Cleaned(f, w, dist).vertices[Cleaned(f, w, dist).edges[n].v2].points)
  {
    forall n | n in Cleaned(f, w, dist).edges && n !in f.g.edges
      ensures exists o | o in f.g.edges :: Crosses(f.cs, |f.cs|, f.g.edges[o]) && RepEnds(f.cs, f.base, |f.cs|, f.g.edges[o], Cleaned(f, w, dist).edges[n])
      ensures Cleaned(f, w, dist).edges[n].v1 in Cleaned(f, w, dist).vertices
      ensures Cleaned(f, w, dist).edges[n].v2 in Cleaned(f, w, dist).vertices
      ensures Cleaned(f, w, dist).edges[n].length ==
           dist(Cleaned(f, w, dist).vertices[Cleaned(f, w, dist).edges[n].v1].points,
                Cleaned(f, w, dist).vertices[Cleaned(f, w, dist).edges[n].v2].points)
    {
      NewEdge(f, w, dist, n);
    }
  }

  /** The edges after the step, as `EdgesAfter` states them. */
  lemma StepEdges(f: Frame, dist: (seq<Point>, seq<Point>) -> real, w: Work)
    requires Setup(f) && Between(f, w, |f.cs|)
    ensures EdgesAfter(f.g, f.cs, f.base, dist, Cleaned(f, w, dist))
  {
    CleanKeptEdges(f, w, dist);
    StepCrossing(f, dist, w);
    StepNew(f, dist, w);
  }

  /** An edge between clusters `i` and `j` crosses, and its ends stand for centres `base + i` and `base + j`. */
  lemma TwoClusterEnds(cs: seq<set<VertexId>>, base: nat, e: Edge, i: nat, j: nat)
    requires Separate(cs, base)
    requires i < |cs| && j < |cs| && i != j && e.v1 in cs[i] && e.v2 in cs[j]
    ensures Crosses(cs, |cs|, e)
    ensures Rep(cs, base, |cs|, e.v1) == base + i && Rep(cs, base, |cs|, e.v2) == base + j
  {
    assert i < j ==> e.v2 !in cs[i] * cs[j];
    assert j < i ==> e.v2 !in cs[j] * cs[i];
    assert e.v2 !in cs[i];
    assert OneEndIn(e, cs[i]);
    CrossesIff(cs, |cs|, e);
    RepMember(cs, base, |cs|, i, e.v1);
    RepMember(cs, base, |cs|, j, e.v2);
  }

  /** The stand-in of a crossing edge, read off the edges after the step. */
  lemma CrossingImage(g: Graph, cs: seq<set<VertexId>>, base: nat, dist: (seq<Point>, seq<Point>) -> real, r: Graph, o: EdgeId)
    requires EdgesAfter(g, cs, base, dist, r)
    requires o in g.edges && Crosses(cs, |cs|, g.edges[o])
    ensures exists n | n in r.edges ::
      r.edges[n].v1 == Rep(cs, base, |cs|, g.edges[o].v1) && r.edges[n].v2 == Rep(cs, base, |cs|, g.edges[o].v2)
  {
    var n :| n in r.edges && RepEnds(cs, base, |cs|, g.edges[o], r.edges[n]);
  }

  /** The clusters of a consistent graph are disjoint and below the first free id. */
  lemma ClustersSeparate(g: Graph, tolerance: real)
    requires Consistent(g)
    ensures Separate(FindClusters(g, tolerance), NextId(g.vertices.Keys))
  {
    FindClustersPartition(g, tolerance);
  }

  /**
   An edge running from one cluster to another ends up joining the two
   centres: `mapReplacementEdges` re-replaces the replacement made for the
   first cluster when it collapses the second.
   */
  lemma JoinsCentres(g: Graph, tolerance: real, dist: (seq<Point>, seq<Point>) -> real, r: Graph, o: EdgeId, i: nat, j: nat)
    requires Consistent(g)
    requires EdgesAfter(g, FindClusters(g, tolerance), NextId(g.vertices.Keys), dist, r)
    requires o in g.edges && i < |FindClusters(g, tolerance)| && j < |FindClusters(g, tolerance)| && i != j
    requires g.edges[o].v1 in FindClusters(g, tolerance)[i] && g.edges[o].v2 in FindClusters(g, tolerance)[j]
    ensures exists n | n in r.edges ::
      r.edges[n].v1 == NextId(g.vertices.Keys) + i && r.edges[n].v2 == NextId(g.vertices.Keys) + j
  {
    var cs := FindClusters(g, tolerance);
    var base := NextId(g.vertices.Keys);
    ClustersSeparate(g, tolerance);
    TwoClusterEnds(cs, base, g.edges[o], i, j);
    CrossingImage(g, cs, base, dist, r, o);
  }

  /**
   `cleaningStep`: finds the clusters of short edges, collapses each to its
   centre, measures the new edges and builds the clean graph. The result is
   again a consistent graph without loops, with the vertices and edges
   `VerticesAfter` and `EdgesAfter` describe.
   */
  method CleaningStep(g: Graph, tolerance: real, dist: (seq<Point>, seq<Point>) -> real) returns (r: Graph)
    requires Consistent(g) && LoopFree(g)
    ensures Consistent(r) && LoopFree(r)
    ensures VerticesAfter(g, tolerance, FindClusters(g, tolerance), NextId(g.vertices.Keys), r)
    ensures EdgesAfter(g, FindClusters(g, tolerance), NextId(g.vertices.Keys), dist, r)
  {
    var f := CleanFrame(g, tolerance);
    FrameReady(g, tolerance);
    StartBetween(f);
    var w := CollapseAll(f, StartWork(f));
    r := Cleaned(f, w, dist);
    CleanConsistent(f, w, dist);
    StepVertices(f, tolerance, dist, w);
    StepEdges(f, dist, w);
  }
}
