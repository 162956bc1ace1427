/**
 The invariant of the replacement loops of `cleaningStep`. After the first
 `k` clusters are collapsed:
 - the arena keeps the graph invariant and has no loops;
 - an edge is a key of the replacement map exactly when it has one endpoint
   in one of those clusters;
 - the value of a key is an edge joining the representatives of the key's
   endpoints, in the same order;
 - every edge of the arena joins, once all clusters are collapsed, the same
   representatives as some edge of the original graph.
 From this, every replacement succeeds (the Java `null` never occurs).
 */
module Rewiring {
  import opened Options
  import opened Seqs
  import opened Graphs
  import opened Clusters
  import opened Quotient
  import opened Replacement
  import opened OuterEdges

  /**
   The fixed data of one cleaning step: the graph, its clusters, the first
   centre id, the first new edge id, and the vertices the rewiring starts
   from (the graph's and the new centres).
   */
  datatype Frame = Frame(g: Graph, cs: seq<set<VertexId>>, base: nat, ebase: nat, start: map<VertexId, Vertex>)

  /** What the cleaning step can rely on. */
  ghost predicate Setup(f: Frame) {
    Consistent(f.g) && LoopFree(f.g) && Layout(f)
  }

  /** Disjoint clusters of graph vertices; centres and new edges get ids above those of the graph. */
  ghost predicate Layout(f: Frame) {
    && Separate(f.cs, f.base)
    && (forall v | v in f.g.vertices :: v < f.base)
    && (forall e | e in f.g.edges :: e < f.ebase)
    && (forall i | 0 <= i < |f.cs| :: f.cs[i] <= f.g.vertices.Keys)
  }

  /** The arena's vertices are the graph's vertices and the centres. */
  ghost predicate Shape(f: Frame, w: Work) {
    w.arena.vertices.Keys == f.g.vertices.Keys + CentreIds(f.base, |f.cs|)
  }

  /** The graph's edges stay in the arena unchanged, and every arena edge id is below the next free id. */
  ghost predicate Keeps(f: Frame, w: Work) {
    && f.ebase <= w.next
    && (forall e | e in f.g.edges :: e in w.arena.edges && w.arena.edges[e] == f.g.edges[e])
    && (forall e | e in w.arena.edges :: e < w.next)
  }

  /** Every endpoint is a vertex id below `bound`. */
  ghost predicate EndsBelow(a: Graph, bound: nat) {
    forall e | e in a.edges :: a.edges[e].v1 < bound && a.edges[e].v2 < bound
  }

  /** The edge `o` was rewired while the current cluster is collapsed: its replacement is at least `mark`. */
  ghost predicate Fresh(w: Work, o: EdgeId, mark: nat) {
    o in w.repl && w.repl[o] >= mark
  }

  /**
   The keys are the edges crossing one of the first `k` clusters, and the
   outer edges of cluster `k` rewired since the edge id was `mark`.
   */
  ghost predicate KeysAre(f: Frame, w: Work, k: nat, mark: nat)
    requires k <= |f.cs|
  {
    && (forall o | o in w.arena.edges && Crosses(f.cs, k, w.arena.edges[o]) :: o in w.repl)
    && (forall o | o in w.repl :: o in w.arena.edges && (Crosses(f.cs, k, w.arena.edges[o]) || w.repl[o] >= mark))
  }

  /**
   Each value is a new edge joining the representatives of its key's
   endpoints: with cluster `k` collapsed too for the keys rewired since `mark`.
   */
  ghost predicate ValuesAre(f: Frame, w: Work, k: nat, mark: nat)
    requires k <= |f.cs|
  {
    forall o | o in w.repl ::
      && o in w.arena.edges
      && w.repl[o] in w.arena.edges
      && f.ebase <= w.repl[o]
      && if w.repl[o] >= mark then k < |f.cs| && RepEnds(f.cs, f.base, k + 1, w.arena.edges[o], w.arena.edges[w.repl[o]])
         else RepEnds(f.cs, f.base, k, w.arena.edges[o], w.arena.edges[w.repl[o]])
  }

  /** Two edges join the same representatives once every cluster is collapsed. */
  ghost predicate SameImage(f: Frame, a: Edge, b: Edge) {
    && Rep(f.cs, f.base, |f.cs|, a.v1) == Rep(f.cs, f.base, |f.cs|, b.v1)
    && Rep(f.cs, f.base, |f.cs|, a.v2) == Rep(f.cs, f.base, |f.cs|, b.v2)
  }

  /** Some edge of the graph has the same image as `e`. */
  ghost predicate FromOriginal(f: Frame, e: Edge) {
    exists o | o in f.g.edges :: SameImage(f, e, f.g.edges[o])
  }

  /** Every arena edge has the image of an original edge. */
  ghost predicate Images(f: Frame, w: Work) {
    forall n {:trigger FromOriginal(f, w.arena.edges[n])} | n in w.arena.edges :: FromOriginal(f, w.arena.edges[n])
  }

  /** A vertex of the graph without branches gets none in the arena. */
  ghost predicate LonelyStay(f: Frame, w: Work) {
    forall v | v in f.g.vertices && f.g.vertices[v].branches == [] ::
      v in w.arena.vertices && w.arena.vertices[v].branches == []
  }

  /** Every starting vertex is still there with the same points: rewiring only adds branches. */
  ghost predicate PointsStay(f: Frame, w: Work) {
    forall v | v in f.start :: v in w.arena.vertices && w.arena.vertices[v].points == f.start[v].points
  }

  /** The invariant between two clusters: the first `k` are collapsed. */
  ghost predicate Between(f: Frame, w: Work, k: nat) {
    var arena := w.arena;
    && k <= |f.cs|
    && Consistent(arena) && LoopFree(arena)
    && Shape(f, w) && Keeps(f, w) && EndsBelow(arena, f.base + k)
    && KeysAre(f, w, k, w.next) && ValuesAre(f, w, k, w.next)
    && Images(f, w) && LonelyStay(f, w) && PointsStay(f, w)
  }

  /** The outer edges of cluster `k` are split into those rewired since `mark` and those still to do. */
  ghost predicate Pending(f: Frame, w: Work, k: nat, mark: nat, outs: seq<EdgeId>)
    requires k < |f.cs|
  {
    && Distinct(outs)
    && mark <= w.next
    && (forall o | o in outs ::
          o in w.arena.edges && !Fresh(w, o, mark)
          && w.arena.edges[o].v1 < f.base + k && w.arena.edges[o].v2 < f.base + k)
    && (forall o | o in w.arena.edges :: OneEndIn(w.arena.edges[o], f.cs[k]) <==> Fresh(w, o, mark) || o in outs)
  }

  /** The invariant while cluster `k` is collapsed. */
  ghost predicate During(f: Frame, w: Work, k: nat, mark: nat, outs: seq<EdgeId>) {
    && k < |f.cs|
    && Consistent(w.arena) && LoopFree(w.arena)
    && Shape(f, w) && Keeps(f, w) && EndsBelow(w.arena, f.base + k + 1)
    && KeysAre(f, w, k, mark) && ValuesAre(f, w, k, mark)
    && Images(f, w) && LonelyStay(f, w) && PointsStay(f, w)
    && Pending(f, w, k, mark, outs)
  }

  // ---- facts about representatives used below

  /** An edge not crossing the first `k` clusters but with one end in cluster `k` has both ends outside the first `k`. */
  lemma UncrossedOutside(cs: seq<set<VertexId>>, base: nat, k: nat, e: Edge)
    requires Separate(cs, base) && k < |cs|
    requires !Crosses(cs, k, e) && OneEndIn(e, cs[k])
    ensures Outside(cs, k, e.v1) && Outside(cs, k, e.v2)
  {
    CrossesIff(cs, k, e);
    OutsideIff(cs, k, e.v1);
    OutsideIff(cs, k, e.v2);
    forall i | 0 <= i < k
      ensures e.v1 !in cs[i] && e.v2 !in cs[i]
    {
      assert !OneEndIn(e, cs[i]);
      assert cs[i] * cs[k] == {};
      assert e.v1 !in cs[i] * cs[k] && e.v2 !in cs[i] * cs[k];
    }
  }

  /** An edge crossing the first `k` clusters without one end in cluster `k` has no end in cluster `k`. */
  lemma CrossedMissesNext(cs: seq<set<VertexId>>, base: nat, k: nat, e: Edge)
    requires Separate(cs, base) && k < |cs|
    requires Crosses(cs, k, e) && !OneEndIn(e, cs[k])
    ensures e.v1 !in cs[k] && e.v2 !in cs[k]
  {
    CrossesIff(cs, k, e);
    var i :| 0 <= i < k && OneEndIn(e, cs[i]);
    assert cs[i] * cs[k] == {};
    assert e.v1 !in cs[i] * cs[k] && e.v2 !in cs[i] * cs[k];
  }

  /** Representing by the first `k` centres keeps members of cluster `k` and moves nothing into it. */
  lemma RepKeepsNext(cs: seq<set<VertexId>>, base: nat, k: nat, v: VertexId)
    requires Separate(cs, base) && k < |cs|
    ensures Rep(cs, base, k, v) in cs[k] <==> v in cs[k]
    ensures v in cs[k] ==> Rep(cs, base, k, v) == v
  {
    RepCases(cs, base, k, v);
    OutsideIff(cs, k, v);
    if !Outside(cs, k, v) {
      var i :| 0 <= i < k && v in cs[i];
      assert cs[i] * cs[k] == {};
      assert v !in cs[i] * cs[k];
    }
  }

  /** Both ends outside the first `k` clusters: the edge crosses none of them. */
  lemma {:induction false} OutsideNotCrossing(cs: seq<set<VertexId>>, k: nat, e: Edge)
    requires k <= |cs|
    requires Outside(cs, k, e.v1) && Outside(cs, k, e.v2)
    ensures !Crosses(cs, k, e)
    decreases k
  {
    if k > 0 {
      OutsideNotCrossing(cs, k - 1, e);
    }
  }

  // ---- one rewiring step

  /**
   The edge currently standing for an outer edge of cluster `k` (its
   replacement, or itself) joins the representatives of the outer edge's
   endpoints under the first `k` clusters.
   */
  lemma CurrentEnds(f: Frame, w: Work, k: nat, mark: nat, o: EdgeId)
    requires Layout(f) && k < |f.cs|
    requires KeysAre(f, w, k, mark) && ValuesAre(f, w, k, mark)
    requires o in w.arena.edges && !Fresh(w, o, mark) && OneEndIn(w.arena.edges[o], f.cs[k])
    ensures CurrentOk(f, w, k, o)
  {
    if o !in w.repl {
      var e := w.arena.edges[o];
      UncrossedOutside(f.cs, f.base, k, e);
      RepOutside(f.cs, f.base, k, e.v1);
      RepOutside(f.cs, f.base, k, e.v2);
    }
  }

  /** Replacing such an edge by the centre of cluster `k` yields the representatives under the first `k + 1` clusters. */
  lemma ReplacedEnds(f: Frame, k: nat, e: Edge, cur: Edge)
    requires Layout(f) && k < |f.cs|
    requires OneEndIn(e, f.cs[k]) && RepEnds(f.cs, f.base, k, e, cur)
    ensures ReplaceEdge(cur, f.cs[k], f.base + k).Some?
    ensures RepEnds(f.cs, f.base, k + 1, e, ReplaceEdge(cur, f.cs[k], f.base + k).value)
  {
    RepKeepsNext(f.cs, f.base, k, e.v1);
    RepKeepsNext(f.cs, f.base, k, e.v2);
  }

  /** The representative of a vertex below `bound` under the first `k` clusters is below `bound` too, when `bound` is at least the k-th centre. */
  lemma RepBelow(cs: seq<set<VertexId>>, base: nat, k: nat, v: VertexId, bound: nat)
    requires Separate(cs, base) && k <= |cs|
    requires v < bound && base + k <= bound
    ensures Rep(cs, base, k, v) < bound
    ensures Rep(cs, base, k, v) == v || base <= Rep(cs, base, k, v) < base + k
  {
    RepCases(cs, base, k, v);
  }

  /** The representative under `k` clusters of a vertex outside cluster `k` lies outside the first `k + 1` clusters. */
  lemma RepOutsideFrom(cs: seq<set<VertexId>>, base: nat, k: nat, v: VertexId)
    requires Separate(cs, base) && k < |cs|
    ensures v !in cs[k] ==> Outside(cs, k + 1, Rep(cs, base, k, v))
    ensures v in cs[k] ==> Rep(cs, base, k + 1, v) == base + k
  {
    RepCases(cs, base, k, v);
    RepKeepsNext(cs, base, k, v);
    if !Outside(cs, k, v) {
      CentreOutside(cs, base, k + 1, Rep(cs, base, k, v));
    }
  }

  // ---- the invariant across one rewiring step, component by component

  lemma StepKeeps(f: Frame, w: Work, w2: Work, n: Edge)
    requires Keeps(f, w)
    requires w2.arena.edges == w.arena.edges[w.next := n] && w2.next == w.next + 1
    ensures Keeps(f, w2)
  {
  }

  lemma StepEnds(w: Work, w2: Work, n: Edge, bound: nat)
    requires EndsBelow(w.arena, bound)
    requires w2.arena.edges == w.arena.edges[w.next := n]
    requires n.v1 < bound && n.v2 < bound
    ensures EndsBelow(w2.arena, bound)
  {
  }

  lemma StepKeys(f: Frame, w: Work, w2: Work, k: nat, mark: nat, o: EdgeId, n: Edge)
    requires k <= |f.cs| && Keeps(f, w) && KeysAre(f, w, k, mark)
    requires o in w.arena.edges && mark <= w.next
    requires !Crosses(f.cs, k, n)
    requires w2.arena.edges == w.arena.edges[w.next := n] && w2.repl == w.repl[o := w.next]
    ensures KeysAre(f, w2, k, mark)
  {
    forall p | p in w2.repl && p != o
      ensures p in w.repl && p != w.next && w2.repl[p] == w.repl[p]
    {
    }
  }

  lemma StepValues(f: Frame, w: Work, w2: Work, k: nat, mark: nat, o: EdgeId, n: Edge)
    requires k < |f.cs| && Keeps(f, w) && ValuesAre(f, w, k, mark) && mark <= w.next
    requires o in w.arena.edges
    requires RepEnds(f.cs, f.base, k + 1, w.arena.edges[o], n)
    requires w2.arena.edges == w.arena.edges[w.next := n] && w2.repl == w.repl[o := w.next]
    ensures ValuesAre(f, w2, k, mark)
  {
    forall p | p in w2.repl && p != o
      ensures w2.repl[p] == w.repl[p] && w2.arena.edges[p] == w.arena.edges[p]
      ensures w2.arena.edges[w2.repl[p]] == w.arena.edges[w.repl[p]]
    {
    }
  }

  lemma StepImages(f: Frame, w: Work, w2: Work, o: EdgeId, n: Edge)
    requires Images(f, w) && o in w.arena.edges
    requires SameImage(f, n, w.arena.edges[o])
    requires w2.arena.edges == w.arena.edges[w.next := n]
    ensures Images(f, w2)
  {
    var e := w.arena.edges[o];
    assert FromOriginal(f, e);
    var x :| x in f.g.edges && SameImage(f, e, f.g.edges[x]);
    assert SameImage(f, n, f.g.edges[x]);
  }

  lemma StepLonely(f: Frame, w: Work, n: Edge)
    requires LonelyStay(f, w)
    requires n.v1 in f.g.vertices ==> f.g.vertices[n.v1].branches != []
    requires n.v2 in f.g.vertices ==> f.g.vertices[n.v2].branches != []
    ensures forall v | v in f.g.vertices && f.g.vertices[v].branches == [] ::
      v in AddEdge(w.arena, w.next, n).vertices && AddEdge(w.arena, w.next, n).vertices[v].branches == []
  {
  }

  lemma StepPending(f: Frame, w: Work, w2: Work, k: nat, mark: nat, outs: seq<EdgeId>, n: Edge)
    requires k < |f.cs| && Keeps(f, w) && Pending(f, w, k, mark, outs) && outs != []
    requires !OneEndIn(n, f.cs[k]) && w.next !in w.repl
    requires w2.arena.edges == w.arena.edges[w.next := n] && w2.repl == w.repl[outs[0] := w.next]
    requires w2.next == w.next + 1
    ensures Pending(f, w2, k, mark, outs[1..])
  {
    DistinctTail(outs);
    var o := outs[0];
    forall p | p in w2.arena.edges && p != o && p != w.next
      ensures w2.arena.edges[p] == w.arena.edges[p]
      ensures Fresh(w2, p, mark) == Fresh(w, p, mark)
      ensures p in outs[1..] <==> p in outs
    {
    }
    assert o in outs && Fresh(w2, o, mark);
    assert !Fresh(w2, w.next, mark);
  }

  /** A vertex of the graph at the end of an arena edge had branches in the graph. */
  lemma EndNotLonely(f: Frame, w: Work, o: EdgeId, v: VertexId)
    requires Listed(w.arena) && LonelyStay(f, w)
    requires o in w.arena.edges && v in w.arena.vertices && Slots(w.arena.edges[o], v) > 0
    ensures v in f.g.vertices ==> f.g.vertices[v].branches != []
  {
    assert o in w.arena.vertices[v].branches;
  }

  /** The work state after rewiring `o` to the new edge `n`. */
  function Stepped(w: Work, o: EdgeId, n: Edge): Work {
    Work(AddEdge(w.arena, w.next, n), w.repl[o := w.next], w.next + 1)
  }

  /** The edge currently standing for `o` is an edge joining the representatives of `o`'s ends under `k` clusters. */
  ghost predicate CurrentOk(f: Frame, w: Work, k: nat, o: EdgeId)
    requires k <= |f.cs|
  {
    var cur := if o in w.repl then w.repl[o] else o;
    o in w.arena.edges && cur in w.arena.edges && RepEnds(f.cs, f.base, k, w.arena.edges[o], w.arena.edges[cur])
  }

  /** What a rewiring step adds: an edge joining the representatives of the outer edge's ends under `k + 1` clusters. */
  ghost predicate NewEdgeFor(f: Frame, w: Work, k: nat, o: EdgeId, n: Edge)
    requires k < |f.cs|
  {
    && o in w.arena.edges
    && RepEnds(f.cs, f.base, k + 1, w.arena.edges[o], n)
    && n.v1 != n.v2
    && n.v1 in w.arena.vertices && n.v2 in w.arena.vertices
    && n.v1 < f.base + k + 1 && n.v2 < f.base + k + 1
    && Outside(f.cs, k + 1, n.v1) && Outside(f.cs, k + 1, n.v2)
    && (n.v1 in f.g.vertices ==> n.v1 == w.arena.edges[o].v1)
    && (n.v2 in f.g.vertices ==> n.v2 == w.arena.edges[o].v2)
  }

  /**
   The new edge of a rewiring step joins the k-th centre to a vertex below
   it; both ends lie outside the first `k + 1` clusters.
   */
  lemma NewEdgeEnds(f: Frame, w: Work, k: nat, o: EdgeId, n: Edge)
    requires Layout(f) && k < |f.cs| && Shape(f, w) && o in w.arena.edges
    requires w.arena.edges[o].v1 in w.arena.vertices && w.arena.edges[o].v2 in w.arena.vertices
    requires w.arena.edges[o].v1 < f.base + k && w.arena.edges[o].v2 < f.base + k
    requires OneEndIn(w.arena.edges[o], f.cs[k]) && RepEnds(f.cs, f.base, k + 1, w.arena.edges[o], n)
    ensures NewEdgeFor(f, w, k, o, n)
  {
    var cs, base, e := f.cs, f.base, w.arena.edges[o];
    RepBelow(cs, base, k, e.v1, base + k);
    RepBelow(cs, base, k, e.v2, base + k);
    RepCases(cs, base, k + 1, e.v1);
    RepCases(cs, base, k + 1, e.v2);
    CentreOutside(cs, base, k + 1, base + k);
    RepOutsideFrom(cs, base, k, e.v1);
    RepOutsideFrom(cs, base, k, e.v2);
  }

  /** Rewiring an outer edge `o` of cluster `k` succeeds, adding such an edge. */
  lemma RewireSucceeds(f: Frame, w: Work, k: nat, o: EdgeId) returns (n: Edge)
    requires Layout(f) && k < |f.cs| && Shape(f, w)
    requires CurrentOk(f, w, k, o) && OneEndIn(w.arena.edges[o], f.cs[k])
    requires w.arena.edges[o].v1 in w.arena.vertices && w.arena.edges[o].v2 in w.arena.vertices
    requires w.arena.edges[o].v1 < f.base + k && w.arena.edges[o].v2 < f.base + k
    ensures NewEdgeFor(f, w, k, o, n)
    ensures Rewire(w, o, f.cs[k], f.base + k).Some? && Rewire(w, o, f.cs[k], f.base + k).value == Stepped(w, o, n)
  {
    var e := w.arena.edges[o];
    var cur := if o in w.repl then w.repl[o] else o;
    ReplacedEnds(f, k, e, w.arena.edges[cur]);
    n := ReplaceEdge(w.arena.edges[cur], f.cs[k], f.base + k).value;
    NewEdgeEnds(f, w, k, o, n);
  }

  /** The arena part of the invariant survives adding the new edge. */
  lemma StepArena(f: Frame, w: Work, k: nat, o: EdgeId, n: Edge)
    requires k < |f.cs| && NewEdgeFor(f, w, k, o, n)
    requires Consistent(w.arena) && LoopFree(w.arena)
    requires Keeps(f, w) && EndsBelow(w.arena, f.base + k + 1) && LonelyStay(f, w) && PointsStay(f, w)
    ensures var w2 := Stepped(w, o, n);
      && Consistent(w2.arena) && LoopFree(w2.arena)
      && Keeps(f, w2) && EndsBelow(w2.arena, f.base + k + 1)
      && LonelyStay(f, w2) && PointsStay(f, w2)
  {
    var e := w.arena.edges[o];
    var w2 := Stepped(w, o, n);
    AddEdgeConsistent(w.arena, w.next, n);
    StepKeeps(f, w, w2, n);
    StepEnds(w, w2, n, f.base + k + 1);
    EndNotLonely(f, w, o, e.v1);
    EndNotLonely(f, w, o, e.v2);
    StepLonely(f, w, n);
    AddEdgeFacts(w.arena, w.next, n);
  }

  /** The new edge crosses no collapsed cluster and has the image of the edge it stands for. */
  lemma NewEdgeImage(f: Frame, w: Work, k: nat, o: EdgeId, n: Edge)
    requires Layout(f) && k < |f.cs| && NewEdgeFor(f, w, k, o, n)
    ensures !Crosses(f.cs, k, n) && !OneEndIn(n, f.cs[k])
    ensures SameImage(f, n, w.arena.edges[o])
  {
    var e := w.arena.edges[o];
    OutsideNotCrossing(f.cs, k + 1, n);
    RepAbsorbs(f.cs, f.base, k + 1, e.v1);
    RepAbsorbs(f.cs, f.base, k + 1, e.v2);
  }

  lemma SteppedParts(w: Work, o: EdgeId, n: Edge)
    ensures Stepped(w, o, n).arena.edges == w.arena.edges[w.next := n]
    ensures Stepped(w, o, n).repl == w.repl[o := w.next]
    ensures Stepped(w, o, n).next == w.next + 1
  {
  }

  /** Rewiring the next outer edge of cluster `k` succeeds and keeps the invariant. */
  lemma RewireStep(f: Frame, w: Work, k: nat, mark: nat, outs: seq<EdgeId>) returns (w2: Work)
    requires Layout(f) && During(f, w, k, mark, outs) && outs != []
    ensures Rewire(w, outs[0], f.cs[k], f.base + k).Some? && Rewire(w, outs[0], f.cs[k], f.base + k).value == w2
    ensures During(f, w2, k, mark, outs[1..])
  {
    var o := outs[0];
    assert o in outs;
    CurrentEnds(f, w, k, mark, o);
    var n := RewireSucceeds(f, w, k, o);
    w2 := Stepped(w, o, n);
    StepArena(f, w, k, o, n);
    NewEdgeImage(f, w, k, o, n);
    SteppedParts(w, o, n);
    StepKeys(f, w, w2, k, mark, o, n);
    StepValues(f, w, w2, k, mark, o, n);
    StepImages(f, w, w2, o, n);
    StepPending(f, w, w2, k, mark, outs, n);
  }

  // ---- whole clusters

  /** The outer edges of cluster `k`, in the order they are rewired. */
  function OuterOrder(w: Work, cluster: set<VertexId>): seq<EdgeId>
    requires cluster <= w.arena.vertices.Keys
  {
    Enumerate(FindEdgesWithOneEndInCluster(w.arena.vertices, cluster))
  }

  /** Raising the bound keeps every endpoint below it. */
  lemma EndsBelowMono(a: Graph, lower: nat, upper: nat)
    requires EndsBelow(a, lower) && lower <= upper
    ensures EndsBelow(a, upper)
  {
  }

  /** On a consistent arena without loops, the outer order lists each edge with one end in the cluster, once. */
  lemma OuterOrderIs(w: Work, cluster: set<VertexId>)
    requires Consistent(w.arena) && LoopFree(w.arena) && cluster <= w.arena.vertices.Keys
    ensures Distinct(OuterOrder(w, cluster))
    ensures forall o :: o in OuterOrder(w, cluster) <==> o in w.arena.edges && OneEndIn(w.arena.edges[o], cluster)
  {
    OuterEdgesOneEnd(w.arena, cluster);
  }

  /** Before cluster `k` is collapsed, none of its outer edges is rewired yet. */
  lemma StartPending(f: Frame, w: Work, k: nat, outs: seq<EdgeId>)
    requires k < |f.cs| && Keeps(f, w) && EndsBelow(w.arena, f.base + k) && ValuesAre(f, w, k, w.next)
    requires Distinct(outs)
    requires forall o :: o in outs <==> o in w.arena.edges && OneEndIn(w.arena.edges[o], f.cs[k])
    ensures Pending(f, w, k, w.next, outs)
  {
    forall o | o in w.repl
      ensures !Fresh(w, o, w.next)
    {
      assert w.repl[o] in w.arena.edges;
    }
  }

  /** Before cluster `k` is collapsed, its outer edges are exactly the edges to rewire. */
  lemma StepStart(f: Frame, w: Work, k: nat)
    requires Layout(f) && Between(f, w, k) && k < |f.cs|
    ensures f.cs[k] <= w.arena.vertices.Keys
    ensures During(f, w, k, w.next, OuterOrder(w, f.cs[k]))
  {
    assert f.cs[k] <= f.g.vertices.Keys;
    OuterOrderIs(w, f.cs[k]);
    StartPending(f, w, k, OuterOrder(w, f.cs[k]));
    EndsBelowMono(w.arena, f.base + k, f.base + k + 1);
  }

  /** Once every outer edge of cluster `k` is done, the keys are the edges crossing the first `k + 1` clusters. */
  lemma EndKeys(f: Frame, w: Work, k: nat, mark: nat)
    requires k < |f.cs| && KeysAre(f, w, k, mark) && Pending(f, w, k, mark, [])
    ensures KeysAre(f, w, k + 1, w.next)
  {
  }

  /** ... and every value joins the representatives under the first `k + 1` clusters. */
  lemma EndValues(f: Frame, w: Work, k: nat, mark: nat)
    requires Layout(f) && k < |f.cs| && Keeps(f, w)
    requires KeysAre(f, w, k, mark) && ValuesAre(f, w, k, mark) && Pending(f, w, k, mark, [])
    ensures ValuesAre(f, w, k + 1, w.next)
  {
    forall o | o in w.repl && w.repl[o] < mark
      ensures RepEnds(f.cs, f.base, k + 1, w.arena.edges[o], w.arena.edges[w.repl[o]])
    {
      var e := w.arena.edges[o];
      assert Crosses(f.cs, k, e);
      assert !OneEndIn(e, f.cs[k]);
      CrossedMissesNext(f.cs, f.base, k, e);
      assert RepEnds(f.cs, f.base, k, e, w.arena.edges[w.repl[o]]);
      assert Rep(f.cs, f.base, k + 1, e.v1) == Rep(f.cs, f.base, k, e.v1);
      assert Rep(f.cs, f.base, k + 1, e.v2) == Rep(f.cs, f.base, k, e.v2);
    }
  }

  /** Once every outer edge of cluster `k` is rewired, the first `k + 1` clusters are collapsed. */
  lemma StepEnd(f: Frame, w: Work, k: nat, mark: nat)
    requires Layout(f) && During(f, w, k, mark, [])
    ensures Between(f, w, k + 1)
  {
    EndKeys(f, w, k, mark);
    EndValues(f, w, k, mark);
  }

}
