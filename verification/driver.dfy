/**
 The pruning driver (`pruneShortEdges`): drops the loops, measures every edge,
 then runs rounds of dead-end pruning, cluster cleaning and parallel-edge
 removal, once or, when asked to iterate, until a round no longer changes
 the number of vertices.
 */
module Pruning {
  import opened Seqs
  import opened Graphs
  import opened DeadEnds
  import opened Loops
  import opened Cleaning
  import opened Parallel
  import opened Clusters
  import opened Step

  /** Measuring lengths changes no endpoint, so the graph invariant and loop-freedom survive it. */
  lemma MeasureKeeps(a: Graph, ids: set<EdgeId>, dist: (seq<Point>, seq<Point>) -> real)
    requires Consistent(a) && LoopFree(a)
    ensures Consistent(Measure(a, ids, dist)) && LoopFree(Measure(a, ids, dist))
  {
    var r := Measure(a, ids, dist);
    forall v, e | v in r.vertices && e in r.edges
      ensures Slots(r.edges[e], v) == Slots(a.edges[e], v)
    {
    }
    forall e | e in r.edges
      ensures !IsLoop(r.edges[e])
    {
      assert !IsLoop(a.edges[e]);
    }
  }

  /** Dead-end pruning keeps the graph invariant, adds no loop and no vertex. */
  lemma PruneDeadEndsKeeps(g: Graph, tolerance: real)
    requires Consistent(g) && LoopFree(g)
    ensures Consistent(PruneDeadEnds(g, tolerance)) && LoopFree(PruneDeadEnds(g, tolerance))
    ensures |PruneDeadEnds(g, tolerance).vertices| <= |g.vertices|
  {
    var r := PruneDeadEnds(g, tolerance);
    PruneDeadEndsConsistent(g, tolerance);
    assert forall e | e in r.edges :: !IsLoop(g.edges[e]);
    SubsetNoLarger(r.vertices.Keys, g.vertices.Keys);
  }

  /**
   A cleaning step keeps the graph invariant and loop-freedom, adds no
   vertex, and replaces the clusters of short edges as `cleaningStep` does.
   */
  method CleanOnce(g: Graph, tolerance: real, dist: (seq<Point>, seq<Point>) -> real) returns (r: Graph)
    requires Consistent(g) && LoopFree(g)
    ensures Consistent(r) && LoopFree(r)
    ensures |r.vertices| <= |g.vertices|
    ensures VerticesAfter(g, tolerance, FindClusters(g, tolerance), NextId(g.vertices.Keys), r)
    ensures EdgesAfter(g, FindClusters(g, tolerance), NextId(g.vertices.Keys), dist, r)
  {
    r := CleaningStep(g, tolerance, dist);
  }

  /**
   What `removeParallelEdges` leaves of `g`: the same vertices and points, a
   subset of the edges, and of each pair of edges joining the same two
   vertices only the first in ascending id order.
   */
  ghost predicate ParallelRemoved(g: Graph, r: Graph) {
    && (forall v :: v in r.vertices <==> v in g.vertices)
    && (forall v | v in g.vertices :: r.vertices[v].points == g.vertices[v].points)
    && (forall e | e in r.edges :: e in g.edges && r.edges[e] == g.edges[e])
    && FirstOfEachPair(g, r, Enumerate(g.edges.Keys))
  }

  /**
   `removeParallelEdges`, visiting vertices and edges in ascending id order,
   keeps the graph invariant, loop-freedom and every vertex.
   */
  method RemoveParallelOnce(g: Graph) returns (r: Graph)
    requires Consistent(g) && LoopFree(g)
    ensures Consistent(r) && LoopFree(r) && NoParallel(r)
    ensures |r.vertices| == |g.vertices|
    ensures ParallelRemoved(g, r)
  {
    r := RemoveParallelEdges(g, Enumerate(g.vertices.Keys), Enumerate(g.edges.Keys));
    ClearedConsistent(g, r, g.edges.Keys - r.edges.Keys);
    SameIdsSameSize(r.vertices, g.vertices);
  }

  /**
   `r` is what one pass of the loop in `pruneShortEdges` makes of `g`, with
   `c` the graph between `cleaningStep` and `removeParallelEdges`: the dead
   ends of `g` pruned, the clusters of the pruned graph collapsed into their
   centres, then the parallel edges of `c` removed.
   */
  ghost predicate RoundOf(g: Graph, tolerance: real, dist: (seq<Point>, seq<Point>) -> real, c: Graph, r: Graph) {
    && Closed(g)
    && var p := PruneDeadEnds(g, tolerance);
    && Closed(p)
    && VerticesAfter(p, tolerance, FindClusters(p, tolerance), NextId(p.vertices.Keys), c)
    && EdgesAfter(p, FindClusters(p, tolerance), NextId(p.vertices.Keys), dist, c)
    && ParallelRemoved(c, r)
  }

  /**
   One pass of the loop in `pruneShortEdges`: `pruneDeadEnds`, then
   `cleaningStep`, then `removeParallelEdges` (visiting vertices and edges in
   ascending id order). The result is consistent, without loops or parallel
   edges, and has no more vertices than the graph had.
   */
  method Round(g: Graph, tolerance: real, dist: (seq<Point>, seq<Point>) -> real) returns (c: Graph, r: Graph)
    requires Consistent(g) && LoopFree(g)
    ensures Consistent(r) && LoopFree(r) && NoParallel(r)
    ensures |r.vertices| <= |g.vertices|
    ensures RoundOf(g, tolerance, dist, c, r)
  {
    var p := PruneDeadEnds(g, tolerance);
    PruneDeadEndsKeeps(g, tolerance);
    c := CleanOnce(p, tolerance, dist);
    r := RemoveParallelOnce(c);
  }

  /** Two vertex maps over the same ids have the same size. */
  lemma SameIdsSameSize(a: map<VertexId, Vertex>, b: map<VertexId, Vertex>)
    requires forall v :: v in a <==> v in b
    ensures |a| == |b|
  {
    assert a.Keys == b.Keys;
  }

  /** Loop removal keeps the number of vertices. */
  lemma RemoveLoopsCount(g: Graph)
    ensures |RemoveLoops(g).vertices| == |g.vertices|
  {
    assert RemoveLoops(g).vertices.Keys == g.vertices.Keys;
  }

  /** Loop removal keeps the graph invariant and every vertex. */
  lemma RemoveLoopsKeeps(g: Graph)
    requires Consistent(g)
    ensures Consistent(RemoveLoops(g)) && LoopFree(RemoveLoops(g))
    ensures |RemoveLoops(g).vertices| == |g.vertices|
  {
    RemoveLoopsConsistent(g);
    RemoveLoopsCount(g);
  }

  /** The graph the rounds of `pruneShortEdges` start from: no loops, every edge measured with `dist`. */
  function Prepared(graph: Graph, dist: (seq<Point>, seq<Point>) -> real): Graph
    requires Closed(graph)
  {
    Measure(RemoveLoops(graph), RemoveLoops(graph).edges.Keys, dist)
  }

  /** The set-up keeps the graph invariant and every vertex, and leaves no loop. */
  lemma PreparedKeeps(graph: Graph, dist: (seq<Point>, seq<Point>) -> real)
    requires Consistent(graph)
    ensures Consistent(Prepared(graph, dist)) && LoopFree(Prepared(graph, dist))
    ensures |Prepared(graph, dist).vertices| == |graph.vertices|
  {
    RemoveLoopsKeeps(graph);
    MeasureKeeps(RemoveLoops(graph), RemoveLoops(graph).edges.Keys, dist);
  }

  /** Round `i` of a run went from `trace[i]` through `cleans[i]` to `trace[i + 1]`. */
  ghost predicate RoundAt(trace: seq<Graph>, cleans: seq<Graph>, tolerance: real, dist: (seq<Point>, seq<Point>) -> real, i: int) {
    && 0 <= i < |cleans| < |trace|
    && RoundOf(trace[i], tolerance, dist, cleans[i], trace[i + 1])
  }

  /**
   The rounds of a run: `trace[0]` is the graph the first round started
   from, each `trace[i + 1]` is round i's result, with `cleans[i]` its graph
   before the parallel edges went.
   */
  ghost predicate Rounds(trace: seq<Graph>, cleans: seq<Graph>, tolerance: real, dist: (seq<Point>, seq<Point>) -> real) {
    && |trace| == |cleans| + 1
    && forall i | 0 <= i < |cleans| :: RoundAt(trace, cleans, tolerance, dist, i)
  }

  /** One more round appended to a run is still a run. */
  lemma RoundsExtend(trace: seq<Graph>, cleans: seq<Graph>, tolerance: real, dist: (seq<Point>, seq<Point>) -> real, g: Graph, c: Graph, r: Graph)
    requires Rounds(trace, cleans, tolerance, dist) && trace[|cleans|] == g
    requires RoundOf(g, tolerance, dist, c, r)
    ensures Rounds(trace + [r], cleans + [c], tolerance, dist)
  {
    forall i | 0 <= i < |cleans| + 1
      ensures RoundAt(trace + [r], cleans + [c], tolerance, dist, i)
    {
      if i < |cleans| {
        assert RoundAt(trace, cleans, tolerance, dist, i);
        assert (trace + [r])[i] == trace[i] && (trace + [r])[i + 1] == trace[i + 1] && (cleans + [c])[i] == cleans[i];
      }
    }
  }

  /** Each of the first `n` rounds of `trace` took at least one vertex away. */
  ghost predicate Shrinking(trace: seq<Graph>, n: int)
    requires n < |trace|
  {
    forall i | 0 <= i < n :: |trace[i + 1].vertices| < |trace[i].vertices|
  }

  /** A run that shrank in every round so far, including round `n - 1`, still has after one more. */
  lemma ShrinkingExtend(trace: seq<Graph>, n: nat, r: Graph)
    requires n < |trace| && Shrinking(trace, n - 1)
    requires 1 <= n ==> |trace[n].vertices| < |trace[n - 1].vertices|
    ensures Shrinking(trace + [r], n)
  {
    assert forall i | 0 <= i < |trace| :: (trace + [r])[i] == trace[i];
  }

  /** One round from the end of a run, appended to it. */
  method Advance(g: Graph, tolerance: real, dist: (seq<Point>, seq<Point>) -> real, ghost trace: seq<Graph>, ghost cleans: seq<Graph>)
    returns (r: Graph, ghost trace': seq<Graph>, ghost cleans': seq<Graph>)
    requires Consistent(g) && LoopFree(g)
    requires Rounds(trace, cleans, tolerance, dist) && trace[|cleans|] == g
    ensures Consistent(r) && LoopFree(r) && NoParallel(r)
    ensures |r.vertices| <= |g.vertices|
    ensures Rounds(trace', cleans', tolerance, dist)
    ensures trace' == trace + [r] && |cleans'| == |cleans| + 1
  {
    var c;
    c, r := Round(g, tolerance, dist);
    RoundsExtend(trace, cleans, tolerance, dist, g, c, r);
    trace', cleans' := trace + [r], cleans + [c];
  }

  /**
   The loop of `pruneShortEdges`: one round from `start`, or with `iterate`
   rounds until one leaves the vertex count as it was. `trace` lists the
   graphs the rounds went through, from `start` to the result, and each
   round but the last took at least one vertex away, so the loop ends.
   */
  method RunRounds(start: Graph, tolerance: real, iterate: bool, dist: (seq<Point>, seq<Point>) -> real)
    returns (pruned: Graph, rounds: nat, ghost trace: seq<Graph>, ghost cleans: seq<Graph>)
    requires Consistent(start) && LoopFree(start)
    ensures Consistent(pruned) && LoopFree(pruned) && NoParallel(pruned)
    ensures 1 <= rounds && (!iterate ==> rounds == 1)
    ensures |pruned.vertices| + rounds <= |start.vertices| + 1
    ensures |cleans| == rounds && Rounds(trace, cleans, tolerance, dist)
    ensures trace[0] == start && trace[rounds] == pruned
    ensures Shrinking(trace, rounds - 1)
    ensures iterate ==> |trace[rounds].vertices| == |trace[rounds - 1].vertices|
  {
    pruned := start;
    trace, cleans := [start], [];
    var prune := true;
    rounds := 0;
    while prune
      invariant Consistent(pruned) && LoopFree(pruned)
      invariant prune || NoParallel(pruned)
      invariant prune ==> |pruned.vertices| + rounds <= |start.vertices|
      invariant !prune ==> 1 <= rounds && |pruned.vertices| + rounds <= |start.vertices| + 1
      invariant !iterate ==> rounds <= 1 && (prune <==> rounds == 0)
      invariant |cleans| == rounds && Rounds(trace, cleans, tolerance, dist)
      invariant trace[0] == start && trace[rounds] == pruned
      invariant Shrinking(trace, rounds - 1)
      invariant prune && 1 <= rounds ==> |trace[rounds].vertices| < |trace[rounds - 1].vertices|
      invariant iterate && !prune ==> |trace[rounds].vertices| == |trace[rounds - 1].vertices|
      decreases prune, |pruned.vertices|
    {
      var startSize := |pruned.vertices|;
      var r;
      ghost var trace', cleans';
      r, trace', cleans' := Advance(pruned, tolerance, dist, trace, cleans);
      ShrinkingExtend(trace, rounds, r);
      trace, cleans := trace', cleans';
      pruned := r;
      rounds := rounds + 1;
      prune := iterate && startSize != |pruned.vertices|;
    }
  }

  /**
   `pruneShortEdges`: removes the loops, measures every edge with `dist`, and
   runs the rounds of `RunRounds` from the graph that leaves. `last` is the
   graph the final round started from and `cleaned` that round's graph
   before the parallel edges went: without `iterate`, `last` is the prepared
   graph, and with it, the final round kept the number of vertices.
   */
  method PruneShortEdges(graph: Graph, tolerance: real, iterate: bool, dist: (seq<Point>, seq<Point>) -> real)
    returns (pruned: Graph, rounds: nat, ghost last: Graph, ghost cleaned: Graph, ghost trace: seq<Graph>, ghost cleans: seq<Graph>)
    requires Consistent(graph)
    ensures Consistent(pruned) && LoopFree(pruned) && NoParallel(pruned)
    ensures 1 <= rounds && (!iterate ==> rounds == 1)
    ensures |pruned.vertices| + rounds <= |graph.vertices| + 1
    ensures RoundOf(last, tolerance, dist, cleaned, pruned)
    ensures !iterate ==> last == Prepared(graph, dist)
    ensures iterate ==> |pruned.vertices| == |last.vertices|
    ensures |trace| == rounds + 1 && |cleans| == rounds
    ensures forall i | 0 <= i < rounds :: RoundOf(trace[i], tolerance, dist, cleans[i], trace[i + 1])
    ensures trace[0] == Prepared(graph, dist) && trace[rounds] == pruned
    ensures last == trace[rounds - 1] && cleaned == cleans[rounds - 1]
    ensures Shrinking(trace, rounds - 1)
  {
    var start := Prepared(graph, dist);
    PreparedKeeps(graph, dist);
    pruned, rounds, trace, cleans := RunRounds(start, tolerance, iterate, dist);
    forall i | 0 <= i < rounds
      ensures RoundOf(trace[i], tolerance, dist, cleans[i], trace[i + 1])
    {
      assert RoundAt(trace, cleans, tolerance, dist, i);
    }
    last, cleaned := trace[rounds - 1], cleans[rounds - 1];
  }
}
