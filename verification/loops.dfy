/** Loop removal (`removeLoops` / `isLoop`). */
module Loops {
  import opened Seqs
  import opened Graphs

  /** The ids of the loop edges. */
  function LoopIds(g: Graph): set<EdgeId> {
    set e | e in g.edges && IsLoop(g.edges[e])
  }

  /**
   Collects the loops, detaches each from its vertex and drops it from the
   edge set. No loop is left; every other edge, and every vertex with its
   points, is kept as it was.
   */
  function RemoveLoops(g: Graph): (r: Graph)
    ensures LoopFree(r)
    ensures forall v :: v in r.vertices <==> v in g.vertices
    ensures forall v | v in g.vertices :: r.vertices[v].points == g.vertices[v].points
    ensures forall e :: e in r.edges <==> e in g.edges && !IsLoop(g.edges[e])
    ensures forall e | e in r.edges :: r.edges[e] == g.edges[e]
  {
    RemoveEdges(g, Enumerate(LoopIds(g)))
  }

  /**
   When no branch list over-counts an edge, each removed loop disappears from
   its vertex's branches (both occurrences, if it was listed twice) and no
   other branch entry changes.
   */
  lemma RemoveLoopsDetaches(g: Graph)
    requires NoExcess(g)
    ensures ClearedOf(g, RemoveLoops(g), LoopIds(g))
  {
    RemoveSetClears(g, LoopIds(g));
  }

  /** Loop removal keeps the graph invariant. */
  lemma RemoveLoopsConsistent(g: Graph)
    requires Consistent(g)
    ensures Consistent(RemoveLoops(g))
  {
    RemoveLoopsDetaches(g);
    ClearedConsistent(g, RemoveLoops(g), LoopIds(g));
  }
}
