/** Dead-end pruning (`pruneDeadEnds`, `isDeadEnd`, `isShort`). */
module DeadEnds {
  import opened Seqs
  import opened Graphs

  /** `isShort`: the cached length is below the tolerance. */
  predicate IsShort(e: Edge, tolerance: real) {
    e.length < tolerance
  }

  /** How many of the two endpoint slots hold a vertex with exactly one branch. */
  function TerminalSlots(g: Graph, e: Edge): nat
    requires e.v1 in g.vertices && e.v2 in g.vertices
  {
    (if Degree(g, e.v1) == 1 then 1 else 0) + (if Degree(g, e.v2) == 1 then 1 else 0)
  }

  /**
   `isDeadEnd`: exactly one of the two endpoint slots holds a vertex of degree
   one. Both slots are counted, so a loop is never a dead end.
   */
  predicate IsDeadEnd(g: Graph, e: Edge)
    requires e.v1 in g.vertices && e.v2 in g.vertices
  {
    TerminalSlots(g, e) == 1
  }

  /** The short dead ends of the graph. */
  function DeadEndIds(g: Graph, tolerance: real): (r: set<EdgeId>)
    requires Closed(g)
    ensures forall e :: e in r <==> e in g.edges && IsDeadEnd(g, g.edges[e]) && IsShort(g.edges[e], tolerance)
  {
    set e | e in g.edges && IsDeadEnd(g, g.edges[e]) && IsShort(g.edges[e], tolerance)
  }

  /** `v` is an endpoint of one of the edges in `es`. */
  predicate Touches(g: Graph, es: set<EdgeId>, v: VertexId) {
    exists e | e in es && e in g.edges :: Slots(g.edges[e], v) > 0
  }

  /** The endpoints of the short dead ends that have exactly one branch. */
  function Terminals(g: Graph, tolerance: real): (r: set<VertexId>)
    requires Closed(g)
    ensures forall v :: v in r <==>
      v in g.vertices && Degree(g, v) == 1 && Touches(g, DeadEndIds(g, tolerance), v)
  {
    var dead := DeadEndIds(g, tolerance);
    set v | v in g.vertices && Degree(g, v) == 1 && Touches(g, dead, v)
  }

  /**
   Removes the terminal vertices of the short dead ends, then detaches and
   drops the short dead ends themselves. Both sets are computed on the graph
   as it was on entry.
   */
  function PruneDeadEnds(g: Graph, tolerance: real): (r: Graph)
    requires Closed(g)
    ensures forall e :: e in r.edges <==>
      e in g.edges && !(IsDeadEnd(g, g.edges[e]) && IsShort(g.edges[e], tolerance))
    ensures forall e | e in r.edges :: r.edges[e] == g.edges[e]
    ensures forall v :: v in r.vertices <==>
      v in g.vertices && !(Degree(g, v) == 1 && Touches(g, DeadEndIds(g, tolerance), v))
    ensures forall v | v in r.vertices :: r.vertices[v].points == g.vertices[v].points
  {
    RemoveEdges(WithoutTerminals(g, tolerance), Enumerate(DeadEndIds(g, tolerance)))
  }

  /** The graph after `getVertices().removeAll(terminals)`, before any edge goes. */
  function WithoutTerminals(g: Graph, tolerance: real): Graph
    requires Closed(g)
  {
    Graph(g.vertices - Terminals(g, tolerance), g.edges)
  }

  /** Two different edges in a branch list make at least two branches. */
  lemma TwoBranches(b: seq<EdgeId>, d: EdgeId, e: EdgeId)
    requires d != e && d in b && e in b
    ensures |b| >= 2
  {
  }

  /**
   In a consistent graph a terminal's single branch is its dead end, so no
   edge other than a short dead end ends at a removed vertex.
   */
  lemma NotTerminal(g: Graph, tolerance: real, e: EdgeId, v: VertexId)
    requires Closed(g) && Listed(g)
    requires e in g.edges && e !in DeadEndIds(g, tolerance)
    requires Slots(g.edges[e], v) > 0
    ensures v !in Terminals(g, tolerance)
  {
    if v in Terminals(g, tolerance) {
      var d :| d in DeadEndIds(g, tolerance) && d in g.edges && Slots(g.edges[d], v) > 0;
      TwoBranches(g.vertices[v].branches, d, e);
      assert false;
    }
  }

  /** Removing the dead ends clears exactly them from the remaining branch lists. */
  lemma PruneDeadEndsClears(g: Graph, tolerance: real)
    requires Closed(g) && NoExcess(g)
    ensures ClearedOf(WithoutTerminals(g, tolerance), PruneDeadEnds(g, tolerance), DeadEndIds(g, tolerance))
  {
    var h := WithoutTerminals(g, tolerance);
    assert NoExcess(h);
    RemoveSetClears(h, DeadEndIds(g, tolerance));
  }

  /** Neither end of an edge that is not a short dead end is a terminal. */
  lemma EndsNotTerminal(g: Graph, tolerance: real, e: EdgeId)
    requires Closed(g) && Listed(g)
    requires e in g.edges && e !in DeadEndIds(g, tolerance)
    ensures g.edges[e].v1 !in Terminals(g, tolerance) && g.edges[e].v2 !in Terminals(g, tolerance)
  {
    NotTerminal(g, tolerance, e, g.edges[e].v1);
    NotTerminal(g, tolerance, e, g.edges[e].v2);
  }

  /**
   A graph keeping every non-terminal vertex and only edges of `g` that are
   not short dead ends is closed.
   */
  lemma SurvivorsClosed(g: Graph, tolerance: real, r: Graph)
    requires Closed(g) && Listed(g)
    requires forall e | e in r.edges :: e in g.edges && e !in DeadEndIds(g, tolerance) && r.edges[e] == g.edges[e]
    requires forall v | v in g.vertices && v !in Terminals(g, tolerance) :: v in r.vertices
    ensures Closed(r)
  {
    forall e | e in r.edges
      ensures r.edges[e].v1 in r.vertices && r.edges[e].v2 in r.vertices
    {
      EndsNotTerminal(g, tolerance, e);
    }
  }

  /**
   The edge cases of `pruneDeadEnds`: an edge whose two ends both have a
   single branch survives, and so does one exactly as long as the tolerance;
   a shorter edge with one single-branch end goes, and that end with it.
   */
  lemma DeadEndCases(g: Graph, tolerance: real, e: EdgeId)
    requires Closed(g) && e in g.edges
    ensures var d := g.edges[e];
      && (Degree(g, d.v1) == 1 && Degree(g, d.v2) == 1 ==> e in PruneDeadEnds(g, tolerance).edges)
      && (d.length == tolerance ==> e in PruneDeadEnds(g, tolerance).edges)
      && (d.length < tolerance && Degree(g, d.v1) == 1 && Degree(g, d.v2) != 1 ==>
            e !in PruneDeadEnds(g, tolerance).edges && d.v1 !in PruneDeadEnds(g, tolerance).vertices)
  {
    var d := g.edges[e];
    if d.length < tolerance && Degree(g, d.v1) == 1 && Degree(g, d.v2) != 1 {
      assert TerminalSlots(g, d) == 1;
      assert e in DeadEndIds(g, tolerance);
      assert Slots(d, d.v1) > 0;
    }
  }

  /** No surviving edge ends at a removed terminal. */
  lemma PruneDeadEndsClosed(g: Graph, tolerance: real)
    requires Closed(g) && Listed(g)
    ensures Closed(PruneDeadEnds(g, tolerance))
  {
    SurvivorsClosed(g, tolerance, PruneDeadEnds(g, tolerance));
  }

  /**
   Dead-end pruning keeps the graph invariant, and each surviving vertex loses
   exactly its short dead ends from its branch list.
   */
  lemma PruneDeadEndsConsistent(g: Graph, tolerance: real)
    requires Consistent(g)
    ensures Consistent(PruneDeadEnds(g, tolerance))
    ensures forall v, x | v in PruneDeadEnds(g, tolerance).vertices ::
      Count(PruneDeadEnds(g, tolerance).vertices[v].branches, x) ==
        if x in DeadEndIds(g, tolerance) then 0 else Count(g.vertices[v].branches, x)
  {
    var dead := DeadEndIds(g, tolerance);
    var h := WithoutTerminals(g, tolerance);
    var r := PruneDeadEnds(g, tolerance);
    PruneDeadEndsClears(g, tolerance);
    assert BranchesInEdges(h);
    assert Listed(h);
    ClearedBranches(h, r, dead);
    ClearedNoExcess(h, r, dead);
    ClearedListed(h, r, dead);
    PruneDeadEndsClosed(g, tolerance);
  }
}
