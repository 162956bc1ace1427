/**
 Cluster filling (`fillCluster`): the vertices reachable from a start vertex
 along short edges, collected with an explicit stack.
 */
module Filling {
  import opened Seqs
  import opened Graphs
  import opened DeadEnds

  /**
   The vertices across the short branches of `v`: the `freeNeighbours` of
   `fillCluster` before the ones already in the cluster are filtered out.
   */
  function ShortNeighbours(g: Graph, tolerance: real, v: VertexId): set<VertexId>
    requires v in g.vertices
  {
    set e | e in g.vertices[v].branches && e in g.edges && IsShort(g.edges[e], tolerance) :: Opposite(g.edges[e], v)
  }

  /** In a closed graph the short neighbours are vertices of the graph. */
  lemma NeighboursInGraph(g: Graph, tolerance: real, v: VertexId)
    requires Closed(g) && v in g.vertices
    ensures ShortNeighbours(g, tolerance, v) <= g.vertices.Keys
  {
  }

  /** A set of vertices that contains the short neighbours of each of its members. */
  ghost predicate ShortClosed(g: Graph, tolerance: real, s: set<VertexId>) {
    forall v | v in s :: v in g.vertices && ShortNeighbours(g, tolerance, v) <= s
  }

  /**
   The stack discipline `fillCluster` relies on: a vertex that is already in
   the cluster has each short neighbour in the cluster or higher up the stack.
   */
  ghost predicate Lifo(g: Graph, tolerance: real, cluster: set<VertexId>, stack: seq<VertexId>)
    requires Elems(stack) <= g.vertices.Keys
  {
    forall i | 0 <= i < |stack| && stack[i] in cluster ::
      ShortNeighbours(g, tolerance, stack[i]) <= cluster + Elems(stack[i + 1..])
  }

  /** Every short neighbour of a cluster member is in the cluster or on the stack. */
  ghost predicate Covered(g: Graph, tolerance: real, cluster: set<VertexId>, stack: seq<VertexId>)
    requires cluster <= g.vertices.Keys
  {
    forall u | u in cluster :: ShortNeighbours(g, tolerance, u) <= cluster + Elems(stack)
  }

  /** The cluster after popping the top of the stack. */
  function NextCluster(cluster: set<VertexId>, stack: seq<VertexId>): set<VertexId>
    requires stack != []
  {
    cluster + {stack[|stack| - 1]}
  }

  /** The stack after popping its top and pushing that vertex's free neighbours. */
  function NextStack(g: Graph, tolerance: real, cluster: set<VertexId>, stack: seq<VertexId>): seq<VertexId>
    requires stack != [] && stack[|stack| - 1] in g.vertices
  {
    var v := stack[|stack| - 1];
    stack[..|stack| - 1] + Enumerate(ShortNeighbours(g, tolerance, v) - NextCluster(cluster, stack))
  }

  lemma ElemsConcat(a: seq<VertexId>, b: seq<VertexId>)
    ensures Elems(a + b) == Elems(a) + Elems(b)
  {
    forall x
      ensures x in Elems(a + b) <==> x in Elems(a) + Elems(b)
    {
      assert x in a + b <==> x in a || x in b;
    }
  }

  /** The pushed part of the next stack holds no member of the next cluster. */
  lemma PushedFree(g: Graph, tolerance: real, cluster: set<VertexId>, stack: seq<VertexId>)
    requires stack != [] && stack[|stack| - 1] in g.vertices
    ensures forall j | |stack| - 1 <= j < |NextStack(g, tolerance, cluster, stack)| ::
      NextStack(g, tolerance, cluster, stack)[j] !in NextCluster(cluster, stack)
  {
    var n := |stack|;
    var c2 := NextCluster(cluster, stack);
    var pushed := Enumerate(ShortNeighbours(g, tolerance, stack[n - 1]) - c2);
    var s2 := NextStack(g, tolerance, cluster, stack);
    forall j | n - 1 <= j < |s2|
      ensures s2[j] !in c2
    {
      assert s2[j] == pushed[j - (n - 1)];
    }
  }

  /** The members of a suffix are those of the same suffix without the last element, and that element. */
  lemma ElemsDropLast(s: seq<VertexId>, k: nat)
    requires k < |s|
    ensures Elems(s[k..]) == Elems(s[..|s| - 1][k..]) + {s[|s| - 1]}
  {
    SliceDropLast(s, k);
    ElemsConcat(s[..|s| - 1][k..], [s[|s| - 1]]);
    assert Elems([s[|s| - 1]]) == {s[|s| - 1]};
  }

  /** A cluster member covered by the old stack is covered by the next one. */
  lemma MemberCover(ns: set<VertexId>, cluster: set<VertexId>, stack: seq<VertexId>, pushed: seq<VertexId>, i: nat)
    requires i + 1 < |stack| && ns <= cluster + Elems(stack[i + 1..])
    ensures ns <= NextCluster(cluster, stack) + Elems((stack[..|stack| - 1] + pushed)[i + 1..])
  {
    var rest := stack[..|stack| - 1];
    ElemsDropLast(stack, i + 1);
    SliceConcat(rest, pushed, i + 1);
    ElemsConcat(rest[i + 1..], pushed);
  }

  /** The popped vertex is covered once its free neighbours are pushed. */
  lemma PoppedCover(ns: set<VertexId>, cluster: set<VertexId>, stack: seq<VertexId>, pushed: seq<VertexId>, i: nat)
    requires i + 1 < |stack| && ns - NextCluster(cluster, stack) <= Elems(pushed)
    ensures ns <= NextCluster(cluster, stack) + Elems((stack[..|stack| - 1] + pushed)[i + 1..])
  {
    var rest := stack[..|stack| - 1];
    SliceConcat(rest, pushed, i + 1);
    ElemsConcat(rest[i + 1..], pushed);
  }

  /** The entry at position `i` of the next stack keeps the stack discipline. */
  lemma LifoStepAt(g: Graph, tolerance: real, cluster: set<VertexId>, stack: seq<VertexId>, i: nat)
    requires Closed(g)
    requires stack != [] && Elems(stack) <= g.vertices.Keys
    requires Lifo(g, tolerance, cluster, stack)
    requires i < |NextStack(g, tolerance, cluster, stack)|
    requires NextStack(g, tolerance, cluster, stack)[i] in NextCluster(cluster, stack)
    ensures NextStack(g, tolerance, cluster, stack)[i] in g.vertices
    ensures ShortNeighbours(g, tolerance, NextStack(g, tolerance, cluster, stack)[i]) <=
      NextCluster(cluster, stack) + Elems(NextStack(g, tolerance, cluster, stack)[i + 1..])
  {
    var v := stack[|stack| - 1];
    var pushed := Enumerate(ShortNeighbours(g, tolerance, v) - NextCluster(cluster, stack));
    PushedFree(g, tolerance, cluster, stack);
    assert i < |stack| - 1;
    var u := stack[i];
    assert NextStack(g, tolerance, cluster, stack)[i] == u && u in Elems(stack);
    if u in cluster {
      MemberCover(ShortNeighbours(g, tolerance, u), cluster, stack, pushed, i);
    } else {
      assert u == v;
      PoppedCover(ShortNeighbours(g, tolerance, u), cluster, stack, pushed, i);
    }
  }

  /** Popping a vertex that is already in the cluster pushes nothing. */
  lemma RepopPushesNothing(g: Graph, tolerance: real, cluster: set<VertexId>, stack: seq<VertexId>)
    requires stack != [] && Elems(stack) <= g.vertices.Keys
    requires Lifo(g, tolerance, cluster, stack)
    requires stack[|stack| - 1] in cluster
    ensures NextCluster(cluster, stack) == cluster
    ensures NextStack(g, tolerance, cluster, stack) == stack[..|stack| - 1]
  {
    var n := |stack|;
    assert stack[n..] == [];
    assert ShortNeighbours(g, tolerance, stack[n - 1]) - NextCluster(cluster, stack) == {};
  }

  /** One step keeps the stack inside the graph and the stack discipline intact. */
  lemma LifoStep(g: Graph, tolerance: real, cluster: set<VertexId>, stack: seq<VertexId>)
    requires Closed(g)
    requires stack != [] && Elems(stack) <= g.vertices.Keys
    requires Lifo(g, tolerance, cluster, stack)
    ensures Elems(NextStack(g, tolerance, cluster, stack)) <= g.vertices.Keys
    ensures Lifo(g, tolerance, NextCluster(cluster, stack), NextStack(g, tolerance, cluster, stack))
  {
    var n := |stack|;
    var v := stack[n - 1];
    assert v in Elems(stack);
    var rest := stack[..n - 1];
    var pushed := Enumerate(ShortNeighbours(g, tolerance, v) - NextCluster(cluster, stack));
    assert NextStack(g, tolerance, cluster, stack) == rest + pushed;
    NeighboursInGraph(g, tolerance, v);
    ElemsConcat(rest, pushed);
    assert Elems(rest) <= Elems(stack);
    var s2 := NextStack(g, tolerance, cluster, stack);
    forall i | 0 <= i < |s2| && s2[i] in NextCluster(cluster, stack)
      ensures ShortNeighbours(g, tolerance, s2[i]) <= NextCluster(cluster, stack) + Elems(s2[i + 1..])
    {
      LifoStepAt(g, tolerance, cluster, stack, i);
    }
  }

  /** Pushing the members of `pushed`, in ascending order, adds exactly them. */
  lemma ElemsPush(rest: seq<VertexId>, pushed: set<VertexId>)
    ensures Elems(rest + Enumerate(pushed)) == Elems(rest) + pushed
  {
    ElemsConcat(rest, Enumerate(pushed));
  }

  /** Popping the top leaves the other vertices of the stack. */
  lemma ElemsPop(stack: seq<VertexId>)
    requires stack != []
    ensures Elems(stack) == Elems(stack[..|stack| - 1]) + {stack[|stack| - 1]}
  {
    assert stack == stack[..|stack| - 1] + [stack[|stack| - 1]];
    ElemsConcat(stack[..|stack| - 1], [stack[|stack| - 1]]);
  }

  /** The vertices on the stack after one step: the rest of it and the pushed neighbours. */
  lemma StepElems(g: Graph, tolerance: real, cluster: set<VertexId>, stack: seq<VertexId>)
    requires stack != [] && stack[|stack| - 1] in g.vertices
    ensures Elems(NextStack(g, tolerance, cluster, stack)) ==
      Elems(stack[..|stack| - 1]) + (ShortNeighbours(g, tolerance, stack[|stack| - 1]) - NextCluster(cluster, stack))
  {
    var free := ShortNeighbours(g, tolerance, stack[|stack| - 1]) - NextCluster(cluster, stack);
    assert NextStack(g, tolerance, cluster, stack) == stack[..|stack| - 1] + Enumerate(free);
    ElemsPush(stack[..|stack| - 1], free);
  }

  /** Popping `v` into the cluster and pushing its free short neighbours keeps the cluster covered. */
  lemma CoverSets(g: Graph, tolerance: real, cluster: set<VertexId>, v: VertexId, restE: set<VertexId>, stackE: set<VertexId>, nextE: set<VertexId>)
    requires v in g.vertices && cluster <= g.vertices.Keys
    requires stackE == restE + {v}
    requires nextE == restE + (ShortNeighbours(g, tolerance, v) - (cluster + {v}))
    requires forall u | u in cluster :: ShortNeighbours(g, tolerance, u) <= cluster + stackE
    ensures forall u | u in cluster + {v} :: ShortNeighbours(g, tolerance, u) <= (cluster + {v}) + nextE
  {
  }

  /** One step keeps every short neighbour of the cluster in the cluster or on the stack. */
  lemma CoveredStep(g: Graph, tolerance: real, cluster: set<VertexId>, stack: seq<VertexId>)
    requires Closed(g)
    requires stack != [] && Elems(stack) <= g.vertices.Keys && cluster <= g.vertices.Keys
    ensures NextCluster(cluster, stack) <= g.vertices.Keys
    ensures Covered(g, tolerance, cluster, stack) ==>
      Covered(g, tolerance, NextCluster(cluster, stack), NextStack(g, tolerance, cluster, stack))
    ensures cluster + Elems(stack) <= NextCluster(cluster, stack) + Elems(NextStack(g, tolerance, cluster, stack))
  {
    var v := stack[|stack| - 1];
    assert v in Elems(stack);
    ElemsPop(stack);
    StepElems(g, tolerance, cluster, stack);
    if Covered(g, tolerance, cluster, stack) {
      CoverSets(g, tolerance, cluster, v, Elems(stack[..|stack| - 1]), Elems(stack), Elems(NextStack(g, tolerance, cluster, stack)));
    }
  }

  /** The measure of `FillFrom`: vertices still outside the cluster, then the stack height. */
  lemma StepDecreases(g: Graph, tolerance: real, cluster: set<VertexId>, stack: seq<VertexId>)
    requires Closed(g)
    requires stack != [] && Elems(stack) <= g.vertices.Keys
    requires Lifo(g, tolerance, cluster, stack)
    ensures
      || |g.vertices.Keys - NextCluster(cluster, stack)| < |g.vertices.Keys - cluster|
      || (NextCluster(cluster, stack) == cluster && |NextStack(g, tolerance, cluster, stack)| < |stack|)
  {
    var v := stack[|stack| - 1];
    assert v in Elems(stack);
    if v !in cluster {
      assert g.vertices.Keys - cluster == (g.vertices.Keys - NextCluster(cluster, stack)) + {v};
    } else {
      RepopPushesNothing(g, tolerance, cluster, stack);
      assert |stack[..|stack| - 1]| < |stack|;
    }
  }

  /**
   `fillCluster` from a given cluster and stack: pop the top vertex, add it to
   the cluster, push its short neighbours that are not yet in the cluster, and
   repeat until the stack is empty. The result holds everything on the stack
   and in the cluster, stays inside the graph, and is closed under short
   neighbours once the starting state covered the cluster's neighbours.
   */
  function FillFrom(g: Graph, tolerance: real, cluster: set<VertexId>, stack: seq<VertexId>): (r: set<VertexId>)
    requires Closed(g)
    requires cluster <= g.vertices.Keys && Elems(stack) <= g.vertices.Keys
    requires Lifo(g, tolerance, cluster, stack)
    ensures cluster + Elems(stack) <= r
    ensures r <= g.vertices.Keys
    ensures Covered(g, tolerance, cluster, stack) ==> ShortClosed(g, tolerance, r)
    decreases |g.vertices.Keys - cluster|, |stack|
  {
    if stack == [] then
      cluster
    else
      LifoStep(g, tolerance, cluster, stack);
      StepDecreases(g, tolerance, cluster, stack);
      CoveredStep(g, tolerance, cluster, stack);
      FillFrom(g, tolerance, NextCluster(cluster, stack), NextStack(g, tolerance, cluster, stack))
  }

  /**
   `fillCluster(start, tolerance)`: the cluster grown from a stack holding only
   the start vertex. It contains the start, lies in the graph and is closed
   under short neighbours.
   */
  function Fill(g: Graph, tolerance: real, start: VertexId): (r: set<VertexId>)
    requires Closed(g) && start in g.vertices
    ensures start in r
    ensures r <= g.vertices.Keys
    ensures ShortClosed(g, tolerance, r)
  {
    assert Elems([start]) == {start};
    FillFrom(g, tolerance, {}, [start])
  }

  /** One step never leaves a closed set that holds the cluster and the stack. */
  lemma LeastStep(g: Graph, tolerance: real, cluster: set<VertexId>, stack: seq<VertexId>, s: set<VertexId>)
    requires stack != [] && Elems(stack) <= g.vertices.Keys
    requires ShortClosed(g, tolerance, s) && cluster + Elems(stack) <= s
    ensures NextCluster(cluster, stack) + Elems(NextStack(g, tolerance, cluster, stack)) <= s
  {
    var v := stack[|stack| - 1];
    var rest := stack[..|stack| - 1];
    var pushed := Enumerate(ShortNeighbours(g, tolerance, v) - NextCluster(cluster, stack));
    assert v in Elems(stack);
    assert NextStack(g, tolerance, cluster, stack) == rest + pushed;
    ElemsConcat(rest, pushed);
    assert Elems(rest) <= Elems(stack);
  }

  /** Filling never leaves a closed set that holds the cluster and the stack. */
  lemma {:induction false} FillFromLeast(g: Graph, tolerance: real, cluster: set<VertexId>, stack: seq<VertexId>, s: set<VertexId>)
    requires Closed(g)
    requires cluster <= g.vertices.Keys && Elems(stack) <= g.vertices.Keys
    requires Lifo(g, tolerance, cluster, stack)
    requires ShortClosed(g, tolerance, s) && cluster + Elems(stack) <= s
    ensures FillFrom(g, tolerance, cluster, stack) <= s
    decreases |g.vertices.Keys - cluster|, |stack|
  {
    if stack != [] {
      LifoStep(g, tolerance, cluster, stack);
      StepDecreases(g, tolerance, cluster, stack);
      CoveredStep(g, tolerance, cluster, stack);
      LeastStep(g, tolerance, cluster, stack, s);
      FillFromLeast(g, tolerance, NextCluster(cluster, stack), NextStack(g, tolerance, cluster, stack), s);
    }
  }

  /**
   The cluster of `start` is the least set that contains `start` and is closed
   under short neighbours: the vertices reachable from `start` along short
   edges.
   */
  lemma FillLeast(g: Graph, tolerance: real, start: VertexId, s: set<VertexId>)
    requires Closed(g) && start in g.vertices
    requires ShortClosed(g, tolerance, s) && start in s
    ensures Fill(g, tolerance, start) <= s
  {
    assert Elems([start]) == {start};
    FillFromLeast(g, tolerance, {}, [start], s);
  }

  /** In a consistent graph the short-neighbour relation is symmetric. */
  lemma NeighbourSymmetric(g: Graph, tolerance: real, w: VertexId, x: VertexId)
    requires Consistent(g)
    requires w in g.vertices && x in ShortNeighbours(g, tolerance, w)
    ensures x in g.vertices && w in ShortNeighbours(g, tolerance, x)
  {
    var e :| e in g.vertices[w].branches && e in g.edges && IsShort(g.edges[e], tolerance) && Opposite(g.edges[e], w) == x;
    assert Count(g.vertices[w].branches, e) > 0;
    assert Slots(g.edges[e], w) > 0;
    assert e in g.vertices[x].branches;
    assert Opposite(g.edges[e], x) == w;
  }

  /** In a consistent graph, removing a closed set from a closed set leaves a closed set. */
  lemma DifferenceClosed(g: Graph, tolerance: real, a: set<VertexId>, b: set<VertexId>)
    requires Consistent(g)
    requires ShortClosed(g, tolerance, a) && ShortClosed(g, tolerance, b)
    ensures ShortClosed(g, tolerance, a - b)
  {
    forall w, x | w in a - b && x in ShortNeighbours(g, tolerance, w)
      ensures x in a - b
    {
      if x in b {
        NeighbourSymmetric(g, tolerance, w, x);
      }
    }
  }

  /** Vertices in the same cluster grow the same cluster. */
  lemma FillSame(g: Graph, tolerance: real, u: VertexId, v: VertexId)
    requires Consistent(g) && v in g.vertices
    requires u in Fill(g, tolerance, v)
    ensures Fill(g, tolerance, u) == Fill(g, tolerance, v)
  {
    var fv := Fill(g, tolerance, v);
    FillLeast(g, tolerance, u, fv);
    var fu := Fill(g, tolerance, u);
    if v !in fu {
      DifferenceClosed(g, tolerance, fv, fu);
      FillLeast(g, tolerance, v, fv - fu);
      assert false;
    }
    FillLeast(g, tolerance, v, fu);
  }

  /** Two clusters are equal or disjoint. */
  lemma FillDisjoint(g: Graph, tolerance: real, a: VertexId, b: VertexId)
    requires Consistent(g) && a in g.vertices && b in g.vertices
    requires b !in Fill(g, tolerance, a)
    ensures Fill(g, tolerance, a) * Fill(g, tolerance, b) == {}
  {
    forall x | x in Fill(g, tolerance, a) && x in Fill(g, tolerance, b)
      ensures false
    {
      FillSame(g, tolerance, x, a);
      FillSame(g, tolerance, x, b);
    }
  }
}
