/**
 What collapsing clusters means for a single vertex: the i-th cluster is
 replaced by a centre vertex numbered `base + i`, and every member of the
 cluster is represented by that centre. `base` lies above every vertex id of
 the graph, so centres are new vertices and belong to no cluster.
 */
module Quotient {
  import opened Graphs
  import opened Clusters

  /** Exactly one endpoint of `e` lies in `c`. */
  predicate OneEndIn(e: Edge, c: set<VertexId>) {
    (e.v1 in c) != (e.v2 in c)
  }

  /** `v` is in none of the first `k` clusters. */
  predicate Outside(cs: seq<set<VertexId>>, k: nat, v: VertexId)
    requires k <= |cs|
  {
    k == 0 || (v !in cs[k - 1] && Outside(cs, k - 1, v))
  }

  /** `e` has exactly one endpoint in one of the first `k` clusters. */
  predicate Crosses(cs: seq<set<VertexId>>, k: nat, e: Edge)
    requires k <= |cs|
  {
    k > 0 && (OneEndIn(e, cs[k - 1]) || Crosses(cs, k - 1, e))
  }

  /** The vertex standing for `v` once the first `k` clusters are collapsed. */
  function Rep(cs: seq<set<VertexId>>, base: nat, k: nat, v: VertexId): VertexId
    requires k <= |cs|
  {
    if k == 0 then v
    else if v in cs[k - 1] then base + k - 1
    else Rep(cs, base, k - 1, v)
  }

  /** `e`'s endpoints, in order, after collapsing the first `k` clusters. */
  predicate RepEnds(cs: seq<set<VertexId>>, base: nat, k: nat, e: Edge, n: Edge)
    requires k <= |cs|
  {
    n.v1 == Rep(cs, base, k, e.v1) && n.v2 == Rep(cs, base, k, e.v2)
  }

  /** The centres of `count` clusters. */
  function CentreIds(base: nat, count: nat): (r: set<VertexId>)
    ensures forall v :: v in r <==> base <= v < base + count
    ensures |r| == count
  {
    if count == 0 then {} else CentreIds(base, count - 1) + {base + count - 1}
  }

  /** Disjoint clusters of vertices below `base`. */
  ghost predicate Separate(cs: seq<set<VertexId>>, base: nat) {
    && PairwiseDisjoint(cs)
    && (forall i, v | 0 <= i < |cs| && v in cs[i] :: v < base)
  }

  /** A member of cluster i < k is represented by centre `base + i`. */
  lemma {:induction false} RepMember(cs: seq<set<VertexId>>, base: nat, k: nat, i: nat, v: VertexId)
    requires Separate(cs, base)
    requires i < k <= |cs| && v in cs[i]
    ensures Rep(cs, base, k, v) == base + i
    decreases k
  {
    if i < k - 1 {
      assert cs[i] * cs[k - 1] == {};
      assert v !in cs[i] * cs[k - 1];
      RepMember(cs, base, k - 1, i, v);
    }
  }

  /** A vertex outside the first `k` clusters represents itself. */
  lemma {:induction false} RepOutside(cs: seq<set<VertexId>>, base: nat, k: nat, v: VertexId)
    requires k <= |cs| && Outside(cs, k, v)
    ensures Rep(cs, base, k, v) == v
    decreases k
  {
    if k > 0 {
      RepOutside(cs, base, k - 1, v);
    }
  }

  /** `Outside` says what its name says. */
  lemma {:induction false} OutsideIff(cs: seq<set<VertexId>>, k: nat, v: VertexId)
    requires k <= |cs|
    ensures Outside(cs, k, v) <==> forall i | 0 <= i < k :: v !in cs[i]
    decreases k
  {
    if k > 0 {
      OutsideIff(cs, k - 1, v);
    }
  }

  /** `Crosses` says what its name says. */
  lemma {:induction false} CrossesIff(cs: seq<set<VertexId>>, k: nat, e: Edge)
    requires k <= |cs|
    ensures Crosses(cs, k, e) <==> exists i | 0 <= i < k :: OneEndIn(e, cs[i])
    decreases k
  {
    if k > 0 {
      CrossesIff(cs, k - 1, e);
      if OneEndIn(e, cs[k - 1]) {
        assert exists i | 0 <= i < k :: OneEndIn(e, cs[i]);
      }
    }
  }

  /**
   A representative is the vertex itself exactly when the vertex is outside
   the first `k` clusters; otherwise it is one of the first `k` centres.
   */
  lemma {:induction false} RepCases(cs: seq<set<VertexId>>, base: nat, k: nat, v: VertexId)
    requires Separate(cs, base) && k <= |cs|
    ensures Outside(cs, k, v) ==> Rep(cs, base, k, v) == v
    ensures !Outside(cs, k, v) ==> base <= Rep(cs, base, k, v) < base + k && v < base
    decreases k
  {
    if k > 0 {
      RepCases(cs, base, k - 1, v);
    }
  }

  /** A centre lies in no cluster. */
  lemma CentreOutside(cs: seq<set<VertexId>>, base: nat, k: nat, c: VertexId)
    requires Separate(cs, base) && k <= |cs| && base <= c
    ensures Outside(cs, k, c)
  {
    OutsideIff(cs, k, c);
  }

  /** Every representative after collapsing all clusters lies outside all of them. */
  lemma RepOutsideAll(cs: seq<set<VertexId>>, base: nat, k: nat, v: VertexId)
    requires Separate(cs, base) && k <= |cs|
    ensures Outside(cs, |cs|, Rep(cs, base, |cs|, v))
  {
    RepCases(cs, base, |cs|, v);
    if !Outside(cs, |cs|, v) {
      CentreOutside(cs, base, |cs|, Rep(cs, base, |cs|, v));
    }
  }

  /**
   Collapsing all clusters after collapsing the first `k` changes nothing
   more: representing a representative gives the same vertex.
   */
  lemma RepAbsorbs(cs: seq<set<VertexId>>, base: nat, k: nat, v: VertexId)
    requires Separate(cs, base) && k <= |cs|
    ensures Rep(cs, base, |cs|, Rep(cs, base, k, v)) == Rep(cs, base, |cs|, v)
  {
    RepCases(cs, base, k, v);
    if !Outside(cs, k, v) {
      var r := Rep(cs, base, k, v);
      CentreOutside(cs, base, |cs|, r);
      RepOutside(cs, base, |cs|, r);
      OutsideIff(cs, k, v);
      var i :| 0 <= i < k && v in cs[i];
      RepMember(cs, base, k, i, v);
      RepMember(cs, base, |cs|, i, v);
    }
  }

  /**
   An edge that crosses no cluster either keeps both ends as they are or has
   both ends in one cluster, so one representative for both.
   */
  lemma UncrossedImage(cs: seq<set<VertexId>>, base: nat, e: Edge)
    requires Separate(cs, base)
    ensures !Crosses(cs, |cs|, e) ==>
      || (Rep(cs, base, |cs|, e.v1) == e.v1 && Rep(cs, base, |cs|, e.v2) == e.v2)
      || Rep(cs, base, |cs|, e.v1) == Rep(cs, base, |cs|, e.v2)
  {
    CrossesIff(cs, |cs|, e);
    OutsideIff(cs, |cs|, e.v1);
    OutsideIff(cs, |cs|, e.v2);
    RepCases(cs, base, |cs|, e.v1);
    RepCases(cs, base, |cs|, e.v2);
    if !Crosses(cs, |cs|, e) {
      if !Outside(cs, |cs|, e.v1) {
        var i :| 0 <= i < |cs| && e.v1 in cs[i];
        assert !OneEndIn(e, cs[i]);
        RepMember(cs, base, |cs|, i, e.v1);
        RepMember(cs, base, |cs|, i, e.v2);
      }
    }
  }
}
