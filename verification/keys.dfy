/**
 The dense vertex numbering (`mapVertexIds`) and the unordered-pair key
 (`connectionHash`) that parallel-edge removal compares.
 */
module PairKeys {
  import opened Seqs
  import opened Graphs

  /** The key of the pair {a, b} among n ids: the smaller id times n plus the larger. */
  function PairKey(a: int, b: int, n: int): int {
    if a < b then a * n + b else b * n + a
  }

  /** The key does not depend on the order of the two ids. */
  lemma PairKeySymmetric(a: int, b: int, n: int)
    ensures PairKey(a, b, n) == PairKey(b, a, n)
  {
  }

  lemma MulSplit(lo: nat, k: nat, n: nat)
    ensures (lo + k) * n == lo * n + k * n
  {
  }

  lemma MulAtLeast(k: nat, n: nat)
    requires k >= 1
    ensures k * n >= n
  {
  }

  /** Of two base-n numbers with digits below n, the one with the larger high digit is larger. */
  lemma HighDigitOrders(lo1: nat, hi1: nat, lo2: nat, hi2: nat, n: nat)
    requires hi1 < n
    requires lo1 < lo2
    ensures lo1 * n + hi1 < lo2 * n + hi2
  {
    MulSplit(lo1, lo2 - lo1, n);
    MulAtLeast(lo2 - lo1, n);
  }

  /** Two-digit numbers in base n are equal only digit by digit. */
  lemma DigitsUnique(lo1: nat, hi1: nat, lo2: nat, hi2: nat, n: nat)
    requires hi1 < n && hi2 < n
    requires lo1 * n + hi1 == lo2 * n + hi2
    ensures lo1 == lo2 && hi1 == hi2
  {
    if lo1 < lo2 {
      HighDigitOrders(lo1, hi1, lo2, hi2, n);
    } else if lo2 < lo1 {
      HighDigitOrders(lo2, hi2, lo1, hi1, n);
    }
  }

  /** On ids below n, equal keys mean the same unordered pair, and conversely. */
  lemma PairKeyInjective(a: nat, b: nat, c: nat, d: nat, n: nat)
    requires a < n && b < n && c < n && d < n
    ensures PairKey(a, b, n) == PairKey(c, d, n) <==> (a == c && b == d) || (a == d && b == c)
  {
    if PairKey(a, b, n) == PairKey(c, d, n) {
      var lo1, hi1 := if a < b then a else b, if a < b then b else a;
      var lo2, hi2 := if c < d then c else d, if c < d then d else c;
      assert PairKey(a, b, n) == lo1 * n + hi1;
      assert PairKey(c, d, n) == lo2 * n + hi2;
      DigitsUnique(lo1, hi1, lo2, hi2, n);
    }
  }

  /** Keys lie in [0, n*n), so the Java `long` never overflows for `int`-sized graphs. */
  lemma PairKeyRange(a: nat, b: nat, n: nat)
    requires a < n && b < n
    ensures 0 <= PairKey(a, b, n) < n * n
  {
    var lo, hi := if a < b then a else b, if a < b then b else a;
    assert PairKey(a, b, n) == lo * n + hi;
    MulSplit(lo, 1, n);
    assert lo * n + hi < (lo + 1) * n;
    assert (lo + 1) * n <= n * n by {
      MulSplit(lo + 1, n - (lo + 1), n);
    }
  }

  /** A numbering whose ids are distinct and below its size. */
  predicate Dense(ids: map<VertexId, nat>) {
    && (forall v | v in ids :: ids[v] < |ids|)
    && (forall u, v | u in ids && v in ids && u != v :: ids[u] != ids[v])
  }

  /** Numbers the vertices of a list by position: the i-th vertex gets id i. */
  function MapVertexIds(vs: seq<VertexId>): (ids: map<VertexId, nat>)
    requires Distinct(vs)
    ensures forall v :: v in ids <==> v in vs
    ensures forall i | 0 <= i < |vs| :: ids[vs[i]] == i
    ensures |ids| == |vs|
    ensures Dense(ids)
  {
    var ids := map i | 0 <= i < |vs| :: vs[i] := i;
    assert ids.Keys == Elems(vs);
    DistinctCard(vs);
    assert forall v | v in ids :: exists i | 0 <= i < |vs| :: vs[i] == v && ids[v] == i;
    ids
  }

  /** The key of an edge's endpoint pair under a vertex numbering. */
  function ConnectionHash(e: Edge, ids: map<VertexId, nat>): int
    requires e.v1 in ids && e.v2 in ids
  {
    PairKey(ids[e.v1], ids[e.v2], |ids|)
  }

  /** Under a dense numbering, two edges get the same key exactly when they join the same pair. */
  lemma HashSamePair(a: Edge, b: Edge, ids: map<VertexId, nat>)
    requires a.v1 in ids && a.v2 in ids && b.v1 in ids && b.v2 in ids
    requires Dense(ids)
    ensures ConnectionHash(a, ids) == ConnectionHash(b, ids) <==> SamePair(a, b)
  {
    PairKeyInjective(ids[a.v1], ids[a.v2], ids[b.v1], ids[b.v2], |ids|);
  }
}
