/**
 The replacement loops of `cleaningStep`: `mapReplacementEdges` rewires the
 outer edges of one cluster, one after another, and the caller does so for
 each cluster in turn. The invariants of `Rewiring` hold throughout, so no
 replacement is ever `null`.
 */
module Collapsing {
  import opened Options
  import opened Seqs
  import opened Graphs
  import opened Quotient
  import opened Replacement
  import opened Rewiring

  /**
   `outerEdges.forEach(...)` in `mapReplacementEdges`: rewires the listed
   outer edges of cluster `k` in order. Each step succeeds.
   */
  method RewireEach(f: Frame, w: Work, k: nat, mark: nat, outs: seq<EdgeId>) returns (r: Work)
    requires Layout(f) && During(f, w, k, mark, outs)
    ensures During(f, r, k, mark, [])
  {
    r := w;
    for j := 0 to |outs|
      invariant During(f, r, k, mark, outs[j..])
    {
      var next := RewireStep(f, r, k, mark, outs[j..]);
      assert outs[j..][0] == outs[j] && outs[j..][1..] == outs[j + 1..];
      r := Rewire(r, outs[j], f.cs[k], f.base + k).value;
    }
  }

  /**
   `mapReplacementEdges`: finds the edges leaving cluster `k` as things stand
   and rewires each of them to the centre `base + k`. Afterwards the first
   `k + 1` clusters are collapsed.
   */
  method MapReplacementEdges(f: Frame, w: Work, k: nat) returns (r: Work)
    requires Layout(f) && Between(f, w, k) && k < |f.cs|
    ensures Between(f, r, k + 1)
  {
    StepStart(f, w, k);
    var outs := OuterOrder(w, f.cs[k]);
    r := RewireEach(f, w, k, w.next, outs);
    StepEnd(f, r, k, w.next);
  }

  /**
   `clusterCentres.forEach(...)` in `cleaningStep`: collapses each cluster in
   turn to its centre. Afterwards all clusters are collapsed.
   */
  method CollapseAll(f: Frame, w0: Work) returns (w: Work)
    requires Layout(f) && Between(f, w0, 0)
    ensures Between(f, w, |f.cs|)
  {
    w := w0;
    for i := 0 to |f.cs|
      invariant Between(f, w, i)
    {
      w := MapReplacementEdges(f, w, i);
    }
  }
}
