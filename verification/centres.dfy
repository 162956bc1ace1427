/**
 Cluster centres (`centroid`, `realToIntegerCoordinate`, `getClusterCentre`):
 the mean of the cluster's points, rounded to integer coordinates.
 */
module Centres {
  import opened Seqs
  import opened Graphs

  /** `Integer.MAX_VALUE`, the coordinate given to an undefined mean. */
  const IntMax: int := 0x7fff_ffff
  const IntMin: int := -0x8000_0000

  /** A `double` that is either a number or NaN; only these two cases occur here. */
  datatype Double = NaN | Num(value: real)

  /** Coordinate `axis` (0, 1, 2 for x, y, z) of a point. */
  function Coord(p: Point, axis: nat): int
    requires axis < 3
  {
    if axis == 0 then p.x else if axis == 1 then p.y else p.z
  }

  /** The sum of one coordinate over a list of points. */
  function Sum(ps: seq<Point>, axis: nat): int
    requires axis < 3
  {
    if ps == [] then 0 else Sum(ps[..|ps| - 1], axis) + Coord(ps[|ps| - 1], axis)
  }

  /** Floating-point division of a sum by a count; `0.0 / 0` is NaN. */
  function Divide(sum: int, n: nat): Double {
    if n == 0 then NaN else Num(sum as real / n as real)
  }

  /** The quotient is NaN exactly for a zero count, and otherwise times the count gives the sum back. */
  lemma DivideFacts(sum: int, n: nat)
    ensures Divide(sum, n).NaN? <==> n == 0
    ensures Divide(sum, n).Num? ==> Divide(sum, n).value * n as real == sum as real
  {
  }

  /** `centroid`: per axis, the sum of the coordinates divided by the number of points. */
  function Centroid(ps: seq<Point>): (c: seq<Double>)
    ensures |c| == 3
  {
    [Divide(Sum(ps, 0), |ps|), Divide(Sum(ps, 1), |ps|), Divide(Sum(ps, 2), |ps|)]
  }

  /** The three components are NaN exactly when there are no points, and otherwise are the means. */
  lemma CentroidFacts(ps: seq<Point>)
    ensures forall axis | 0 <= axis < 3 :: Centroid(ps)[axis].NaN? <==> ps == []
    ensures forall axis | 0 <= axis < 3 && Centroid(ps)[axis].Num? ::
      Centroid(ps)[axis].value * |ps| as real == Sum(ps, axis) as real
  {
    DivideFacts(Sum(ps, 0), |ps|);
    DivideFacts(Sum(ps, 1), |ps|);
    DivideFacts(Sum(ps, 2), |ps|);
  }

  /** `Math.round`: the integer nearest to `d`, halves rounded up. */
  function Round(d: real): (n: int)
    ensures n as real - 0.5 <= d < n as real + 0.5
  {
    (d + 0.5).Floor
  }

  /** One coordinate of `realToIntegerCoordinate`: NaN becomes `Integer.MAX_VALUE`, a number is rounded. */
  function ToInteger(d: Double): int {
    if d.NaN? then IntMax else Round(d.value)
  }

  /** `realToIntegerCoordinate`: converts each coordinate, in order. */
  function RealToIntegerCoordinate(c: seq<Double>): (r: seq<int>)
    ensures |r| == |c|
  {
    if c == [] then [] else [ToInteger(c[0])] + RealToIntegerCoordinate(c[1..])
  }

  /** NaN coordinates become `Integer.MAX_VALUE`; the others are rounded to the nearest integer. */
  lemma {:induction false} RealToIntegerFacts(c: seq<Double>)
    ensures forall i | 0 <= i < |c| && c[i].NaN? :: RealToIntegerCoordinate(c)[i] == IntMax
    ensures forall i | 0 <= i < |c| && c[i].Num? ::
      RealToIntegerCoordinate(c)[i] as real - 0.5 <= c[i].value < RealToIntegerCoordinate(c)[i] as real + 0.5
  {
    if c != [] {
      RealToIntegerFacts(c[1..]);
      assert forall i | 1 <= i < |c| :: RealToIntegerCoordinate(c)[i] == RealToIntegerCoordinate(c[1..])[i - 1];
    }
  }

  /** The number of points the listed vertices hold, counted vertex by vertex. */
  function PointCount(vs: map<VertexId, Vertex>, members: seq<VertexId>): nat
    requires forall v | v in members :: v in vs
  {
    if members == [] then 0 else |vs[members[0]].points| + PointCount(vs, members[1..])
  }

  /** The sum of one coordinate over the points of the listed vertices, vertex by vertex. */
  function MemberSum(vs: map<VertexId, Vertex>, members: seq<VertexId>, axis: nat): int
    requires forall v | v in members :: v in vs
    requires axis < 3
  {
    if members == [] then 0 else Sum(vs[members[0]].points, axis) + MemberSum(vs, members[1..], axis)
  }

  /** The coordinate sum of two lists put together is the sum of their sums. */
  lemma {:induction false} SumConcat(a: seq<Point>, b: seq<Point>, axis: nat)
    requires axis < 3
    ensures Sum(a + b, axis) == Sum(a, axis) + Sum(b, axis)
    decreases |b|
  {
    if b == [] {
      assert a + b == a;
    } else {
      var init := b[..|b| - 1];
      SumConcat(a, init, axis);
      assert (a + b)[..|a + b| - 1] == a + init;
      assert (a + b)[|a + b| - 1] == b[|b| - 1];
    }
  }

  /**
   The points of the listed vertices, one vertex after another: every point
   of every member, each as often as it occurs there, so the count and the
   coordinate sums are those of the members taken one by one.
   */
  function ClusterPoints(vs: map<VertexId, Vertex>, members: seq<VertexId>): (ps: seq<Point>)
    requires forall v | v in members :: v in vs
    ensures members == [] ==> ps == []
    ensures forall q :: q in ps <==> exists v :: v in members && q in vs[v].points
    ensures |ps| == PointCount(vs, members)
    ensures forall axis | 0 <= axis < 3 :: Sum(ps, axis) == MemberSum(vs, members, axis)
  {
    if members == [] then []
    else
      var rest := ClusterPoints(vs, members[1..]);
      SumConcat(vs[members[0]].points, rest, 0);
      SumConcat(vs[members[0]].points, rest, 1);
      SumConcat(vs[members[0]].points, rest, 2);
      vs[members[0]].points + rest
  }

  /**
   `getClusterCentre`: a new vertex with no branches and a single point, the
   rounded centroid of all the points of the cluster's vertices.
   */
  function ClusterCentre(vs: map<VertexId, Vertex>, cluster: set<VertexId>): (v: Vertex)
    requires cluster <= vs.Keys
    ensures v.branches == [] && |v.points| == 1
  {
    var members := Enumerate(cluster);
    var c := RealToIntegerCoordinate(Centroid(ClusterPoints(vs, members)));
    Vertex([Point(c[0], c[1], c[2])], [])
  }

  /** Rounding an integer gives it back. */
  lemma RoundInteger(n: int)
    ensures Round(n as real) == n
  {
  }

  /** Rounding keeps a value between two integers between them. */
  lemma RoundWithin(d: real, lo: int, hi: int)
    requires lo as real <= d <= hi as real
    ensures lo <= Round(d) <= hi
  {
  }

  /** When every coordinate lies in [lo, hi], the sum lies between n·lo and n·hi. */
  lemma {:induction false} SumWithin(ps: seq<Point>, axis: nat, lo: int, hi: int)
    requires axis < 3
    requires forall i | 0 <= i < |ps| :: lo <= Coord(ps[i], axis) <= hi
    ensures |ps| * lo <= Sum(ps, axis) <= |ps| * hi
  {
    if ps != [] {
      var init := ps[..|ps| - 1];
      assert forall i | 0 <= i < |init| :: init[i] == ps[i];
      SumWithin(init, axis, lo, hi);
      assert |ps| * lo == |init| * lo + lo;
      assert |ps| * hi == |init| * hi + hi;
    }
  }

  /** The mean of values in [lo, hi] lies in [lo, hi]. */
  lemma MeanWithin(m: real, n: nat, sum: int, lo: int, hi: int)
    requires n > 0
    requires m * n as real == sum as real
    requires n * lo <= sum <= n * hi
    ensures lo as real <= m <= hi as real
  {
    assert (n * lo) as real == n as real * lo as real;
    assert (n * hi) as real == n as real * hi as real;
  }

  /**
   When every point has `int` coordinates, the rounded centroid of a
   non-empty list is again within the range of every axis, so the cast of
   `Math.round`'s `long` to `int` never wraps.
   */
  lemma CentreWithin(ps: seq<Point>, axis: nat, lo: int, hi: int)
    requires axis < 3 && ps != []
    requires forall i | 0 <= i < |ps| :: lo <= Coord(ps[i], axis) <= hi
    ensures Centroid(ps)[axis].Num?
    ensures lo as real <= Centroid(ps)[axis].value <= hi as real
    ensures lo <= RealToIntegerCoordinate(Centroid(ps))[axis] <= hi
  {
    var c := Centroid(ps);
    var sum := Sum(ps, axis);
    assert c[axis] == Divide(sum, |ps|);
    DivideFacts(sum, |ps|);
    SumWithin(ps, axis, lo, hi);
    MeanWithin(c[axis].value, |ps|, sum, lo, hi);
    RoundWithin(c[axis].value, lo, hi);
    RealToIntegerFacts(c);
  }

  /** The centre of a single point is that point: the rounding round-trips. */
  lemma SinglePointCentre(p: Point)
    ensures RealToIntegerCoordinate(Centroid([p])) == [p.x, p.y, p.z]
  {
    var c := Centroid([p]);
    CentroidFacts([p]);
    RealToIntegerFacts(c);
    forall axis | 0 <= axis < 3
      ensures RealToIntegerCoordinate(c)[axis] == Coord(p, axis)
    {
      assert [p][..0] == [];
      assert Sum([p], axis) == Coord(p, axis);
      RoundInteger(Coord(p, axis));
    }
  }

  /**
   The centre of a cluster is, per axis, the mean of the points of its
   members rounded to the nearest integer, or `Integer.MAX_VALUE` on every
   axis when the members have no point at all.
   */
  lemma ClusterCentreRounded(vs: map<VertexId, Vertex>, cluster: set<VertexId>, axis: nat)
    requires cluster <= vs.Keys && axis < 3
    ensures var ps := ClusterPoints(vs, Enumerate(cluster));
      var c := Coord(ClusterCentre(vs, cluster).points[0], axis);
      (ps == [] ==> c == IntMax) &&
      (ps != [] ==> c as real - 0.5 <= Sum(ps, axis) as real / |ps| as real < c as real + 0.5)
    ensures var n := PointCount(vs, Enumerate(cluster));
      var c := Coord(ClusterCentre(vs, cluster).points[0], axis);
      (n == 0 ==> c == IntMax) &&
      (n != 0 ==> c as real - 0.5 <= MemberSum(vs, Enumerate(cluster), axis) as real / n as real < c as real + 0.5)
  {
    var ps := ClusterPoints(vs, Enumerate(cluster));
    var m := Centroid(ps);
    CentroidFacts(ps);
    RealToIntegerFacts(m);
    assert m[axis] == Divide(Sum(ps, axis), |ps|);
  }

  /** A cluster without any point gets the centre (MAX, MAX, MAX). */
  lemma EmptyCentre(vs: map<VertexId, Vertex>, cluster: set<VertexId>)
    requires cluster <= vs.Keys
    requires ClusterPoints(vs, Enumerate(cluster)) == []
    ensures ClusterCentre(vs, cluster).points == [Point(IntMax, IntMax, IntMax)]
  {
    CentroidFacts([]);
    RealToIntegerFacts(Centroid([]));
  }
}
