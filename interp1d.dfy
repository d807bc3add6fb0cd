/**
 * Piecewise-linear interpolation with linear extrapolation, as computed by
 * `scipy.interpolate.interp1d(x, y, fill_value='extrapolate')` (kind 'linear').
 *
 * The library locates a query `v` with `searchsorted(x, v)` (side 'left'),
 * clips that index into `[1, n - 1]` and evaluates the straight line through
 * the two control points on either side of it. Queries left of the first
 * point therefore use the first segment and queries right of the last point
 * use the last segment: values are extrapolated, never clamped.
 */
module Interp1d {

  /** One control point: abscissa `x`, ordinate `y`. */
  datatype Point = Point(x: real, y: real)

  /** Abscissas strictly increasing (the model's standing assumption on a table). */
  predicate Ascending(pts: seq<Point>)
  {
    forall i, j :: 0 <= i < j < |pts| ==> pts[i].x < pts[j].x
  }

  /** Ordinates non-decreasing: the table of a physical clock. */
  predicate NonDecreasing(pts: seq<Point>)
  {
    forall i, j :: 0 <= i < j < |pts| ==> pts[i].y <= pts[j].y
  }

  /** The table with its two axes exchanged (interpolating column 1 against column 0). */
  function Swap(pts: seq<Point>): (r: seq<Point>)
    ensures |r| == |pts|
    ensures forall k :: 0 <= k < |pts| ==> r[k].x == pts[k].y && r[k].y == pts[k].x
  {
    seq(|pts|, k requires 0 <= k < |pts| => Point(pts[k].y, pts[k].x))
  }

  /**
   * `searchsorted(x, v, side='left')` started at index `from`: the first index
   * at or after `from` whose abscissa is at least `v`, or `|pts|` if none is.
   */
  function SearchSorted(pts: seq<Point>, v: real, from: nat): (i: nat)
    requires from <= |pts|
    ensures from <= i <= |pts|
    ensures forall j :: from <= j < i ==> pts[j].x < v
    ensures i < |pts| ==> v <= pts[i].x
    decreases |pts| - from
  {
    if from == |pts| then from
    else if v <= pts[from].x then from
    else SearchSorted(pts, v, from + 1)
  }

  /**
   * The index `k` of the segment `[pts[k-1], pts[k]]` used for `v`: the
   * searchsorted index clipped into `[1, |pts| - 1]`.
   */
  function Segment(pts: seq<Point>, v: real): (k: nat)
    requires |pts| >= 2 && Ascending(pts)
    ensures 1 <= k < |pts|
    ensures k == 1 || pts[k - 1].x < v
    ensures k == |pts| - 1 || v <= pts[k].x
  {
    var i := SearchSorted(pts, v, 0);
    if i < 1 then 1 else if i > |pts| - 1 then |pts| - 1 else i
  }

  /** The straight line through `p` and `q`, evaluated at `v`. */
  function Line(p: Point, q: Point, v: real): (y: real)
    requires p.x != q.x
    ensures v == p.x ==> y == p.y
  {
    p.y + (q.y - p.y) / (q.x - p.x) * (v - p.x)
  }

  /** The interpolant of the table at `v`. */
  function Interp(pts: seq<Point>, v: real): (y: real)
    requires |pts| >= 2 && Ascending(pts)
    ensures exists k :: 1 <= k < |pts| && y == Line(pts[k - 1], pts[k], v)
  {
    var k := Segment(pts, v);
    Line(pts[k - 1], pts[k], v)
  }

  /** Evaluating the interpolant at every query. */
  function InterpAll(pts: seq<Point>, vs: seq<real>): (r: seq<real>)
    requires |pts| >= 2 && Ascending(pts)
    ensures |r| == |vs|
    ensures forall i :: 0 <= i < |vs| ==> r[i] == Interp(pts, vs[i])
  {
    seq(|vs|, i requires 0 <= i < |vs| => Interp(pts, vs[i]))
  }

  lemma LineAtEnds(p: Point, q: Point)
    requires p.x != q.x
    ensures Line(p, q, p.x) == p.y && Line(p, q, q.x) == q.y
  {
    var d := q.x - p.x;
    assert (q.y - p.y) / d * d == q.y - p.y;
  }

  /** The interpolant passes exactly through every control point. */
  lemma {:induction false} InterpAtKnot(pts: seq<Point>, k: nat)
    requires |pts| >= 2 && Ascending(pts) && k < |pts|
    ensures Interp(pts, pts[k].x) == pts[k].y
  {
    var s := Segment(pts, pts[k].x);
    if k == 0 {
      assert s == 1;
      LineAtEnds(pts[0], pts[1]);
    } else {
      assert s == k;
      LineAtEnds(pts[k - 1], pts[k]);
    }
  }

  /** Left of the first control point the value lies on the line through the first two. */
  lemma ExtrapolateLow(pts: seq<Point>, v: real)
    requires |pts| >= 2 && Ascending(pts) && v <= pts[0].x
    ensures Interp(pts, v) == Line(pts[0], pts[1], v)
  {
    assert Segment(pts, v) == 1;
  }

  /** Right of the last control point the value lies on the line through the last two. */
  lemma ExtrapolateHigh(pts: seq<Point>, v: real)
    requires |pts| >= 2 && Ascending(pts) && pts[|pts| - 1].x <= v
    ensures Interp(pts, v) == Line(pts[|pts| - 2], pts[|pts| - 1], v)
  {
  }

  /** A two-point table is one straight line everywhere. */
  lemma TwoPointIsLine(pts: seq<Point>, v: real)
    requires |pts| == 2 && Ascending(pts)
    ensures Interp(pts, v) == Line(pts[0], pts[1], v)
  {
  }

  /**
   * Going forward through a table and then backward through its swapped copy
   * returns every control-point abscissa exactly.
   */
  lemma KnotRoundTrip(pts: seq<Point>, k: nat)
    requires |pts| >= 2 && Ascending(pts) && Ascending(Swap(pts)) && k < |pts|
    ensures Interp(Swap(pts), Interp(pts, pts[k].x)) == pts[k].x
  {
    InterpAtKnot(pts, k);
    InterpAtKnot(Swap(pts), k);
  }

  /** Searches of two tables that answer every comparison alike end at the same index. */
  lemma {:induction false} SearchTransfer(p: seq<Point>, q: seq<Point>, v: real, w: real, from: nat)
    requires |p| == |q| && from <= |p|
    requires forall k :: 0 <= k < |p| ==> (v <= p[k].x <==> w <= q[k].x)
    ensures SearchSorted(p, v, from) == SearchSorted(q, w, from)
    decreases |p| - from
  {
    if from < |p| {
      SearchTransfer(p, q, v, w, from + 1);
    }
  }

  /** Tables that answer every comparison alike use the same segment. */
  lemma SegmentTransfer(p: seq<Point>, q: seq<Point>, v: real, w: real)
    requires |p| == |q| >= 2 && Ascending(p) && Ascending(q)
    requires forall k :: 0 <= k < |p| ==> (v <= p[k].x <==> w <= q[k].x)
    ensures Segment(p, v) == Segment(q, w)
  {
    SearchTransfer(p, q, v, w, 0);
  }

  /** The segment is the only index with the clipped-searchsorted properties. */
  lemma SegmentUnique(pts: seq<Point>, v: real, k: nat)
    requires |pts| >= 2 && Ascending(pts) && 1 <= k < |pts|
    requires k == 1 || pts[k - 1].x < v
    requires k == |pts| - 1 || v <= pts[k].x
    ensures Segment(pts, v) == k
  {
  }

  lemma LineMonotone(p: Point, q: Point, a: real, b: real)
    requires p.x < q.x && p.y <= q.y && a <= b
    ensures Line(p, q, a) <= Line(p, q, b)
  {
    var m := (q.y - p.y) / (q.x - p.x);
    assert m >= 0.0;
    assert m * (b - p.x) - m * (a - p.x) == m * (b - a);
  }

  /**
   * When the ordinates never decrease the interpolant is non-decreasing on
   * the whole real line, extrapolated parts included.
   */
  lemma InterpMonotone(pts: seq<Point>, a: real, b: real)
    requires |pts| >= 2 && Ascending(pts) && NonDecreasing(pts) && a <= b
    ensures Interp(pts, a) <= Interp(pts, b)
  {
    var i := Segment(pts, a);
    var j := Segment(pts, b);
    if i == j {
      LineMonotone(pts[i - 1], pts[i], a, b);
    } else {
      assert i < j;
      LineAtEnds(pts[i - 1], pts[i]);
      LineMonotone(pts[i - 1], pts[i], a, pts[i].x);
      LineAtEnds(pts[j - 1], pts[j]);
      LineMonotone(pts[j - 1], pts[j], pts[j - 1].x, b);
      assert pts[i].y <= pts[j - 1].y;
    }
  }
}
