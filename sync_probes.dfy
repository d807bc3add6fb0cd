/**
 * The per-probe part of probe synchronisation (ibllib/ephys/sync_probes.py):
 * building the control-point table that maps a probe's clock onto the
 * reference clock, checking it against the matched fronts within a tolerance
 * in samples, deriving the sample-indexed timestamps table that is persisted
 * next to it, and applying a table to arbitrary times.
 *
 * The least-squares fit (`np.polyfit`) and the frequency-domain smoothing of
 * the residual (`np.interp` upsampling, median padding, `dsp.lp`) are floating
 * point signal processing; the model receives them as the opaque functions of
 * a `Numerics` value. Times are exact reals.
 */
module SyncProbes {
  import opened Wrappers
  import opened Interp1d

  /** The errors the synchronisation code raises, named after their cause. */
  datatype SyncError =
    | TooFewControlPoints       // interp1d refuses a table with fewer than two points (ValueError)
    | EmptyUpsampling           // median padding of an empty upsampled residual (ValueError)
    | EmptyFronts               // np.polyfit on empty vectors (TypeError)
    | NoCameraFronts            // fallback channel unusable too: subscripting None (TypeError)
    | CamerasStartedBeforeEphys // first camera front not after 0.2 s (ValueError)
    | NidqCount                 // not exactly one nidq unit (AssertionError)
    | MissingSyncLabel          // 'imec_sync' missing from a sync map (KeyError)
    | FrontCountMismatch        // probe and nidq front counts differ (AssertionError)

  /** The degree-1 fit `tref ~ slope * t + intercept` returned by np.polyfit. */
  datatype LinearFit = LinearFit(slope: real, intercept: real)

  function Polyval(fit: LinearFit, x: real): (y: real)
  {
    fit.slope * x + fit.intercept
  }

  /** Left and right widths of the median padding around the upsampled residual. */
  datatype Padding = Padding(left: nat, right: nat)

  /**
   * The numerical collaborators, taken as given:
   * `polyfit(t, tref)` is the least-squares line; `lowpass(t, tref, fit, pad)`
   * is the low-pass-smoothed residual, padded by `pad`, as a function of time.
   */
  datatype Numerics = Numerics(
    polyfit: (seq<real>, seq<real>) -> LinearFit,
    lowpass: (seq<real>, seq<real>, LinearFit, Padding) -> (real -> real))

  /** Result of synchronising one probe: its control points and its QC verdict. */
  datatype ProbeSync = ProbeSync(points: seq<Point>, qc: bool)

  const CameraUpsamplingRateHz: nat := 300
  const PadLengthSecs: nat := 60
  const SyncSamplingRateSecs: real := 20.0
  /** Default tolerance of sync_probe_front_times, in samples. */
  const DefaultTolerance: real := 2.0

  // ---------------------------------------------------------------- apply_sync

  /**
   * apply_sync: interpolates `times` through a persisted table, from probe
   * time to session time when `forward`, otherwise with the axes swapped.
   */
  function ApplySync(table: seq<Point>, times: seq<real>, forward: bool): (r: Result<seq<real>, SyncError>)
    requires Ascending(if forward then table else Swap(table))
    ensures r.Err? <==> |table| < 2
    ensures r.Err? ==> r.error == TooFewControlPoints
    ensures r.Ok? ==> |r.value| == |times|
    ensures r.Ok? ==> forall i :: 0 <= i < |times| ==>
      r.value[i] == Interp(if forward then table else Swap(table), times[i])
  {
    if |table| < 2 then Err(TooFewControlPoints)
    else if forward then Ok(InterpAll(table, times))
    else Ok(InterpAll(Swap(table), times))
  }

  /**
   * At the control points the two directions are exact inverses: forward maps
   * every abscissa to its ordinate, backward maps every ordinate to its
   * abscissa, so forward then backward is the identity on the abscissas.
   */
  lemma ApplySyncAtKnots(table: seq<Point>, k: nat)
    requires |table| >= 2 && Ascending(table) && Ascending(Swap(table)) && k < |table|
    ensures ApplySync(table, [table[k].x], true) == Ok([table[k].y])
    ensures ApplySync(table, [table[k].y], false) == Ok([table[k].x])
    ensures ApplySync(table, ApplySync(table, [table[k].x], true).value, false) == Ok([table[k].x])
  {
    InterpAtKnot(table, k);
    InterpAtKnot(Swap(table), k);
    assert InterpAll(table, [table[k].x]) == [table[k].y];
    assert InterpAll(Swap(table), [table[k].y]) == [table[k].x];
  }

  /**
   * Outside the outermost control points apply_sync extrapolates along the
   * line through the two nearest end points rather than clamping.
   */
  lemma ApplySyncExtrapolates(table: seq<Point>, v: real)
    requires |table| >= 2 && Ascending(table)
    ensures v <= table[0].x ==> ApplySync(table, [v], true) == Ok([Line(table[0], table[1], v)])
    ensures table[|table| - 1].x <= v ==>
      ApplySync(table, [v], true) == Ok([Line(table[|table| - 2], table[|table| - 1], v)])
  {
    if v <= table[0].x {
      ExtrapolateLow(table, v);
      assert InterpAll(table, [v]) == [Line(table[0], table[1], v)];
    }
    if table[|table| - 1].x <= v {
      ExtrapolateHigh(table, v);
      assert InterpAll(table, [v]) == [Line(table[|table| - 2], table[|table| - 1], v)];
    }
  }

  // ------------------------------------------------------- grid and padding

  /** `ceil(r)` for positive `r`, and 0 otherwise: the length of an np.arange. */
  function CeilNat(r: real): (n: nat)
    ensures r <= 0.0 ==> n == 0
    ensures r > 0.0 ==> r <= n as real < r + 1.0
  {
    if r <= 0.0 then 0
    else if r.Floor as real == r then r.Floor
    else r.Floor + 1
  }

  /**
   * `np.arange(0, stop, 20)`: the multiples of the sync sampling period that
   * are strictly below `stop`, in increasing order, starting at 0.
   */
  function Grid(stop: real): (g: seq<real>)
    ensures forall k :: 0 <= k < |g| ==> g[k] == SyncSamplingRateSecs * k as real
    ensures forall k :: 0 <= k < |g| ==> g[k] < stop
    ensures stop <= SyncSamplingRateSecs * |g| as real
  {
    var n := CeilNat(stop / SyncSamplingRateSecs);
    seq(n, k requires 0 <= k < n => SyncSamplingRateSecs * k as real)
  }

  /** Number of samples of `np.arange(tref[0], tref[-1], 1 / 300)`. */
  function UpsampledSize(tref: seq<real>): (n: nat)
    requires |tref| > 0
    ensures n == 0 <==> tref[|tref| - 1] <= tref[0]
  {
    CeilNat((tref[|tref| - 1] - tref[0]) * CameraUpsamplingRateHz as real)
  }

  function Pow2(k: nat): (p: nat)
    ensures p >= 1
  {
    if k == 0 then 1 else 2 * Pow2(k - 1)
  }

  /** `ceil(log2(n))` on integers: the least `k` with `2^k >= n`. */
  function CeilLog2(n: nat): (k: nat)
    requires n >= 1
    ensures Pow2(k) >= n
    ensures k == 0 || Pow2(k - 1) < n
  {
    if n == 1 then 0 else 1 + CeilLog2((n + 1) / 2)
  }

  /**
   * The padding of sync_probe_front_times: the upsampled residual of `size`
   * samples, once padded, has the smallest power-of-two length that leaves
   * room for 60 s at 300 Hz, and the left pad takes the odd sample.
   */
  function PaddingFor(size: nat): (p: Padding)
    ensures size + p.left + p.right == Pow2(CeilLog2(size + CameraUpsamplingRateHz * PadLengthSecs))
    ensures size + p.left + p.right >= size + CameraUpsamplingRateHz * PadLengthSecs
    ensures forall k: nat :: Pow2(k) >= size + CameraUpsamplingRateHz * PadLengthSecs ==>
      size + p.left + p.right <= Pow2(k)
    ensures p.left == p.right || p.left == p.right + 1
    ensures p.right >= CameraUpsamplingRateHz * PadLengthSecs / 2
  {
    var nech := size + CameraUpsamplingRateHz * PadLengthSecs;
    var lpad := Pow2(CeilLog2(nech)) - size;
    PowersBelowAreSmaller(CeilLog2(nech), nech);
    Padding(lpad / 2 + lpad % 2, lpad / 2)
  }

  lemma {:induction false} Pow2Monotone(i: nat, j: nat)
    requires i <= j
    ensures Pow2(i) <= Pow2(j)
  {
    if i < j {
      Pow2Monotone(i, j - 1);
    }
  }

  /** Every power of two at least `n` is at least the least one. */
  lemma PowersBelowAreSmaller(k: nat, n: nat)
    requires n >= 1 && Pow2(k) >= n && (k == 0 || Pow2(k - 1) < n)
    ensures forall j: nat :: Pow2(j) >= n ==> Pow2(k) <= Pow2(j)
  {
    forall j: nat | Pow2(j) >= n
      ensures Pow2(k) <= Pow2(j)
    {
      if j < k {
        Pow2Monotone(j, k - 1);
      } else {
        Pow2Monotone(k, j);
      }
    }
  }

  // ------------------------------------------------------ control points

  function Max(s: seq<real>): (m: real)
    requires |s| > 0
    ensures m in s
    ensures forall i :: 0 <= i < |s| ==> s[i] <= m
  {
    if |s| == 1 then s[0]
    else
      var rest := Max(s[1..]);
      assert forall i :: 1 <= i < |s| ==> s[i] == s[1..][i - 1];
      if s[0] >= rest then s[0] else rest
  }

  /**
   * The control points of sync_probe_front_times: in linear mode the fitted
   * line at abscissas 0 and 1; otherwise, on the 20 s grid below
   * `max(tref) + 20`, the fitted line plus the smoothed residual.
   */
  function ControlPoints(t: seq<real>, tref: seq<real>, linear: bool, num: Numerics): (pts: seq<Point>)
    requires |t| == |tref| > 0
    ensures Ascending(pts)
  {
    var fit := num.polyfit(t, tref);
    if linear then
      [Point(0.0, Polyval(fit, 0.0)), Point(1.0, Polyval(fit, 1.0))]
    else
      var smooth := num.lowpass(t, tref, fit, PaddingFor(UpsampledSize(tref)));
      var tout := Grid(Max(tref) + SyncSamplingRateSecs);
      seq(|tout|, k requires 0 <= k < |tout| => Point(tout[k], Polyval(fit, tout[k]) + smooth(tout[k])))
  }

  function Abs(r: real): (a: real)
  {
    if r < 0.0 then -r else r
  }

  /** Some matched pair misses the interpolant by more than `tol` samples (np.any). */
  function ExceedsTolerance(pts: seq<Point>, t: seq<real>, tref: seq<real>, sr: real, tol: real): (e: bool)
    requires |pts| >= 2 && Ascending(pts) && |t| == |tref|
    ensures e ==> |t| > 0
  {
    exists i :: 0 <= i < |t| && Abs((tref[i] - Interp(pts, t[i])) * sr) > tol
  }

  /** Every matched pair is within `tol` samples of the interpolant. */
  function WithinTolerance(pts: seq<Point>, t: seq<real>, tref: seq<real>, sr: real, tol: real): (ok: bool)
    requires |pts| >= 2 && Ascending(pts) && |t| == |tref|
    ensures ok <==> !ExceedsTolerance(pts, t, tref, sr, tol)
  {
    forall i :: 0 <= i < |t| ==> Abs((tref[i] - Interp(pts, t[i])) * sr) <= tol
  }

  /**
   * sync_probe_front_times: the control points mapping `t` onto `tref` and
   * the QC verdict. The points are returned whatever the verdict; the verdict
   * is true exactly when every matched pair lies within `tol` samples. In
   * smoothed mode an empty upsampled residual (the last reference front not
   * after the first, e.g. a single front) cannot be median-padded.
   */
  function SyncProbeFrontTimes(t: seq<real>, tref: seq<real>, sr: real, linear: bool, tol: real,
                               num: Numerics): (r: Result<ProbeSync, SyncError>)
    requires |t| == |tref|
    ensures |t| == 0 <==> r == Err(EmptyFronts)
    ensures r.Ok? ==> r.value.points == ControlPoints(t, tref, linear, num)
    ensures r.Ok? ==> |r.value.points| >= 2 && Ascending(r.value.points)
    ensures r.Ok? ==> (r.value.qc <==> WithinTolerance(r.value.points, t, tref, sr, tol))
    ensures |t| > 0 && linear ==> r.Ok?
    ensures |t| > 0 && !linear ==> (r == Err(EmptyUpsampling) <==> UpsampledSize(tref) == 0)
    ensures |t| > 0 && !linear ==> (r.Ok? <==> UpsampledSize(tref) > 0 && Max(tref) > 0.0)
  {
    if |t| == 0 then Err(EmptyFronts)
    else if !linear && UpsampledSize(tref) == 0 then Err(EmptyUpsampling)
    else
      var pts := ControlPoints(t, tref, linear, num);
      if |pts| < 2 then Err(TooFewControlPoints)
      else Ok(ProbeSync(pts, !ExceedsTolerance(pts, t, tref, sr, tol)))
  }

  /** The line through the fit's values at 0 and 1 is the fit itself. */
  lemma FitThroughUnitPoints(fit: LinearFit, v: real)
    ensures Line(Point(0.0, fit.intercept), Point(1.0, fit.slope + fit.intercept), v) == Polyval(fit, v)
  {
    assert (fit.slope + fit.intercept - fit.intercept) / (1.0 - 0.0) == fit.slope;
  }

  /**
   * In linear mode the control points are `[0, intercept]` and
   * `[1, slope + intercept]`, and their interpolant is the fitted line
   * everywhere.
   */
  lemma LinearModeIsFit(t: seq<real>, tref: seq<real>, sr: real, tol: real, num: Numerics, v: real)
    requires |t| == |tref| > 0
    ensures SyncProbeFrontTimes(t, tref, sr, true, tol, num).Ok?
    ensures var fit := num.polyfit(t, tref);
      SyncProbeFrontTimes(t, tref, sr, true, tol, num).value.points
        == [Point(0.0, fit.intercept), Point(1.0, fit.slope + fit.intercept)]
    ensures Interp(SyncProbeFrontTimes(t, tref, sr, true, tol, num).value.points, v)
            == Polyval(num.polyfit(t, tref), v)
  {
    var fit := num.polyfit(t, tref);
    var pts := ControlPoints(t, tref, true, num);
    assert pts == [Point(0.0, fit.intercept), Point(1.0, fit.slope + fit.intercept)];
    TwoPointIsLine(pts, v);
    FitThroughUnitPoints(fit, v);
  }

  /**
   * In smoothed mode the interpolant passes through the fitted line plus the
   * smoothed residual at every grid time 0, 20, 40, ...
   */
  lemma SmoothedModeAtGrid(t: seq<real>, tref: seq<real>, sr: real, tol: real, num: Numerics, k: nat)
    requires |t| == |tref| > 0
    requires SyncProbeFrontTimes(t, tref, sr, false, tol, num).Ok?
    requires k < |SyncProbeFrontTimes(t, tref, sr, false, tol, num).value.points|
    ensures var pts := SyncProbeFrontTimes(t, tref, sr, false, tol, num).value.points;
      var fit := num.polyfit(t, tref);
      var smooth := num.lowpass(t, tref, fit, PaddingFor(UpsampledSize(tref)));
      var x := SyncSamplingRateSecs * k as real;
      pts[k].x == x && Interp(pts, x) == Polyval(fit, x) + smooth(x)
  {
    SmoothedPointAt(t, tref, num, k);
  }

  /** The k-th smoothed control point sits at 20k s on the fitted line plus the smoothed residual. */
  lemma SmoothedPointAt(t: seq<real>, tref: seq<real>, num: Numerics, k: nat)
    requires |t| == |tref| > 0
    requires |ControlPoints(t, tref, false, num)| >= 2 && k < |ControlPoints(t, tref, false, num)|
    ensures var pts := ControlPoints(t, tref, false, num);
      var fit := num.polyfit(t, tref);
      var smooth := num.lowpass(t, tref, fit, PaddingFor(UpsampledSize(tref)));
      var x := SyncSamplingRateSecs * k as real;
      pts[k].x == x && Interp(pts, x) == Polyval(fit, x) + smooth(x)
  {
    SmoothedKnot(t, tref, num, k);
    InterpAtKnot(ControlPoints(t, tref, false, num), k);
  }

  /** The k-th smoothed control point sits on the 50 Hz grid and carries fit plus residual. */
  lemma SmoothedKnot(t: seq<real>, tref: seq<real>, num: Numerics, k: nat)
    requires |t| == |tref| > 0 && k < |ControlPoints(t, tref, false, num)|
    ensures var fit := num.polyfit(t, tref);
      var smooth := num.lowpass(t, tref, fit, PaddingFor(UpsampledSize(tref)));
      var x := SyncSamplingRateSecs * k as real;
      ControlPoints(t, tref, false, num)[k] == Point(x, Polyval(fit, x) + smooth(x))
  {
    var tout := Grid(Max(tref) + SyncSamplingRateSecs);
    assert tout[k] == SyncSamplingRateSecs * k as real;
  }

  // ------------------------------------------------- _save_timestamps_npy

  /** The table as persisted in the timestamps file: column 0 times `sr`. */
  function Stamps(table: seq<Point>, sr: real): (r: seq<Point>)
  {
    seq(|table|, k requires 0 <= k < |table| => Point(table[k].x * sr, table[k].y))
  }

  /** One probe's persisted pair of files: the sync table and the timestamps table. */
  datatype Persisted = Persisted(probe: nat, sync: seq<Point>, stamps: seq<Point>)

  /**
   * _save_timestamps_npy: the sync table is saved as it is; a copy of it has
   * column 0 scaled by the sampling rate in place and is saved as the
   * timestamps table.
   */
  method SaveTimestamps(probe: nat, tselfTref: seq<Point>, sr: real) returns (w: Persisted)
    ensures w.probe == probe && w.sync == tselfTref
    ensures |w.stamps| == |tselfTref|
    ensures forall k :: 0 <= k < |tselfTref| ==>
      w.stamps[k].x == tselfTref[k].x * sr && w.stamps[k].y == tselfTref[k].y
    ensures w.stamps == Stamps(tselfTref, sr)
  {
    var timestamps := new Point[|tselfTref|](k requires 0 <= k < |tselfTref| => tselfTref[k]);
    assert forall k :: 0 <= k < timestamps.Length ==> timestamps[k] == tselfTref[k];
    forall k | 0 <= k < timestamps.Length {
      timestamps[k] := Point(timestamps[k].x * sr, timestamps[k].y);
    }
    assert forall k :: 0 <= k < |tselfTref| ==>
      timestamps[..][k] == Stamps(tselfTref, sr)[k];
    assert timestamps[..] == Stamps(tselfTref, sr);
    w := Persisted(probe, tselfTref, timestamps[..]);
  }

  lemma StampsAt(table: seq<Point>, sr: real, k: nat)
    requires k < |table|
    ensures |Stamps(table, sr)| == |table|
    ensures Stamps(table, sr)[k] == Point(table[k].x * sr, table[k].y)
  {
  }

  lemma StampsAscending(table: seq<Point>, sr: real)
    requires Ascending(table) && sr > 0.0
    ensures Ascending(Stamps(table, sr))
  {
    var st := Stamps(table, sr);
    forall i, j | 0 <= i < j < |st| ensures st[i].x < st[j].x {
      assert table[i].x < table[j].x;
      assert st[j].x - st[i].x == (table[j].x - table[i].x) * sr;
    }
  }

  /** Scaling both abscissas of a line by `sr` scales its argument by `sr`. */
  lemma LineScaled(p: Point, q: Point, sr: real, u: real)
    requires p.x != q.x && sr > 0.0
    ensures Line(Point(p.x * sr, p.y), Point(q.x * sr, q.y), u * sr) == Line(p, q, u)
  {
    var dx, dy, w := q.x - p.x, q.y - p.y, u - p.x;
    assert q.x * sr - p.x * sr == dx * sr;
    assert u * sr - p.x * sr == w * sr;
    ScaledSlope(dy, dx, w, sr);
  }

  /** A slope over a scaled run times a scaled offset is the unscaled product. */
  lemma ScaledSlope(dy: real, dx: real, w: real, sr: real)
    requires dx != 0.0 && sr > 0.0
    ensures dy / (dx * sr) * (w * sr) == dy / dx * w
  {
    var m := dy / dx;
    assert dy == m * dx;
    assert dy / (dx * sr) == m / sr;
    assert m / sr * (w * sr) == m * w;
  }

  lemma ScaleOrder(a: real, b: real, sr: real)
    requires sr > 0.0
    ensures a < b <==> a * sr < b * sr
    ensures a <= b <==> a * sr <= b * sr
  {
    assert b * sr - a * sr == (b - a) * sr;
  }

  /** Both abscissa comparisons against `u` survive scaling by `sr`. */
  lemma StampsCompare(table: seq<Point>, sr: real, u: real, k: nat)
    requires k < |table| && sr > 0.0
    ensures |Stamps(table, sr)| == |table|
    ensures u * sr <= Stamps(table, sr)[k].x <==> u <= table[k].x
  {
    StampsAt(table, sr, k);
    ScaleOrder(u, table[k].x, sr);
  }

  lemma SegmentScaled(table: seq<Point>, sr: real, u: real)
    requires |table| >= 2 && Ascending(table) && sr > 0.0
    ensures Ascending(Stamps(table, sr))
    ensures Segment(Stamps(table, sr), u * sr) == Segment(table, u)
  {
    StampsAscending(table, sr);
    var st := Stamps(table, sr);
    var w := u * sr;
    forall k | 0 <= k < |table| ensures w <= st[k].x <==> u <= table[k].x {
      StampsCompare(table, sr, u, k);
    }
    SegmentTransfer(table, st, u, w);
  }

  /** The segment of the timestamps table at `u * sr` is the scaled segment of the sync table. */
  lemma LineOfStamps(table: seq<Point>, sr: real, u: real, k: nat)
    requires 1 <= k < |table| && Ascending(table) && sr > 0.0
    ensures |Stamps(table, sr)| == |table|
    ensures Line(Stamps(table, sr)[k - 1], Stamps(table, sr)[k], u * sr) == Line(table[k - 1], table[k], u)
  {
    StampsAt(table, sr, k - 1);
    StampsAt(table, sr, k);
    LineScaled(table[k - 1], table[k], sr, u);
  }

  /**
   * The timestamps table is the same map expressed in samples: at sample
   * index `u * sr` it gives the reference time the sync table gives at `u`.
   */
  lemma StampsSameMap(table: seq<Point>, sr: real, u: real)
    requires |table| >= 2 && Ascending(table) && sr > 0.0
    ensures Ascending(Stamps(table, sr))
    ensures Interp(Stamps(table, sr), u * sr) == Interp(table, u)
  {
    SegmentScaled(table, sr, u);
    LineOfStamps(table, sr, u, Segment(table, u));
  }
}
