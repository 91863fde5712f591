/**
 * The numeric work of `MainController`: acceleration and deceleration detection on a fetal
 * heart rate trace, its short-term variability, and the data behind the HRV plots. Widgets,
 * file dialogs and drawing are not modelled; each operation returns what it would draw.
 */
module Controller {
  import opened Wrappers
  import opened Series
  import PeakDetection
  import Hrv
  import HrvSummary

  // ---------------------------------------------------------------- moving average

  /** `np.convolve(fhr, np.ones(d) / d, mode='valid')`. */
  function MovingAverage(fhr: seq<real>, d: int): (sm: seq<real>)
    requires |fhr| > 0 && d > 0
    ensures |sm| == if |fhr| >= d then |fhr| - d + 1 else d - |fhr| + 1
  {
    if |fhr| >= d then
      seq(|fhr| - d + 1, j requires 0 <= j <= |fhr| - d => Sum(fhr[j..j + d]) / d as real)
    else
      // numpy swaps the operands when the kernel is the longer one: every output sums all of fhr
      seq(d - |fhr| + 1, _ => Sum(fhr) / d as real)
  }

  /** Each smoothed sample is the mean of the `d` raw samples starting at its position. */
  lemma MovingAverageAt(fhr: seq<real>, d: int, j: int)
    requires 0 < d <= |fhr| && 0 <= j <= |fhr| - d
    ensures MovingAverage(fhr, d)[j] == Mean(fhr[j..j + d])
  {
  }

  /** A constant trace smooths to the same constant. */
  lemma MovingAverageConstant(fhr: seq<real>, c: real, d: int)
    requires 0 < d <= |fhr|
    requires forall k :: 0 <= k < |fhr| ==> fhr[k] == c
    ensures forall j :: 0 <= j < |MovingAverage(fhr, d)| ==> MovingAverage(fhr, d)[j] == c
  {
    forall j | 0 <= j < |MovingAverage(fhr, d)| ensures MovingAverage(fhr, d)[j] == c {
      var w := fhr[j..j + d];
      MovingAverageAt(fhr, d, j);
      SumConstant(w, c);
      assert Sum(w) == d as real * c;
      assert Mean(w) == c;
    }
  }

  // ---------------------------------------------------------------- event classification

  const DefaultThreshold: real := 0.1
  const DefaultDuration: int := 3

  datatype FhrError =
    | NegativeWindow    // `np.ones(duration)` with a negative duration
    | EmptyConvolution  // `np.convolve` with an empty trace or an empty window

  /** `len(range(len(smoothed) - d))`: the number of window starts examined. */
  function WindowCount(sm: seq<real>, d: int): nat
  {
    if |sm| > d then |sm| - d else 0
  }

  /** The number of windows is `|fhr| - 2·d + 1`, or none when that is not positive. */
  lemma WindowCountOfTrace(fhr: seq<real>, d: int)
    requires |fhr| > 0 && d > 0
    ensures WindowCount(MovingAverage(fhr, d), d) == if |fhr| - 2 * d + 1 > 0 then |fhr| - 2 * d + 1 else 0
  {
  }

  /** The window starting at `i` rises by at least `t`. */
  predicate IsAcceleration(sm: seq<real>, d: int, t: real, i: int)
    requires 0 <= i && 0 <= d && i + d < |sm|
  {
    sm[i + d] - sm[i] >= t
  }

  /** The window starting at `i` falls by at least `t` and is not an acceleration. */
  predicate IsDeceleration(sm: seq<real>, d: int, t: real, i: int)
    requires 0 <= i && 0 <= d && i + d < |sm|
  {
    !IsAcceleration(sm, d, t, i) && sm[i + d] - sm[i] <= -t
  }

  /** The two index lists after the loop has examined the first `count` window starts. */
  function Classify(sm: seq<real>, t: real, d: int, count: nat): (seq<int>, seq<int>)
    requires d > 0 && count <= WindowCount(sm, d)
  {
    if count == 0 then ([], [])
    else
      var (accel, decel) := Classify(sm, t, d, count - 1);
      var i := count - 1;
      if IsAcceleration(sm, d, t, i) then (accel + [i + d / 2], decel)
      else if IsDeceleration(sm, d, t, i) then (accel, decel + [i + d / 2])
      else (accel, decel)
  }

  /**
   * After `count` windows: each list is strictly increasing and holds window centres
   * `i + d/2` of examined windows; the centre of window `i` is in the acceleration list exactly
   * when the window is an acceleration and in the deceleration list exactly when it is a
   * deceleration; the lists are disjoint and hold at most one event per window.
   */
  lemma {:induction false} ClassifyProperties(sm: seq<real>, t: real, d: int, count: nat)
    requires d > 0 && count <= WindowCount(sm, d)
    ensures var (accel, decel) := Classify(sm, t, d, count);
      StrictlyIncreasing(accel) && StrictlyIncreasing(decel) &&
      (forall k :: 0 <= k < |accel| ==> d / 2 <= accel[k] < count + d / 2) &&
      (forall k :: 0 <= k < |decel| ==> d / 2 <= decel[k] < count + d / 2) &&
      (forall i :: 0 <= i < count ==> (i + d / 2 in accel <==> IsAcceleration(sm, d, t, i))) &&
      (forall i :: 0 <= i < count ==> (i + d / 2 in decel <==> IsDeceleration(sm, d, t, i))) &&
      (forall k :: k in accel ==> k !in decel) &&
      |accel| + |decel| <= count
  {
    ClassifyShape(sm, t, d, count);
    ClassifyMembership(sm, t, d, count);
    var (accel, decel) := Classify(sm, t, d, count);
    forall k | k in accel ensures k !in decel {
      var j :| 0 <= j < |accel| && accel[j] == k;
      var i := k - d / 2;
      assert 0 <= i < count;
      assert i + d / 2 in accel;
      assert IsAcceleration(sm, d, t, i);
      assert !IsDeceleration(sm, d, t, i);
    }
  }

  /** Both lists ascend, hold centres of examined windows and together at most one per window. */
  lemma {:induction false} ClassifyShape(sm: seq<real>, t: real, d: int, count: nat)
    requires d > 0 && count <= WindowCount(sm, d)
    ensures StrictlyIncreasing(Classify(sm, t, d, count).0) && StrictlyIncreasing(Classify(sm, t, d, count).1)
    ensures forall k :: 0 <= k < |Classify(sm, t, d, count).0| ==> d / 2 <= Classify(sm, t, d, count).0[k] < count + d / 2
    ensures forall k :: 0 <= k < |Classify(sm, t, d, count).1| ==> d / 2 <= Classify(sm, t, d, count).1[k] < count + d / 2
    ensures |Classify(sm, t, d, count).0| + |Classify(sm, t, d, count).1| <= count
  {
    if count > 0 {
      ClassifyShape(sm, t, d, count - 1);
    }
  }

  /** The centre of an examined window is listed as an acceleration (deceleration) exactly when it is one. */
  lemma {:induction false} ClassifyMembership(sm: seq<real>, t: real, d: int, count: nat)
    requires d > 0 && count <= WindowCount(sm, d)
    ensures forall i :: 0 <= i < count ==> (i + d / 2 in Classify(sm, t, d, count).0 <==> IsAcceleration(sm, d, t, i))
    ensures forall i :: 0 <= i < count ==> (i + d / 2 in Classify(sm, t, d, count).1 <==> IsDeceleration(sm, d, t, i))
  {
    if count > 0 {
      ClassifyMembership(sm, t, d, count - 1);
      ClassifyShape(sm, t, d, count - 1);
    }
  }

  /** `identify_accel_decel`. */
  method IdentifyAccelDecel(fhr: seq<real>, threshold: real := DefaultThreshold, duration: int := DefaultDuration)
    returns (r: Result<(seq<int>, seq<int>), FhrError>)
    ensures duration < 0 ==> r == Err(NegativeWindow)
    ensures duration >= 0 && (duration == 0 || |fhr| == 0) ==> r == Err(EmptyConvolution)
    ensures duration > 0 && |fhr| > 0 ==>
      var sm := MovingAverage(fhr, duration);
      var n := WindowCount(sm, duration);
      r.Ok? && r.value == Classify(sm, threshold, duration, n) &&
      var (accel, decel) := r.value;
      StrictlyIncreasing(accel) && StrictlyIncreasing(decel) &&
      (forall i :: 0 <= i < n ==> (i + duration / 2 in accel <==> IsAcceleration(sm, duration, threshold, i))) &&
      (forall i :: 0 <= i < n ==> (i + duration / 2 in decel <==> IsDeceleration(sm, duration, threshold, i))) &&
      (forall k :: k in accel ==> k !in decel) &&
      (forall k :: k in accel + decel ==> 0 <= k < |fhr|) &&
      |accel| + |decel| <= (if |fhr| - 2 * duration + 1 > 0 then |fhr| - 2 * duration + 1 else 0)
  {
    if duration < 0 {
      return Err(NegativeWindow);
    }
    if duration == 0 || |fhr| == 0 {
      return Err(EmptyConvolution);
    }
    var accel: seq<int> := [];
    var decel: seq<int> := [];
    var sm := MovingAverage(fhr, duration);
    var n := WindowCount(sm, duration);
    var i := 0;
    while i < n
      invariant 0 <= i <= n
      invariant (accel, decel) == Classify(sm, threshold, duration, i)
    {
      var change := sm[i + duration] - sm[i];
      if change >= threshold {
        accel := accel + [i + duration / 2];
      } else if change <= -threshold {
        decel := decel + [i + duration / 2];
      }
      i := i + 1;
    }
    ClassifyProperties(sm, threshold, duration, n);
    WindowCountOfTrace(fhr, duration);
    r := Ok((accel, decel));
  }

  /** A constant trace has no events when the threshold is positive. */
  lemma ConstantTraceHasNoEvents(fhr: seq<real>, c: real, t: real, d: int)
    requires |fhr| > 0 && d > 0 && t > 0.0
    requires forall k :: 0 <= k < |fhr| ==> fhr[k] == c
    ensures var sm := MovingAverage(fhr, d);
      Classify(sm, t, d, WindowCount(sm, d)) == ([], [])
  {
    var sm := MovingAverage(fhr, d);
    var n := WindowCount(sm, d);
    if n > 0 {
      MovingAverageConstant(fhr, c, d);
    }
    NoEvents(sm, t, d, n);
  }

  /** When no examined window is an acceleration or a deceleration, both lists are empty. */
  lemma {:induction false} NoEvents(sm: seq<real>, t: real, d: int, count: nat)
    requires d > 0 && count <= WindowCount(sm, d)
    requires forall i :: 0 <= i < count ==> !IsAcceleration(sm, d, t, i) && !IsDeceleration(sm, d, t, i)
    ensures Classify(sm, t, d, count) == ([], [])
  {
    if count > 0 {
      NoEvents(sm, t, d, count - 1);
    }
  }

  /** When every examined window is an acceleration, the acceleration list is every window centre. */
  lemma {:induction false} AllAccelerations(sm: seq<real>, t: real, d: int, count: nat)
    requires d > 0 && count <= WindowCount(sm, d)
    requires forall i :: 0 <= i < count ==> IsAcceleration(sm, d, t, i)
    ensures Classify(sm, t, d, count) == (seq(count, i => i + d / 2), [])
  {
    if count > 0 {
      AllAccelerations(sm, t, d, count - 1);
      assert IsAcceleration(sm, d, t, count - 1);
      assert Classify(sm, t, d, count) == (seq(count - 1, i => i + d / 2) + [count - 1 + d / 2], []);
      assert seq(count, i => i + d / 2) == seq(count - 1, i => i + d / 2) + [count - 1 + d / 2];
    } else {
      assert seq(count, i => i + d / 2) == [];
    }
  }

  /** In a trace rising by `step` per sample, samples `m` apart differ by `m·step`. */
  lemma {:induction false} LinearGap(fhr: seq<real>, step: real, k: nat, m: nat)
    requires k + m < |fhr|
    requires forall j :: 0 <= j < |fhr| - 1 ==> fhr[j + 1] - fhr[j] == step
    ensures fhr[k + m] - fhr[k] == m as real * step
  {
    if m > 0 {
      LinearGap(fhr, step, k, m - 1);
      assert fhr[k + m] - fhr[k + m - 1] == step;
    }
  }

  /** Two sequences of equal length that differ pairwise by `delta` have sums differing by `|u|·delta`. */
  lemma {:induction false} PairwiseSum(u: seq<real>, l: seq<real>, delta: real)
    requires |u| == |l|
    requires forall k :: 0 <= k < |u| ==> u[k] - l[k] == delta
    ensures Sum(u) - Sum(l) == |u| as real * delta
  {
    if |u| > 0 {
      PairwiseSum(u[1..], l[1..], delta);
      assert u[0] - l[0] == delta;
      assert |u| as real * delta == (|u| - 1) as real * delta + delta;
    }
  }

  /**
   * In a trace rising by `step` per sample, every smoothed window changes by `d·step`; when
   * that reaches the threshold, every window start `i` yields an acceleration at `i + d/2`
   * and there is no deceleration (for `d = 3` and a step of 1, the events are at `i + 1`).
   */
  lemma LinearTraceAccelerates(fhr: seq<real>, step: real, t: real, d: int)
    requires |fhr| > 0 && d > 0
    requires forall j :: 0 <= j < |fhr| - 1 ==> fhr[j + 1] - fhr[j] == step
    requires d as real * step >= t
    ensures var sm := MovingAverage(fhr, d);
      var n := WindowCount(sm, d);
      Classify(sm, t, d, n) == (seq(n, i => i + d / 2), [])
  {
    var sm := MovingAverage(fhr, d);
    var n := WindowCount(sm, d);
    forall i | 0 <= i < n ensures IsAcceleration(sm, d, t, i) {
      var lower, upper := fhr[i..i + d], fhr[i + d..i + 2 * d];
      WindowGaps(fhr, step, d, i, lower, upper);
      WindowChange(lower, upper, d as real * step);
      MovingAverageAt(fhr, d, i);
      MovingAverageAt(fhr, d, i + d);
    }
    AllAccelerations(sm, t, d, n);
  }

  /** Two windows whose samples differ pairwise by `delta` have averages differing by `delta`. */
  lemma WindowChange(lower: seq<real>, upper: seq<real>, delta: real)
    requires 0 < |lower| == |upper|
    requires forall k :: 0 <= k < |upper| ==> upper[k] - lower[k] == delta
    ensures Mean(upper) - Mean(lower) == delta
  {
    PairwiseSum(upper, lower, delta);
    AverageGap(Sum(lower), Sum(upper), |upper| as real, delta);
  }

  /** Window sums `s1`, `s2` differing by `c·delta` give averages over `c` samples differing by `delta`. */
  lemma AverageGap(s1: real, s2: real, c: real, delta: real)
    requires c > 0.0 && s2 - s1 == c * delta
    ensures s2 / c - s1 / c == delta
  {
    Hrv.DifferenceOfQuotients(s1, s2, c);
    QuotientOfProduct(s2 - s1, c, delta);
  }

  /** In a trace rising by `step` per sample, the window starting at `i + d` lies `d·step` above the one at `i`, sample by sample. */
  lemma WindowGaps(fhr: seq<real>, step: real, d: int, i: nat, lower: seq<real>, upper: seq<real>)
    requires d > 0 && i + 2 * d <= |fhr|
    requires lower == fhr[i..i + d] && upper == fhr[i + d..i + 2 * d]
    requires forall j :: 0 <= j < |fhr| - 1 ==> fhr[j + 1] - fhr[j] == step
    ensures forall k :: 0 <= k < |upper| ==> upper[k] - lower[k] == d as real * step
  {
    forall k | 0 <= k < |upper| ensures upper[k] - lower[k] == d as real * step {
      LinearGap(fhr, step, i + k, d);
      assert upper[k] == fhr[i + k + d] && lower[k] == fhr[i + k];
    }
  }

  lemma QuotientOfProduct(x: real, c: real, y: real)
    requires c > 0.0 && x == c * y
    ensures x / c == y
  {
  }

  // ---------------------------------------------------------------- short-term variability

  /** `plot_stv`: `(time[1:], np.abs(np.diff(fhr)))`, the STV of each sample against its successor. */
  function ComputeStv(time: seq<real>, fhr: seq<real>): (r: (seq<real>, seq<real>))
    ensures |r.1| == if |fhr| < 2 then 0 else |fhr| - 1
    ensures |r.0| == if |time| == 0 then 0 else |time| - 1
    ensures |time| == |fhr| ==> |r.0| == |r.1|
    ensures forall i :: 0 <= i < |r.1| ==> r.1[i] == Abs(fhr[i + 1] - fhr[i]) && r.1[i] >= 0.0
    ensures forall i :: 0 <= i < |r.0| ==> r.0[i] == time[i + 1]
  {
    DiffElements(fhr);
    (DropFirst(time), AbsAll(Diff(fhr)))
  }

  /** The trace 140, 142, 138, 139 has STV 2, 4, 1. */
  lemma StvExample(time: seq<real>)
    requires |time| == 4
    ensures ComputeStv(time, [140.0, 142.0, 138.0, 139.0]) == (time[1..], [2.0, 4.0, 1.0])
  {
    var fhr := [140.0, 142.0, 138.0, 139.0];
    var stv := ComputeStv(time, fhr).1;
    assert |stv| == 3;
    assert stv[0] == 2.0 && stv[1] == 4.0 && stv[2] == 1.0;
    assert stv == [2.0, 4.0, 1.0];
    assert ComputeStv(time, fhr).0 == time[1..];
  }

  // ---------------------------------------------------------------- HRV plotting

  /** `(peak_times[:-1], hrv_data * 1000)`, plotted only when there are at least two RR intervals. */
  function RRSeriesPoints(peakTimes: seq<real>, rr: seq<real>): (pts: Option<(seq<real>, seq<real>)>)
    ensures pts.Some? <==> |rr| > 1
    ensures pts.Some? && |peakTimes| == |rr| + 1 ==> |pts.value.0| == |pts.value.1|
  {
    if |rr| > 1 then Some((DropLast(peakTimes), Scale(rr, HrvSummary.MsPerSecond))) else None
  }

  /** Each plotted point is a beat's time and the milliseconds until the next beat. */
  lemma RRSeriesAligned(peaks: seq<int>, fs: real)
    requires fs > 0.0 && |peaks| > 2
    ensures var times := Hrv.PeakTimes(peaks, fs);
      var pts := RRSeriesPoints(times, Hrv.RRIntervals(peaks, fs));
      pts.Some? && |pts.value.0| == |pts.value.1| == |peaks| - 1 &&
      forall i :: 0 <= i < |pts.value.0| ==> pts.value.0[i] + pts.value.1[i] / 1000.0 == times[i + 1]
  {
    var times := Hrv.PeakTimes(peaks, fs);
    var pts := RRSeriesPoints(times, Hrv.RRIntervals(peaks, fs));
    forall i | 0 <= i < |pts.value.0| ensures pts.value.0[i] + pts.value.1[i] / 1000.0 == times[i + 1] {
      Hrv.PeakTimesSpacing(peaks, fs, i);
    }
  }

  /** What `plot_HRV_data` draws and shows: the filtered trace, the RR series (if drawn) and the summary. */
  datatype HrvPlot = HrvPlot(filtered: seq<real>, rrSeries: Option<(seq<real>, seq<real>)>, summary: HrvSummary.Summary)

  /**
   * `plot_HRV_data`: run the analysis steps in their required order on an ECG trace sampled at
   * 500 Hz. No step finds its input missing; the only failures are the filter's and the
   * summary's on fewer than two peaks.
   */
  method PlotHrvData(yData: seq<real>, bandPass: Hrv.BandPass, findPeaks: Hrv.PeakFinder)
    returns (r: Result<HrvPlot, Hrv.HrvError>)
    requires Hrv.ZeroPhase(bandPass) && PeakDetection.IsPeakFinder(findPeaks)
    ensures var w := Hrv.NormalizedCutoffs(Hrv.DefaultFs, Hrv.DefaultLowcut, Hrv.DefaultHighcut);
      match bandPass(yData, w.0, w.1, Hrv.DefaultOrder)
      case None => r == Err(Hrv.FilterFailed)
      case Some(y) =>
        var p := findPeaks(y, Hrv.MeanHeight(y));
        var rr := Hrv.RRIntervals(p, Hrv.DefaultFs);
        if |rr| == 0 then r == Err(Hrv.NoIntervals)
        else
          r == Ok(HrvPlot(y, RRSeriesPoints(Hrv.PeakTimes(p, Hrv.DefaultFs), rr), HrvSummary.Summarize(rr))) &&
          |y| == |yData|
  {
    var analysis := new Hrv.HrvAnalysis(yData);
    var filtered := analysis.ApplyFilter(bandPass);
    if filtered.Err? {
      return Err(filtered.error);
    }
    var rr := analysis.CalculateHrv(findPeaks);
    var peakTimes := analysis.GetPeakTimes();
    var series := RRSeriesPoints(peakTimes.value, rr.value);
    var summary := analysis.SummarizeHrv();
    if summary.Err? {
      return Err(summary.error);
    }
    r := Ok(HrvPlot(filtered.value, series, summary.value));
  }
}
