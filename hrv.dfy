/**
 * The `HRV_analysis` object: an ECG recording, its sampling rate, and three results filled in
 * by steps that must run in order. `ApplyFilter` stores the band-passed signal,
 * `CalculateHrv` detects R-peaks in it and derives the RR intervals, and `GetPeakTimes` and
 * `SummarizeHrv` read those back. A step whose input is not there yet fails without changing
 * anything.
 *
 * The Butterworth design with forward-backward filtering and the peak finder are SciPy calls;
 * they are passed in as functions, constrained only by what the analysis relies on.
 */
module Hrv {
  import opened Wrappers
  import opened Series
  import PeakDetection
  import HrvSummary

  const DefaultFs: real := 500.0
  const DefaultLowcut: real := 1.0
  const DefaultHighcut: real := 50.0
  const DefaultOrder: int := 5

  datatype HrvError =
    | FilterFailed         // the filter design or the zero-phase filtering raised
    | FilteredDataMissing  // `calculate_hrv` before `apply_filter`
    | PeaksMissing         // `get_peak_times` before `calculate_hrv`
    | IntervalsMissing     // `summarize_hrv` before `calculate_hrv`
    | NoIntervals          // `np.min` of zero RR intervals raises

  /**
   * `filtfilt(*butter(order, [low, high], btype='band'), x)`: the filtered signal, or `None`
   * where SciPy raises.
   */
  type BandPass = (seq<real>, real, real, int) -> Option<seq<real>>

  /** Forward-backward filtering returns one output sample per input sample. */
  ghost predicate ZeroPhase(f: BandPass)
  {
    forall x, low, high, order :: f(x, low, high, order).Some? ==> |f(x, low, high, order).value| == |x|
  }

  /** `find_peaks(x, height=h)[0]`. */
  type PeakFinder = (seq<real>, real) -> seq<int>

  /** The cutoffs divided by the Nyquist frequency `0.5 * fs`. */
  function NormalizedCutoffs(fs: real, lowcut: real, highcut: real): (w: (real, real))
    requires fs > 0.0
    ensures w.0 * (0.5 * fs) == lowcut && w.1 * (0.5 * fs) == highcut
  {
    var nyq := 0.5 * fs;
    (lowcut / nyq, highcut / nyq)
  }

  /** With the defaults (500 Hz, 1 Hz to 50 Hz) the normalised band is 0.004 to 0.2. */
  lemma DefaultCutoffs()
    ensures NormalizedCutoffs(DefaultFs, DefaultLowcut, DefaultHighcut) == (0.004, 0.2)
  {
  }

  /** The normalised band is a valid digital band, `0 < low < high < 1`, exactly when the cutoffs lie below Nyquist in order. */
  lemma CutoffsWithinNyquist(fs: real, lowcut: real, highcut: real)
    requires fs > 0.0
    ensures var w := NormalizedCutoffs(fs, lowcut, highcut);
      (0.0 < w.0 < w.1 < 1.0) <==> (0.0 < lowcut < highcut < 0.5 * fs)
  {
    var w := NormalizedCutoffs(fs, lowcut, highcut);
    var nyq := 0.5 * fs;
    if 0.0 < w.0 < w.1 < 1.0 {
      Scaled(0.0, w.0, nyq);
      Scaled(w.0, w.1, nyq);
      Scaled(w.1, 1.0, nyq);
    }
    if 0.0 < lowcut < highcut < nyq {
      Unscaled(0.0, lowcut, nyq);
      Unscaled(lowcut, highcut, nyq);
      Unscaled(highcut, nyq, nyq);
      assert nyq / nyq == 1.0;
    }
  }

  lemma Scaled(a: real, b: real, c: real)
    requires a < b && c > 0.0
    ensures a * c < b * c
  {
  }

  lemma Unscaled(a: real, b: real, c: real)
    requires a < b && c > 0.0
    ensures a / c < b / c
  {
  }

  /** `np.diff(peaks) / fs`: the time between consecutive peaks, in seconds. */
  function RRIntervals(peaks: seq<int>, fs: real): (rr: seq<real>)
    requires fs > 0.0
    ensures |rr| == if |peaks| < 2 then 0 else |peaks| - 1
  {
    if |peaks| < 2 then [] else [(peaks[1] - peaks[0]) as real / fs] + RRIntervals(peaks[1..], fs)
  }

  lemma {:induction false} RRIntervalsAt(peaks: seq<int>, fs: real, i: nat)
    requires fs > 0.0 && i + 1 < |peaks|
    ensures RRIntervals(peaks, fs)[i] == (peaks[i + 1] - peaks[i]) as real / fs
  {
    if i > 0 {
      RRIntervalsAt(peaks[1..], fs, i - 1);
    }
  }

  /** Strictly increasing peaks are separated by positive intervals. */
  lemma RRIntervalsPositive(peaks: seq<int>, fs: real)
    requires fs > 0.0 && StrictlyIncreasing(peaks)
    ensures forall i :: 0 <= i < |RRIntervals(peaks, fs)| ==> RRIntervals(peaks, fs)[i] > 0.0
  {
    forall i | 0 <= i < |RRIntervals(peaks, fs)| ensures RRIntervals(peaks, fs)[i] > 0.0 {
      RRIntervalsAt(peaks, fs, i);
      assert peaks[i] < peaks[i + 1];
    }
  }

  /** `peaks / fs`: the time of each peak, in seconds. */
  function PeakTimes(peaks: seq<int>, fs: real): (t: seq<real>)
    requires fs > 0.0
    ensures |t| == |peaks|
    ensures forall i :: 0 <= i < |peaks| ==> t[i] * fs == peaks[i] as real
  {
    seq(|peaks|, i requires 0 <= i < |peaks| => peaks[i] as real / fs)
  }

  /** The RR intervals are the gaps between consecutive peak times. */
  lemma PeakTimesSpacing(peaks: seq<int>, fs: real, i: nat)
    requires fs > 0.0 && i + 1 < |peaks|
    ensures PeakTimes(peaks, fs)[i + 1] - PeakTimes(peaks, fs)[i] == RRIntervals(peaks, fs)[i]
  {
    RRIntervalsAt(peaks, fs, i);
    DifferenceOfQuotients(peaks[i] as real, peaks[i + 1] as real, fs);
  }

  lemma DifferenceOfQuotients(a: real, b: real, c: real)
    requires c > 0.0
    ensures b / c - a / c == (b - a) / c
  {
  }

  /** The threshold `np.mean(filtered_data)`; an empty signal has no interior sample, so its threshold never matters. */
  function MeanHeight(x: seq<real>): real
  {
    if |x| == 0 then 0.0 else Mean(x)
  }

  class HrvAnalysis {
    const data: seq<real>
    const fs: real
    var filteredData: Option<seq<real>>
    var rrIntervals: Option<seq<real>>
    var peaks: Option<seq<int>>

    /**
     * The object invariant: a filtered signal is as long as the recording; peaks exist only
     * after filtering and are strictly increasing interior indices of it; the RR intervals
     * exist exactly when the peaks do, and are derived from them.
     */
    ghost predicate Valid()
      reads this
    {
      fs > 0.0 &&
      (filteredData.Some? ==> |filteredData.value| == |data|) &&
      (peaks.Some? ==>
        filteredData.Some? &&
        StrictlyIncreasing(peaks.value) && PeakDetection.Interior(peaks.value, |data|)) &&
      (rrIntervals.Some? <==> peaks.Some?) &&
      (peaks.Some? ==> rrIntervals.value == RRIntervals(peaks.value, fs))
    }

    constructor (data: seq<real>, fs: real := DefaultFs)
      requires fs > 0.0
      ensures Valid()
      ensures this.data == data && this.fs == fs
      ensures filteredData == None && rrIntervals == None && peaks == None
    {
      this.data := data;
      this.fs := fs;
      filteredData := None;
      rrIntervals := None;
      peaks := None;
    }

    /** `apply_filter`: band-pass the recording, store the result and return it. */
    method ApplyFilter(bandPass: BandPass, lowcut: real := DefaultLowcut, highcut: real := DefaultHighcut,
                       order: int := DefaultOrder)
      returns (r: Result<seq<real>, HrvError>)
      requires Valid() && ZeroPhase(bandPass)
      modifies this`filteredData
      ensures Valid()
      ensures var w := NormalizedCutoffs(fs, lowcut, highcut);
        match bandPass(data, w.0, w.1, order)
        case None => r == Err(FilterFailed) && filteredData == old(filteredData)
        case Some(y) => r == Ok(y) && filteredData == Some(y) && |y| == |data|
      ensures peaks == old(peaks) && rrIntervals == old(rrIntervals)
    {
      var nyq := 0.5 * fs;
      var low := lowcut / nyq;
      var high := highcut / nyq;
      var y := bandPass(data, low, high, order);
      if y.None? {
        return Err(FilterFailed);
      }
      filteredData := Some(y.value);
      r := Ok(y.value);
    }

    /**
     * `calculate_hrv`: detect the peaks of the filtered signal above its mean, store them and
     * the RR intervals between them, and return the intervals.
     */
    method CalculateHrv(findPeaks: PeakFinder) returns (r: Result<seq<real>, HrvError>)
      requires Valid() && PeakDetection.IsPeakFinder(findPeaks)
      modifies this`peaks, this`rrIntervals
      ensures Valid()
      ensures filteredData.None? ==>
        r == Err(FilteredDataMissing) && peaks == old(peaks) && rrIntervals == old(rrIntervals)
      ensures filteredData.Some? ==>
        var x := filteredData.value;
        var p := findPeaks(x, MeanHeight(x));
        peaks == Some(p) && PeakDetection.IsPeakSet(x, MeanHeight(x), p) &&
        rrIntervals == Some(RRIntervals(p, fs)) && r == Ok(RRIntervals(p, fs)) &&
        |r.value| == (if |p| < 2 then 0 else |p| - 1) &&
        (forall i :: 0 <= i < |r.value| ==> r.value[i] > 0.0)
    {
      if filteredData.None? {
        return Err(FilteredDataMissing);
      }
      var x := filteredData.value;
      var p := findPeaks(x, MeanHeight(x));
      assert PeakDetection.IsPeakSet(x, MeanHeight(x), p);
      peaks := Some(p);
      rrIntervals := Some(RRIntervals(p, fs));
      RRIntervalsPositive(p, fs);
      r := Ok(rrIntervals.value);
    }

    /** `get_peak_times`: the peak indices converted to seconds. */
    method GetPeakTimes() returns (r: Result<seq<real>, HrvError>)
      requires Valid()
      ensures peaks.None? ==> r == Err(PeaksMissing)
      ensures peaks.Some? ==>
        r == Ok(PeakTimes(peaks.value, fs)) && |r.value| == |peaks.value| &&
        forall i :: 0 <= i < |peaks.value| ==> r.value[i] * fs == peaks.value[i] as real
    {
      if peaks.None? {
        return Err(PeaksMissing);
      }
      r := Ok(PeakTimes(peaks.value, fs));
    }

    /** `summarize_hrv`: the summary record of the stored RR intervals. */
    method SummarizeHrv() returns (r: Result<HrvSummary.Summary, HrvError>)
      requires Valid()
      ensures rrIntervals.None? ==> r == Err(IntervalsMissing)
      ensures rrIntervals == Some([]) ==> r == Err(NoIntervals)
      ensures rrIntervals.Some? && |rrIntervals.value| > 0 ==> r == Ok(HrvSummary.Summarize(rrIntervals.value))
      ensures r.Ok? <==> rrIntervals.Some? && peaks.Some? && |peaks.value| >= 2
    {
      if rrIntervals.None? {
        return Err(IntervalsMissing);
      }
      if |rrIntervals.value| == 0 {
        return Err(NoIntervals);
      }
      r := Ok(HrvSummary.Summarize(rrIntervals.value));
    }
  }
}
