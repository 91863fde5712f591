/**
 * The record part of `summarize_hrv`: every statistic of the RR intervals, scaled to
 * milliseconds (the `round(...)` applied for display is not modelled). SDNN and RMSSD are
 * carried as squares, in ms².
 *
 * The source scales the mean by 10000 although the field is labelled in milliseconds like the
 * others, which are scaled by 1000. `SummarizeAsWritten` keeps that factor and
 * `MeanFieldOutOfRange` exhibits its effect; `Summarize` uses 1000 and is what the rest of the
 * model uses.
 */
module HrvSummary {
  import opened Wrappers
  import opened Series
  import opened HrvStatistics

  datatype Summary = Summary(
    meanRRMs: real,
    sdnnMsSquared: real,
    /** `None` where numpy's mean of no successive differences is NaN (a single interval). */
    rmssdMsSquared: Option<real>,
    pnn50: real,
    minRRMs: real,
    maxRRMs: real,
    rangeRRMs: real,
    outliersMs: seq<real>,
    histogramCounts: seq<nat>,
    histogramEdgesMs: seq<real>)

  const MsPerSecond: real := 1000.0
  const SquaredMsPerSquaredSecond: real := 1000000.0
  /** The factor the source applies to the mean interval. */
  const MeanScaleAsWritten: real := 10000.0
  const HistogramBins: nat := 10

  /** The summary with the mean interval multiplied by `meanScale`. */
  function BuildSummary(rr: seq<real>, meanScale: real): Summary
    requires |rr| > 0
  {
    var (lo, hi, range) := MinMaxRange(rr);
    var h := CalculateHistogram(rr, HistogramBins);
    Summary(
      MeanRR(rr) * meanScale,
      SdnnSquared(rr) * SquaredMsPerSquaredSecond,
      if |rr| >= 2 then Some(RmssdSquared(rr) * SquaredMsPerSquaredSecond) else None,
      PNN50(rr),
      lo * MsPerSecond,
      hi * MsPerSecond,
      range * MsPerSecond,
      Scale(DetectOutliers(rr), MsPerSecond),
      h.counts,
      Scale(h.edges, MsPerSecond))
  }

  /**
   * The summary as the source computes it, mean interval scaled by 10000: its mean field lies
   * between ten times its minimum and ten times its maximum field, not between the two.
   */
  function SummarizeAsWritten(rr: seq<real>): (s: Summary)
    requires |rr| > 0
    ensures s.meanRRMs == MeanRR(rr) * MeanScaleAsWritten
    ensures s.minRRMs == Min(rr) * MsPerSecond && s.maxRRMs == Max(rr) * MsPerSecond
    ensures 10.0 * s.minRRMs <= s.meanRRMs <= 10.0 * s.maxRRMs
  {
    BuildSummary(rr, MeanScaleAsWritten)
  }

  /**
   * The summary with every field in milliseconds. Its fields agree with one another: the mean
   * lies between the minimum and the maximum, the range is their difference, the outliers lie
   * between them as well, pNN50 is a percentage below 100, RMSSD is present exactly when there
   * is a successive difference, and the ten histogram bins count every interval once.
   */
  function Summarize(rr: seq<real>): (s: Summary)
    requires |rr| > 0
    // each field is its statistic in milliseconds (ms² for SDNN and RMSSD)
    ensures s.meanRRMs == MeanRR(rr) * MsPerSecond
    ensures s.sdnnMsSquared == SdnnSquared(rr) * SquaredMsPerSquaredSecond
    ensures s.rmssdMsSquared == if |rr| >= 2 then Some(RmssdSquared(rr) * SquaredMsPerSquaredSecond) else None
    ensures s.pnn50 == PNN50(rr)
    ensures s.minRRMs == Min(rr) * MsPerSecond && s.maxRRMs == Max(rr) * MsPerSecond
    ensures s.rangeRRMs == MinMaxRange(rr).2 * MsPerSecond
    ensures s.outliersMs == Scale(DetectOutliers(rr), MsPerSecond)
    ensures s.histogramCounts == CalculateHistogram(rr, HistogramBins).counts
    ensures s.histogramEdgesMs == Scale(CalculateHistogram(rr, HistogramBins).edges, MsPerSecond)
    // and the fields agree with one another
    ensures s.minRRMs <= s.meanRRMs <= s.maxRRMs
    ensures s.rangeRRMs == s.maxRRMs - s.minRRMs && s.rangeRRMs >= 0.0
    ensures 0.0 <= s.pnn50 < 100.0
    ensures s.sdnnMsSquared >= 0.0
    ensures s.rmssdMsSquared.Some? <==> |rr| >= 2
    ensures s.rmssdMsSquared.Some? ==> s.rmssdMsSquared.value >= 0.0
    ensures forall k :: 0 <= k < |s.outliersMs| ==> s.minRRMs <= s.outliersMs[k] <= s.maxRRMs
    ensures |s.histogramCounts| == HistogramBins && |s.histogramEdgesMs| == HistogramBins + 1
    ensures Total(s.histogramCounts) == |rr|
  {
    HistogramCountsEveryInterval(rr, HistogramBins);
    DetectOutliersExactly(rr, 3.0);
    BuildSummary(rr, MsPerSecond)
  }

  /** The source's mean field is ten times the mean interval in milliseconds. */
  lemma AsWrittenMeanTenfold(rr: seq<real>)
    requires |rr| > 0
    ensures SummarizeAsWritten(rr).meanRRMs == 10.0 * Summarize(rr).meanRRMs
    ensures SummarizeAsWritten(rr) == Summarize(rr).(meanRRMs := SummarizeAsWritten(rr).meanRRMs)
  {
  }

  /** For a single interval of 0.8 s the source reports a mean of 8000 "ms", above its own maximum of 800 ms. */
  lemma MeanFieldOutOfRange()
    ensures SummarizeAsWritten([0.8]).meanRRMs == 8000.0
    ensures SummarizeAsWritten([0.8]).maxRRMs == 800.0
    ensures SummarizeAsWritten([0.8]).meanRRMs > SummarizeAsWritten([0.8]).maxRRMs
  {
    var rr := [0.8];
    assert Sum(rr) == 0.8 by {
      assert rr[1..] == [];
    }
    assert Max(rr) == 0.8;
  }
}
