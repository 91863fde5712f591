# ECG and fetal-heart-rate signal analysis, modelled in Dafny

This project models the signal-analysis core of a desktop ECG/CTG viewer. The core has two parts.

- **HRV analysis of an ECG trace** (`HRV_analysis`). The object holds the recording and its sampling rate, and three results filled in by steps that must run in order:
  - `apply_filter` band-passes the trace and stores `filtered_data`;
  - `calculate_hrv` detects R-peaks above the mean of the filtered trace, stores `peaks`, and stores `rr_intervals` (peak index differences divided by the sampling rate);
  - `get_peak_times` and `summarize_hrv` read those results back.

  A step run before its input exists raises `ValueError`. The RR statistics are mean, SDNN, RMSSD, pNN50, min/max/range, z-score outliers and a 10-bin histogram.
- **FHR analysis in `MainController`**:
  - acceleration/deceleration detection: a moving average, then a comparison of windows `duration` samples apart;
  - the short-term variability `|diff(fhr)|` paired with `time[1:]`;
  - the data behind the HRV plot: the RR series against `peak_times[:-1]`.

Numbers are exact `real`s. The model is split into these modules:

- `Series` (series.dfy): the numpy reductions (`sum`, `mean`, `diff`, `abs`, slicing).
- `PeakDetection` (peak_detection.dfy): the contract of `find_peaks`, and a reference detector that meets it.
- `HrvStatistics` (hrv_statistics.dfy): the RR reductions as functions of the interval sequence.
- `HrvSummary` (hrv_summary.dfy): the record built by `summarize_hrv`.
- `Hrv` (hrv.dfy): the `HrvAnalysis` class, the RR derivation and the filter cutoffs.
- `Controller` (controller.dfy): FHR events, STV and the HRV plotting sequence.
- `Wrappers` (wrappers.dfy): `Option` and `Result`.

Each SciPy call is a function parameter, constrained by what the analysis relies on:

- `Hrv.BandPass` stands for Butterworth design plus `filtfilt`. It returns `None` where SciPy raises. Otherwise its output has one sample per input sample (`Hrv.ZeroPhase`).
- `Hrv.PeakFinder` stands for `find_peaks(x, height=h)`. It must return strictly increasing interior indices of local maxima whose values are `>= h` (`PeakDetection.IsPeakFinder`).

A `BandPass` result of `None` aborts the step with `FilterFailed` and changes nothing.

Four behaviours of the code worth stating:

- pNN50 is divided by the number of intervals, not the number of differences, so it stays below 100.
- The peak height test is inclusive (`>=` the mean).
- Fewer than two peaks give an empty interval list, not an error. The error comes only in `summarize_hrv`, where `np.min` of no intervals raises (`NoIntervals`).
- Filter configuration is not validated by the code itself. Any rejection comes from SciPy (`FilterFailed`).

## Model

| member | source | states |
|---|---|---|
| `Hrv.HrvAnalysis.constructor` | app/HRVanalysis.py:6-11 | keeps the recording and sampling rate; `filtered_data`, `peaks` and `rr_intervals` start absent |
| `Hrv.HrvAnalysis.ApplyFilter` | app/HRVanalysis.py:13-20 | filters with the cutoffs over Nyquist; on success stores and returns the output, whose length equals the recording's; on failure changes nothing; peaks and intervals untouched |
| `Hrv.NormalizedCutoffs` | app/HRVanalysis.py:15-17 | the normalised cutoffs times the Nyquist frequency `0.5*fs` give back the cutoffs in Hz |
| `Hrv.DefaultCutoffs` | app/HRVanalysis.py:13-17 | with 500 Hz, 1 Hz and 50 Hz the normalised band is 0.004 to 0.2 |
| `Hrv.CutoffsWithinNyquist` | app/HRVanalysis.py:15-18 | the band is `0 < low < high < 1` exactly when `0 < lowcut < highcut < fs/2` |
| `Hrv.HrvAnalysis.CalculateHrv` | app/HRVanalysis.py:22-30 | without a filtered signal: `FilteredDataMissing`, nothing changes; otherwise stores the peak finder's peaks (strictly increasing local maxima at or above the mean) and `RRIntervals` of them, returns those intervals, one fewer than the peaks, all positive |
| `Hrv.RRIntervals` | app/HRVanalysis.py:28 | `max(0, |peaks|-1)` intervals |
| `Hrv.RRIntervalsAt` | app/HRVanalysis.py:28 | interval `i` is `(peaks[i+1]-peaks[i])/fs` |
| `Hrv.RRIntervalsPositive` | app/HRVanalysis.py:27-28 | strictly increasing peaks give intervals that are all positive |
| `Hrv.HrvAnalysis.GetPeakTimes` | app/HRVanalysis.py:32-36 | without peaks: `PeaksMissing`; otherwise one time per peak, each time times `fs` giving back its index |
| `Hrv.PeakTimes` | app/HRVanalysis.py:36 | one time per peak, `t[i]*fs == peaks[i]` |
| `Hrv.PeakTimesSpacing` | app/HRVanalysis.py:28-36 | consecutive peak times differ by exactly the RR interval between them |
| `PeakDetection.StrictPeaksFrom` | app/HRVanalysis.py:27 | strictly increasing interior strict maxima at or above the height, scanned from a start index |
| `PeakDetection.StrictPeaksIsPeakFinder` | app/HRVanalysis.py:27 | the reference detector meets the `find_peaks` contract, so that contract is satisfiable |
| `PeakDetection.StrictPeaksComplete` | app/HRVanalysis.py:27 | every interior strict local maximum at or above the height is detected |
| `HrvStatistics.MeanRR` | app/HRVanalysis.py:38-40 | the mean interval lies between the smallest and the largest |
| `HrvStatistics.SdnnSquared` | app/HRVanalysis.py:42-44 | the population variance is non-negative |
| `HrvStatistics.SdnnZeroIffConstant` | app/HRVanalysis.py:42-44 | the variance is zero exactly when all intervals are equal |
| `HrvStatistics.RmssdSquared` | app/HRVanalysis.py:46-49 | the mean squared successive difference is non-negative |
| `HrvStatistics.RmssdZeroIffSteady` | app/HRVanalysis.py:46-49 | it is zero exactly when no interval differs from its predecessor |
| `HrvStatistics.CountNN50` | app/HRVanalysis.py:53-54 | at most one count per successive difference |
| `HrvStatistics.PNN50` | app/HRVanalysis.py:51-55 | the percentage lies in `[0, 100)`, since it divides by the number of intervals |
| `HrvStatistics.PNN50ZeroIffSmallDifferences` | app/HRVanalysis.py:51-55 | pNN50 is zero exactly when no two consecutive intervals differ by more than 50 ms |
| `HrvStatistics.Min` | app/HRVanalysis.py:59 | an element of the intervals, no larger than any |
| `HrvStatistics.Max` | app/HRVanalysis.py:60 | an element of the intervals, no smaller than any |
| `HrvStatistics.MinMaxRange` | app/HRVanalysis.py:57-62 | min and max are intervals bounding all the others; range is max minus min and non-negative |
| `HrvStatistics.ZScoreTest` | app/HRVanalysis.py:71-72 | with standard deviation `sigma > 0`, the squared test equals `|(x-mean)/sigma| > t` for every threshold |
| `HrvStatistics.OutlierPositions` | app/HRVanalysis.py:71-72 | strictly increasing positions, each flagged by the z-score test |
| `HrvStatistics.DetectOutliers` | app/HRVanalysis.py:69-73 | no more outliers than intervals |
| `HrvStatistics.DetectOutliersExactly` | app/HRVanalysis.py:69-73 | the outliers are the intervals at strictly increasing positions, which are exactly the positions failing the z-score test |
| `HrvStatistics.ConstantHasNoOutliers` | app/HRVanalysis.py:71-73 | equal intervals (zero deviation, NaN z-scores) give no outliers |
| `HrvStatistics.OuterEdges` | app/HRVanalysis.py:66 | exactly `(min, max)` when the intervals differ, `(min - 0.5, max + 0.5)` when they are all equal; a non-empty range containing every interval |
| `HrvStatistics.CalculateHistogram` | app/HRVanalysis.py:64-67 | `bins` counts and `bins+1` edges |
| `HrvStatistics.HistogramBinWidth` | app/HRVanalysis.py:66 | every bin has the same width, the outer range over the number of bins |
| `HrvStatistics.HistogramBinCount` | app/HRVanalysis.py:66 | bin `k` counts the intervals in `[e[k], e[k+1])`, the last bin those in `[e[k], e[k+1]]` |
| `HrvStatistics.HistogramCountsEveryInterval` | app/HRVanalysis.py:64-67 | the edges rise strictly from at-or-below the minimum to at-or-above the maximum, and the counts add up to the number of intervals |
| `HrvStatistics.FourIntervalExample` | app/HRVanalysis.py:38-62 | for 0.8, 0.82, 0.79, 0.81 s: mean 0.805, variance 0.000125, pNN50 0, min 0.79, max 0.82, range 0.03 |
| `Hrv.HrvAnalysis.SummarizeHrv` | app/HRVanalysis.py:75-93 | without intervals: `IntervalsMissing`; with none: `NoIntervals`; otherwise the corrected summary record (`Summarize`) of the stored intervals; succeeds exactly when at least two peaks were found |
| `HrvSummary.Summarize` | app/HRVanalysis.py:80-93 | each field is its statistic of the intervals: mean, min, max, range and outliers times 1000 (ms), SDNN² and RMSSD² times 10⁶ (ms²), pNN50 unscaled, the 10-bin histogram counts, its edges in ms; and the fields agree: min ≤ mean ≤ max, range = max − min ≥ 0, outliers within `[min, max]`, pNN50 in `[0, 100)`, SDNN² ≥ 0, RMSSD present exactly with two or more intervals, 10 bins counting every interval once |
| `HrvSummary.SummarizeAsWritten` | app/HRVanalysis.py:80-93 | the record as the source builds it: the mean field is the mean interval times 10000, min and max are in ms (times 1000), and the mean field lies between 10·min and 10·max |
| `HrvSummary.AsWrittenMeanTenfold` | app/HRVanalysis.py:81-87 | the source's mean field is ten times the millisecond mean; every other field is as in `Summarize` |
| `HrvSummary.MeanFieldOutOfRange` | app/HRVanalysis.py:81-86 | for one interval of 0.8 s the source's mean field is 8000, above its maximum field of 800 |
| `Series.Diff` | app/Controller.py:163 | `max(0, |s|-1)` differences |
| `Series.DiffAt` | app/HRVanalysis.py:48 | difference `i` is `s[i+1]-s[i]` |
| `Controller.MovingAverage` | app/Controller.py:192 | valid-mode length: `|fhr|-d+1` when the trace is at least as long as the window, `d-|fhr|+1` otherwise |
| `Controller.MovingAverageAt` | app/Controller.py:192 | smoothed sample `j` is the mean of `fhr[j..j+d]` |
| `Controller.MovingAverageConstant` | app/Controller.py:192 | a constant trace smooths to the same constant |
| `Controller.WindowCountOfTrace` | app/Controller.py:192-194 | the loop examines `max(0, |fhr|-2d+1)` window starts |
| `Controller.ClassifyShape` | app/Controller.py:194-199 | after `count` windows both lists are strictly increasing window centres `i + d//2` with `i < count`, at most `count` in all |
| `Controller.ClassifyMembership` | app/Controller.py:194-199 | the centre of window `i` is listed as an acceleration exactly when the change is `>= threshold`, as a deceleration exactly when it is not and `<= -threshold` |
| `Controller.ClassifyProperties` | app/Controller.py:194-199 | both lists strictly increasing, holding centres `i + d//2` of examined windows; a centre is an acceleration iff the change is `>= threshold`, a deceleration iff not and `<= -threshold`; disjoint; at most one event per window |
| `Controller.IdentifyAccelDecel` | app/Controller.py:187-201 | negative window, or empty window or trace: the numpy error; otherwise the lists the loop specification gives, with membership, order, disjointness, valid sample indices and at most `max(0, |fhr|-2d+1)` events |
| `Controller.ConstantTraceHasNoEvents` | app/Controller.py:192-199 | a constant trace with a positive threshold yields two empty lists |
| `Controller.LinearTraceAccelerates` | app/Controller.py:192-199 | a trace rising by `step` per sample with `d*step >= threshold` marks every window centre `i + d//2` as an acceleration and none as a deceleration |
| `Controller.ComputeStv` | app/Controller.py:163-165 | `stv[i] = |fhr[i+1]-fhr[i]| >= 0`, `|fhr|-1` values, `time_stv[i] = time[i+1]`, same length as `stv` when the columns match |
| `Controller.StvExample` | app/Controller.py:163-165 | the trace 140, 142, 138, 139 gives STV 2, 4, 1 against `time[1:]` |
| `Controller.RRSeriesPoints` | app/Controller.py:101-104 | drawn exactly when there are two or more intervals; then `peak_times[:-1]` is as long as the series |
| `Controller.RRSeriesAligned` | app/Controller.py:97-104 | each plotted point is a beat's time plus the ms to the next beat, which lands on the next beat's time |
| `Controller.PlotHrvData` | app/Controller.py:90-107 | runs filter, peaks, times and summary in order at 500 Hz; fails only when the filter fails or there are no intervals; otherwise returns the filtered trace, the RR series and the corrected summary (`Summarize`) of the derived intervals |

## Left out

- Qt widgets, signal wiring, file dialogs, application start/quit and all plotting calls: these are UI. Each modelled operation returns the data it would draw.
- CSV loading with pandas and its printed error messages: this is I/O.
- The Savitzky–Golay baseline of `plot_fhr_and_uc`: it is a SciPy call whose only use is a plot.
- The SciPy internals of `butter`/`filtfilt` (coefficients, padding, the conditions under which they raise): these are foreign code. They appear only as the `BandPass` parameter's contract.
- `find_peaks`'s plateau handling, a foreign detail: the contract accepts plateau midpoints as local maxima. The reference detector `StrictPeaks` matches `find_peaks` only on signals without equal neighbouring samples.
- Floating-point rounding, `round(...)` presentation and the f-string report: the model uses exact reals and unrounded millisecond values.
- Square roots: SDNN and RMSSD are carried as squares (`SdnnSquared`, `RmssdSquared`, the summary's ms² fields), because Dafny reals have no exact square root.
- `calculate_*` and `detect_outliers` are modelled as functions of the interval sequence. A call made before `calculate_hrv` (numpy on `None`) is not modelled.
- HrvStatistics.MeanRR, HrvStatistics.SdnnSquared, HrvStatistics.PNN50, HrvStatistics.MinMaxRange require at least one interval: numpy gives NaN or raises on none. `summarize_hrv`'s error path for that case is modelled.
- HrvStatistics.RmssdSquared requires two intervals, because numpy gives NaN for one. The summary carries `None` there.
- HrvStatistics.CalculateHistogram requires at least one interval and at least one bin. It does not model numpy's `(0, 1)` range for empty input or its error for non-positive bins. The source only calls it with 10 bins, through the summary.
- Hrv.HrvAnalysis.constructor requires a positive sampling rate: the code divides by it.
- Hrv.HrvAnalysis.SummarizeHrv returns the corrected record, with the mean RR interval times 1000. `summarize_hrv` as written multiplies it by 10000 (app/HRVanalysis.py:81). That record is `HrvSummary.SummarizeAsWritten`, and `HrvSummary.AsWrittenMeanTenfold` relates the two.
- Controller.PlotHrvData returns the same corrected record, not the ×10000 mean that `plot_HRV_data` receives from `summarize_hrv`.

## Findings

| source | as written | input that shows it | evidently intended | confidence | as-written member | corrected member |
|---|---|---|---|---|---|---|
| app/HRVanalysis.py:81 | the mean RR interval is multiplied by 10000 under the label "(ms)", while every other millisecond field is multiplied by 1000 | RR intervals `[0.8]`: mean field 8000 while the max field is 800 (`HrvSummary.MeanFieldOutOfRange`) | multiply by 1000, so that min ≤ mean ≤ max in milliseconds | high; not executed | `HrvSummary.SummarizeAsWritten` | `HrvSummary.Summarize` |

`Hrv.HrvAnalysis.SummarizeHrv` and `Controller.PlotHrvData` use the corrected `HrvSummary.Summarize`.
