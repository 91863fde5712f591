/**
 * The reductions `HRV_analysis` computes over its RR intervals (in seconds): mean, SDNN, RMSSD,
 * pNN50, minimum/maximum/range, z-score outliers and the equal-width histogram. Each reads
 * nothing but the interval sequence, so each is a function of it. Standard deviations are
 * carried as their squares (variance, mean squared successive difference), since a square
 * root is not exact.
 */
module HrvStatistics {
  import opened Series

  // ---------------------------------------------------------------- minimum, maximum, range

  /** `np.min`. */
  function Min(s: seq<real>): (r: real)
    requires |s| > 0
    ensures r in s
    ensures forall i :: 0 <= i < |s| ==> r <= s[i]
  {
    if |s| == 1 then s[0]
    else
      var m := Min(s[1..]);
      if s[0] <= m then s[0] else m
  }

  /** `np.max`. */
  function Max(s: seq<real>): (r: real)
    requires |s| > 0
    ensures r in s
    ensures forall i :: 0 <= i < |s| ==> s[i] <= r
  {
    if |s| == 1 then s[0]
    else
      var m := Max(s[1..]);
      if s[0] >= m then s[0] else m
  }

  /** `calculate_min_max_range`: the smallest interval, the largest, and their difference. */
  function MinMaxRange(rr: seq<real>): (r: (real, real, real))
    requires |rr| > 0
    ensures r.0 in rr && r.1 in rr
    ensures forall i :: 0 <= i < |rr| ==> r.0 <= rr[i] <= r.1
    ensures r.2 == r.1 - r.0 && r.2 >= 0.0
  {
    var lo := Min(rr);
    var hi := Max(rr);
    (lo, hi, hi - lo)
  }

  // ---------------------------------------------------------------- mean and SDNN

  /** `calculate_mean_rr`. */
  function MeanRR(rr: seq<real>): (m: real)
    requires |rr| > 0
    ensures Min(rr) <= m <= Max(rr)
  {
    MeanBounds(rr, Min(rr), Max(rr));
    Mean(rr)
  }

  /** Every interval minus `m`. */
  function Centered(s: seq<real>, m: real): (r: seq<real>)
    ensures |r| == |s|
    ensures forall i :: 0 <= i < |s| ==> r[i] == s[i] - m
  {
    seq(|s|, i requires 0 <= i < |s| => s[i] - m)
  }

  /** The square of `calculate_sdnn` (`np.std`, the population standard deviation). */
  function SdnnSquared(rr: seq<real>): (v: real)
    requires |rr| > 0
    ensures v >= 0.0
  {
    var sq := Squares(Centered(rr, Mean(rr)));
    MeanBounds(sq, 0.0, Max(sq));
    Mean(sq)
  }

  // Products are named by a variable in these helpers: the solver handles `s == a * a` far
  // better than comparisons written directly on `a * a`.

  lemma ProductPositive(x: real, y: real, p: real)
    requires x > 0.0 && y > 0.0 && p == x * y
    ensures p > 0.0
  {
  }

  lemma SquareZero(a: real, s: real)
    requires s == a * a
    ensures s >= 0.0
    ensures s == 0.0 <==> a == 0.0
  {
    if a < 0.0 {
      ProductPositive(-a, -a, s);
    } else if a > 0.0 {
      ProductPositive(a, a, s);
    }
  }

  /** On non-negative numbers, squaring keeps `<` and `<=`. */
  lemma SquareMonotone(a: real, b: real, aa: real, bb: real)
    requires 0.0 <= a && 0.0 <= b && aa == a * a && bb == b * b
    ensures a < b <==> aa < bb
  {
    if a < b {
      ProductPositive(b - a, b + a, bb - aa);
    } else if b < a {
      ProductPositive(a - b, a + b, aa - bb);
    }
  }

  /** The variance vanishes exactly when all intervals are equal. */
  lemma SdnnZeroIffConstant(rr: seq<real>)
    requires |rr| > 0
    ensures SdnnSquared(rr) == 0.0 <==> forall i :: 0 <= i < |rr| ==> rr[i] == rr[0]
  {
    var m := Mean(rr);
    var sq := Squares(Centered(rr, m));
    var n := |rr| as real;
    assert |sq| == |rr|;
    assert Sum(sq) == SdnnSquared(rr) * n;
    forall i | 0 <= i < |rr| ensures sq[i] >= 0.0 && (sq[i] == 0.0 <==> rr[i] == m) {
      SquareZero(rr[i] - m, sq[i]);
    }
    SumNonNegative(sq);
    if forall i :: 0 <= i < |rr| ==> rr[i] == rr[0] {
      SumConstant(rr, rr[0]);
      assert m == rr[0];
      SumConstant(sq, 0.0);
    }
  }

  // ---------------------------------------------------------------- RMSSD

  /** The square of `calculate_rmssd`: the mean squared successive difference. */
  function RmssdSquared(rr: seq<real>): (v: real)
    requires |rr| >= 2
    ensures v >= 0.0
  {
    var sq := Squares(Diff(rr));
    MeanBounds(sq, 0.0, Max(sq));
    Mean(sq)
  }

  /** The mean squared successive difference vanishes exactly when no interval differs from the one before. */
  lemma RmssdZeroIffSteady(rr: seq<real>)
    requires |rr| >= 2
    ensures RmssdSquared(rr) == 0.0 <==> forall i :: 0 <= i < |rr| - 1 ==> rr[i + 1] == rr[i]
  {
    var d := Diff(rr);
    assert RmssdSquared(rr) == Mean(Squares(d));
    forall i | 0 <= i < |rr| - 1 ensures d[i] == rr[i + 1] - rr[i] {
      DiffAt(rr, i);
    }
    MeanSquaresZero(d);
    if forall i :: 0 <= i < |rr| - 1 ==> rr[i + 1] == rr[i] {
      forall i | 0 <= i < |d| ensures d[i] == 0.0 {
        assert rr[i + 1] == rr[i];
      }
    }
    if RmssdSquared(rr) == 0.0 {
      forall i | 0 <= i < |rr| - 1 ensures rr[i + 1] == rr[i] {
        assert d[i] == 0.0;
      }
    }
  }

  /** A mean of squares is zero exactly when every squared value is zero. */
  lemma MeanSquaresZero(d: seq<real>)
    requires |d| > 0
    ensures Mean(Squares(d)) == 0.0 <==> forall i :: 0 <= i < |d| ==> d[i] == 0.0
  {
    var sq := Squares(d);
    var n := |sq| as real;
    assert Sum(sq) == Mean(sq) * n;
    forall i | 0 <= i < |d| ensures sq[i] >= 0.0 && (sq[i] == 0.0 <==> d[i] == 0.0) {
      SquareZero(d[i], sq[i]);
    }
    SumNonNegative(sq);
    if forall i :: 0 <= i < |d| ==> d[i] == 0.0 {
      SumConstant(sq, 0.0);
    }
  }

  // ---------------------------------------------------------------- pNN50

  /** A successive difference (in seconds) that exceeds 50 ms. */
  predicate ExceedsNN50(d: real)
  {
    Abs(d) * 1000.0 > 50.0
  }

  /** `np.sum(diff_rr > 50)`. */
  function CountNN50(d: seq<real>): (c: nat)
    ensures c <= |d|
  {
    if |d| == 0 then 0 else (if ExceedsNN50(d[0]) then 1 else 0) + CountNN50(d[1..])
  }

  /**
   * `calculate_pnn50`. The count is divided by the number of intervals, not by the number of
   * successive differences, so the percentage never reaches 100.
   */
  function PNN50(rr: seq<real>): (p: real)
    requires |rr| > 0
    ensures 0.0 <= p < 100.0
  {
    var c := CountNN50(Diff(rr));
    var n := |rr| as real;
    assert c as real / n < 1.0 by {
      assert (c as real) < n;
    }
    (c as real / n) * 100.0
  }

  lemma QuotientPositive(a: real, b: real)
    requires a > 0.0 && b > 0.0
    ensures a / b > 0.0
  {
  }

  lemma {:induction false} CountNN50Zero(d: seq<real>)
    ensures CountNN50(d) == 0 <==> forall i :: 0 <= i < |d| ==> !ExceedsNN50(d[i])
  {
    if |d| > 0 {
      CountNN50Zero(d[1..]);
      assert forall i :: 1 <= i < |d| ==> d[i] == d[1..][i - 1];
    }
  }

  /** pNN50 is zero exactly when no two consecutive intervals differ by more than 50 ms. */
  lemma PNN50ZeroIffSmallDifferences(rr: seq<real>)
    requires |rr| > 0
    ensures PNN50(rr) == 0.0 <==> forall i :: 0 <= i < |rr| - 1 ==> !ExceedsNN50(rr[i + 1] - rr[i])
  {
    var d := Diff(rr);
    var c := CountNN50(d);
    var n := |rr| as real;
    var q := c as real / n;
    assert PNN50(rr) == q * 100.0;
    if c > 0 {
      QuotientPositive(c as real, n);
    }
    CountNN50Zero(d);
    forall i | 0 <= i < |rr| - 1 ensures d[i] == rr[i + 1] - rr[i] {
      DiffAt(rr, i);
    }
    if forall i :: 0 <= i < |rr| - 1 ==> !ExceedsNN50(rr[i + 1] - rr[i]) {
      forall i | 0 <= i < |d| ensures !ExceedsNN50(d[i]) {
        assert !ExceedsNN50(rr[i + 1] - rr[i]);
      }
    }
    if c == 0 {
      forall i | 0 <= i < |rr| - 1 ensures !ExceedsNN50(rr[i + 1] - rr[i]) {
        assert !ExceedsNN50(d[i]);
      }
    }
  }

  // ---------------------------------------------------------------- outliers

  /**
   * `|(x - m) / σ| > t` with `v = σ²`. With `σ = 0` numpy divides zero by zero and the NaN
   * compares false; otherwise, for `t >= 0`, the test is the same on squares.
   */
  predicate IsOutlier(x: real, m: real, v: real, t: real)
  {
    v > 0.0 && (t < 0.0 || (x - m) * (x - m) > t * t * v)
  }

  /** For a positive standard deviation, `IsOutlier` is exactly the z-score test. */
  lemma ZScoreTest(x: real, m: real, sigma: real, t: real)
    requires sigma > 0.0
    ensures IsOutlier(x, m, sigma * sigma, t) <==> Abs((x - m) / sigma) > t
  {
    var v := sigma * sigma;
    ProductPositive(sigma, sigma, v);
    var d := Abs(x - m);
    var z := d / sigma;
    assert Abs((x - m) / sigma) == z;
    if t >= 0.0 {
      var ts := t * sigma;
      assert z > t <==> d > ts by {
        assert z * sigma == d;
        if z > t {
          ProductPositive(z - t, sigma, d - ts);
        } else if d > ts {
          if z < t {
            ProductPositive(t - z, sigma, ts - d);
          }
        }
      }
      var dd := (x - m) * (x - m);
      assert dd == d * d;
      var tt := t * t * v;
      assert tt == ts * ts;
      SquareMonotone(ts, d, tt, dd);
    }
  }

  /** The positions, from `from` on, of the samples flagged by the z-score test, in order. */
  function OutlierPositions(s: seq<real>, m: real, v: real, t: real, from: nat): (p: seq<int>)
    requires from <= |s|
    ensures StrictlyIncreasing(p)
    ensures forall k :: 0 <= k < |p| ==> from <= p[k] < |s| && IsOutlier(s[p[k]], m, v, t)
    decreases |s| - from
  {
    if from == |s| then []
    else if IsOutlier(s[from], m, v, t) then [from] + OutlierPositions(s, m, v, t, from + 1)
    else OutlierPositions(s, m, v, t, from + 1)
  }

  lemma {:induction false} OutlierPositionsComplete(s: seq<real>, m: real, v: real, t: real, from: nat, i: int)
    requires from <= i < |s| && IsOutlier(s[i], m, v, t)
    ensures i in OutlierPositions(s, m, v, t, from)
    decreases i - from
  {
    if from < i {
      OutlierPositionsComplete(s, m, v, t, from + 1, i);
    }
  }

  /** The positions of `rr` whose z-score exceeds `t`. */
  function OutlierIndices(rr: seq<real>, t: real): seq<int>
  {
    if |rr| == 0 then [] else OutlierPositions(rr, Mean(rr), SdnnSquared(rr), t, 0)
  }

  /** `detect_outliers`: `rr[z_scores > threshold]`, the flagged intervals in their original order. */
  function DetectOutliers(rr: seq<real>, t: real := 3.0): (o: seq<real>)
    ensures |o| <= |rr|
  {
    var p := OutlierIndices(rr, t);
    PositionsBounded(p, |rr|);
    seq(|p|, k requires 0 <= k < |p| => rr[p[k]])
  }

  /** Strictly increasing positions below `n` are at most `n` many. */
  lemma PositionsBounded(p: seq<int>, n: nat)
    requires StrictlyIncreasing(p)
    requires forall k :: 0 <= k < |p| ==> 0 <= p[k] < n
    ensures |p| <= n
  {
    if |p| > 0 {
      var k := 0;
      while k < |p|
        invariant 0 <= k <= |p|
        invariant forall j :: 0 <= j < k ==> p[j] >= j
      {
        if k > 0 {
          assert p[k - 1] < p[k];
        }
        k := k + 1;
      }
      assert p[|p| - 1] >= |p| - 1;
    }
  }

  /**
   * The outliers are exactly the in-order subsequence of the intervals that fail the z-score
   * test: they sit at strictly increasing positions, each such position is flagged, and every
   * flagged position is among them.
   */
  lemma DetectOutliersExactly(rr: seq<real>, t: real)
    requires |rr| > 0
    ensures var p := OutlierIndices(rr, t);
      var o := DetectOutliers(rr, t);
      |o| == |p| && StrictlyIncreasing(p) &&
      (forall k :: 0 <= k < |p| ==> 0 <= p[k] < |rr| && o[k] == rr[p[k]]) &&
      (forall i :: 0 <= i < |rr| ==> (i in p <==> IsOutlier(rr[i], Mean(rr), SdnnSquared(rr), t)))
  {
    var p := OutlierIndices(rr, t);
    forall i | 0 <= i < |rr| && IsOutlier(rr[i], Mean(rr), SdnnSquared(rr), t) ensures i in p {
      OutlierPositionsComplete(rr, Mean(rr), SdnnSquared(rr), t, 0, i);
    }
  }

  /** Equal intervals (zero standard deviation) have no outliers. */
  lemma ConstantHasNoOutliers(rr: seq<real>, t: real)
    requires |rr| > 0
    requires forall i :: 0 <= i < |rr| ==> rr[i] == rr[0]
    ensures DetectOutliers(rr, t) == []
  {
    SdnnZeroIffConstant(rr);
  }

  // ---------------------------------------------------------------- histogram

  /** `np.histogram(rr, bins)`: `bins` counts and the `bins + 1` edges between them. */
  datatype Histogram = Histogram(counts: seq<nat>, edges: seq<real>)

  /** The histogram's range: min to max, widened by 0.5 on each side when they coincide. */
  function OuterEdges(rr: seq<real>): (r: (real, real))
    requires |rr| > 0
    ensures Min(rr) < Max(rr) ==> r == (Min(rr), Max(rr))
    ensures Min(rr) == Max(rr) ==> r == (Min(rr) - 0.5, Max(rr) + 0.5)
    ensures r.0 < r.1
    ensures forall i :: 0 <= i < |rr| ==> r.0 <= rr[i] <= r.1
  {
    var lo := Min(rr);
    var hi := Max(rr);
    if lo == hi then (lo - 0.5, hi + 0.5) else (lo, hi)
  }

  /** The number of samples `x` with `a <= x < b`. */
  function CountIn(s: seq<real>, a: real, b: real): nat
  {
    if |s| == 0 then 0 else (if a <= s[0] < b then 1 else 0) + CountIn(s[1..], a, b)
  }

  /** The number of samples `x` with `a <= x <= b` (the last bin is closed). */
  function CountInClosed(s: seq<real>, a: real, b: real): nat
  {
    if |s| == 0 then 0 else (if a <= s[0] <= b then 1 else 0) + CountInClosed(s[1..], a, b)
  }

  /** `linspace(lo, hi, bins + 1)[k]`. */
  function Edge(lo: real, hi: real, bins: nat, k: int): real
    requires bins > 0
  {
    lo + (k as real) * ((hi - lo) / bins as real)
  }

  /** `linspace(lo, hi, bins + 1)`: the edges of `bins` equal-width bins. */
  function LinearEdges(lo: real, hi: real, bins: nat): (e: seq<real>)
    requires bins > 0
    ensures |e| == bins + 1
  {
    seq(bins + 1, k requires 0 <= k <= bins => Edge(lo, hi, bins, k))
  }

  /** The counts of the bins between consecutive edges: each half-open except the last, which is closed. */
  function BinCounts(rr: seq<real>, e: seq<real>): (c: seq<nat>)
    requires |e| >= 2
    ensures |c| == |e| - 1
  {
    seq(|e| - 1, k requires 0 <= k < |e| - 1 =>
      if k == |e| - 2 then CountInClosed(rr, e[k], e[k + 1]) else CountIn(rr, e[k], e[k + 1]))
  }

  /** `calculate_histogram`. */
  function CalculateHistogram(rr: seq<real>, bins: nat := 10): (h: Histogram)
    requires |rr| > 0 && bins > 0
    ensures |h.counts| == bins && |h.edges| == bins + 1
  {
    var (lo, hi) := OuterEdges(rr);
    var e := LinearEdges(lo, hi, bins);
    Histogram(BinCounts(rr, e), e)
  }

  /** The sum of a sequence of counts. */
  function Total(c: seq<nat>): nat
  {
    if |c| == 0 then 0 else c[0] + Total(c[1..])
  }

  lemma {:induction false} CountInSplit(s: seq<real>, a: real, b: real, c: real)
    requires a <= b <= c
    ensures CountIn(s, a, c) == CountIn(s, a, b) + CountIn(s, b, c)
    ensures CountInClosed(s, a, c) == CountIn(s, a, b) + CountInClosed(s, b, c)
  {
    if |s| > 0 {
      CountInSplit(s[1..], a, b, c);
    }
  }

  lemma {:induction false} CountInClosedAll(s: seq<real>, a: real, b: real)
    requires forall i :: 0 <= i < |s| ==> a <= s[i] <= b
    ensures CountInClosed(s, a, b) == |s|
  {
    if |s| > 0 {
      CountInClosedAll(s[1..], a, b);
    }
  }

  lemma EdgeStep(lo: real, hi: real, bins: nat, k: int)
    requires bins > 0 && lo < hi
    ensures Edge(lo, hi, bins, k) < Edge(lo, hi, bins, k + 1)
    ensures Edge(lo, hi, bins, k + 1) - Edge(lo, hi, bins, k) == (hi - lo) / bins as real
  {
    var w := (hi - lo) / bins as real;
    assert w > 0.0;
    assert Edge(lo, hi, bins, k + 1) == Edge(lo, hi, bins, k) + w;
  }

  lemma EdgeEnds(lo: real, hi: real, bins: nat)
    requires bins > 0
    ensures Edge(lo, hi, bins, 0) == lo && Edge(lo, hi, bins, bins) == hi
  {
    var w := (hi - lo) / bins as real;
    assert (bins as real) * w == hi - lo;
  }

  /** The counts of the bins from `j` on add up to the samples in the closed range from edge `j` to the last edge. */
  lemma {:induction false} TailTotal(rr: seq<real>, e: seq<real>, j: nat)
    requires |e| >= 2 && j < |e| - 1
    requires forall i :: 0 <= i < |e| - 1 ==> e[i] <= e[i + 1]
    ensures Total(BinCounts(rr, e)[j..]) == CountInClosed(rr, e[j], e[|e| - 1])
    decreases |e| - j
  {
    var c := BinCounts(rr, e);
    TotalStep(c, j);
    if j == |e| - 2 {
      assert c[j] == CountInClosed(rr, e[j], e[j + 1]);
    } else {
      assert c[j] == CountIn(rr, e[j], e[j + 1]);
      TailTotal(rr, e, j + 1);
      Ascending(e, j + 1, |e| - 1);
      CountInSplit(rr, e[j], e[j + 1], e[|e| - 1]);
    }
  }

  lemma TotalStep(c: seq<nat>, j: nat)
    requires j < |c|
    ensures Total(c[j..]) == c[j] + Total(c[j + 1..])
  {
    assert c[j..][1..] == c[j + 1..];
  }

  /** A sequence that never falls from one element to the next never falls from `j` to `k`. */
  lemma {:induction false} Ascending(e: seq<real>, j: nat, k: nat)
    requires j <= k < |e|
    requires forall i :: 0 <= i < |e| - 1 ==> e[i] <= e[i + 1]
    ensures e[j] <= e[k]
    decreases k - j
  {
    if j < k {
      Ascending(e, j + 1, k);
    }
  }

  /**
   * The histogram covers every interval exactly once: its edges rise strictly from the first
   * (at or below the smallest interval) to the last (at or above the largest), and its counts
   * add up to the number of intervals.
   */
  lemma HistogramCountsEveryInterval(rr: seq<real>, bins: nat)
    requires |rr| > 0 && bins > 0
    ensures var h := CalculateHistogram(rr, bins);
      Total(h.counts) == |rr| &&
      (forall i :: 0 <= i < |rr| ==> h.edges[0] <= rr[i] <= h.edges[bins]) &&
      (forall k :: 0 <= k < bins ==> h.edges[k] < h.edges[k + 1])
  {
    var (lo, hi) := OuterEdges(rr);
    var h := CalculateHistogram(rr, bins);
    forall k | 0 <= k < bins ensures h.edges[k] < h.edges[k + 1] {
      EdgeStep(lo, hi, bins, k);
    }
    TailTotal(rr, h.edges, 0);
    assert h.counts[0..] == h.counts;
    EdgeEnds(lo, hi, bins);
    CountInClosedAll(rr, lo, hi);
  }

  /** The bins have equal width, one `bins`-th of the histogram's range. */
  lemma HistogramBinWidth(rr: seq<real>, bins: nat, k: nat)
    requires |rr| > 0 && bins > 0 && k < bins
    ensures CalculateHistogram(rr, bins).edges[k + 1] - CalculateHistogram(rr, bins).edges[k]
      == (OuterEdges(rr).1 - OuterEdges(rr).0) / bins as real
  {
    var (lo, hi) := OuterEdges(rr);
    var e := CalculateHistogram(rr, bins).edges;
    assert e[k] == Edge(lo, hi, bins, k) && e[k + 1] == Edge(lo, hi, bins, k + 1);
    EdgeStep(lo, hi, bins, k);
  }

  /**
   * Bin `k` counts the intervals from its lower edge up to but excluding its upper edge; the
   * last bin also counts those on its upper edge.
   */
  lemma HistogramBinCount(rr: seq<real>, bins: nat, k: nat)
    requires |rr| > 0 && bins > 0 && k < bins
    ensures k < bins - 1 ==>
      CalculateHistogram(rr, bins).counts[k]
      == CountIn(rr, CalculateHistogram(rr, bins).edges[k], CalculateHistogram(rr, bins).edges[k + 1])
    ensures k == bins - 1 ==>
      CalculateHistogram(rr, bins).counts[k]
      == CountInClosed(rr, CalculateHistogram(rr, bins).edges[k], CalculateHistogram(rr, bins).edges[k + 1])
  {
    var (lo, hi) := OuterEdges(rr);
    var e := LinearEdges(lo, hi, bins);
    assert CalculateHistogram(rr, bins) == Histogram(BinCounts(rr, e), e);
  }

  // ---------------------------------------------------------------- a worked example

  /** Four intervals 0.8, 0.82, 0.79, 0.81 s: mean 0.805 s, variance 0.000125 s², no difference above 50 ms. */
  lemma FourIntervalExample()
    ensures MeanRR([0.8, 0.82, 0.79, 0.81]) == 0.805
    ensures SdnnSquared([0.8, 0.82, 0.79, 0.81]) == 0.000125
    ensures PNN50([0.8, 0.82, 0.79, 0.81]) == 0.0
    ensures MinMaxRange([0.8, 0.82, 0.79, 0.81]) == (0.79, 0.82, 0.03)
  {
    ExampleMean();
    ExampleVariance();
    ExamplePNN50();
    ExampleMinMax();
  }

  lemma ExampleMean()
    ensures MeanRR([0.8, 0.82, 0.79, 0.81]) == 0.805
  {
    SumOfFour([0.8, 0.82, 0.79, 0.81]);
  }

  lemma ExampleVariance()
    ensures SdnnSquared([0.8, 0.82, 0.79, 0.81]) == 0.000125
  {
    var rr := [0.8, 0.82, 0.79, 0.81];
    SumOfFour(rr);
    var sq := Squares(Centered(rr, 0.805));
    assert sq[0] == 0.000025;
    assert sq[1] == 0.000225 && sq[2] == 0.000225 && sq[3] == 0.000025;
    SumOfFour(sq);
  }

  lemma ExamplePNN50()
    ensures PNN50([0.8, 0.82, 0.79, 0.81]) == 0.0
  {
    var rr := [0.8, 0.82, 0.79, 0.81];
    var d := Diff(rr);
    DiffAt(rr, 0);
    DiffAt(rr, 1);
    DiffAt(rr, 2);
    assert CountNN50(d[2..]) == 0 by {
      assert d[2..][1..] == [];
    }
    assert CountNN50(d[1..]) == 0 by {
      assert d[1..][1..] == d[2..];
    }
  }

  lemma ExampleMinMax()
    ensures MinMaxRange([0.8, 0.82, 0.79, 0.81]) == (0.79, 0.82, 0.03)
  {
    var rr := [0.8, 0.82, 0.79, 0.81];
    var (lo, hi, _) := MinMaxRange(rr);
    assert lo <= rr[2] && rr[1] <= hi;
  }

  lemma SumOfFour(s: seq<real>)
    requires |s| == 4
    ensures Sum(s) == s[0] + s[1] + s[2] + s[3]
  {
    assert s[3..][1..] == [];
    assert Sum(s[3..]) == s[3];
    assert s[2..][1..] == s[3..];
    assert Sum(s[2..]) == s[2] + s[3];
    assert s[1..][1..] == s[2..];
  }
}
