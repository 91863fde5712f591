/**
 * What the analysis relies on from SciPy's `find_peaks(x, height=h)`: the indices it returns
 * are strictly increasing interior samples, each a local maximum whose value reaches `h`.
 * `StrictPeaks` is a concrete detector meeting that contract; on a signal with no two equal
 * neighbouring samples it returns the same indices as `find_peaks`.
 */
module PeakDetection {
  import opened Series

  /** Every index lies strictly inside a signal of `n` samples. */
  predicate Interior(p: seq<int>, n: int)
  {
    forall i :: 0 <= i < |p| ==> 0 < p[i] < n - 1
  }

  /** `x[k]` is at least as large as both of its neighbours (the middle of a plateau qualifies). */
  predicate IsLocalMax(x: seq<real>, k: int)
    requires 0 < k < |x| - 1
  {
    x[k - 1] <= x[k] && x[k + 1] <= x[k]
  }

  /** The contract of `find_peaks(x, height=h)` used by the model. */
  predicate IsPeakSet(x: seq<real>, h: real, p: seq<int>)
  {
    StrictlyIncreasing(p) && Interior(p, |x|) &&
    forall i :: 0 <= i < |p| ==> IsLocalMax(x, p[i]) && x[p[i]] >= h
  }

  /** A detector is acceptable when every output it gives meets the `find_peaks` contract. */
  ghost predicate IsPeakFinder(find: (seq<real>, real) -> seq<int>)
  {
    forall x, h :: IsPeakSet(x, h, find(x, h))
  }

  predicate IsStrictMax(x: seq<real>, k: int)
    requires 0 < k < |x| - 1
  {
    x[k - 1] < x[k] && x[k + 1] < x[k]
  }

  /** Strict local maxima reaching `h`, scanning from index `from` on. */
  function StrictPeaksFrom(x: seq<real>, h: real, from: nat): (p: seq<int>)
    requires from >= 1
    ensures StrictlyIncreasing(p)
    ensures forall i :: 0 <= i < |p| ==> from <= p[i] < |x| - 1 && IsStrictMax(x, p[i]) && x[p[i]] >= h
    decreases |x| - from
  {
    if from >= |x| - 1 then []
    else if IsStrictMax(x, from) && x[from] >= h then [from] + StrictPeaksFrom(x, h, from + 1)
    else StrictPeaksFrom(x, h, from + 1)
  }

  /** The strict local maxima of `x` whose value is at least `h`, in increasing order. */
  function StrictPeaks(x: seq<real>, h: real): seq<int>
  {
    StrictPeaksFrom(x, h, 1)
  }

  /** `StrictPeaks` meets the `find_peaks` contract, so the contract can be met. */
  lemma StrictPeaksIsPeakFinder()
    ensures IsPeakFinder((x, h) => StrictPeaks(x, h))
  {
    forall x: seq<real>, h: real ensures IsPeakSet(x, h, StrictPeaks(x, h)) {
      var p := StrictPeaks(x, h);
      assert forall i :: 0 <= i < |p| ==> IsLocalMax(x, p[i]);
    }
  }

  /** No strict local maximum reaching `h` is missed. */
  lemma {:induction false} StrictPeaksFromComplete(x: seq<real>, h: real, from: nat, k: int)
    requires 1 <= from <= k < |x| - 1
    requires IsStrictMax(x, k) && x[k] >= h
    ensures k in StrictPeaksFrom(x, h, from)
    decreases k - from
  {
    if from < k {
      StrictPeaksFromComplete(x, h, from + 1, k);
    }
  }

  lemma StrictPeaksComplete(x: seq<real>, h: real, k: int)
    requires 0 < k < |x| - 1
    requires IsStrictMax(x, k) && x[k] >= h
    ensures k in StrictPeaks(x, h)
  {
    StrictPeaksFromComplete(x, h, 1, k);
  }
}
