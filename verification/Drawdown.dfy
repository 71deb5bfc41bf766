/** Maximum drawdown of an equity curve: the one-pass running-peak scan of
    cpp/src/backtest.cpp:1640-1660 and what it does and does not measure. */
module Drawdown {
  import opened RealFacts

  /** The running peak over the first n+1 samples. */
  function PeakAt(equity: seq<real>, n: nat): real
    requires n < |equity|
  {
    if n == 0 then equity[0] else Max(PeakAt(equity, n - 1), equity[n])
  }

  lemma {:induction false} PeakIsHighest(equity: seq<real>, n: nat) returns (at: nat)
    requires n < |equity|
    ensures forall i :: 0 <= i <= n ==> equity[i] <= PeakAt(equity, n)
    ensures at <= n && equity[at] == PeakAt(equity, n)
  {
    if n == 0 {
      at := 0;
    } else {
      at := PeakIsHighest(equity, n - 1);
      if equity[n] > equity[at] {
        at := n;
      }
    }
  }

  /** The fall from a peak, as a fraction of it. */
  function Fall(peak: real, e: real): real
    requires peak > 0.0
  {
    (peak - e) / peak
  }

  /** The fall at sample j from the running peak there; 0 while no peak is positive. */
  function FallAt(equity: seq<real>, j: nat): real
    requires j < |equity|
  {
    if PeakAt(equity, j) > 0.0 then Fall(PeakAt(equity, j), equity[j]) else 0.0
  }

  function Falls(equity: seq<real>): (falls: seq<real>)
    ensures |falls| == |equity|
    ensures forall j :: 0 <= j < |equity| ==> falls[j] == FallAt(equity, j)
  {
    seq(|equity|, j requires 0 <= j < |equity| => FallAt(equity, j))
  }

  /** The largest of the first n falls, or 0. */
  function WorstOf(falls: seq<real>, n: nat): (worst: real)
    requires n <= |falls|
    ensures worst >= 0.0
    ensures forall j :: 0 <= j < n ==> falls[j] <= worst
    ensures worst > 0.0 ==> exists j :: 0 <= j < n && falls[j] == worst
  {
    if n == 0 then 0.0 else Max(WorstOf(falls, n - 1), falls[n - 1])
  }

  /** The scan, as the value the simulation loops report. */
  function MaxDrawdown(equity: seq<real>): (dd: real) {
    WorstOf(Falls(equity), |equity|)
  }

  /** Sample i is positive and the curve stands a fraction dd below it at the later sample j. */
  ghost predicate IsPairFall(equity: seq<real>, i: int, j: int, dd: real) {
    0 <= i <= j < |equity| && equity[i] > 0.0 && dd == Fall(equity[i], equity[j])
  }

  lemma FirstSampleNeverFalls(equity: seq<real>)
    requires |equity| > 0
    ensures FallAt(equity, 0) == 0.0
  {
    if equity[0] > 0.0 {
      DivUnique(0.0, equity[0] - equity[0], equity[0]);
    }
  }

  /** The loop of compute_max_drawdown: the reported figure bounds every fall from the running
      peak and, when positive, is one of them. */
  method ComputeMaxDrawdown(equity: seq<real>) returns (maxDd: real)
    ensures maxDd == MaxDrawdown(equity)
    ensures forall j :: 0 <= j < |equity| ==> FallAt(equity, j) <= maxDd
    ensures maxDd > 0.0 ==> exists j :: 0 <= j < |equity| && FallAt(equity, j) == maxDd
  {
    ghost var falls := Falls(equity);
    if |equity| < 2 {
      if |equity| == 1 {
        FirstSampleNeverFalls(equity);
        assert WorstOf(falls, 0) == 0.0;
      }
      return 0.0;
    }
    var peak := equity[0];
    maxDd := 0.0;
    for k := 0 to |equity|
      invariant peak == if k == 0 then equity[0] else PeakAt(equity, k - 1)
      invariant maxDd == WorstOf(falls, k)
    {
      var e := equity[k];
      if e > peak {
        peak := e;
      }
      if peak > 0.0 {
        var dd := Fall(peak, e);
        if dd > maxDd {
          maxDd := dd;
        }
      }
    }
  }

  /** A higher start looks at least as bad exactly when the value fallen to is not negative. */
  lemma HigherPeakFallsFurther(low: real, high: real, e: real)
    requires 0.0 < low <= high
    ensures Fall(low, e) <= Fall(high, e) <==> e >= 0.0 || low == high
  {
    FallIs(low, e);
    FallIs(high, e);
    hide Fall;
    if low < high {
      DivCancel(e, low);
      DivCancel(e, high);
      SignOfQuotient(e, high);
      QuotientOrder(low, high, e / low, e / high);
    }
  }

  /** Of two multiples of one number, that of the larger divisor is the smaller iff it is not negative. */
  lemma QuotientOrder(low: real, high: real, r: real, q: real)
    requires 0.0 < low < high && r * low == q * high
    ensures q <= r <==> q >= 0.0
  {
    var d, gap := r - q, high - low;
    assert d * low == q * gap;
    assert (-d) * low == -(d * low);
    if q >= 0.0 {
      MulMonotone(0.0, q, gap);
      if d < 0.0 {
        MulPositive(-d, low);
      }
    } else {
      MulPositive(-q, gap);
      assert (-q) * gap == -(q * gap);
      if d >= 0.0 {
        MulMonotone(0.0, d, low);
      }
    }
  }

  lemma FallIs(peak: real, e: real)
    requires peak > 0.0
    ensures Fall(peak, e) == 1.0 - e / peak
  {
    DivCancel(e, peak);
    DivUnique(1.0 - e / peak, peak - e, peak);
  }

  lemma SignOfQuotient(e: real, peak: real)
    requires peak > 0.0
    ensures e / peak >= 0.0 <==> e >= 0.0
  {
    var q := e / peak;
    DivCancel(e, peak);
    if q >= 0.0 {
      MulMonotone(0.0, q, peak);
    } else {
      MulPositive(-q, peak);
      assert (-q) * peak == -(q * peak);
    }
  }

  /** On a curve that never goes negative the scan reports the worst fall over ALL pairs i <= j,
      which is the definition the source documents. */
  lemma DrawdownIsWorstPair(equity: seq<real>)
    requires forall k :: 0 <= k < |equity| ==> equity[k] >= 0.0
    ensures forall i, j, dd :: IsPairFall(equity, i, j, dd) ==> dd <= MaxDrawdown(equity)
    ensures MaxDrawdown(equity) > 0.0 ==> exists i, j :: IsPairFall(equity, i, j, MaxDrawdown(equity))
  {
    var worst := MaxDrawdown(equity);
    forall i, j, dd | IsPairFall(equity, i, j, dd)
      ensures dd <= worst
    {
      var _ := PeakIsHighest(equity, j);
      HigherPeakFallsFurther(equity[i], PeakAt(equity, j), equity[j]);
      assert Falls(equity)[j] == FallAt(equity, j);
    }
    if worst > 0.0 {
      var j :| 0 <= j < |equity| && Falls(equity)[j] == worst;
      var i := PeakIsHighest(equity, j);
      assert IsPairFall(equity, i, j, worst);
    }
  }

  lemma FallBelowOneIff(peak: real, e: real)
    requires peak > 0.0
    ensures Fall(peak, e) < 1.0 <==> e > 0.0
  {
    DivCancel(peak - e, peak);
    var f := Fall(peak, e);
    if f < 1.0 {
      MulPositive(1.0 - f, peak);
    } else {
      MulMonotone(1.0, f, peak);
    }
  }

  /** The drawdown stays below 1 exactly when no sample at or under zero follows a positive one,
      in particular on every all-positive curve. */
  lemma DrawdownBelowOneIff(equity: seq<real>)
    ensures MaxDrawdown(equity) < 1.0 <==>
            forall i, j :: 0 <= i <= j < |equity| && equity[i] > 0.0 ==> equity[j] > 0.0
  {
    var worst := MaxDrawdown(equity);
    var falls := Falls(equity);
    if i, j :| 0 <= i <= j < |equity| && equity[i] > 0.0 && equity[j] <= 0.0 {
      var _ := PeakIsHighest(equity, j);
      FallBelowOneIff(PeakAt(equity, j), equity[j]);
      assert falls[j] >= 1.0;
    } else if worst > 0.0 {
      var j :| 0 <= j < |equity| && falls[j] == worst;
      var i := PeakIsHighest(equity, j);
      FallBelowOneIff(PeakAt(equity, j), equity[j]);
    }
  }

  // ---------------------------------------------------------------- negative equity

  /** The running peak is the worst place to have fallen from exactly when the sample is not negative or
      every positive sample so far was the same. */
  lemma PeakIsWorstStartIff(equity: seq<real>, j: nat)
    requires j < |equity| && PeakAt(equity, j) > 0.0
    ensures (forall i, dd :: IsPairFall(equity, i, j, dd) ==> dd <= FallAt(equity, j))
       <==> equity[j] >= 0.0 || forall i :: 0 <= i <= j && equity[i] > 0.0 ==> equity[i] == PeakAt(equity, j)
  {
    hide Fall;
    var peak := PeakAt(equity, j);
    var _ := PeakIsHighest(equity, j);
    forall i | 0 <= i <= j && equity[i] > 0.0
      ensures IsPairFall(equity, i, j, Fall(equity[i], equity[j]))
      ensures Fall(equity[i], equity[j]) <= FallAt(equity, j) <==> equity[j] >= 0.0 || equity[i] == peak
    {
      HigherPeakFallsFurther(equity[i], peak, equity[j]);
    }
  }

  /** The scan reports the documented figure: no pair falls further. */
  ghost predicate ScanIsExact(equity: seq<real>) {
    forall i, j, dd :: IsPairFall(equity, i, j, dd) ==> dd <= MaxDrawdown(equity)
  }

  /** The smallest positive sample among the first n+1, if there is one. */
  function LowestStart(equity: seq<real>, n: nat): (low: real)
    requires n < |equity|
    ensures low > 0.0 ==> exists i :: 0 <= i <= n && equity[i] == low
    ensures forall i :: 0 <= i <= n && equity[i] > 0.0 ==> 0.0 < low <= equity[i]
  {
    if n == 0 then equity[0]
    else
      var low := LowestStart(equity, n - 1);
      if equity[n] <= 0.0 then low else if low <= 0.0 then equity[n] else Min(low, equity[n])
  }

  /** For every curve: the scan is exact if and only if no negative sample lies further below the smallest
      positive sample before it, relative to that, than the scan's own figure. */
  lemma ScanIsExactIff(equity: seq<real>)
    ensures ScanIsExact(equity) <==>
            forall j :: 0 <= j < |equity| && equity[j] < 0.0 && LowestStart(equity, j) > 0.0 ==>
              Fall(LowestStart(equity, j), equity[j]) <= MaxDrawdown(equity)
  {
    hide Fall, MaxDrawdown;
    forall j | 0 <= j < |equity| && LowestStart(equity, j) > 0.0
      ensures exists i :: IsPairFall(equity, i, j, Fall(LowestStart(equity, j), equity[j]))
    {
      var i :| 0 <= i <= j && equity[i] == LowestStart(equity, j);
      assert IsPairFall(equity, i, j, Fall(LowestStart(equity, j), equity[j]));
    }
    forall i, j, dd | IsPairFall(equity, i, j, dd)
      ensures equity[j] >= 0.0 ==> dd <= MaxDrawdown(equity)
      ensures equity[j] < 0.0 ==> LowestStart(equity, j) > 0.0 && dd <= Fall(LowestStart(equity, j), equity[j])
    {
      var _ := PeakIsHighest(equity, j);
      if equity[j] >= 0.0 {
        HigherPeakFallsFurther(equity[i], PeakAt(equity, j), equity[j]);
        ScanCoversPeaks(equity, j);
      } else {
        LowerStartFallsFurther(LowestStart(equity, j), equity[i], equity[j]);
      }
    }
  }

  lemma LowerStartFallsFurther(low: real, high: real, e: real)
    requires 0.0 < low <= high && e < 0.0
    ensures Fall(high, e) <= Fall(low, e)
  {
    HigherPeakFallsFurther(low, high, e);
  }

  lemma ScanCoversPeaks(equity: seq<real>, j: nat)
    requires j < |equity|
    ensures FallAt(equity, j) <= MaxDrawdown(equity)
  {
    assert Falls(equity)[j] == FallAt(equity, j);
  }

  /** Looking ahead: whatever the next sample is, the scan of the longer curve stays exact, if and only if
      the curve's positive samples are all the same. So any curve that moved while positive can be made
      to understate by one sample deep enough below zero. */
  lemma StaysExactIff(equity: seq<real>)
    requires |equity| > 0
    ensures (forall e: real :: ScanIsExact(equity + [e])) <==>
            forall i, j :: 0 <= i < |equity| && 0 <= j < |equity| && equity[i] > 0.0 && equity[j] > 0.0 ==>
              equity[i] == equity[j]
  {
    hide Fall, MaxDrawdown, ScanIsExact;
    var n := |equity|;
    if forall i, j :: 0 <= i < n && 0 <= j < n && equity[i] > 0.0 && equity[j] > 0.0 ==> equity[i] == equity[j] {
      forall e: real
        ensures ScanIsExact(equity + [e])
      {
        LevelCurveIsExact(equity, e);
      }
    } else {
      var i, j :| 0 <= i < n && 0 <= j < n && equity[i] > 0.0 && equity[j] > 0.0 && equity[i] < equity[j];
      var e := DeepSampleUnderstates(equity, i, j);
    }
  }

  lemma {:induction false} PeakOfPrefix(equity: seq<real>, more: seq<real>, n: nat)
    requires n < |equity|
    ensures PeakAt(equity + more, n) == PeakAt(equity, n)
  {
    if n > 0 {
      PeakOfPrefix(equity, more, n - 1);
    }
  }

  lemma LevelCurveIsExact(equity: seq<real>, e: real)
    requires forall i, j :: 0 <= i < |equity| && 0 <= j < |equity| && equity[i] > 0.0 && equity[j] > 0.0 ==>
               equity[i] == equity[j]
    ensures ScanIsExact(equity + [e])
  {
    hide Fall, MaxDrawdown;
    var curve := equity + [e];
    forall i, j, dd | IsPairFall(curve, i, j, dd)
      ensures dd <= MaxDrawdown(curve)
    {
      var at := PeakIsHighest(curve, j);
      HigherPeakFallsFurther(curve[i], PeakAt(curve, j), curve[j]);
      ScanCoversPeaks(curve, j);
    }
  }

  lemma DeepSampleUnderstates(equity: seq<real>, i: nat, j: nat) returns (e: real)
    requires i < |equity| && j < |equity| && 0.0 < equity[i] < equity[j]
    ensures !ScanIsExact(equity + [e])
  {
    hide Fall, MaxDrawdown;
    var n, low, worst := |equity|, equity[i], MaxDrawdown(equity);
    e := Min(-1.0, low * (1.0 - worst) - 1.0);
    var curve := equity + [e];
    var peak := PeakAt(curve, n);
    var _ := PeakIsHighest(curve, n);
    assert curve[j] == equity[j];
    HigherPeakFallsFurther(low, peak, e);
    DeepEnough(low, worst, e);
    LastFallDecides(equity, e);
    assert IsPairFall(curve, i, n, Fall(low, e));
  }

  lemma DeepEnough(low: real, worst: real, e: real)
    requires low > 0.0 && e < low * (1.0 - worst)
    ensures Fall(low, e) > worst
  {
    FallIs(low, e);
    DivCancel(e, low);
    var q := e / low;
    if q >= 1.0 - worst {
      MulMonotone(1.0 - worst, q, low);
    }
  }

  /** One more sample: the scan reports the old figure or the new sample's fall from the peak. */
  lemma LastFallDecides(equity: seq<real>, e: real)
    ensures MaxDrawdown(equity + [e]) == Max(MaxDrawdown(equity), FallAt(equity + [e], |equity|))
  {
    var curve, n := equity + [e], |equity|;
    forall j | 0 <= j < n
      ensures Falls(curve)[j] == Falls(equity)[j]
    {
      PeakOfPrefix(equity, [e], j);
    }
    hide Fall;
    WorstOfPrefix(Falls(equity), Falls(curve), n);
  }

  lemma {:induction false} WorstOfPrefix(a: seq<real>, b: seq<real>, n: nat)
    requires n <= |a| && n <= |b| && forall k :: 0 <= k < n ==> a[k] == b[k]
    ensures WorstOf(a, n) == WorstOf(b, n)
  {
    if n > 0 {
      WorstOfPrefix(a, b, n - 1);
    }
  }

  /** Such a curve: 1, 2, -1 loses twice its first sample while the scan reports 1.5. */
  lemma NegativeEquityUnderstates()
    ensures MaxDrawdown([1.0, 2.0, -1.0]) == 1.5
    ensures IsPairFall([1.0, 2.0, -1.0], 0, 2, 2.0)
  {
    var equity := [1.0, 2.0, -1.0];
    var falls := Falls(equity);
    assert PeakAt(equity, 0) == 1.0;
    assert PeakAt(equity, 1) == 2.0;
    assert PeakAt(equity, 2) == 2.0;
    assert falls[0] == 0.0 && falls[1] == 0.0 && falls[2] == 1.5;
    assert WorstOf(falls, 1) == 0.0;
    assert WorstOf(falls, 2) == 0.0;
  }
}
