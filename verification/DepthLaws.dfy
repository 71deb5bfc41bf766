/** The depth analyser's verdict in its own figures (scripts/permuto_depth_analyze.py:120-200, 237, 336-361, 539-549):
    the gaps a window may hold, where an asserted tail starts, the sub-windows an account must rise in, the rate. */
module DepthLaws {
  import opened Wrappers
  import opened RealFacts
  import opened SeqFacts
  import opened FrozenWindow
  import opened DepthVerdict

  // ---------------------------------------------------------------- gaps

  /** One reading throughout, every sample stamped, and between neighbours a positive gap of at most three
      sampling intervals, or of at most 30 s. */
  ghost predicate HoldsTogether(rows: seq<Sample>, intervalS: real) {
    && (forall i :: 0 <= i < |rows| ==> rows[i].ts.Some? && rows[i].oracle.Some?)
    && (forall i :: 0 < i < |rows| ==>
          && rows[i].oracle == rows[0].oracle
          && rows[i].ts.value > rows[i - 1].ts.value
          && (|| rows[i].ts.value <= rows[i - 1].ts.value + 3.0 * intervalS
              || rows[i].ts.value <= rows[i - 1].ts.value + 30.0))
  }

  /** For every sampling interval these are the clean stretches. */
  lemma CleanHoldsTogether(rows: seq<Sample>, intervalS: real)
    ensures Clean(rows, MaxGap(intervalS)) <==> HoldsTogether(rows, intervalS)
  {
    var maxGap := MaxGap(intervalS);
    if Clean(rows, maxGap) {
      forall i | 0 < i < |rows|
        ensures rows[i].oracle == rows[0].oracle && Joined(rows[i - 1], rows[i], maxGap)
      {
        CleanIsOneValue(rows, maxGap, 0, i);
        assert Joined(rows[i - 1], rows[i - 1 + 1], maxGap);
      }
    }
    if HoldsTogether(rows, intervalS) {
      forall i | 0 <= i < |rows| - 1
        ensures Joined(rows[i], rows[i + 1], maxGap)
      {
        assert rows[i + 1 - 1] == rows[i] && (i > 0 ==> rows[i].oracle == rows[0].oracle);
      }
    }
  }

  // ---------------------------------------------------------------- the asserted tail

  /** The first sample at or after the boundary. */
  ghost predicate OpensAt(rows: seq<Sample>, since: real, i: nat) {
    && i < |rows| && rows[i].ts.Some? && rows[i].ts.value >= since
    && forall k :: 0 <= k < i ==> rows[k].ts == None || rows[k].ts.value < since
  }

  /** The first sample changes the value of the sample before it, and its capture is bracketed. */
  ghost predicate ChangesValue(rows: seq<Sample>, i: nat)
    requires i < |rows|
  {
    i > 0 && rows[i].bracketed && rows[i].oracle.Some? && rows[i - 1].oracle.Some? && rows[i].oracle != rows[i - 1].oracle
  }

  /** Where the tail behind a boundary starts: such a first sample is left out. */
  ghost predicate TailFrom(rows: seq<Sample>, since: real, start: nat) {
    || (OpensAt(rows, since, start) && !ChangesValue(rows, start))
    || (start > 0 && OpensAt(rows, since, start - 1) && ChangesValue(rows, start - 1))
  }

  lemma TailIs(rows: seq<Sample>, since: real)
    ensures var tail := AssertedTail(rows, since);
            if forall i :: 0 <= i < |rows| ==> rows[i].ts == None || rows[i].ts.value < since then tail == []
            else |tail| <= |rows| && tail == rows[|rows| - |tail|..] && TailFrom(rows, since, |rows| - |tail|)
  {
    var i := FirstStamped(rows, since, 0);
    assert forall k :: 0 <= k < |rows| ==> (Stamped(rows[k], since) <==> rows[k].ts.Some? && rows[k].ts.value >= since);
    if i < |rows| {
      assert OpensAt(rows, since, i);
      var start := if StraddlesBoundary(rows, i) then i + 1 else i;
      assert TailFrom(rows, since, start);
      assert AssertedTail(rows, since) == rows[start..];
    }
  }

  /** An assertion stands or falls with the whole tail behind its boundary: at least two samples that hold together
      are accepted as they are, and one gap above three intervals and above 30 s, one missing reading, one other
      value or one stamp out of order refutes it. */
  lemma AssertionIsRefutedIff(rows: seq<Sample>, intervalS: real, since: real)
    ensures IsRefuted(rows, intervalS, Some(since)) <==>
              exists start: nat :: TailFrom(rows, since, start) && |rows| - start >= 2 && start <= |rows|
                                   && !HoldsTogether(rows[start..], intervalS)
    ensures forall start: nat ::
              TailFrom(rows, since, start) && |rows| - start >= 2 && HoldsTogether(rows[start..], intervalS) ==>
                Selected(rows, MaxGap(intervalS), Some(since)) == rows[start..]
                && CarriedTail(rows, intervalS, Some(since), rows[start..])
  {
    hide Clean, HoldsTogether, AssertedTail, TailFrom, MaxGap;
    var tail := AssertedTail(rows, since);
    TailIs(rows, since);
    CleanHoldsTogether(tail, intervalS);
    forall start: nat | TailFrom(rows, since, start) && start <= |rows|
      ensures tail == rows[start..]
    {
      OneTail(rows, since, start);
    }
    forall start: nat | TailFrom(rows, since, start)
      ensures start <= |rows|
    {
      OneTail(rows, since, start);
    }
    assert |tail| == 0 || TailFrom(rows, since, |rows| - |tail|);
  }

  lemma OneTail(rows: seq<Sample>, since: real, start: nat)
    requires TailFrom(rows, since, start)
    ensures start <= |rows| && AssertedTail(rows, since) == rows[start..]
  {
    var i: nat := if OpensAt(rows, since, start) && !ChangesValue(rows, start) then start else start - 1;
    var j := FirstStamped(rows, since, 0);
    assert Stamped(rows[i], since);
    assert i == j by {
      assert forall k :: 0 <= k < i ==> !Stamped(rows[k], since);
    }
  }

  /** A sample counts when it carries the reading of some account. */
  lemma CountedIffRead(rows: seq<Sample>, r: Sample)
    ensures r in Filter(rows, HasMms()) <==> r in rows && exists u :: u in r.mms
  {
    FilterMembers(rows, HasMms());
    if |r.mms| == 0 {
      assert r.mms == map[];
    }
  }

  // ---------------------------------------------------------------- the sub-windows

  /** The account is read in both samples, higher in the later one. */
  ghost predicate GainsDepth(u: string, a: Sample, b: Sample) {
    exists x, y :: (u, Some(x)) in a.mms.Items && (u, Some(y)) in b.mms.Items && x < y
  }

  lemma RoseIsGain(u: string, a: Sample, b: Sample)
    ensures Rose(u, a, b) <==> GainsDepth(u, a, b)
  {
    if Rose(u, a, b) {
      var x, y := a.mms[u].value, b.mms[u].value;
      assert (u, Some(x)) in a.mms.Items && (u, Some(y)) in b.mms.Items;
    }
  }

  /** k sub-windows of ten samples or more, at most six, equally long but for the last, which takes the rest. */
  ghost predicate Splits(n: nat, k: nat, step: nat) {
    && (if n >= 60 then k == 6 else 10 * k <= n < 10 * k + 10)
    && k * step <= n < k * step + k
  }

  lemma TenthsIs(n: nat, k: nat)
    requires n >= 20 && if n >= 60 then k == 6 else 10 * k <= n < 10 * k + 10
    ensures Buckets(n) == k && 2 <= k < n
  {
  }

  lemma StepIs(n: nat, k: nat, step: nat)
    requires 0 < k && k * step <= n < k * step + k
    ensures n / k == step
  {
    var q := n / k;
    assert n == k * q + n % k;
    if q < step {
      MultiplesGrow(q + 1, step, k);
    } else if q > step {
      MultiplesGrow(step + 1, q, k);
    }
  }

  /** A gain over the i-th sub-window but the last. */
  ghost predicate GainsOver(u: string, window: seq<Sample>, step: nat, i: nat) {
    var next := (i + 1) * step;
    i * step < |window| && next < |window| && GainsDepth(u, window[i * step], window[next])
  }

  /** An account corroborates a window of at least 20 samples if and only if it gains from the start of each
      sub-window to the start of the next, and from the start of the last to the last sample. */
  lemma CorroboratedIff(u: string, window: seq<Sample>, k: nat, step: nat)
    requires (forall r :: r in window ==> exists v :: v in r.mms) && |window| >= 20 && Splits(|window|, k, step)
    ensures (k - 1) * step < |window|
    ensures Corroborated(u, window) <==>
              && (forall i: nat :: i < k - 1 ==> GainsOver(u, window, step, i))
              && GainsDepth(u, window[(k - 1) * step], window[|window| - 1])
  {
    var n := |window|;
    TenthsIs(n, k);
    StepIs(n, k, step);
    forall i: nat | i < k
      ensures i * step < n
    {
      MultipleFits(i, k, n, step);
    }
    FilterAll(window, HasMms());
    var edges := Edges(window, k);
    EdgesAre(window, k, step, edges);
    hide Edges, Buckets, Splits;
    EdgesRise(u, window, k, step, edges);
    assert Corroborated(u, window) <==> RoseInEvery(u, edges);
  }

  lemma EdgesRise(u: string, window: seq<Sample>, k: nat, step: nat, edges: seq<Sample>)
    requires 1 < k < |window| && |edges| == k + 1 && edges[k] == window[|window| - 1]
    requires forall i :: 0 <= i < k ==> i * step < |window| && edges[i] == window[i * step]
    ensures (k - 1) * step < |window|
    ensures RoseInEvery(u, edges)
       <==> && (forall i: nat :: i < k - 1 ==> GainsOver(u, window, step, i))
            && GainsDepth(u, window[(k - 1) * step], window[|window| - 1])
  {
    RoseIsGain(u, edges[k - 1], edges[k]);
    forall i: nat | i < k - 1
      ensures GainsOver(u, window, step, i) <==> Rose(u, edges[i], edges[i + 1])
    {
      RoseIsGain(u, edges[i], edges[i + 1]);
      assert edges[i + 1] == window[(i + 1) * step];
    }
    hide Rose, GainsDepth, GainsOver;
    assert RoseInEvery(u, edges)
      <==> Rose(u, edges[k - 1], edges[k - 1 + 1]) && forall i: nat :: i < k - 1 ==> Rose(u, edges[i], edges[i + 1]);
  }

  lemma EdgesAre(window: seq<Sample>, k: nat, step: nat, edges: seq<Sample>)
    requires 0 < k < |window| && step == |window| / k && edges == Edges(window, k)
    ensures forall i :: 0 <= i < k ==> i * step < |window| && edges[i] == window[i * step]
  {
    forall i: nat | i < k
      ensures i * step < |window|
    {
      StepsFit(i, k, |window|);
    }
  }

  /** Fewer than 20 samples corroborate nobody. */
  lemma ShortWindowsCorroborateNobody(u: string, window: seq<Sample>)
    requires |window| < 20
    ensures !Corroborated(u, window)
  {
  }

  // ---------------------------------------------------------------- the rate

  /** Depth-seconds per hour: the rate over the seconds of the window, an hour long, is the gain. */
  ghost predicate IsRateOf(u: string, window: seq<Sample>, rate: real) {
    && |window| > 0 && window[0].ts.Some? && window[|window| - 1].ts.Some?
    && u in window[0].mms && u in window[|window| - 1].mms
    && window[0].mms[u].Some? && window[|window| - 1].mms[u].Some?
    && rate * (window[|window| - 1].ts.value - window[0].ts.value)
       == 3600.0 * (window[|window| - 1].mms[u].value - window[0].mms[u].value)
  }

  lemma RateIs(rise: real, span: real)
    requires span != 0.0
    ensures Rate(rise, span) * span == 3600.0 * rise
  {
    DivCancel(rise, span);
    var q := rise / span;
    assert q * 3600.0 * span == q * span * 3600.0;
  }

  lemma RateOfAccount(u: string, window: seq<Sample>)
    requires IsRiser(u, window) && window[0].ts.Some? && window[|window| - 1].ts.Some? && Span(window) > 0.0
    ensures IsRateOf(u, window, Rate(Rise(u, window), Span(window)))
  {
    RateIs(Rise(u, window), Span(window));
    hide Rate;
  }

  /** The reported rate is that of a corroborated account, and none of them has a higher one. */
  lemma ReportedRateIsHighest(rate: real, window: seq<Sample>)
    requires EarnedRate(rate, window)
    ensures exists u :: Corroborated(u, window) && IsRateOf(u, window, rate)
    ensures forall u, other :: Corroborated(u, window) && IsRateOf(u, window, other) ==> other <= rate
  {
    hide Corroborated, Rate;
    var top :| Corroborated(top, window) && IsRiser(top, window) && rate == Rate(Rise(top, window), Span(window));
    RateOfAccount(top, window);
    forall u, other | Corroborated(u, window) && IsRateOf(u, window, other)
      ensures other <= rate
    {
      RateOfAccount(u, window);
      SameRate(other, Rate(Rise(u, window), Span(window)), Span(window), 3600.0 * Rise(u, window));
    }
  }

  lemma SameRate(a: real, b: real, span: real, gain: real)
    requires span > 0.0 && a * span == gain && b * span == gain
    ensures a == b
  {
    DivUnique(a, gain, span);
    DivUnique(b, gain, span);
  }
}
