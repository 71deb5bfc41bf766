/** The verdict of the depth analyser (scripts/permuto_depth_analyze.py:336-361, 398-584): which accounts
    rose in every sub-window of the carried window, and what that licenses the tool to say. */
module DepthVerdict {
  import opened Wrappers
  import opened RealFacts
  import opened SeqFacts
  import opened FrozenWindow

  datatype Verdict = TooFewSamples | Refuted | NoWindow | StrongEvidence(rate: real)
                   | NotCertified | EvidenceOnly | NoGain

  function HasMms(): Sample -> bool {
    (r: Sample) => |r.mms| > 0
  }

  // ---------------------------------------------------------------- rising accounts

  /** The account has a reading in both rows and the later one is higher. */
  predicate Rose(u: string, a: Sample, b: Sample) {
    && u in a.mms && u in b.mms && a.mms[u].Some? && b.mms[u].Some?
    && b.mms[u].value > a.mms[u].value
  }

  lemma QuotientBounds(n: nat, buckets: nat) returns (step: nat)
    requires 0 < buckets < n
    ensures step == n / buckets
    ensures buckets * step <= n < buckets * step + buckets
  {
    step := n / buckets;
    assert n == buckets * step + n % buckets;
  }

  lemma MultiplesGrow(i: nat, j: nat, step: nat)
    requires i <= j
    ensures i * step <= j * step
  {
  }

  lemma MultipleFits(i: nat, buckets: nat, n: nat, step: nat)
    requires i < buckets < n && buckets * step <= n < buckets * step + buckets
    ensures i * step < n - 1
  {
    MultiplesGrow(i + 1, buckets, step);
    assert (i + 1) * step == i * step + step;
    if step <= 1 {
      assert i * step <= i;
    }
  }

  lemma StepsFit(i: nat, buckets: nat, n: nat)
    requires 0 < buckets < n && i < buckets
    ensures i * (n / buckets) < n - 1
  {
    var step := QuotientBounds(n, buckets);
    MultipleFits(i, buckets, n, step);
  }

  /** The sub-window boundaries: the first row of each bucket, and the last row of all. */
  function Edges(usable: seq<Sample>, buckets: nat): (edges: seq<Sample>)
    requires 0 < buckets < |usable|
    ensures |edges| == buckets + 1
    ensures edges[0] == usable[0] && edges[buckets] == usable[|usable| - 1]
  {
    assert forall i: nat :: i < buckets ==> i * (|usable| / buckets) < |usable| by {
      forall i: nat | i < buckets
        ensures i * (|usable| / buckets) < |usable|
      {
        StepsFit(i, buckets, |usable|);
      }
    }
    StepsFit(0, buckets, |usable|);
    seq(buckets, (i: nat) requires i < buckets && i * (|usable| / buckets) < |usable|
          => usable[i * (|usable| / buckets)])
      + [usable[|usable| - 1]]
  }

  ghost predicate RoseInEvery(u: string, edges: seq<Sample>) {
    forall i :: 0 <= i < |edges| - 1 ==> Rose(u, edges[i], edges[i + 1])
  }

  /** Rising in every sub-window telescopes to rising end to end. */
  lemma {:induction false} RiseTelescopes(u: string, edges: seq<Sample>, i: nat)
    requires RoseInEvery(u, edges) && 0 < i < |edges|
    ensures Rose(u, edges[0], edges[i])
  {
    assert Rose(u, edges[i - 1], edges[i]);
    if i > 1 {
      RiseTelescopes(u, edges, i - 1);
    }
  }

  /** The accounts that rose in each of the given number of sub-windows. */
  ghost predicate SustainedIn(u: string, window: seq<Sample>, buckets: nat) {
    var usable := Filter(window, HasMms());
    0 < buckets < |usable| && RoseInEvery(u, Edges(usable, buckets))
  }

  method Gained(a: Sample, b: Sample) returns (gained: set<string>)
    ensures forall u :: u in gained <==> Rose(u, a, b)
  {
    gained := set u | u in b.mms && b.mms[u].Some? && u in a.mms && a.mms[u].Some?
                      && b.mms[u].value > a.mms[u].value;
  }

  /** _sustained_risers. */
  method SustainedRisers(rows: seq<Sample>, buckets: nat) returns (always: set<string>)
    requires buckets > 0
    ensures forall u :: u in always <==> SustainedIn(u, rows, buckets)
  {
    var usable := Filter(rows, HasMms());
    if |usable| < buckets + 1 {
      return {};
    }
    var step := |usable| / buckets;
    var edges: seq<Sample> := [];
    for i := 0 to buckets
      invariant |edges| == i
      invariant forall k :: 0 <= k < i ==> edges[k] == Edges(usable, buckets)[k]
    {
      StepsFit(i, buckets, |usable|);
      edges := edges + [usable[i * step]];
    }
    edges := edges + [usable[|usable| - 1]];
    assert edges == Edges(usable, buckets);
    var result: Option<set<string>> := None;
    for i := 0 to |edges| - 1
      invariant result.None? <==> i == 0
      invariant result.Some? ==>
                  forall u :: u in result.value <==> forall k :: 0 <= k < i ==> Rose(u, edges[k], edges[k + 1])
    {
      var gained := Gained(edges[i], edges[i + 1]);
      if result.None? {
        result := Some(gained);
      } else {
        result := Some(result.value * gained);
      }
    }
    always := result.GetOr({});
  }

  // ---------------------------------------------------------------- the window that is judged

  ghost predicate Increasing(rows: seq<Sample>) {
    && (forall i :: 0 <= i < |rows| ==> rows[i].ts.Some?)
    && (forall i, j :: 0 <= i < j < |rows| ==> rows[i].ts.value < rows[j].ts.value)
  }

  lemma CleanIsIncreasing(rows: seq<Sample>, maxGap: real)
    requires Clean(rows, maxGap)
    ensures Increasing(rows)
  {
    forall i, j | 0 <= i < j < |rows|
      ensures rows[i].ts.value < rows[j].ts.value
    {
      CleanIsOneValue(rows, maxGap, i, j);
    }
  }

  lemma {:induction false} FilterKeepsIncreasing(rows: seq<Sample>, keep: Sample -> bool)
    requires Increasing(rows)
    ensures Increasing(Filter(rows, keep))
  {
    if |rows| > 0 {
      var front, last := rows[..|rows| - 1], rows[|rows| - 1];
      FilterKeepsIncreasing(front, keep);
      FilterMembers(front, keep);
      if keep(last) {
        var kept := Filter(front, keep);
        forall i | 0 <= i < |kept|
          ensures kept[i].ts.value < last.ts.value
        {
          assert kept[i] in front;
        }
      }
    }
  }

  function Buckets(n: nat): nat {
    var tenth := n / 10;
    var capped := if tenth < 6 then tenth else 6;
    if capped > 1 then capped else 1
  }

  function Rise(u: string, window: seq<Sample>): real
    requires |window| > 0 && Rose(u, window[0], window[|window| - 1])
  {
    window[|window| - 1].mms[u].value - window[0].mms[u].value
  }

  function Span(window: seq<Sample>): real
    requires |window| > 0 && window[0].ts.Some? && window[|window| - 1].ts.Some?
  {
    window[|window| - 1].ts.value - window[0].ts.value
  }

  function Rate(rise: real, span: real): real
    requires span != 0.0
  {
    rise / span * 3600.0
  }

  lemma RatePositive(rise: real, span: real)
    requires rise > 0.0 && span > 0.0
    ensures Rate(rise, span) > 0.0
  {
    DivCancel(rise, span);
  }

  /** A corroborated account is a riser: sustained gains imply an end-to-end gain. */
  lemma SustainedIsRiser(u: string, window: seq<Sample>, buckets: nat)
    requires forall r :: r in window ==> HasMms()(r)
    requires SustainedIn(u, window, buckets)
    ensures |window| > 1 && Rose(u, window[0], window[|window| - 1])
  {
    FilterAll(window, HasMms());
    RiseTelescopes(u, Edges(window, buckets), buckets);
  }

  /** The largest rate among a set of risers. */
  method TopRate(window: seq<Sample>, accounts: set<string>) returns (rate: real)
    requires |window| > 0 && Increasing(window) && Span(window) > 0.0 && accounts != {}
    requires forall u :: u in accounts ==> Rose(u, window[0], window[|window| - 1])
    ensures exists u :: u in accounts && rate == Rate(Rise(u, window), Span(window))
    ensures forall u :: u in accounts ==> Rate(Rise(u, window), Span(window)) <= rate
    ensures rate > 0.0
  {
    hide Rate;
    var first :| first in accounts;
    rate := Rate(Rise(first, window), Span(window));
    var rest, seen := accounts - {first}, {first};
    while rest != {}
      invariant rest + seen == accounts && first in seen
      invariant exists u :: u in seen && rate == Rate(Rise(u, window), Span(window))
      invariant forall u :: u in seen ==> Rate(Rise(u, window), Span(window)) <= rate
      decreases rest
    {
      var u :| u in rest;
      var mine := Rate(Rise(u, window), Span(window));
      if mine > rate {
        rate := mine;
      }
      rest, seen := rest - {u}, seen + {u};
    }
    var top :| top in accounts && rate == Rate(Rise(top, window), Span(window));
    RatePositive(Rise(top, window), Span(window));
  }

  // ---------------------------------------------------------------- the verdict

  /** What earns the verdict in a judged window. */
  ghost predicate Corroborated(u: string, window: seq<Sample>) {
    Buckets(|window|) > 1 && SustainedIn(u, window, Buckets(|window|))
  }

  ghost predicate IsRiser(u: string, window: seq<Sample>) {
    |window| > 0 && Rose(u, window[0], window[|window| - 1])
  }

  /** The rate is the highest of a corroborated account, over the positive span of the window. */
  ghost predicate EarnedRate(rate: real, window: seq<Sample>) {
    && rate > 0.0 && |window| >= 20 && Increasing(window) && Span(window) > 0.0
    && (exists u :: && Corroborated(u, window) && IsRiser(u, window)
                    && rate == Rate(Rise(u, window), Span(window)))
    && (forall u :: Corroborated(u, window) ==> IsRiser(u, window) && Rate(Rise(u, window), Span(window)) <= rate)
  }

  /** The verdict on a window of at least two samples. */
  method JudgeWindow(window: seq<Sample>, certified: bool) returns (verdict: Verdict)
    requires Increasing(window) && |window| >= 2 && forall r :: r in window ==> HasMms()(r)
    ensures Span(window) > 0.0
    ensures verdict.StrongEvidence? <==> certified && exists u :: Corroborated(u, window)
    ensures verdict.StrongEvidence? ==> EarnedRate(verdict.rate, window)
    ensures verdict.NotCertified? <==> !certified && exists u :: IsRiser(u, window)
    ensures verdict.EvidenceOnly? <==>
              certified && (exists u :: IsRiser(u, window))
              && !exists u :: Corroborated(u, window)
    ensures verdict.NoGain? <==> !exists u :: IsRiser(u, window)
  {
    hide SustainedIn, Rate;
    var risers := Gained(window[0], window[|window| - 1]);
    var buckets := Buckets(|window|);
    var sustained: set<string> := {};
    if buckets > 1 {
      sustained := SustainedRisers(window, buckets);
      forall u | u in sustained {
        SustainedIsRiser(u, window, buckets);
      }
    }
    var corroborated := risers * sustained;
    assert corroborated == sustained;
    if certified && corroborated != {} {
      var some :| some in corroborated;
      assert Corroborated(some, window);
      var rate := TopRate(window, corroborated);
      return StrongEvidence(rate);
    }
    assert forall u :: Corroborated(u, window) ==> u in corroborated;
    assert forall u :: u in risers <==> IsRiser(u, window);
    if risers != {} && !certified {
      var some :| some in risers;
      return NotCertified;
    } else if risers != {} {
      var some :| some in risers;
      return EvidenceOnly;
    }
    return NoGain;
  }

  /** The tail behind the asserted boundary, if no sample in it refutes the assertion. */
  ghost predicate CarriedTail(rows: seq<Sample>, intervalS: real, carriedSince: Option<real>, tail: seq<Sample>) {
    carriedSince.Some? && tail == AssertedTail(rows, carriedSince.value) && Clean(tail, MaxGap(intervalS))
  }

  /** The samples that are measured: those of the selected window that carry account readings. */
  ghost function Measured(rows: seq<Sample>, intervalS: real, carriedSince: Option<real>): seq<Sample> {
    Filter(Selected(rows, MaxGap(intervalS), carriedSince), HasMms())
  }

  /** The operator asserted a boundary, and some sample behind it speaks against it. */
  ghost predicate IsRefuted(rows: seq<Sample>, intervalS: real, carriedSince: Option<real>) {
    carriedSince.Some?
    && |AssertedTail(rows, carriedSince.value)| >= 2
    && !Clean(AssertedTail(rows, carriedSince.value), MaxGap(intervalS))
  }

  /** The verdict of main on the last session's rows. STRONG EVIDENCE is reported if and only if the
      operator asserted a boundary, no sample behind it refutes the assertion, and some account rose in
      every one of at least two sub-windows of that tail; the rate is then positive and earned by such
      an account. Whenever anything is measured the span divided by is positive. */
  method Judge(rows: seq<Sample>, intervalS: real, carriedSince: Option<real>) returns (verdict: Verdict)
    ensures verdict.TooFewSamples? <==> |Filter(rows, HasMms())| < 2
    ensures verdict.Refuted? <==> |Filter(rows, HasMms())| >= 2 && IsRefuted(rows, intervalS, carriedSince)
    ensures verdict.NoWindow? <==>
              && |Filter(rows, HasMms())| >= 2 && !IsRefuted(rows, intervalS, carriedSince)
              && |Measured(rows, intervalS, carriedSince)| < 2
    ensures var window := Measured(rows, intervalS, carriedSince);
            |window| >= 2 ==>
              && Increasing(window) && Span(window) > 0.0
              && (verdict.StrongEvidence? <==> carriedSince.Some? && exists u :: Corroborated(u, window))
              && (verdict.EvidenceOnly? <==>
                    && carriedSince.Some? && (exists u :: IsRiser(u, window))
                    && !exists u :: Corroborated(u, window))
              && (verdict.NotCertified? <==> carriedSince.None? && exists u :: IsRiser(u, window))
              && (verdict.NoGain? <==> !exists u :: IsRiser(u, window))
    ensures verdict.StrongEvidence? <==>
              exists tail, u :: CarriedTail(rows, intervalS, carriedSince, tail)
                                && Corroborated(u, Filter(tail, HasMms()))
    ensures verdict.StrongEvidence? ==> EarnedRate(verdict.rate, Measured(rows, intervalS, carriedSince))
  {
    hide Corroborated, EarnedRate, IsRiser, Clean, AssertedTail, Filter, Increasing, InfersFrom, Selected;
    SelectionShortens(rows, MaxGap(intervalS), carriedSince);
    CarriedTailIsSelected(rows, intervalS, carriedSince);
    FewSamplesNeverCorroborate();
    if |Filter(rows, HasMms())| < 2 {
      return TooFewSamples;
    }
    var selected, provenance := SelectWindow(rows, intervalS, carriedSince);
    var window := Filter(selected, HasMms());
    FilterMembers(selected, HasMms());
    var certified := provenance == Asserted;
    if |window| < 2 {
      return if provenance == Contradicted then Refuted else NoWindow;
    }
    CleanIsIncreasing(selected, MaxGap(intervalS));
    FilterKeepsIncreasing(selected, HasMms());
    verdict := JudgeWindow(window, certified);
  }

  /** A carried tail with a corroborated account is the selected window. */
  lemma CarriedTailIsSelected(rows: seq<Sample>, intervalS: real, carriedSince: Option<real>)
    ensures (exists tail, u :: CarriedTail(rows, intervalS, carriedSince, tail)
                               && Corroborated(u, Filter(tail, HasMms())))
       <==> carriedSince.Some? && exists u :: Corroborated(u, Measured(rows, intervalS, carriedSince))
  {
    hide Corroborated, Clean, AssertedTail, Filter;
    FewSamplesNeverCorroborate();
    if carriedSince.Some? {
      var tail, maxGap := AssertedTail(rows, carriedSince.value), MaxGap(intervalS);
      var measured := Measured(rows, intervalS, carriedSince);
      FilterMembers(tail, HasMms());
      FilterMembers([], HasMms());
      assert measured == if |tail| >= 2 && Clean(tail, maxGap) then Filter(tail, HasMms()) else Filter([], HasMms());
      forall u
        ensures Corroborated(u, measured) <==> Clean(tail, maxGap) && Corroborated(u, Filter(tail, HasMms()))
      {
      }
      assert forall t :: CarriedTail(rows, intervalS, carriedSince, t) <==> t == tail && Clean(tail, maxGap);
      hide Measured, Selected, CarriedTail;
      if u :| Corroborated(u, measured) {
        assert CarriedTail(rows, intervalS, carriedSince, tail);
      }
    }
  }

  lemma SelectionShortens(rows: seq<Sample>, maxGap: real, carriedSince: Option<real>)
    ensures |Filter(Selected(rows, maxGap, carriedSince), HasMms())| <= |Filter(rows, HasMms())|
  {
    var selected := Selected(rows, maxGap, carriedSince);
    SelectedIsSuffix(rows, maxGap, carriedSince);
    hide Selected, Filter;
    var before := rows[..|rows| - |selected|];
    assert rows == before + selected;
    FilterConcat(before, selected, HasMms());
  }

  lemma SelectedIsSuffix(rows: seq<Sample>, maxGap: real, carriedSince: Option<real>)
    ensures var selected := Selected(rows, maxGap, carriedSince);
            |selected| <= |rows| && selected == rows[|rows| - |selected|..]
  {
    hide Clean, FollowedATransition, RunStart;
  }

  lemma FewSamplesNeverCorroborate()
    ensures forall u, window :: |window| < 2 ==> !Corroborated(u, window)
  {
  }
}
