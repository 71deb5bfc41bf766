/** Selecting the carried window of a probe session (scripts/permuto_depth_analyze.py:96-333): the run
    scanner that infers a frozen tail, and the validator of an operator-asserted boundary.

    Oracle readings are compared by their canonical text; timestamps are seconds. A row object's
    identity is its index. */
module FrozenWindow {
  import opened Wrappers
  import opened RealFacts

  /** ts and oracle are None where the source finds them missing or falsy; bracketed says both capture
      timestamps are recorded; mms maps accounts to their five-day depth reading. */
  datatype Sample = Sample(ts: Option<real>, oracle: Option<string>, bracketed: bool,
                           mms: map<string, Option<real>>)

  datatype Provenance = Nothing | Inferred | Asserted | Contradicted

  function MaxGap(intervalS: real): real {
    Max(intervalS * 3.0, 30.0)
  }

  // ---------------------------------------------------------------- what a clean stretch is

  predicate Readable(r: Sample) {
    r.ts.Some? && r.oracle.Some?
  }

  predicate GapOk(a: Sample, b: Sample, maxGap: real) {
    a.ts.Some? && b.ts.Some? && 0.0 < b.ts.value - a.ts.value <= maxGap
  }

  /** Two neighbouring rows that may share a window. */
  predicate Joined(a: Sample, b: Sample, maxGap: real) {
    Readable(a) && Readable(b) && a.oracle == b.oracle && GapOk(a, b, maxGap)
  }

  /** Every row readable, one oracle value, every adjacent gap in (0, maxGap]. */
  ghost predicate Clean(rows: seq<Sample>, maxGap: real) {
    && (forall i :: 0 <= i < |rows| ==> Readable(rows[i]))
    && (forall i :: 0 <= i < |rows| - 1 ==> Joined(rows[i], rows[i + 1], maxGap))
  }

  lemma {:induction false} CleanIsOneValue(rows: seq<Sample>, maxGap: real, i: nat, j: nat)
    requires Clean(rows, maxGap) && i < j < |rows|
    ensures rows[i].oracle == rows[j].oracle && rows[i].ts.value < rows[j].ts.value
  {
    assert Joined(rows[j - 1], rows[j], maxGap);
    if i < j - 1 {
      CleanIsOneValue(rows, maxGap, i, j - 1);
    }
  }

  // ---------------------------------------------------------------- the inferred window

  /** A row the scanner drops: its oracle differs from an open run's and its capture is bracketed, so
      its two reads may straddle the change. A row right behind a dropped one is never dropped: no run
      is open there. */
  predicate Dropped(rows: seq<Sample>, i: nat)
    requires i < |rows|
  {
    && i > 0
    && Readable(rows[i - 1]) && Readable(rows[i])
    && rows[i].oracle != rows[i - 1].oracle
    && rows[i].bracketed
    && !Dropped(rows, i - 1)
  }

  predicate InRun(rows: seq<Sample>, i: nat)
    requires i < |rows|
  {
    Readable(rows[i]) && !Dropped(rows, i)
  }

  /** Where the run through row i starts. */
  function RunStart(rows: seq<Sample>, maxGap: real, i: nat): (s: nat)
    requires i < |rows| && InRun(rows, i)
    ensures s <= i
  {
    if i > 0 && InRun(rows, i - 1) && Joined(rows[i - 1], rows[i], maxGap) then RunStart(rows, maxGap, i - 1) else i
  }

  /** rows.index: the first row equal to row s. */
  function FirstEqual(rows: seq<Sample>, s: nat): (t: nat)
    requires s < |rows|
    ensures t <= s && rows[t] == rows[s]
    ensures forall k :: 0 <= k < t ==> rows[k] != rows[s]
  {
    FirstEqualFrom(rows, s, 0)
  }

  function FirstEqualFrom(rows: seq<Sample>, s: nat, from: nat): (t: nat)
    requires from <= s < |rows| && forall k :: 0 <= k < from ==> rows[k] != rows[s]
    ensures t <= s && rows[t] == rows[s]
    ensures forall k :: 0 <= k < t ==> rows[k] != rows[s]
    decreases s - from
  {
    if rows[from] == rows[s] then from else FirstEqualFrom(rows, s, from + 1)
  }

  /** A different oracle value was seen before the run. */
  ghost predicate FollowedATransition(rows: seq<Sample>, s: nat)
    requires s < |rows|
  {
    exists j :: 0 <= j < FirstEqual(rows, s) && rows[j].oracle.Some? && rows[j].oracle != rows[s].oracle
  }

  /** The window the scanner infers, by its first row. */
  ghost predicate InfersFrom(rows: seq<Sample>, maxGap: real, s: nat) {
    && |rows| > 0 && InRun(rows, |rows| - 1)
    && s == RunStart(rows, maxGap, |rows| - 1)
    && FollowedATransition(rows, s)
  }

  /** The last run completed or open among the first n rows, as [start, end). */
  ghost predicate BestRun(rows: seq<Sample>, maxGap: real, n: nat, best: Option<(nat, nat)>)
    requires n <= |rows|
  {
    match best
    case None => forall i :: 0 <= i < n ==> !InRun(rows, i)
    case Some((s, e)) =>
      && s < e <= n && InRun(rows, e - 1) && s == RunStart(rows, maxGap, e - 1)
      && (forall i :: e <= i < n ==> !InRun(rows, i))
  }

  /** The scan loop of frozen_window. Runs are index ranges of the row list. */
  method ScanRuns(rows: seq<Sample>, maxGap: real) returns (best: Option<(nat, nat)>)
    ensures BestRun(rows, maxGap, |rows|, best)
  {
    best := None;
    var run: Option<nat> := None;  // start of the open run
    var prevTs: Option<real>, prevOracle: Option<string> := None, None;
    for i := 0 to |rows|
      invariant run.Some? <==> i > 0 && InRun(rows, i - 1)
      invariant run.Some? ==> run.value == RunStart(rows, maxGap, i - 1)
      invariant run.None? ==> BestRun(rows, maxGap, i, best)
      invariant i > 0 && Readable(rows[i - 1]) ==> prevTs == rows[i - 1].ts && prevOracle == rows[i - 1].oracle
      invariant i == 0 || !Readable(rows[i - 1]) ==> prevTs.None? && prevOracle.None?
    {
      var row := rows[i];
      if row.oracle.None? || row.ts.None? {
        if run.Some? {
          best := Some((run.value, i));
        }
        run, prevTs, prevOracle := None, None, None;
      } else {
        var gapped := prevTs.Some? &&
                      (row.ts.value - prevTs.value > maxGap || row.ts.value - prevTs.value <= 0.0);
        var transition := run.Some? && row.oracle != prevOracle;
        if (transition || gapped) && run.Some? {
          best := Some((run.value, i));
          run := None;
        }
        if !(transition && row.bracketed) {
          run := Some(if run.Some? then run.value else i);
        }
        prevTs, prevOracle := row.ts, row.oracle;
      }
    }
    if run.Some? {
      best := Some((run.value, |rows|));
    }
  }

  /** frozen_window without an asserted boundary. */
  method InferWindow(rows: seq<Sample>, maxGap: real) returns (window: seq<Sample>, provenance: Provenance)
    ensures provenance == Inferred || provenance == Nothing
    ensures provenance == Inferred <==> exists s: nat :: InfersFrom(rows, maxGap, s)
    ensures forall s: nat :: InfersFrom(rows, maxGap, s) ==> window == rows[s..]
    ensures provenance == Nothing ==> window == []
  {
    var best := ScanRuns(rows, maxGap);
    match best
    case None =>
      return [], Nothing;
    case Some((s, e)) =>
      var tailStart := FirstEqual(rows, s);
      var followed := false;
      for j := 0 to tailStart
        invariant followed <==> exists k :: 0 <= k < j && rows[k].oracle.Some? && rows[k].oracle != rows[s].oracle
      {
        if rows[j].oracle.Some? && rows[j].oracle != rows[s].oracle {
          followed := true;
        }
      }
      var isSuffix := e == |rows|;
      if followed && isSuffix {
        assert InfersFrom(rows, maxGap, s);
        return rows[s..e], Inferred;
      }
      return [], Nothing;
  }

  /** The run through row i is clean and cannot be extended to the left: before it lies the start of the
      session, a row that does not join, or a dropped one. */
  lemma {:induction false} RunIsMaximalClean(rows: seq<Sample>, maxGap: real, i: nat)
    requires i < |rows| && InRun(rows, i)
    ensures var s := RunStart(rows, maxGap, i);
            && Clean(rows[s..i + 1], maxGap)
            && InRun(rows, s)
            && (s > 0 ==> !InRun(rows, s - 1) || !Joined(rows[s - 1], rows[s], maxGap))
  {
    var s := RunStart(rows, maxGap, i);
    if s < i {
      RunIsMaximalClean(rows, maxGap, i - 1);
      var w, w' := rows[s..i + 1], rows[s..i];
      forall k | 0 <= k < |w| - 1
        ensures Joined(w[k], w[k + 1], maxGap)
      {
        if k < |w'| - 1 {
          assert Joined(w'[k], w'[k + 1], maxGap);
        }
      }
      assert forall k :: 0 <= k < |w'| ==> w[k] == w'[k];
    }
  }

  /** An inferred window is a clean suffix of the session that follows a different oracle value, and it
      is as long as the scanner's rules allow. */
  lemma InferredWindowIsSound(rows: seq<Sample>, maxGap: real, s: nat)
    requires InfersFrom(rows, maxGap, s)
    ensures s < |rows| && Clean(rows[s..], maxGap)
    ensures exists j :: 0 <= j < s && rows[j].oracle.Some? && rows[j].oracle != rows[s].oracle
    ensures s > 0 && Readable(rows[s - 1]) ==>
              Dropped(rows, s - 1) || rows[s - 1].oracle != rows[s].oracle || !GapOk(rows[s - 1], rows[s], maxGap)
  {
    RunIsMaximalClean(rows, maxGap, |rows| - 1);
    assert rows[s..] == rows[s..|rows| - 1 + 1];
  }

  /** Conversely, a clean suffix of at least two rows behind a differing reading is never missed. */
  lemma CleanTailIsInferred(rows: seq<Sample>, maxGap: real, k: nat)
    requires 0 < k && k + 1 < |rows| && Clean(rows[k..], maxGap)
    requires rows[k - 1].oracle.Some? && rows[k - 1].oracle != rows[k].oracle
    requires forall j :: 0 <= j < k ==> rows[j] != rows[k] && rows[j] != rows[k + 1]
    ensures InfersFrom(rows, maxGap, k) || (Dropped(rows, k) && InfersFrom(rows, maxGap, k + 1))
  {
    var n := |rows|;
    var start := if Dropped(rows, k) then k + 1 else k;
    assert Joined(rows[k..][0], rows[k..][1], maxGap);
    forall j | start <= j < n
      ensures InRun(rows, j) && RunStart(rows, maxGap, j) == start
    {
      CleanTailRun(rows, maxGap, k, start, j);
    }
    CleanTailRun(rows, maxGap, k, start, n - 1);
    assert FirstEqual(rows, start) >= k;
  }

  lemma {:induction false} CleanTailRun(rows: seq<Sample>, maxGap: real, k: nat, start: nat, j: nat)
    requires 0 < k && k + 1 < |rows| && Clean(rows[k..], maxGap)
    requires rows[k - 1].oracle.Some? && rows[k - 1].oracle != rows[k].oracle
    requires start == (if Dropped(rows, k) then k + 1 else k) && start <= j < |rows|
    ensures InRun(rows, j) && RunStart(rows, maxGap, j) == start
  {
    var tail := rows[k..];
    assert Readable(tail[j - k]);
    if j > k {
      assert Joined(tail[j - 1 - k], tail[j - k], maxGap);
    }
    if j > start {
      CleanTailRun(rows, maxGap, k, start, j - 1);
    }
  }

  /** A bracketed row that does not continue the oracle value right before it opens an inferred window exactly
      when no run was open there to be broken: the row before was dropped, or could not be read; and the
      tail from it on, which must follow a different value anyway, is clean. */
  lemma BracketedTransitionOpensIff(rows: seq<Sample>, maxGap: real, s: nat)
    requires 0 < s < |rows| && rows[s].bracketed
    requires Readable(rows[s - 1]) ==> rows[s].oracle != rows[s - 1].oracle
    ensures InfersFrom(rows, maxGap, s)
       <==> && (Dropped(rows, s - 1) || !Readable(rows[s - 1]))
            && Clean(rows[s..], maxGap) && FollowedATransition(rows, s)
  {
    if InfersFrom(rows, maxGap, s) {
      InferredWindowIsSound(rows, maxGap, s);
      RunIsMaximalClean(rows, maxGap, |rows| - 1);
    } else if !InRun(rows, s - 1) && Clean(rows[s..], maxGap) {
      KeptTailRun(rows, maxGap, s, |rows| - 1);
    }
  }

  /** A row behind no open run opens the run of everything that joins it. */
  lemma {:induction false} KeptTailRun(rows: seq<Sample>, maxGap: real, s: nat, j: nat)
    requires 0 < s <= j < |rows| && !InRun(rows, s - 1) && Clean(rows[s..], maxGap)
    ensures InRun(rows, j) && RunStart(rows, maxGap, j) == s
  {
    var tail := rows[s..];
    assert Readable(tail[j - s]);
    if j > s {
      assert Joined(tail[j - 1 - s], tail[j - s], maxGap);
      KeptTailRun(rows, maxGap, s, j - 1);
    }
  }

  /** The last oracle value read before a row, if any: the change a bracketed row is suspected of. */
  function LastReading(rows: seq<Sample>, i: nat): Option<string>
    requires i <= |rows|
  {
    if i == 0 then None
    else if rows[i - 1].oracle.Some? then rows[i - 1].oracle
    else LastReading(rows, i - 1)
  }

  /** So of the bracketed rows that change the last value read, those behind an unreadable row open a window
      as freely as any other row. */
  lemma ChangeBehindUnreadableRowOpens(rows: seq<Sample>, maxGap: real, s: nat)
    requires 0 < s < |rows| && !Readable(rows[s - 1]) && rows[s].bracketed && Clean(rows[s..], maxGap)
    requires LastReading(rows, s).Some? && LastReading(rows, s) != rows[s].oracle && FirstEqual(rows, s) == s
    ensures InfersFrom(rows, maxGap, s) && !Dropped(rows, s - 1)
  {
    var j := LastReadingIsRead(rows, s);
    assert FollowedATransition(rows, s);
    BracketedTransitionOpensIff(rows, maxGap, s);
  }

  lemma {:induction false} LastReadingIsRead(rows: seq<Sample>, i: nat) returns (j: nat)
    requires i <= |rows| && LastReading(rows, i).Some?
    ensures j < i && rows[j].oracle == LastReading(rows, i)
  {
    if rows[i - 1].oracle.Some? {
      j := i - 1;
    } else {
      j := LastReadingIsRead(rows, i - 1);
    }
  }

  /** It happens: the value changes across a sample without a reading. */
  lemma ChangeAcrossAHoleIsKept()
    ensures var rows := [Sample(Some(0.0), Some("a"), true, map[]), Sample(Some(10.0), None, true, map[]),
                         Sample(Some(20.0), Some("b"), true, map[]), Sample(Some(30.0), Some("b"), true, map[])];
            InfersFrom(rows, 30.0, 2) && !Dropped(rows, 1)
  {
    var rows := [Sample(Some(0.0), Some("a"), true, map[]), Sample(Some(10.0), None, true, map[]),
                 Sample(Some(20.0), Some("b"), true, map[]), Sample(Some(30.0), Some("b"), true, map[])];
    assert "a" != "b" by {
      assert "a"[0] != "b"[0];
    }
    assert Joined(rows[2], rows[3], 30.0);
    assert rows[2..] == [rows[2], rows[3]];
    assert FirstEqual(rows, 2) == 2;
    assert LastReading(rows, 1) == Some("a") && LastReading(rows, 2) == Some("a");
    ChangeBehindUnreadableRowOpens(rows, 30.0, 2);
  }

  /** A row that changes the value and was bracketed. */
  predicate Changes(rows: seq<Sample>, i: nat)
    requires i < |rows|
  {
    i > 0 && Readable(rows[i - 1]) && Readable(rows[i]) && rows[i].oracle != rows[i - 1].oracle && rows[i].bracketed
  }

  /** How many such rows in a row end here. */
  function Streak(rows: seq<Sample>, i: nat): nat
    requires i < |rows|
  {
    if Changes(rows, i) then 1 + Streak(rows, i - 1) else 0
  }

  /** Of consecutive bracketed changes every other one is dropped, the first included. */
  lemma {:induction false} DroppedIffOddStreak(rows: seq<Sample>, i: nat)
    requires i < |rows|
    ensures Dropped(rows, i) <==> Streak(rows, i) % 2 == 1
  {
    if Changes(rows, i) {
      DroppedIffOddStreak(rows, i - 1);
    }
  }

  /** So it happens: two changes in a row, both bracketed; the second row is kept and opens the window
      although its own reads may straddle the second change. */
  lemma SecondChangeIsKept()
    ensures var row := (t: real, o: string) => Sample(Some(t), Some(o), true, map[]);
            var rows := [row(0.0, "a"), row(10.0, "b"), row(20.0, "c"), row(30.0, "c")];
            InfersFrom(rows, 30.0, 2)
  {
    var row := (t: real, o: string) => Sample(Some(t), Some(o), true, map[]);
    var rows := [row(0.0, "a"), row(10.0, "b"), row(20.0, "c"), row(30.0, "c")];
    assert "a" != "b" && "b" != "c" by {
      assert "a"[0] != "b"[0] && "b"[0] != "c"[0];
    }
    assert !Dropped(rows, 0);
    assert Dropped(rows, 1);
    assert !Dropped(rows, 2);
    assert !Dropped(rows, 3);
    assert RunStart(rows, 30.0, 2) == 2;
    assert Joined(rows[2], rows[3], 30.0);
    assert RunStart(rows, 30.0, 3) == 2;
    assert FirstEqual(rows, 2) == 2;
    assert "a"[0] != "c"[0];
    assert rows[0].oracle != rows[2].oracle;
  }

  // ---------------------------------------------------------------- the asserted window

  predicate Stamped(r: Sample, since: real) {
    r.ts.Some? && r.ts.value >= since
  }

  /** The first sample at or after the boundary. */
  function FirstStamped(rows: seq<Sample>, since: real, from: nat): (i: nat)
    requires from <= |rows|
    ensures from <= i <= |rows|
    ensures i < |rows| ==> Stamped(rows[i], since)
    ensures forall k :: from <= k < i ==> !Stamped(rows[k], since)
    decreases |rows| - from
  {
    if from == |rows| || Stamped(rows[from], since) then from else FirstStamped(rows, since, from + 1)
  }

  /** That sample is skipped when it is a bracketed transition. */
  predicate StraddlesBoundary(rows: seq<Sample>, i: nat)
    requires i < |rows|
  {
    && i > 0 && rows[i].oracle.Some? && rows[i - 1].oracle.Some?
    && rows[i].oracle != rows[i - 1].oracle && rows[i].bracketed
  }

  function AssertedTail(rows: seq<Sample>, since: real): seq<Sample> {
    var i := FirstStamped(rows, since, 0);
    if i == |rows| then []
    else if StraddlesBoundary(rows, i) then rows[i + 1..] else rows[i..]
  }

  /** A bracketed row that changes the last value read: its own two reads may straddle the change. */
  predicate Suspect(rows: seq<Sample>, i: nat)
    requires i <= |rows|
  {
    i < |rows| && rows[i].bracketed && rows[i].oracle.Some?
    && LastReading(rows, i).Some? && LastReading(rows, i) != rows[i].oracle
  }

  /** The asserted tail skips a suspect first row, once, and only if the row before it was read: so a suspect
      row opens the tail exactly behind an unread row, or right behind the skipped one. */
  lemma SuspectOpensAssertedTailIff(rows: seq<Sample>, since: real)
    requires FirstStamped(rows, since, 0) < |rows|
    ensures var i, start := FirstStamped(rows, since, 0), |rows| - |AssertedTail(rows, since)|;
            && 0 <= start && AssertedTail(rows, since) == rows[start..]
            && (Suspect(rows, start) <==>
                  || (Suspect(rows, i) && rows[i - 1].oracle.None?)
                  || (Suspect(rows, i) && rows[i - 1].oracle.Some? && Suspect(rows, i + 1)))
  {
    var i := FirstStamped(rows, since, 0);
    assert i > 0 && rows[i - 1].oracle.Some? ==> LastReading(rows, i) == rows[i - 1].oracle;
    assert StraddlesBoundary(rows, i) <==> Suspect(rows, i) && rows[i - 1].oracle.Some?;
  }

  /** _asserted_window: the WHOLE tail from the boundary has to hold together; a single missing
      reading, oracle move, non-increasing timestamp or gap anywhere in it refutes the assertion and
      leaves no window. */
  method AssertWindow(rows: seq<Sample>, since: real, maxGap: real)
      returns (window: seq<Sample>, provenance: Provenance)
    ensures var tail := AssertedTail(rows, since);
            && (provenance == Asserted <==> |tail| >= 2 && Clean(tail, maxGap))
            && (provenance == Contradicted <==> |tail| >= 2 && !Clean(tail, maxGap))
            && (provenance == Nothing <==> |tail| < 2)
            && window == if provenance == Asserted then tail else []
  {
    var start := 0;
    while start < |rows| && !Stamped(rows[start], since)
      invariant 0 <= start <= |rows| && FirstStamped(rows, since, 0) == FirstStamped(rows, since, start)
    {
      start := start + 1;
    }
    if start == |rows| {
      return [], Nothing;
    }
    if start > 0 && rows[start].oracle.Some? && rows[start - 1].oracle.Some? {
      if rows[start].oracle != rows[start - 1].oracle && rows[start].bracketed {
        start := start + 1;
      }
    }
    var tail := rows[start..];
    assert tail == AssertedTail(rows, since);
    if |tail| < 2 {
      return [], Nothing;
    }
    var clean := CheckTail(tail, maxGap);
    if clean {
      return tail, Asserted;
    }
    return [], Contradicted;
  }

  /** The validation loop, stopping at the first defect. */
  method CheckTail(tail: seq<Sample>, maxGap: real) returns (clean: bool)
    ensures clean <==> Clean(tail, maxGap)
  {
    var expected: Option<string>, prevTs: Option<real> := None, None;
    for k := 0 to |tail|
      invariant Clean(tail[..k], maxGap)
      invariant k == 0 ==> expected.None? && prevTs.None?
      invariant k > 0 ==> expected == tail[k - 1].oracle && prevTs == tail[k - 1].ts
    {
      var row := tail[k];
      if row.ts.None? || row.oracle.None? {
        return false;
      }
      if expected.None? {
        expected := row.oracle;
      } else if row.oracle != expected {
        assert !Joined(tail[k - 1], tail[k], maxGap);
        return false;
      }
      if prevTs.Some? {
        var gap := row.ts.value - prevTs.value;
        if gap <= 0.0 || gap > maxGap {
          assert !Joined(tail[k - 1], tail[k], maxGap);
          return false;
        }
      }
      prevTs := row.ts;
      CleanSnoc(tail, k, maxGap);
    }
    assert tail[..|tail|] == tail;
    return true;
  }

  lemma CleanSnoc(tail: seq<Sample>, k: nat, maxGap: real)
    requires k < |tail| && Clean(tail[..k], maxGap) && Readable(tail[k])
    requires k > 0 ==> Joined(tail[k - 1], tail[k], maxGap)
    ensures Clean(tail[..k + 1], maxGap)
  {
    var before, now := tail[..k], tail[..k + 1];
    forall i | 0 <= i < |now| - 1
      ensures Joined(now[i], now[i + 1], maxGap)
    {
      if i < k - 1 {
        assert Joined(before[i], before[i + 1], maxGap);
      }
    }
    assert forall i :: 0 <= i < k ==> now[i] == before[i];
  }

  // ---------------------------------------------------------------- either way

  /** The window, said without scanning: the run that closes the session if a different value came before it;
      or, behind an asserted boundary, the whole tail if it is clean. */
  ghost function Selected(rows: seq<Sample>, maxGap: real, carriedSince: Option<real>): seq<Sample> {
    match carriedSince
    case Some(since) =>
      var tail := AssertedTail(rows, since);
      if |tail| >= 2 && Clean(tail, maxGap) then tail else []
    case None =>
      if |rows| == 0 || !InRun(rows, |rows| - 1) then []
      else
        var s := RunStart(rows, maxGap, |rows| - 1);
        if FollowedATransition(rows, s) then rows[s..] else []
  }

  /** frozen_window. */
  method SelectWindow(rows: seq<Sample>, intervalS: real, carriedSince: Option<real>)
      returns (window: seq<Sample>, provenance: Provenance)
    ensures carriedSince.None? ==> provenance == Inferred || provenance == Nothing
    ensures carriedSince.Some? ==> provenance != Inferred
    ensures carriedSince.None? && provenance == Inferred ==>
              exists s: nat :: InfersFrom(rows, MaxGap(intervalS), s) && window == rows[s..]
    ensures carriedSince.Some? ==>
              var tail := AssertedTail(rows, carriedSince.value);
              && (provenance == Asserted <==> |tail| >= 2 && Clean(tail, MaxGap(intervalS)))
              && (provenance == Contradicted <==> |tail| >= 2 && !Clean(tail, MaxGap(intervalS)))
              && window == if provenance == Asserted then tail else []
    ensures |window| > 0 ==> provenance == Asserted || provenance == Inferred
    ensures window == Selected(rows, MaxGap(intervalS), carriedSince)
    ensures Clean(window, MaxGap(intervalS))
    ensures exists k :: 0 <= k <= |rows| && window == rows[k..]
  {
    var maxGap := MaxGap(intervalS);
    match carriedSince
    case Some(since) =>
      window, provenance := AssertWindow(rows, since, maxGap);
      assert rows[|rows|..] == [];
      var i := FirstStamped(rows, since, 0);
      assert window == rows[|rows|..] || window == rows[i..] || (i < |rows| && window == rows[i + 1..]);
    case None =>
      window, provenance := InferWindow(rows, maxGap);
      assert rows[|rows|..] == [];
      assert Selected(rows, maxGap, None) != [] ==> InfersFrom(rows, maxGap, RunStart(rows, maxGap, |rows| - 1));
      if provenance == Inferred {
        ghost var s: nat :| InfersFrom(rows, maxGap, s);
        InferredWindowIsSound(rows, maxGap, s);
      }
  }
}
