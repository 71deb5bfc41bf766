/** The fill-completeness sweep in the wallet's own figures (scripts/verify_fill_completeness.py:155-225, 326-371,
    405-549): which records a call checks, what its exit code says of them, and what it lists. */
module SweepLaws {
  import opened Wrappers
  import opened SeqFacts
  import opened Text
  import opened FillSweep

  // ---------------------------------------------------------------- a record

  /** A letter in lower case. */
  ghost predicate IsLower(c: char, low: char) {
    if 'A' <= c <= 'Z' then low as int == c as int + 32 else low == c
  }

  /** An offer's id, in lower case and without one leading 0x. */
  ghost predicate IsId(tradeId: string, id: string) {
    var skip := if |tradeId| >= 2 && tradeId[0] == '0' && (tradeId[1] == 'x' || tradeId[1] == 'X') then 2 else 0;
    |id| == |tradeId| - skip && forall i :: 0 <= i < |id| ==> IsLower(tradeId[i + skip], id[i])
  }

  lemma IdIs(r: Record)
    ensures IsId(r.tradeId, Id(r))
    ensures forall id :: IsId(r.tradeId, id) ==> id == Id(r)
  {
    var low := Lower(r.tradeId);
    assert forall i :: 0 <= i < |low| ==> IsLower(r.tradeId[i], low[i]);
    if |low| >= 2 {
      assert "0x" <= low <==> low[0] == '0' && low[1] == 'x';
    }
    var skip := |r.tradeId| - |Id(r)|;
    assert forall i :: 0 <= i < |Id(r)| ==> Id(r)[i] == low[i + skip];
    forall id | IsId(r.tradeId, id)
      ensures id == Id(r)
    {
      OneId(r.tradeId, id, Id(r));
    }
  }

  lemma OneId(tradeId: string, a: string, b: string)
    requires IsId(tradeId, a) && IsId(tradeId, b)
    ensures a == b
  {
    forall i | 0 <= i < |a|
      ensures a[i] == b[i]
    {
      var c := tradeId[i + |tradeId| - |a|];
      assert IsLower(c, a[i]) && IsLower(c, b[i]);
    }
  }

  /** When an offer was accepted, or if that is not recorded, created. */
  ghost predicate IsTime(r: Record, t: int) {
    t == if r.acceptedAt == 0 then r.createdAt else r.acceptedAt
  }

  /** The lowest height of a window of days below the peak: 4608 blocks a day and a tenth more. */
  ghost predicate IsWindowStart(peak: int, days: real, h: int) {
    var lowest := peak as real - days * 5068.8;
    if lowest < 1.0 then h == 0 else h as real <= lowest < h as real + 1.0
  }

  lemma WindowStartIs(peak: int, days: real)
    ensures IsWindowStart(peak, days, WindowStart(peak, days))
    ensures forall h :: IsWindowStart(peak, days, h) ==> h == WindowStart(peak, days)
  {
    var span := days * BlocksPerDay * HeightMargin;
    assert span == days * 5068.8;
    var blocks := Ceil(span);
    assert span <= blocks as real < span + 1.0;
    assert WindowStart(peak, days) == if blocks >= peak then 0 else peak - blocks;
  }

  /** A confirmed record in the height and day windows the operator gave, and past the grace period. */
  ghost predicate IsChecked(args: Args, w: World, r: Record) {
    && r.confirmed
    && (args.sinceHeight.Some? ==> r.confirmedAt >= args.sinceHeight.value)
    && exists t ::
         && IsTime(r, t)
         && t as real <= w.now - 60.0 * args.graceMinutes
         && (args.sinceDays.Some? ==>
               || t as real >= w.now - 86400.0 * args.sinceDays.value
               || (w.peak.Some? && exists h :: IsWindowStart(w.peak.value, args.sinceDays.value, h) && r.confirmedAt >= h))
  }

  lemma CheckedIff(args: Args, w: World, r: Record)
    requires ScopeOf(args, w).Some?
    ensures Checked(r, ScopeOf(args, w).value) <==> IsChecked(args, w, r)
  {
    assert IsTime(r, Time(r));
    if args.sinceDays.Some? {
      WindowStartIs(w.peak.value, args.sinceDays.value);
      hide WindowStart, IsWindowStart;
    }
  }

  /** A record without a height, in a window of days that starts above genesis, is checked by its time alone. */
  lemma HeightlessIsCheckedByTime(args: Args, w: World, r: Record, t: int)
    requires ScopeOf(args, w).Some? && args.sinceDays.Some? && args.sinceHeight.None?
    requires r.confirmed && r.confirmedAt == 0 && IsTime(r, t)
    requires w.peak.value as real - args.sinceDays.value * 5068.8 >= 1.0
    ensures Checked(r, ScopeOf(args, w).value)
       <==> w.now - 86400.0 * args.sinceDays.value <= t as real <= w.now - 60.0 * args.graceMinutes
  {
    CheckedIff(args, w, r);
  }

  // ---------------------------------------------------------------- the exit code

  /** The call can be answered: database and wallet, and for a window of days a wallet height. */
  lemma ReadyIff(args: Args, w: World)
    ensures Ready(args, w)
       <==> w.db.Some? && w.wallet.Some? && (args.sinceDays.Some? ==> w.peak.Some? && w.peak.value > 0)
  {
  }

  /** A checked record of the first 50,000 that the database does not know; dead says it holds it proven dead. */
  ghost predicate IsUnrecorded(args: Args, w: World, i: nat, dead: bool)
    requires w.db.Some? && w.wallet.Some?
  {
    && i < |w.wallet.value| && i < 50_000 && IsChecked(args, w, w.wallet.value[i])
    && exists id :: && IsId(w.wallet.value[i].tradeId, id)
                    && id !in w.db.value.recorded && (id in w.db.value.dead <==> dead)
  }

  lemma UnrecordedIff(args: Args, w: World, i: nat, dead: bool)
    requires Ready(args, w) && i < |Fetched(w.wallet.value)|
    ensures IsUnrecorded(args, w, i, dead)
       <==> var r := Fetched(w.wallet.value)[i];
            Unrecorded(r, ScopeOf(args, w).value, w.db.value) && (Id(r) in w.db.value.dead <==> dead)
  {
    var r := w.wallet.value[i];
    assert Fetched(w.wallet.value)[i] == r;
    IdIs(r);
    CheckedIff(args, w, r);
    hide Checked, IsChecked, IsId, Id, ScopeOf, Ready;
  }

  /** The exit code of a call: 2 if it cannot be answered, 1 if some record is missing, 3 if under --strict some
      unrecorded one is only excused as dead, 0 otherwise. */
  ghost predicate IsExit(args: Args, w: World, exit: int) {
    if w.db.None? || w.wallet.None? || (args.sinceDays.Some? && (w.peak.None? || w.peak.value <= 0)) then exit == 2
    else if exists i: nat :: IsUnrecorded(args, w, i, false) then exit == 1
    else if args.strict && exists i: nat :: IsUnrecorded(args, w, i, true) then exit == 3
    else exit == 0
  }

  lemma VerifyAnswers(args: Args, w: World)
    ensures IsExit(args, w, ExitOf(args, w))
  {
    ReadyIff(args, w);
    if Ready(args, w) {
      ReadyAnswers(args, w);
    }
  }

  lemma ReadyAnswers(args: Args, w: World)
    requires Ready(args, w)
    ensures IsExit(args, w, Outcome(SweepOf(Fetched(w.wallet.value), ScopeOf(args, w).value, w.db.value), args.strict))
  {
    var rs, s, db := Fetched(w.wallet.value), ScopeOf(args, w).value, w.db.value;
    ReadyIff(args, w);
    ExitCodeMeans(rs, s, db, args.strict);
    forall i: nat, dead: bool | i < |rs|
      ensures IsUnrecorded(args, w, i, dead) <==> Unrecorded(rs[i], s, db) && (Id(rs[i]) in db.dead <==> dead)
    {
      UnrecordedIff(args, w, i, dead);
    }
    forall i: nat, dead: bool | IsUnrecorded(args, w, i, dead)
      ensures i < |rs|
    {
    }
    hide IsUnrecorded, Unrecorded, SweepOf, ScopeOf, Fetched, Id, Ready;
    if r :| r in rs && Unrecorded(r, s, db) && Id(r) !in db.dead {
      var i: nat :| i < |rs| && rs[i] == r;
      assert IsUnrecorded(args, w, i, false);
    }
    if r :| r in rs && Unrecorded(r, s, db) && Id(r) in db.dead {
      var i: nat :| i < |rs| && rs[i] == r;
      assert IsUnrecorded(args, w, i, true);
    }
  }

  // ---------------------------------------------------------------- counts and lists

  /** Where the records of a kind stand. */
  ghost function Places<T(!new)>(xs: seq<T>, kind: T -> bool): set<nat> {
    set i: nat | i < |xs| && kind(xs[i])
  }

  lemma {:induction false} FilterIsCount<T(!new)>(xs: seq<T>, keep: T -> bool, kind: T -> bool)
    requires forall x :: kind(x) <==> keep(x)
    ensures |Filter(xs, keep)| == |Places(xs, kind)|
  {
    if |xs| > 0 {
      var n := |xs| - 1;
      FilterIsCount(xs[..n], keep, kind);
      assert Places(xs, kind) == Places(xs[..n], kind) + if kind(xs[n]) then {n} else {};
      assert n !in Places(xs[..n], kind);
    } else {
      assert Places(xs, kind) == {};
    }
  }

  /** What the counters count: the confirmed records, those in scope that are too fresh to judge, and the checked
      ones, ours and others'. */
  lemma CountersCount(rs: seq<Record>, s: Scope, db: Ledger)
    ensures var res := SweepOf(rs, s, db);
            && res.confirmed == |Places(rs, (r: Record) => r.confirmed)|
            && res.inGrace == |Places(rs, r => InScope(r, s) && !Checked(r, s))|
            && res.makers == |Places(rs, r => Checked(r, s) && r.mine)|
            && res.takers == |Places(rs, r => Checked(r, s) && !r.mine)|
  {
    hide FirstOfEach, SortByTime, Places;
    FilterIsCount(rs, ConfirmedOnes(), (r: Record) => r.confirmed);
    FilterIsCount(rs, GraceOnes(s), r => InScope(r, s) && !Checked(r, s));
    FilterIsCount(rs, CheckedOnes(s, true), r => Checked(r, s) && r.mine);
    FilterIsCount(rs, CheckedOnes(s, false), r => Checked(r, s) && !r.mine);
    hide Filter;
  }

  function AtTime(t: int): Record -> bool {
    r => Time(r) == t
  }

  lemma {:induction false} InsertIsStable(sorted: seq<Record>, r: Record, t: int)
    ensures Filter(Insert(sorted, r), AtTime(t)) == Filter(sorted + [r], AtTime(t))
  {
    if |sorted| > 0 && Time(sorted[|sorted| - 1]) > Time(r) {
      var before, last := sorted[..|sorted| - 1], sorted[|sorted| - 1];
      InsertIsStable(before, r, t);
      assert sorted == before + [last];
      FilterSnoc(Insert(before, r), last, AtTime(t));
      FilterSnoc(before, r, AtTime(t));
      FilterSnoc(before, last, AtTime(t));
      FilterSnoc(sorted, r, AtTime(t));
    }
  }

  /** Records of one time are listed in the order they came. */
  lemma {:induction false} SortIsStable(rs: seq<Record>, t: int)
    ensures Filter(SortByTime(rs), AtTime(t)) == Filter(rs, AtTime(t))
  {
    if |rs| > 0 {
      var before, last := rs[..|rs| - 1], rs[|rs| - 1];
      assert rs == before + [last];
      SortIsStable(before, t);
      InsertIsStable(SortByTime(before), last, t);
      FilterSnoc(SortByTime(before), last, AtTime(t));
      FilterSnoc(before, last, AtTime(t));
    }
  }

  /** The record that speaks for a dead offer: the first one of its id. */
  ghost predicate IsFirstDead(rs: seq<Record>, s: Scope, db: Ledger, i: nat) {
    && i < |rs| && DeadOnes(s, db)(rs[i])
    && forall j :: 0 <= j < i && DeadOnes(s, db)(rs[j]) ==> Id(rs[j]) != Id(rs[i])
  }

  ghost predicate SpeaksFirst(rs: seq<Record>, s: Scope, db: Ledger, r: Record) {
    exists i: nat :: IsFirstDead(rs, s, db, i) && rs[i] == r
  }

  lemma LastIsFirstIff(rs: seq<Record>, s: Scope, db: Ledger)
    requires |rs| > 0
    ensures var n := |rs| - 1;
            IsFirstDead(rs, s, db, n) <==> DeadOnes(s, db)(rs[n]) && Id(rs[n]) !in Ids(Filter(rs[..n], DeadOnes(s, db)))
  {
    var n, keep := |rs| - 1, DeadOnes(s, db);
    var before := rs[..n];
    FilterMembers(before, keep);
    hide Filter, DeadOnes, NormId, Id;
    if Id(rs[n]) in Ids(Filter(before, keep)) {
      var x :| x in Filter(before, keep) && Id(x) == Id(rs[n]);
      var j :| 0 <= j < n && before[j] == x;
      assert keep(rs[j]) && Id(rs[j]) == Id(rs[n]);
    } else {
      forall j | 0 <= j < n && keep(rs[j])
        ensures Id(rs[j]) != Id(rs[n])
      {
        assert before[j] in Filter(before, keep);
      }
    }
  }

  lemma SpeaksSnoc(rs: seq<Record>, s: Scope, db: Ledger, r: Record)
    requires |rs| > 0
    ensures var n := |rs| - 1;
            SpeaksFirst(rs, s, db, r) <==> SpeaksFirst(rs[..n], s, db, r) || (IsFirstDead(rs, s, db, n) && rs[n] == r)
  {
    var n := |rs| - 1;
    var before := rs[..n];
    hide DeadOnes, Id;
    forall i: nat | i < n
      ensures IsFirstDead(rs, s, db, i) <==> IsFirstDead(before, s, db, i)
    {
    }
    assert forall i: nat :: IsFirstDead(before, s, db, i) ==> i < n && before[i] == rs[i];
    assert forall i: nat :: IsFirstDead(rs, s, db, i) ==> i <= n;
    hide IsFirstDead;
    if i: nat :| IsFirstDead(before, s, db, i) && before[i] == r {
      assert IsFirstDead(rs, s, db, i);
    }
    if i: nat :| IsFirstDead(rs, s, db, i) && rs[i] == r {
      assert i == n || IsFirstDead(before, s, db, i);
    }
  }

  lemma {:induction false} FirstDeadIff(rs: seq<Record>, s: Scope, db: Ledger, r: Record)
    ensures r in FirstOfEach(Filter(rs, DeadOnes(s, db))) <==> SpeaksFirst(rs, s, db, r)
  {
    var keep := DeadOnes(s, db);
    if |rs| > 0 {
      var n := |rs| - 1;
      FirstDeadIff(rs[..n], s, db, r);
      LastIsFirstIff(rs, s, db);
      SpeaksSnoc(rs, s, db, r);
      assert rs == rs[..n] + [rs[n]];
      FilterSnoc(rs[..n], rs[n], keep);
      FirstsSnoc(Filter(rs[..n], keep), rs[n]);
      hide *;
    }
  }

  /** The excluded list holds exactly the first record of each dead offer. */
  lemma ExcludedAreFirsts(rs: seq<Record>, s: Scope, db: Ledger, r: Record)
    ensures r in SweepOf(rs, s, db).excluded <==> SpeaksFirst(rs, s, db, r)
  {
    FirstDeadIff(rs, s, db, r);
    SortedHasTheSame(FirstOfEach(Filter(rs, DeadOnes(s, db))), r);
  }
}
