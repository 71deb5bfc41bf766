/** The fill-completeness sweep (scripts/verify_fill_completeness.py:156-158, 184-228, 250-270, 326-371,
    474-549): which confirmed wallet records it checks, how it classifies them, and what its exit code
    proves. Wallet, database and clock are inputs; a missing number of a record is 0, as the source reads it. */
module FillSweep {
  import opened Wrappers
  import opened SeqFacts
  import opened Text

  const PageSize: nat := 200
  const MaxRecords: nat := 50_000
  const BlocksPerDay: real := 4608.0
  const HeightMargin: real := 1.10

  datatype Record = Record(tradeId: string, confirmed: bool, mine: bool,
                           acceptedAt: int, createdAt: int, confirmedAt: int)

  /** _norm_id. */
  function NormId(id: string): string {
    var low := Lower(id);
    if "0x" <= low then low[2..] else low
  }

  function Id(r: Record): string {
    NormId(r.tradeId)
  }

  function Time(r: Record): int {
    if r.acceptedAt != 0 then r.acceptedAt else r.createdAt
  }

  // ---------------------------------------------------------------- scope

  datatype Scope = Scope(sinceHeight: Option<int>, sinceTime: Option<real>, windowHeight: Option<int>,
                         graceCutoff: real)

  predicate InTimeWindow(r: Record, s: Scope) {
    s.sinceTime.None? || Time(r) as real >= s.sinceTime.value
    || (s.windowHeight.Some? && r.confirmedAt >= s.windowHeight.value)
  }

  predicate InScope(r: Record, s: Scope) {
    r.confirmed && (s.sinceHeight.Some? ==> r.confirmedAt >= s.sinceHeight.value) && InTimeWindow(r, s)
  }

  predicate InGrace(r: Record, s: Scope) {
    InScope(r, s) && Time(r) as real > s.graceCutoff
  }

  predicate Checked(r: Record, s: Scope) {
    InScope(r, s) && Time(r) as real <= s.graceCutoff
  }

  /** What the engine's database says, ids normalised. */
  datatype Ledger = Ledger(recorded: set<string>, dead: set<string>)

  predicate Unrecorded(r: Record, s: Scope, db: Ledger) {
    Checked(r, s) && Id(r) !in db.recorded
  }

  function ConfirmedOnes(): Record -> bool {
    (r: Record) => r.confirmed
  }

  function GraceOnes(s: Scope): Record -> bool {
    r => InGrace(r, s)
  }

  function CheckedOnes(s: Scope, mine: bool): Record -> bool {
    r => Checked(r, s) && r.mine == mine
  }

  function MissingOnes(s: Scope, db: Ledger): Record -> bool {
    r => Unrecorded(r, s, db) && Id(r) !in db.dead
  }

  function DeadOnes(s: Scope, db: Ledger): Record -> bool {
    r => Unrecorded(r, s, db) && Id(r) in db.dead
  }

  // ---------------------------------------------------------------- the sweep

  function Ids(rs: seq<Record>): set<string> {
    set r | r in rs :: Id(r)
  }

  /** The first record of each offer. */
  function FirstOfEach(rs: seq<Record>): seq<Record> {
    if |rs| == 0 then []
    else
      var firsts, last := FirstOfEach(rs[..|rs| - 1]), rs[|rs| - 1];
      if Id(last) in Ids(rs[..|rs| - 1]) then firsts else firsts + [last]
  }

  /** Insertion behind every record that is not later: list.sort(key=...) is stable. */
  function Insert(sorted: seq<Record>, r: Record): seq<Record> {
    if |sorted| == 0 || Time(sorted[|sorted| - 1]) <= Time(r) then sorted + [r]
    else Insert(sorted[..|sorted| - 1], r) + [sorted[|sorted| - 1]]
  }

  function SortByTime(rs: seq<Record>): seq<Record> {
    if |rs| == 0 then [] else Insert(SortByTime(rs[..|rs| - 1]), rs[|rs| - 1])
  }

  lemma {:induction false} InsertKeeps(sorted: seq<Record>, r: Record)
    ensures multiset(Insert(sorted, r)) == multiset(sorted) + multiset{r}
  {
    if !(|sorted| == 0 || Time(sorted[|sorted| - 1]) <= Time(r)) {
      InsertKeeps(sorted[..|sorted| - 1], r);
      assert sorted == sorted[..|sorted| - 1] + [sorted[|sorted| - 1]];
    }
  }

  predicate Ordered(rs: seq<Record>) {
    forall i, j :: 0 <= i < j < |rs| ==> Time(rs[i]) <= Time(rs[j])
  }

  lemma {:induction false} InsertOrders(sorted: seq<Record>, r: Record)
    requires Ordered(sorted)
    ensures Ordered(Insert(sorted, r)) && |Insert(sorted, r)| == |sorted| + 1
    ensures forall x :: x in Insert(sorted, r) ==> x in sorted || x == r
  {
    if !(|sorted| == 0 || Time(sorted[|sorted| - 1]) <= Time(r)) {
      var before, last := sorted[..|sorted| - 1], sorted[|sorted| - 1];
      InsertOrders(before, r);
      var front := Insert(before, r);
      forall i | 0 <= i < |front|
        ensures Time(front[i]) <= Time(last)
      {
        assert front[i] in front;
      }
    }
  }

  lemma {:induction false} SortOrders(rs: seq<Record>)
    ensures Ordered(SortByTime(rs))
  {
    if |rs| > 0 {
      SortOrders(rs[..|rs| - 1]);
      InsertOrders(SortByTime(rs[..|rs| - 1]), rs[|rs| - 1]);
    }
  }

  lemma {:induction false} SortPermutes(rs: seq<Record>)
    ensures multiset(SortByTime(rs)) == multiset(rs)
  {
    if |rs| > 0 {
      var before, last := rs[..|rs| - 1], rs[|rs| - 1];
      SortPermutes(before);
      InsertKeeps(SortByTime(before), last);
      assert SortByTime(rs) == Insert(SortByTime(before), last);
      hide *;
      MultisetOfLast(rs);
    }
  }

  /** The report lists are the selected records, oldest first, none lost or doubled. */
  lemma SortByTimeSorts(rs: seq<Record>)
    ensures Ordered(SortByTime(rs)) && multiset(SortByTime(rs)) == multiset(rs)
  {
    SortOrders(rs);
    SortPermutes(rs);
  }

  lemma SortedHasTheSame(rs: seq<Record>, r: Record)
    ensures r in SortByTime(rs) <==> r in rs
  {
    SortByTimeSorts(rs);
    assert r in SortByTime(rs) <==> r in multiset(SortByTime(rs));
    assert r in rs <==> r in multiset(rs);
  }

  datatype SweepResult = SweepResult(confirmed: nat, inGrace: nat, makers: nat, takers: nat,
                                     missing: seq<Record>, excluded: seq<Record>)

  function SweepOf(rs: seq<Record>, s: Scope, db: Ledger): SweepResult {
    SweepResult(|Filter(rs, ConfirmedOnes())|, |Filter(rs, GraceOnes(s))|,
                |Filter(rs, CheckedOnes(s, true))|, |Filter(rs, CheckedOnes(s, false))|,
                SortByTime(Filter(rs, MissingOnes(s, db))),
                SortByTime(FirstOfEach(Filter(rs, DeadOnes(s, db)))))
  }

  /** The sweep's variables after the given records. */
  ghost predicate Swept(rs: seq<Record>, s: Scope, db: Ledger, res: SweepResult, seen: set<string>) {
    && res.confirmed == |Filter(rs, ConfirmedOnes())|
    && res.inGrace == |Filter(rs, GraceOnes(s))|
    && res.makers == |Filter(rs, CheckedOnes(s, true))|
    && res.takers == |Filter(rs, CheckedOnes(s, false))|
    && res.missing == Filter(rs, MissingOnes(s, db))
    && res.excluded == FirstOfEach(Filter(rs, DeadOnes(s, db)))
    && seen == Ids(Filter(rs, DeadOnes(s, db)))
  }

  /** The loop body. */
  method SweepOne(r: Record, s: Scope, db: Ledger, before: SweepResult, seen: set<string>, ghost rs: seq<Record>)
      returns (res: SweepResult, seen': set<string>)
    requires Swept(rs, s, db, before, seen)
    ensures Swept(rs + [r], s, db, res, seen')
  {
    FilterSnoc(rs, r, ConfirmedOnes());
    FilterSnoc(rs, r, GraceOnes(s));
    FilterSnoc(rs, r, CheckedOnes(s, true));
    FilterSnoc(rs, r, CheckedOnes(s, false));
    FilterSnoc(rs, r, MissingOnes(s, db));
    FilterSnoc(rs, r, DeadOnes(s, db));
    FirstsSnoc(Filter(rs, DeadOnes(s, db)), r);
    hide Filter, FirstOfEach, NormId, Ids;
    res, seen' := before, seen;
    if !r.confirmed {
      return;
    }
    res := res.(confirmed := res.confirmed + 1);
    if s.sinceHeight.Some? && r.confirmedAt < s.sinceHeight.value {
      return;
    }
    if !InTimeWindow(r, s) {
      return;
    }
    if Time(r) as real > s.graceCutoff {
      res := res.(inGrace := res.inGrace + 1);
      return;
    }
    if r.mine {
      res := res.(makers := res.makers + 1);
    } else {
      res := res.(takers := res.takers + 1);
    }
    var id := NormId(r.tradeId);
    if id in db.recorded {
      return;
    }
    if id in db.dead {
      if id !in seen' {
        seen' := seen' + {id};
        res := res.(excluded := res.excluded + [r]);
      }
      return;
    }
    res := res.(missing := res.missing + [r]);
  }

  lemma FirstsSnoc(rs: seq<Record>, r: Record)
    ensures FirstOfEach(rs + [r]) == if Id(r) in Ids(rs) then FirstOfEach(rs) else FirstOfEach(rs) + [r]
    ensures Ids(rs + [r]) == Ids(rs) + {Id(r)}
  {
    assert (rs + [r])[..|rs|] == rs;
    hide NormId;
  }

  /** sweep_records. */
  method SweepRecords(rs: seq<Record>, s: Scope, db: Ledger) returns (res: SweepResult)
    ensures res == SweepOf(rs, s, db)
  {
    hide Swept;
    res := SweepResult(0, 0, 0, 0, [], []);
    var seen: set<string> := {};
    SweptNothing(s, db);
    for i := 0 to |rs|
      invariant Swept(rs[..i], s, db, res, seen)
    {
      assert rs[..i + 1] == rs[..i] + [rs[i]];
      res, seen := SweepOne(rs[i], s, db, res, seen, rs[..i]);
    }
    assert rs[..|rs|] == rs;
    SweptMeans(rs, s, db, res, seen);
    res := res.(missing := SortByTime(res.missing), excluded := SortByTime(res.excluded));
  }

  lemma SweptNothing(s: Scope, db: Ledger)
    ensures forall rs: seq<Record> :: |rs| == 0 ==> Swept(rs, s, db, SweepResult(0, 0, 0, 0, [], []), {})
  {
  }

  lemma SweptMeans(rs: seq<Record>, s: Scope, db: Ledger, res: SweepResult, seen: set<string>)
    requires Swept(rs, s, db, res, seen)
    ensures res.(missing := SortByTime(res.missing), excluded := SortByTime(res.excluded)) == SweepOf(rs, s, db)
  {
    hide Filter, FirstOfEach, SortByTime;
  }

  // ---------------------------------------------------------------- every record is accounted for

  lemma {:induction false} FirstsAreOnePerOffer(rs: seq<Record>)
    ensures Ids(FirstOfEach(rs)) == Ids(rs)
    ensures forall r :: r in FirstOfEach(rs) ==> r in rs
    ensures forall i, j :: 0 <= i < j < |FirstOfEach(rs)| ==> Id(FirstOfEach(rs)[i]) != Id(FirstOfEach(rs)[j])
  {
    hide NormId;
    if |rs| > 0 {
      var before, last := rs[..|rs| - 1], rs[|rs| - 1];
      assert rs == before + [last];
      FirstsAreOnePerOffer(before);
      FirstsSnoc(before, last);
      var firsts := FirstOfEach(before);
      forall i | 0 <= i < |firsts| && Id(last) !in Ids(before)
        ensures Id(firsts[i]) != Id(last)
      {
        assert firsts[i] in before;
      }
      if Id(last) !in Ids(before) {
        FirstsSnoc2(firsts, last);
      }
    }
  }

  lemma FirstsSnoc2(firsts: seq<Record>, last: Record)
    ensures Ids(firsts + [last]) == Ids(firsts) + {Id(last)}
  {
    hide NormId;
  }

  predicate OneEntry(entries: seq<Record>, id: string) {
    exists i :: 0 <= i < |entries| && Id(entries[i]) == id
      && forall j :: 0 <= j < |entries| && j != i ==> Id(entries[j]) != id
  }

  /** A sorted list has each offer as often as the unsorted one. */
  lemma SortKeepsOneEntry(rs: seq<Record>, id: string)
    requires id in Ids(rs)
    requires forall i, j :: 0 <= i < j < |rs| ==> Id(rs[i]) != Id(rs[j])
    ensures OneEntry(SortByTime(rs), id)
  {
    hide NormId;
    var sorted := SortByTime(rs);
    SortByTimeSorts(rs);
    hide SortByTime;
    var r :| r in rs && Id(r) == id;
    assert r in multiset(sorted);
    var i :| 0 <= i < |sorted| && sorted[i] == r;
    forall j | 0 <= j < |sorted| && j != i
      ensures Id(sorted[j]) != id
    {
      if Id(sorted[j]) == id {
        assert sorted[j] in multiset(rs);
        assert sorted[j] == r;
        TwiceInSeq(sorted, i, j);
        OnceInSeq(rs, r);
      }
    }
  }

  lemma TwiceInSeq(xs: seq<Record>, i: nat, j: nat)
    requires i < |xs| && j < |xs| && i != j && xs[i] == xs[j]
    ensures multiset(xs)[xs[i]] >= 2
  {
    var a, b := if i < j then i else j, if i < j then j else i;
    assert xs == xs[..b] + xs[b..];
    assert xs[a] in xs[..b];
    assert multiset(xs) == multiset(xs[..b]) + multiset(xs[b..]);
    assert xs[b] in xs[b..];
  }

  lemma {:induction false} OnceInSeq(xs: seq<Record>, x: Record)
    requires forall i, j :: 0 <= i < j < |xs| ==> Id(xs[i]) != Id(xs[j])
    ensures multiset(xs)[x] <= 1
  {
    hide NormId;
    if |xs| > 0 {
      var before, last := xs[..|xs| - 1], xs[|xs| - 1];
      assert xs == before + [last];
      OnceInSeq(before, x);
      if last == x {
        assert x !in before;
      }
    }
  }

  /** A checked record is recorded, or missing, or its offer has exactly one excluded entry; and only
      checked, unrecorded records are missing or excluded. */
  lemma EveryRecordIsAccountedFor(rs: seq<Record>, s: Scope, db: Ledger, r: Record)
    requires r in rs && r.confirmed
    ensures var res := SweepOf(rs, s, db);
            && (r in res.missing <==> Unrecorded(r, s, db) && Id(r) !in db.dead)
            && (r in res.excluded ==> Unrecorded(r, s, db) && Id(r) in db.dead)
            && (Unrecorded(r, s, db) && Id(r) in db.dead ==> OneEntry(res.excluded, Id(r)))
  {
    var missing, dead := Filter(rs, MissingOnes(s, db)), Filter(rs, DeadOnes(s, db));
    FilterMembers(rs, MissingOnes(s, db));
    FilterMembers(rs, DeadOnes(s, db));
    SortedHasTheSame(missing, r);
    FirstsAreOnePerOffer(dead);
    SortedHasTheSame(FirstOfEach(dead), r);
    hide NormId, SortByTime, FirstOfEach, Filter;
    if Unrecorded(r, s, db) && Id(r) in db.dead {
      assert r in dead;
      SortKeepsOneEntry(FirstOfEach(dead), Id(r));
    }
  }

  // ---------------------------------------------------------------- the counts

  predicate IsRecorded(r: Record, s: Scope, db: Ledger) {
    Checked(r, s) && Id(r) in db.recorded
  }

  function RecordedOnes(s: Scope, db: Ledger): Record -> bool {
    r => IsRecorded(r, s, db)
  }

  function OutsideOnes(s: Scope): Record -> bool {
    (r: Record) => r.confirmed && !InScope(r, s)
  }

  /** Nothing is counted twice or dropped: the confirmed records are those out of scope, in grace and
      checked; the checked ones are those recorded, missing and dead. */
  lemma {:induction false} CountsAddUp(rs: seq<Record>, s: Scope, db: Ledger)
    ensures var res := SweepOf(rs, s, db);
            && res.confirmed == |Filter(rs, OutsideOnes(s))| + res.inGrace + res.makers + res.takers
            && res.makers + res.takers
               == |Filter(rs, RecordedOnes(s, db))| + |res.missing| + |Filter(rs, DeadOnes(s, db))|
            && |res.excluded| <= |Filter(rs, DeadOnes(s, db))|
  {
    var missing, dead := Filter(rs, MissingOnes(s, db)), Filter(rs, DeadOnes(s, db));
    SortKeepsLength(missing);
    SortKeepsLength(FirstOfEach(dead));
    FirstsAreFewer(dead);
    hide SortByTime, FirstOfEach;
    FilterCounts(rs, s, db);
  }

  lemma SortKeepsLength(rs: seq<Record>)
    ensures |SortByTime(rs)| == |rs|
  {
    SortByTimeSorts(rs);
    assert |multiset(rs)| == |rs| && |multiset(SortByTime(rs))| == |SortByTime(rs)|;
  }

  lemma {:induction false} FirstsAreFewer(rs: seq<Record>)
    ensures |FirstOfEach(rs)| <= |rs|
  {
    if |rs| > 0 {
      FirstsAreFewer(rs[..|rs| - 1]);
    }
  }

  lemma {:induction false} FilterCounts(rs: seq<Record>, s: Scope, db: Ledger)
    ensures |Filter(rs, ConfirmedOnes())| == |Filter(rs, OutsideOnes(s))| + |Filter(rs, GraceOnes(s))|
                                             + |Filter(rs, CheckedOnes(s, true))| + |Filter(rs, CheckedOnes(s, false))|
    ensures |Filter(rs, CheckedOnes(s, true))| + |Filter(rs, CheckedOnes(s, false))|
         == |Filter(rs, RecordedOnes(s, db))| + |Filter(rs, MissingOnes(s, db))| + |Filter(rs, DeadOnes(s, db))|
  {
    hide NormId;
    if |rs| > 0 {
      FilterCounts(rs[..|rs| - 1], s, db);
    }
  }

  // ---------------------------------------------------------------- the window

  function Ceil(x: real): int {
    -((-x).Floor)
  }

  function MaxInt(a: int, b: int): int {
    if a >= b then a else b
  }

  /** window_start_height. */
  function WindowStart(peak: int, days: real): int {
    MaxInt(0, peak - Ceil(days * BlocksPerDay * HeightMargin))
  }

  /** --since-days N: its scope, from the clock and the wallet's height. */
  function DaysScope(now: real, peak: int, days: real, graceMinutes: real, sinceHeight: Option<int>): Scope {
    Scope(sinceHeight, Some(now - days * 86400.0), Some(WindowStart(peak, days)), now - graceMinutes * 60.0)
  }

  /** Under --since-days N alone every record past grace that confirmed within N days of blocks of the peak
      is checked, however long ago it was posted; a window of more days checks no less. */
  lemma RecentlyConfirmedIsChecked(r: Record, now: real, peak: int, days: real, more: real, grace: real)
    requires days > 0.0 && more >= days
    requires r.confirmed && Time(r) as real <= now - grace * 60.0
    ensures r.confirmedAt > 0 && r.confirmedAt as real >= peak as real - days * BlocksPerDay
        ==> Checked(r, DaysScope(now, peak, days, grace, None))
    ensures Checked(r, DaysScope(now, peak, days, grace, None)) ==> Checked(r, DaysScope(now, peak, more, grace, None))
  {
    var span := days * BlocksPerDay * HeightMargin;
    assert span >= days * BlocksPerDay;
    assert Ceil(span) as real >= span;
    var wider := more * BlocksPerDay * HeightMargin;
    assert wider >= span;
    assert Ceil(wider) >= Ceil(span);
  }

  // ---------------------------------------------------------------- paging

  function MinNat(a: nat, b: nat): nat {
    if a <= b then a else b
  }

  /** One page of the wallet's list. */
  function Page(wallet: seq<Record>, start: nat): seq<Record> {
    if start <= |wallet| then wallet[start..MinNat(start + PageSize, |wallet|)] else []
  }

  function Fetched(wallet: seq<Record>): seq<Record> {
    wallet[..MinNat(MaxRecords, |wallet|)]
  }

  /** fetch_all_trade_records: pages until one is short, but never past the record limit. */
  method FetchAll(wallet: seq<Record>) returns (records: seq<Record>)
    ensures records == Fetched(wallet)
  {
    records := [];
    var start := 0;
    while start < MaxRecords
      invariant start <= MaxRecords && start % PageSize == 0 && start <= |wallet|
      invariant records == wallet[..start]
      decreases MaxRecords - start
    {
      var page := Page(wallet, start);
      records := records + page;
      if |page| < PageSize {
        assert records == wallet;
        break;
      }
      start := start + PageSize;
    }
  }

  // ---------------------------------------------------------------- the verdict

  const ExitPass := 0
  const ExitFail := 1
  const ExitError := 2
  const ExitStrictExcluded := 3

  function Outcome(res: SweepResult, strict: bool): int {
    if |res.missing| > 0 then ExitFail
    else if |res.excluded| > 0 && strict then ExitStrictExcluded
    else ExitPass
  }

  datatype Args = Args(sinceHeight: Option<int>, sinceDays: Option<real>, graceMinutes: real, strict: bool)

  /** None is an operational failure: database, wallet or its height cannot be had. */
  datatype World = World(now: real, db: Option<Ledger>, wallet: Option<seq<Record>>, peak: Option<int>)

  function ScopeOf(args: Args, w: World): Option<Scope> {
    match args.sinceDays
    case None => Some(Scope(args.sinceHeight, None, None, w.now - args.graceMinutes * 60.0))
    case Some(days) =>
      if w.peak.None? || w.peak.value <= 0 then None
      else Some(DaysScope(w.now, w.peak.value, days, args.graceMinutes, args.sinceHeight))
  }

  predicate Ready(args: Args, w: World) {
    w.db.Some? && w.wallet.Some? && ScopeOf(args, w).Some?
  }

  function ExitOf(args: Args, w: World): int {
    if !Ready(args, w) then ExitError
    else Outcome(SweepOf(Fetched(w.wallet.value), ScopeOf(args, w).value, w.db.value), args.strict)
  }

  /** main, after argument parsing. */
  method Verify(args: Args, w: World) returns (exit: int)
    ensures exit == ExitOf(args, w)
  {
    if w.db.None? || w.wallet.None? {
      return ExitError;
    }
    var scope := ScopeOf(args, w);
    if scope.None? {
      return ExitError;
    }
    var records := FetchAll(w.wallet.value);
    var res := SweepRecords(records, scope.value, w.db.value);
    hide SweepOf, Fetched;
    if |res.missing| > 0 {
      return ExitFail;
    }
    if |res.excluded| > 0 && args.strict {
      return ExitStrictExcluded;
    }
    return ExitPass;
  }

  lemma FilterEmptyIff(rs: seq<Record>, keep: Record -> bool)
    ensures |Filter(rs, keep)| == 0 <==> forall r :: r in rs ==> !keep(r)
  {
    FilterMembers(rs, keep);
    if |Filter(rs, keep)| > 0 {
      assert Filter(rs, keep)[0] in Filter(rs, keep);
    }
  }

  lemma FirstsEmptyIff(rs: seq<Record>)
    ensures |FirstOfEach(rs)| == 0 <==> |rs| == 0
  {
    FirstsAreOnePerOffer(rs);
    hide NormId, FirstOfEach;
    if |rs| > 0 {
      assert Id(rs[0]) in Ids(rs);
    }
    if |FirstOfEach(rs)| > 0 {
      assert FirstOfEach(rs)[0] in rs;
    }
  }

  /** What each exit code says of the records fetched. */
  lemma ExitCodeMeans(rs: seq<Record>, s: Scope, db: Ledger, strict: bool)
    ensures var exit := Outcome(SweepOf(rs, s, db), strict);
            && (exit == ExitFail <==> exists r :: r in rs && Unrecorded(r, s, db) && Id(r) !in db.dead)
            && (exit == ExitPass <==>
                  forall r :: r in rs && Unrecorded(r, s, db) ==> Id(r) in db.dead && !strict)
            && exit in {ExitPass, ExitFail, ExitStrictExcluded}
  {
    var missing, dead := Filter(rs, MissingOnes(s, db)), Filter(rs, DeadOnes(s, db));
    FilterEmptyIff(rs, MissingOnes(s, db));
    FilterEmptyIff(rs, DeadOnes(s, db));
    FirstsEmptyIff(dead);
    SortKeepsLength(missing);
    SortKeepsLength(FirstOfEach(dead));
    hide Filter, FirstOfEach, SortByTime, Unrecorded, NormId;
    if |missing| > 0 {
      var r :| r in rs && MissingOnes(s, db)(r);
    }
    if |dead| > 0 {
      var r :| r in rs && DeadOnes(s, db)(r);
    }
  }

  /** Every wallet of this size: a strict pass proves that each record it holds is recorded if it should be. */
  ghost predicate StrictPassIsComplete(n: nat) {
    forall wallet: seq<Record>, s: Scope, db: Ledger ::
      |wallet| == n && Outcome(SweepOf(Fetched(wallet), s, db), true) == ExitPass
      ==> AllRecorded(wallet, s, db)
  }

  ghost predicate AllRecorded(rs: seq<Record>, s: Scope, db: Ledger) {
    forall r :: r in rs ==> !Unrecorded(r, s, db)
  }

  /** The sweep of the full history is complete exactly up to the paging limit. */
  lemma StrictPassIsCompleteIff(n: nat)
    ensures StrictPassIsComplete(n) <==> n <= 50_000
  {
    hide SweepOf, NormId;
    if n <= MaxRecords {
      forall wallet: seq<Record>, s: Scope, db: Ledger |
        |wallet| == n && Outcome(SweepOf(Fetched(wallet), s, db), true) == ExitPass
        ensures AllRecorded(wallet, s, db)
      {
        assert Fetched(wallet) == wallet;
        ExitCodeMeans(wallet, s, db, true);
      }
    } else {
      HiddenRecord(n);
    }
  }

  lemma HiddenRecord(n: nat)
    requires n > MaxRecords
    ensures !StrictPassIsComplete(n)
  {
    var known, unknown := Record("a", true, true, 1, 1, 1), Record("b", true, true, 1, 1, 1);
    assert Id(known) == "a" && Id(unknown) == "b";
    var wallet := seq(n, i => if i < MaxRecords then known else unknown);
    var s, db := Scope(None, None, None, 1.0), Ledger({"a"}, {});
    assert Unrecorded(unknown, s, db);
    hide SweepOf, NormId;
    assert wallet[n - 1] == unknown;
    assert unknown in wallet;
    assert forall r :: r in Fetched(wallet) ==> r == known;
    ExitCodeMeans(Fetched(wallet), s, db, true);
    assert !AllRecorded(wallet, s, db);
  }
}
