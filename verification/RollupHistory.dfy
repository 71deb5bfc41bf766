/** Rollups over a pruned, growing log (scripts/maintain_snapshot_rollups.py:84-91, 298-406, 460-530):
    the maintenance run as it changes the database, and the proof that the incremental tables always
    agree with aggregating the whole history. */
module RollupHistory {
  import opened Wrappers
  import opened SeqFacts
  import opened SnapshotRollup

  const Day: nat := 86400
  const MinRetentionDays: nat := 7

  // ---------------------------------------------------------------- the database

  lemma SortKeepsKeys(rows: seq<Snapshot>, bs: nat)
    requires IsSpec(bs)
    ensures KeysOf(SortRows(rows), bs) == KeysOf(rows, bs)
  {
    SortMembers(rows);
    forall r
      ensures r in SortRows(rows) <==> r in rows
    {
      assert r in SortRows(rows) <==> r in multiset(SortRows(rows));
    }
  }

  /** Streaming over the sorted rows yields the aggregate of the rows. */
  lemma GroupsAreAggregate(rows: seq<Snapshot>, bs: nat, upserts: map<Key, Rollup>)
    requires IsSpec(bs) && upserts.Keys == KeysOf(SortRows(rows), bs)
    requires forall k :: k in upserts ==>
               |Filter(SortRows(rows), HasKey(k, bs))| > 0
               && upserts[k] == AggOf(Filter(SortRows(rows), HasKey(k, bs)))
    ensures upserts == Aggregate(rows, bs)
  {
    hide AggOf, KeyOf;
    SortKeepsKeys(rows, bs);
    forall k | k in upserts
      ensures upserts[k] == Aggregate(rows, bs)[k]
    {
      FilterSort(rows, HasKey(k, bs));
    }
  }

  datatype PruneOutcome = Deleted(snapshots: nat, quotes: nat) | Refused

  predicate TooMany(doomed: nat, total: nat) {
    total > 0 && 4 * doomed > total
  }

  function Older(t: nat): nat -> bool {
    (createdAt: nat) => createdAt < t
  }

  function NotOlder(t: nat): nat -> bool {
    (createdAt: nat) => createdAt >= t
  }

  function SnapshotOlder(t: nat): Snapshot -> bool {
    (r: Snapshot) => r.createdAt < t
  }

  lemma {:induction false} OlderAndNewer(rows: seq<Snapshot>, t: nat)
    ensures |Filter(rows, SnapshotOlder(t))| + |Filter(rows, From(t))| == |rows|
  {
    if |rows| > 0 {
      OlderAndNewer(rows[..|rows| - 1], t);
    }
  }

  lemma {:induction false} OlderAndNewerQuotes(quotes: seq<nat>, t: nat)
    ensures |Filter(quotes, Older(t))| + |Filter(quotes, NotOlder(t))| == |quotes|
  {
    if |quotes| > 0 {
      OlderAndNewerQuotes(quotes[..|quotes| - 1], t);
    }
  }

  predicate AllTables(tables: map<nat, Table>) {
    60 in tables && 900 in tables && 3600 in tables && 86400 in tables
  }

  /** The tables after one maintenance run has rolled all four of them up. */
  function AllRolled(tables: map<nat, Table>, log: seq<Snapshot>): map<nat, Table>
    requires AllTables(tables)
  {
    tables[60 := NextTable(tables[60], log, 60)]
          [900 := NextTable(tables[900], log, 900)]
          [3600 := NextTable(tables[3600], log, 3600)]
          [86400 := NextTable(tables[86400], log, 86400)]
  }

  /** The SELECT of a pass: no WHERE clause on an empty table. */
  method SelectRows(table: Table, snapshots: seq<Snapshot>, bs: nat) returns (selected: seq<Snapshot>)
    ensures selected == Recent(table, snapshots, bs)
  {
    var latest := LatestBucket(table);
    if latest.None? {
      selected := snapshots;
    } else {
      var backtrack := if latest.value >= bs then latest.value - bs else 0;
      selected := Filter(snapshots, From(backtrack));
    }
  }

  method GroupSelected(selected: seq<Snapshot>, bs: nat) returns (upserts: Table, emitted: nat)
    requires IsSpec(bs)
    ensures upserts == Aggregate(selected, bs) && emitted == |KeysOf(selected, bs)|
  {
    hide AggOf, Aggregate, SortRows, KeysOf, Filter, Sorted;
    var rows := SortRows(selected);
    SortSorts(selected);
    var groups, n := GroupRows(rows, bs);
    GroupsAreAggregate(selected, bs, groups);
    SortKeepsKeys(selected, bs);
    upserts, emitted := groups, n;
    assert |groups| == |groups.Keys|;
  }

  class SnapshotDb {
    var snapshots: seq<Snapshot>
    var strategyQuotes: seq<nat>  // creation times
    var tables: map<nat, Table>

    ghost predicate Valid()
      reads this
    {
      AllTables(tables)
    }

    constructor ()
      ensures Valid() && snapshots == [] && strategyQuotes == []
      ensures forall bs :: IsSpec(bs) ==> tables[bs] == map[]
    {
      snapshots, strategyQuotes := [], [];
      tables := map[60 := map[], 900 := map[], 3600 := map[], 86400 := map[]];
    }

    /** _build_rollup: read back from one bucket before the newest, group, upsert. */
    method BuildRollup(bs: nat) returns (sourceRows: nat, upserted: nat)
      requires Valid() && IsSpec(bs)
      modifies this`tables
      ensures Valid()
      ensures tables == old(tables)[bs := NextTable(old(tables)[bs], snapshots, bs)]
      ensures sourceRows == |Recent(old(tables)[bs], snapshots, bs)|
      ensures upserted == |KeysOf(Recent(old(tables)[bs], snapshots, bs), bs)|
    {
      hide AggOf, Aggregate, Recent, KeysOf;
      var selected := SelectRows(tables[bs], snapshots, bs);
      var upserts, emitted := GroupSelected(selected, bs);
      tables := tables[bs := tables[bs] + upserts];
      return |selected|, emitted;
    }

    method BuildAllRollups()
      requires Valid()
      modifies this`tables
      ensures Valid() && tables == AllRolled(old(tables), snapshots)
    {
      hide NextTable, Recent;
      var _, _ := BuildRollup(60);
      var _, _ := BuildRollup(900);
      var _, _ := BuildRollup(3600);
      var _, _ := BuildRollup(86400);
    }

    /** _prune_raw_tables: count first, refuse a bulk deletion nobody confirmed, then delete. */
    method Prune(cutoff: nat, pruneQuotes: bool, confirmLarge: bool) returns (outcome: PruneOutcome)
      modifies this`snapshots, this`strategyQuotes
      ensures outcome.Refused? <==>
                !confirmLarge
                && (TooMany(|Filter(old(snapshots), SnapshotOlder(cutoff))|, |old(snapshots)|)
                    || (pruneQuotes && TooMany(|Filter(old(strategyQuotes), Older(cutoff))|, |old(strategyQuotes)|)))
      ensures outcome.Refused? ==> snapshots == old(snapshots) && strategyQuotes == old(strategyQuotes)
      ensures outcome.Deleted? ==>
                && snapshots == Filter(old(snapshots), From(cutoff))
                && strategyQuotes == (if pruneQuotes then Filter(old(strategyQuotes), NotOlder(cutoff))
                                      else old(strategyQuotes))
                && outcome.snapshots == |old(snapshots)| - |snapshots|
                && outcome.quotes == |old(strategyQuotes)| - |strategyQuotes|
      ensures outcome.Deleted? && !confirmLarge ==>
                && 4 * outcome.snapshots <= |old(snapshots)|
                && 4 * outcome.quotes <= |old(strategyQuotes)|
    {
      OlderAndNewer(snapshots, cutoff);
      OlderAndNewerQuotes(strategyQuotes, cutoff);
      var doomed := |Filter(snapshots, SnapshotOlder(cutoff))|;
      var doomedQuotes := |Filter(strategyQuotes, Older(cutoff))|;
      if !confirmLarge {
        if TooMany(doomed, |snapshots|) || (pruneQuotes && TooMany(doomedQuotes, |strategyQuotes|)) {
          return Refused;
        }
      }
      snapshots := Filter(snapshots, From(cutoff));
      if pruneQuotes {
        strategyQuotes := Filter(strategyQuotes, NotOlder(cutoff));
        return Deleted(doomed, doomedQuotes);
      }
      return Deleted(doomed, 0);
    }

    /** The maintenance run: rollups first and committed, then the prune in a transaction of its own, so
        a refused prune keeps the rollups and leaves the raw tables as they were. */
    method Maintain(now: nat, retentionDays: nat, pruneQuotes: bool, confirmLarge: bool, dryRun: bool)
        returns (exitCode: nat)
      requires Valid()
      modifies this
      ensures Valid()
      ensures exitCode == 2 <==> retentionDays < 7
      ensures exitCode == 2 || dryRun ==>
                snapshots == old(snapshots) && strategyQuotes == old(strategyQuotes) && tables == old(tables)
      ensures exitCode != 2 && !dryRun ==> tables == AllRolled(old(tables), old(snapshots))
      ensures exitCode == 3 <==>
                retentionDays >= MinRetentionDays && !confirmLarge
                && (TooMany(|Filter(old(snapshots), SnapshotOlder(Cutoff(now, retentionDays)))|, |old(snapshots)|)
                    || (pruneQuotes
                        && TooMany(|Filter(old(strategyQuotes), Older(Cutoff(now, retentionDays)))|,
                                   |old(strategyQuotes)|)))
      ensures exitCode == 3 ==> snapshots == old(snapshots) && strategyQuotes == old(strategyQuotes)
      ensures exitCode == 0 && !dryRun ==>
                && snapshots == Filter(old(snapshots), From(Cutoff(now, retentionDays)))
                && strategyQuotes == (if pruneQuotes
                                      then Filter(old(strategyQuotes), NotOlder(Cutoff(now, retentionDays)))
                                      else old(strategyQuotes))
      ensures exitCode == 0 || exitCode == 2 || exitCode == 3
      ensures !dryRun ==> forall s: Store :: HasTables(s) && s.log == old(snapshots) && s.tables == old(tables) ==>
                Maintained(s, exitCode, Cutoff(now, retentionDays), snapshots, tables)
    {
      if retentionDays < MinRetentionDays {
        return 2;
      }
      var savedSnapshots, savedQuotes, savedTables := snapshots, strategyQuotes, tables;
      BuildAllRollups();
      if dryRun {
        tables := savedTables;
      }
      var outcome := Prune(Cutoff(now, retentionDays), pruneQuotes, confirmLarge);
      if dryRun {
        snapshots, strategyQuotes := savedSnapshots, savedQuotes;
      }
      return if outcome.Refused? then 3 else 0;
    }
  }

  function Cutoff(now: nat, retentionDays: nat): nat {
    if now >= retentionDays * Day then now - retentionDays * Day else 0
  }

  // ---------------------------------------------------------------- the history

  /** The engine appends, maintenance rolls up and prunes, in any order. history is everything ever
      appended; rolled says how much of it the tables have seen; low is the largest cutoff that
      deleted anything. */
  datatype Store = Store(history: seq<Snapshot>, log: seq<Snapshot>, tables: map<nat, Table>, rolled: nat, low: nat)

  datatype Event = Append(row: Snapshot) | RollUp | Prune(cutoff: nat)

  ghost predicate HasTables(s: Store) {
    AllTables(s.tables)
  }

  function Next(s: Store, e: Event): Store
    requires HasTables(s)
  {
    match e
    case Append(row) => s.(history := s.history + [row], log := s.log + [row])
    case RollUp => s.(tables := AllRolled(s.tables, s.log), rolled := |s.history|)
    case Prune(cutoff) =>
      s.(log := Filter(s.log, From(cutoff)),
         low := if s.rolled == 0 || cutoff <= s.low then s.low else cutoff)
  }

  /** What a maintenance run makes of a store: nothing on a usage error, a rollup when the prune is refused, and
      otherwise a rollup and then a prune. */
  ghost predicate Maintained(s: Store, exitCode: nat, cutoff: nat, log: seq<Snapshot>, tables: map<nat, Table>)
    requires HasTables(s)
  {
    var rolled := Next(s, RollUp);
    if exitCode == 2 then log == s.log && tables == s.tables
    else if exitCode == 3 then log == rolled.log && tables == rolled.tables
    else log == Next(rolled, Prune(cutoff)).log && tables == Next(rolled, Prune(cutoff)).tables
  }

  /** A row arrives at most a minute (the smallest bucket) behind the newest. */
  ghost predicate Timely(history: seq<Snapshot>, row: Snapshot) {
    forall h :: h in history ==> h.createdAt <= row.createdAt + 60
  }

  /** A cutoff that stays a bucket behind the newest bucket of every table, or deletes nothing while
      nothing has been rolled up. */
  ghost predicate SafeCutoff(s: Store, cutoff: nat) {
    if s.rolled == 0 then forall r :: r in s.log ==> r.createdAt >= cutoff
    else forall bs :: IsSpec(bs) && bs in s.tables && LatestBucket(s.tables[bs]).Some? ==>
           cutoff <= Backtrack(LatestBucket(s.tables[bs]).value, bs)
  }

  ghost predicate Admissible(s: Store, e: Event) {
    match e
    case Append(row) => Timely(s.history, row)
    case RollUp => true
    case Prune(cutoff) => SafeCutoff(s, cutoff)
  }

  function EmptyStore(): Store {
    Store([], [], map[60 := map[], 900 := map[], 3600 := map[], 86400 := map[]], 0, 0)
  }

  function Run(events: seq<Event>): (s: Store)
    ensures HasTables(s)
  {
    if |events| == 0 then EmptyStore() else Next(Run(events[..|events| - 1]), events[|events| - 1])
  }

  ghost predicate AllAdmissible(events: seq<Event>) {
    forall n :: 0 <= n < |events| ==> Admissible(Run(events[..n]), events[n])
  }

  // ---------------------------------------------------------------- the invariant

  ghost predicate AllTimely(history: seq<Snapshot>) {
    forall i, j :: 0 <= i < j < |history| ==> history[i].createdAt <= history[j].createdAt + 60
  }

  /** The table is the aggregate of the rolled-up part of the history, and the log still holds every
      row the next pass will read back. */
  ghost predicate TableInvariant(history: seq<Snapshot>, rolled: nat, low: nat, table: Table, bs: nat)
    requires IsSpec(bs) && rolled <= |history|
  {
    && table == Aggregate(history[..rolled], bs)
    && (LatestBucket(table).Some? ==> low <= Backtrack(LatestBucket(table).value, bs))
  }

  ghost predicate StoreInvariant(s: Store) {
    && HasTables(s)
    && s.rolled <= |s.history|
    && AllTimely(s.history)
    && s.log == Filter(s.history, From(s.low))
    && (s.rolled == 0 ==> s.low == 0)
    && forall bs :: IsSpec(bs) ==> TableInvariant(s.history, s.rolled, s.low, s.tables[bs], bs)
  }

  lemma AggregateKeys(rows: seq<Snapshot>, bs: nat)
    requires IsSpec(bs)
    ensures Aggregate(rows, bs).Keys == KeysOf(rows, bs)
    ensures |rows| == 0 ==> Aggregate(rows, bs) == map[]
  {
    hide AggOf, BucketRows, KeyOf;
  }

  lemma LatestOfAggregate(rows: seq<Snapshot>, bs: nat) returns (newest: Snapshot)
    requires IsSpec(bs) && |rows| > 0
    ensures LatestBucket(Aggregate(rows, bs)).Some?
    ensures newest in rows && BucketOf(newest.createdAt, bs) == LatestBucket(Aggregate(rows, bs)).value
    ensures forall r :: r in rows ==> BucketOf(r.createdAt, bs) <= LatestBucket(Aggregate(rows, bs)).value
  {
    hide Aggregate, BucketOf;
    AggregateKeys(rows, bs);
    var table := Aggregate(rows, bs);
    assert KeyOf(rows[0], bs) in KeysOf(rows, bs);
    assert KeyOf(rows[0], bs) in table;
    var k :| k in table && k.bucket == LatestBucket(table).value;
    newest :| newest in rows && KeyOf(newest, bs) == k;
    forall r | r in rows
      ensures BucketOf(r.createdAt, bs) <= LatestBucket(table).value
    {
      assert KeyOf(r, bs) in table;
    }
  }

  lemma SmallBoundary(latest: nat, bs: nat)
    requires IsSpec(bs) && BucketOf(latest, bs) == latest
    ensures BucketOf(Backtrack(latest, bs), bs) == Backtrack(latest, bs)
  {
    if bs == 60 {
    } else if bs == 900 {
    } else if bs == 3600 {
    } else {
    }
  }

  /** The back-tracked bound falls on a bucket boundary, so it never cuts a bucket in two. */
  lemma BacktrackIsBoundary(rows: seq<Snapshot>, bs: nat)
    requires IsSpec(bs) && |rows| > 0
    ensures LatestBucket(Aggregate(rows, bs)).Some?
    ensures var bound := Backtrack(LatestBucket(Aggregate(rows, bs)).value, bs); BucketOf(bound, bs) == bound
  {
    hide Aggregate;
    var newest := LatestOfAggregate(rows, bs);
    BucketIdempotent(newest.createdAt, bs);
    SmallBoundary(BucketOf(newest.createdAt, bs), bs);
  }

  /** A bucket at or above the bound is re-read whole. */
  lemma BucketReadWhole(history: seq<Snapshot>, bs: nat, bound: nat, k: Key)
    requires IsSpec(bs) && BucketOf(bound, bs) == bound && k.bucket >= bound
    ensures BucketRows(Filter(history, From(bound)), bs, k) == BucketRows(history, bs, k)
    ensures k in KeysOf(Filter(history, From(bound)), bs) <==> k in KeysOf(history, bs)
  {
    hide Filter, SortRows, BucketOf;
    forall r | r in history && HasKey(k, bs)(r)
      ensures From(bound)(r)
    {
      BoundaryKeepsBuckets(r.createdAt, bound, bs);
    }
    FilterImplied(history, From(bound), HasKey(k, bs));
    FilterMembers(history, From(bound));
  }

  /** A bucket below the bound is not read at all, so its table row stays. */
  lemma BucketNotRead(history: seq<Snapshot>, bs: nat, bound: nat, k: Key)
    requires IsSpec(bs) && BucketOf(bound, bs) == bound && k.bucket < bound
    ensures k !in KeysOf(Filter(history, From(bound)), bs)
  {
    hide Filter, BucketOf;
    FilterMembers(history, From(bound));
    forall r | r in Filter(history, From(bound))
      ensures KeyOf(r, bs) != k
    {
      BoundaryKeepsBuckets(r.createdAt, bound, bs);
    }
  }

  /** Rows that arrived after the last pass never fall below the bound: a bucket below it is complete
      in the rolled-up part of the history. */
  lemma OldBucketsAreComplete(history: seq<Snapshot>, rolled: nat, bs: nat, k: Key)
    requires IsSpec(bs) && 0 < rolled <= |history| && AllTimely(history)
    requires LatestBucket(Aggregate(history[..rolled], bs)).Some?
    requires k.bucket < Backtrack(LatestBucket(Aggregate(history[..rolled], bs)).value, bs)
    ensures BucketRows(history, bs, k) == BucketRows(history[..rolled], bs, k)
    ensures k in KeysOf(history, bs) <==> k in KeysOf(history[..rolled], bs)
  {
    hide Aggregate, SortRows, BucketOf;
    var newest := LatestOfAggregate(history[..rolled], bs);
    var i :| 0 <= i < rolled && history[i] == newest;
    var before, after := history[..rolled], history[rolled..];
    BacktrackIsBoundary(before, bs);
    var bound := Backtrack(LatestBucket(Aggregate(before, bs)).value, bs);
    forall r | r in after
      ensures KeyOf(r, bs) != k
    {
      var j :| rolled <= j < |history| && history[j] == r;
      assert newest.createdAt <= r.createdAt + 60;
      BucketStart(newest.createdAt, bs);
      BoundaryKeepsBuckets(r.createdAt, bound, bs);
    }
    assert history == before + after;
    FilterConcat(before, after, HasKey(k, bs));
    FilterNone(after, HasKey(k, bs));
    assert Filter(history, HasKey(k, bs)) == Filter(before, HasKey(k, bs));
    assert forall r :: r in history <==> r in before || r in after;
  }

  lemma BucketStart(t: nat, bs: nat)
    requires IsSpec(bs)
    ensures BucketOf(t, bs) <= t < BucketOf(t, bs) + bs
  {
  }

  /** One pass over the surviving log brings a table from the aggregate of the rolled-up part to the
      aggregate of the full, never-pruned history. */
  lemma PassCatchesUp(history: seq<Snapshot>, log: seq<Snapshot>, rolled: nat, low: nat, table: Table, bs: nat)
    requires IsSpec(bs) && rolled <= |history| && AllTimely(history)
    requires log == Filter(history, From(low)) && (rolled == 0 ==> low == 0)
    requires TableInvariant(history, rolled, low, table, bs)
    ensures NextTable(table, log, bs) == Aggregate(history, bs)
  {
    if rolled == 0 {
      FirstPass(history, log, table, bs);
    } else {
      LaterPass(history, log, rolled, low, table, bs);
    }
  }

  lemma FirstPass(history: seq<Snapshot>, log: seq<Snapshot>, table: Table, bs: nat)
    requires IsSpec(bs) && log == Filter(history, From(0)) && table == Aggregate([], bs)
    ensures NextTable(table, log, bs) == Aggregate(history, bs)
  {
    hide Aggregate, Filter;
    FilterAll(history, From(0));
    AggregateKeys([], bs);
  }

  lemma LaterPass(history: seq<Snapshot>, log: seq<Snapshot>, rolled: nat, low: nat, table: Table, bs: nat)
    requires IsSpec(bs) && 0 < rolled <= |history| && AllTimely(history)
    requires log == Filter(history, From(low)) && TableInvariant(history, rolled, low, table, bs)
    ensures NextTable(table, log, bs) == Aggregate(history, bs)
  {
    hide AggOf, KeysOf, BucketRows, Filter, AllTimely, BucketOf;
    var before := history[..rolled];
    BacktrackIsBoundary(before, bs);
    var bound := Backtrack(LatestBucket(table).value, bs);
    FilterImplied(history, From(low), From(bound));
    var recent := Recent(table, log, bs);
    assert recent == Filter(history, From(bound));
    var next, full := NextTable(table, log, bs), Aggregate(history, bs);
    forall k: Key
      ensures k in next <==> k in full
      ensures k in next && k in full ==> next[k] == full[k]
    {
      KeyCatchesUp(history, rolled, table, bs, bound, k);
    }
  }

  lemma KeyCatchesUp(history: seq<Snapshot>, rolled: nat, table: Table, bs: nat, bound: nat, k: Key)
    requires IsSpec(bs) && 0 < rolled <= |history| && AllTimely(history)
    requires table == Aggregate(history[..rolled], bs) && LatestBucket(table).Some?
    requires bound == Backtrack(LatestBucket(table).value, bs) && BucketOf(bound, bs) == bound
    ensures var next := table + Aggregate(Filter(history, From(bound)), bs);
            && (k in next <==> k in Aggregate(history, bs))
            && (k in next ==> next[k] == Aggregate(history, bs)[k])
  {
    hide AggOf, KeysOf, BucketRows, Filter, AllTimely, BucketOf, KeyOf;
    if k.bucket >= bound {
      BucketReadWhole(history, bs, bound, k);
      PartOfHistory(history, rolled, bs, k);
    } else {
      BucketNotRead(history, bs, bound, k);
      OldBucketsAreComplete(history, rolled, bs, k);
    }
  }

  lemma PartOfHistory(history: seq<Snapshot>, rolled: nat, bs: nat, k: Key)
    requires IsSpec(bs) && rolled <= |history|
    ensures k in KeysOf(history[..rolled], bs) ==> k in KeysOf(history, bs)
  {
    assert forall r :: r in history[..rolled] ==> r in history;
  }

  // ---------------------------------------------------------------- over every run

  lemma RollUpKeepsInvariant(s: Store)
    requires StoreInvariant(s)
    ensures StoreInvariant(Next(s, RollUp))
    ensures forall bs :: IsSpec(bs) ==> Next(s, RollUp).tables[bs] == Aggregate(s.history, bs)
  {
    hide Aggregate, Filter, NextTable, AllTimely;
    forall bs | IsSpec(bs)
      ensures NextTable(s.tables[bs], s.log, bs) == Aggregate(s.history, bs)
      ensures LatestBucket(Aggregate(s.history, bs)).Some? ==>
                s.low <= Backtrack(LatestBucket(Aggregate(s.history, bs)).value, bs)
    {
      PassCatchesUp(s.history, s.log, s.rolled, s.low, s.tables[bs], bs);
      LatestOnlyGrows(s.history, s.rolled, s.low, s.tables[bs], bs);
    }
    assert s.history[..|s.history|] == s.history;
  }

  lemma LatestOnlyGrows(history: seq<Snapshot>, rolled: nat, low: nat, table: Table, bs: nat)
    requires IsSpec(bs) && rolled <= |history| && TableInvariant(history, rolled, low, table, bs)
    requires rolled == 0 ==> low == 0
    ensures LatestBucket(Aggregate(history, bs)).Some? ==>
              low <= Backtrack(LatestBucket(Aggregate(history, bs)).value, bs)
  {
    hide Aggregate, BucketOf;
    if rolled > 0 {
      var earlier := LatestOfAggregate(history[..rolled], bs);
      assert earlier in history;
      var _ := LatestOfAggregate(history, bs);
    }
  }

  lemma AppendKeepsInvariant(s: Store, row: Snapshot)
    requires StoreInvariant(s) && Timely(s.history, row)
    ensures StoreInvariant(Next(s, Append(row)))
  {
    hide Aggregate, Filter;
    var history := s.history + [row];
    assert history[..s.rolled] == s.history[..s.rolled];
    FilterSnoc(s.history, row, From(s.low));
    if s.rolled > 0 {
      assert TableInvariant(s.history, s.rolled, s.low, s.tables[60], 60);
      var newest := LatestOfAggregate(s.history[..s.rolled], 60);
      assert newest in s.history;
      BucketStart(newest.createdAt, 60);
    }
    forall bs | IsSpec(bs)
      ensures TableInvariant(history, s.rolled, s.low, s.tables[bs], bs)
    {
      assert TableInvariant(s.history, s.rolled, s.low, s.tables[bs], bs);
    }
  }

  lemma PruneKeepsInvariant(s: Store, cutoff: nat)
    requires StoreInvariant(s) && SafeCutoff(s, cutoff)
    ensures StoreInvariant(Next(s, Prune(cutoff)))
  {
    hide Aggregate, Filter;
    var low := Next(s, Prune(cutoff)).low;
    if s.rolled == 0 {
      FilterAll(s.log, From(cutoff));
    } else if cutoff <= s.low {
      FilterMembers(s.history, From(s.low));
      FilterAll(s.log, From(cutoff));
    } else {
      FilterImplied(s.history, From(s.low), From(cutoff));
    }
    forall bs | IsSpec(bs)
      ensures TableInvariant(s.history, s.rolled, low, s.tables[bs], bs)
    {
      assert TableInvariant(s.history, s.rolled, s.low, s.tables[bs], bs);
    }
  }

  lemma PrefixIsAdmissible(events: seq<Event>, k: nat)
    requires k <= |events| && AllAdmissible(events)
    ensures AllAdmissible(events[..k])
  {
    hide Admissible, Run;
    var before := events[..k];
    forall n | 0 <= n < k
      ensures Admissible(Run(before[..n]), before[n])
    {
      assert before[..n] == events[..n];
    }
  }

  lemma {:induction false} RunKeepsInvariant(events: seq<Event>)
    requires AllAdmissible(events)
    ensures StoreInvariant(Run(events))
  {
    hide Aggregate, Filter, AllRolled;
    if |events| == 0 {
      EmptyKeepsInvariant();
    } else {
      var before, e := events[..|events| - 1], events[|events| - 1];
      PrefixIsAdmissible(events, |before|);
      RunKeepsInvariant(before);
      match e
      case Append(row) => AppendKeepsInvariant(Run(before), row);
      case RollUp => RollUpKeepsInvariant(Run(before));
      case Prune(cutoff) => PruneKeepsInvariant(Run(before), cutoff);
    }
  }

  lemma EmptyKeepsInvariant()
    ensures StoreInvariant(EmptyStore())
  {
    forall bs | IsSpec(bs)
      ensures TableInvariant([], 0, 0, map[], bs)
    {
      assert Aggregate([], bs) == map[];
    }
  }

  /** The cache is exact: after any interleaving of timely appends, rollups and safe prunes that ends
      in a rollup, each of the four tables equals the aggregate of everything ever appended, pruned
      rows included. */
  lemma RollupsAggregateFullHistory(events: seq<Event>)
    requires |events| > 0 && AllAdmissible(events) && events[|events| - 1] == RollUp
    ensures forall bs :: IsSpec(bs) ==> Run(events).tables[bs] == Aggregate(Run(events).history, bs)
  {
    hide Aggregate, Filter, AllRolled, StoreInvariant, Admissible, TableInvariant, AllTables, EmptyStore;
    var before := events[..|events| - 1];
    PrefixIsAdmissible(events, |before|);
    RunKeepsInvariant(before);
    RollUpKeepsInvariant(Run(before));
  }

  /** A prune is safe whenever the newest rolled-up snapshot is younger than the retention window less
      two of the largest buckets. */
  lemma YoungEnoughIsSafe(s: Store, cutoff: nat, newest: Snapshot)
    requires StoreInvariant(s) && newest in s.history[..s.rolled]
    requires newest.createdAt + 1 >= cutoff + 2 * 86400
    ensures SafeCutoff(s, cutoff)
  {
    hide Aggregate, Filter;
    forall bs | IsSpec(bs) && LatestBucket(s.tables[bs]).Some?
      ensures cutoff <= Backtrack(LatestBucket(s.tables[bs]).value, bs)
    {
      assert TableInvariant(s.history, s.rolled, s.low, s.tables[bs], bs);
      var _ := LatestOfAggregate(s.history[..s.rolled], bs);
      BucketStart(newest.createdAt, bs);
    }
  }

  /** A prune while the newest rolled-up snapshot is younger than the retention window less two of the largest
      buckets, or of nothing while nothing is rolled up; appends are timely. */
  ghost predicate Young(s: Store, e: Event) {
    match e
    case Append(row) => Timely(s.history, row)
    case RollUp => true
    case Prune(cutoff) =>
      if s.rolled == 0 then forall r :: r in s.log ==> r.createdAt >= cutoff
      else s.rolled <= |s.history| && exists newest :: newest in s.history[..s.rolled] && newest.createdAt + 1 >= cutoff + 2 * 86400
  }

  ghost predicate AllYoung(events: seq<Event>) {
    forall n :: 0 <= n < |events| ==> Young(Run(events[..n]), events[n])
  }

  lemma YoungIsAdmissible(s: Store, e: Event)
    requires StoreInvariant(s) && Young(s, e)
    ensures Admissible(s, e)
  {
    hide StoreInvariant;
    if e.Prune? && s.rolled > 0 {
      var newest :| newest in s.history[..s.rolled] && newest.createdAt + 1 >= e.cutoff + 2 * 86400;
      YoungEnoughIsSafe(s, e.cutoff, newest);
    }
  }

  lemma {:induction false} YoungRunIsAdmissible(events: seq<Event>)
    requires AllYoung(events)
    ensures AllAdmissible(events)
    decreases |events|
  {
    hide Run, Young, Admissible, StoreInvariant;
    forall n | 0 <= n < |events|
      ensures Admissible(Run(events[..n]), events[n])
    {
      YoungPrefix(events, n);
      YoungRunIsAdmissible(events[..n]);
      RunKeepsInvariant(events[..n]);
      YoungIsAdmissible(Run(events[..n]), events[n]);
    }
  }

  lemma YoungPrefix(events: seq<Event>, k: nat)
    requires k <= |events| && AllYoung(events)
    ensures AllYoung(events[..k])
  {
    hide Young, Run;
    var before := events[..k];
    forall n | 0 <= n < k
      ensures Young(Run(before[..n]), before[n])
    {
      assert before[..n] == events[..n];
    }
  }

  /** The whole promise, over whole runs: timely appends, rollups and prunes that each happen while the newest
      rolled-up snapshot is young enough leave every table, after a rollup, equal to the aggregate of
      everything ever appended. */
  lemma YoungRunsAggregateFullHistory(events: seq<Event>)
    requires |events| > 0 && AllYoung(events) && events[|events| - 1] == RollUp
    ensures forall bs :: IsSpec(bs) ==> Run(events).tables[bs] == Aggregate(Run(events).history, bs)
  {
    hide AllYoung, AllAdmissible, Run, Aggregate;
    YoungRunIsAdmissible(events);
    RollupsAggregateFullHistory(events);
  }

  // ---------------------------------------------------------------- exactly when it can go wrong

  /** Some bucket the next pass would re-read has rows on both sides of the cutoff. */
  ghost predicate Straddles(history: seq<Snapshot>, bs: nat, bound: nat, cutoff: nat)
    requires IsSpec(bs)
  {
    exists gone, kept ::
      && gone in history && kept in history && KeyOf(gone, bs) == KeyOf(kept, bs)
      && KeyOf(gone, bs).bucket >= bound
      && gone.createdAt < cutoff <= kept.createdAt
  }

  /** The read-back bound of a table that is up to date with a history. */
  function ReadBound(history: seq<Snapshot>, bs: nat): nat
    requires IsSpec(bs)
  {
    match LatestBucket(Aggregate(history, bs))
    case None => 0
    case Some(latest) => Backtrack(latest, bs)
  }

  /** For ANY cutoff: a pass after the prune leaves an up-to-date table exact if and only if the cutoff
      does not cut through a bucket the pass re-reads. Fully pruned buckets are harmless; a partly
      pruned one is rebuilt from its remnant and silently loses samples. */
  lemma PruneIsHarmlessIff(history: seq<Snapshot>, bs: nat, cutoff: nat)
    requires IsSpec(bs) && |history| > 0
    ensures NextTable(Aggregate(history, bs), Filter(history, From(cutoff)), bs) == Aggregate(history, bs)
       <==> !Straddles(history, bs, ReadBound(history, bs), cutoff)
  {
    hide AggOf, KeysOf, BucketRows, Filter, BucketOf, KeyOf, Straddles;
    var table, log, bound := Aggregate(history, bs), Filter(history, From(cutoff)), ReadBound(history, bs);
    BacktrackIsBoundary(history, bs);
    var recent := Recent(table, log, bs);
    assert recent == Filter(log, From(bound));
    forall k: Key
      ensures k in Aggregate(recent, bs) ==> k in table
      ensures !Straddles(history, bs, bound, cutoff) ==> k in Aggregate(recent, bs) ==>
                Aggregate(recent, bs)[k] == table[k]
    {
      if k in KeysOf(recent, bs) {
        RereadBucket(history, bs, bound, cutoff, k);
      }
    }
    var next := table + Aggregate(recent, bs);
    if Straddles(history, bs, bound, cutoff) {
      var k := StraddledBucketShrinks(history, bs, bound, cutoff);
      assert next[k] != table[k];
    } else {
      assert forall k :: k in next <==> k in table;
      assert next == table;
    }
  }

  /** It happens: a prune through the day of the only two rows, and the day's entry loses the first. */
  lemma StraddlingPruneLoses()
    ensures var row := (t: nat) => Snapshot(0, 1, None, None, None, None, None, None, None, None, t);
            var history := [row(864000), row(864100)];
            Straddles(history, 86400, ReadBound(history, 86400), 864050)
            && NextTable(Aggregate(history, 86400), Filter(history, From(864050)), 86400) != Aggregate(history, 86400)
  {
    var row := (t: nat) => Snapshot(0, 1, None, None, None, None, None, None, None, None, t);
    var history := [row(864000), row(864100)];
    var gone, kept := history[0], history[1];
    assert gone in history && kept in history;
    assert KeyOf(gone, 86400) == KeyOf(kept, 86400) == Key(0, 864000);
    OneBucketIsReread(history, 86400, 864000);
    hide Aggregate, NextTable, Filter, KeyOf, BucketOf, ReadBound;
    assert Straddles(history, 86400, ReadBound(history, 86400), 864050);
    PruneIsHarmlessIff(history, 86400, 864050);
  }

  /** A history within one bucket is read back as a whole. */
  lemma OneBucketIsReread(history: seq<Snapshot>, bs: nat, bucket: nat)
    requires IsSpec(bs) && |history| > 0 && forall r :: r in history ==> BucketOf(r.createdAt, bs) == bucket
    ensures ReadBound(history, bs) <= bucket
  {
    hide *;
    var newest := LatestOfAggregate(history, bs);
    BoundIsBehind(history, bs);
  }

  lemma BoundIsBehind(history: seq<Snapshot>, bs: nat)
    requires IsSpec(bs) && LatestBucket(Aggregate(history, bs)).Some?
    ensures ReadBound(history, bs) <= LatestBucket(Aggregate(history, bs)).value
  {
    hide Aggregate, LatestBucket;
  }

  /** A re-read bucket that does not straddle the cutoff comes back whole. */
  lemma RereadBucket(history: seq<Snapshot>, bs: nat, bound: nat, cutoff: nat, k: Key)
    requires IsSpec(bs) && BucketOf(bound, bs) == bound
    requires k in KeysOf(Filter(Filter(history, From(cutoff)), From(bound)), bs)
    ensures k in KeysOf(history, bs)
    ensures !Straddles(history, bs, bound, cutoff) ==>
              BucketRows(Filter(Filter(history, From(cutoff)), From(bound)), bs, k) == BucketRows(history, bs, k)
  {
    hide Filter, SortRows, BucketOf;
    var log := Filter(history, From(cutoff));
    var recent := Filter(log, From(bound));
    FilterMembers(history, From(cutoff));
    FilterMembers(log, From(bound));
    var kept :| kept in recent && KeyOf(kept, bs) == k;
    BoundaryKeepsBuckets(kept.createdAt, bound, bs);
    if !Straddles(history, bs, bound, cutoff) {
      forall r | r in history && HasKey(k, bs)(r)
        ensures From(cutoff)(r)
      {
      }
      FilterImplied(history, From(cutoff), HasKey(k, bs));
      BucketReadWhole(log, bs, bound, k);
    }
  }

  /** A straddled bucket is re-aggregated from strictly fewer samples. */
  lemma StraddledBucketShrinks(history: seq<Snapshot>, bs: nat, bound: nat, cutoff: nat) returns (k: Key)
    requires IsSpec(bs) && BucketOf(bound, bs) == bound && Straddles(history, bs, bound, cutoff)
    ensures var recent := Filter(Filter(history, From(cutoff)), From(bound));
            && k in KeysOf(recent, bs) && k in KeysOf(history, bs)
            && Aggregate(recent, bs)[k].samples < Aggregate(history, bs)[k].samples
  {
    hide Filter, SortRows, BucketOf, Total, MaxMid, MinMid;
    var gone, kept :|
      && gone in history && kept in history && KeyOf(gone, bs) == KeyOf(kept, bs)
      && KeyOf(gone, bs).bucket >= bound && gone.createdAt < cutoff <= kept.createdAt;
    k := KeyOf(gone, bs);
    var log := Filter(history, From(cutoff));
    FilterMembers(history, From(cutoff));
    FilterMembers(log, From(bound));
    BoundaryKeepsBuckets(kept.createdAt, bound, bs);
    BucketReadWhole(log, bs, bound, k);
    FilterShrinks(history, From(cutoff), HasKey(k, bs), gone);
  }

  /** And for ANY late row: a pass picks it up if and only if it is not older than the read-back bound,
      that is, at most one bucket behind the newest. */
  lemma LateRowIsPickedUpIff(history: seq<Snapshot>, row: Snapshot, bs: nat)
    requires IsSpec(bs) && |history| > 0
    ensures NextTable(Aggregate(history, bs), history + [row], bs) == Aggregate(history + [row], bs)
       <==> row.createdAt >= ReadBound(history, bs)
  {
    hide AggOf, KeysOf, BucketRows, Filter, BucketOf, KeyOf;
    var table, all, bound := Aggregate(history, bs), history + [row], ReadBound(history, bs);
    BacktrackIsBoundary(history, bs);
    var recent := Filter(all, From(bound));
    var next, full := NextTable(table, all, bs), Aggregate(all, bs);
    assert next == table + Aggregate(recent, bs);
    if row.createdAt >= bound {
      forall k: Key
        ensures k in next <==> k in full
        ensures k in next && k in full ==> next[k] == full[k]
      {
        LateRowKey(history, row, bs, bound, k);
      }
    } else {
      LateRowMissed(history, row, bs, bound);
    }
  }

  lemma LateRowKey(history: seq<Snapshot>, row: Snapshot, bs: nat, bound: nat, k: Key)
    requires IsSpec(bs) && BucketOf(bound, bs) == bound && row.createdAt >= bound
    ensures var next := Aggregate(history, bs) + Aggregate(Filter(history + [row], From(bound)), bs);
            && (k in next <==> k in Aggregate(history + [row], bs))
            && (k in next ==> next[k] == Aggregate(history + [row], bs)[k])
  {
    hide AggOf, SortRows, Filter, BucketOf;
    var all := history + [row];
    assert forall r :: r in all <==> r in history || r == row;
    BoundaryKeepsBuckets(row.createdAt, bound, bs);
    if k.bucket >= bound {
      BucketReadWhole(all, bs, bound, k);
    } else {
      BucketNotRead(all, bs, bound, k);
      FilterSnoc(history, row, HasKey(k, bs));
    }
  }

  lemma LateRowMissed(history: seq<Snapshot>, row: Snapshot, bs: nat, bound: nat)
    requires IsSpec(bs) && BucketOf(bound, bs) == bound && row.createdAt < bound
    ensures var next := Aggregate(history, bs) + Aggregate(Filter(history + [row], From(bound)), bs);
            next != Aggregate(history + [row], bs)
  {
    hide SortRows, Filter, BucketOf, Total, MaxMid, MinMid;
    var all, k := history + [row], KeyOf(row, bs);
    assert row in all;
    BoundaryKeepsBuckets(row.createdAt, bound, bs);
    BucketNotRead(all, bs, bound, k);
    FilterSnoc(history, row, HasKey(k, bs));
    var next, full := Aggregate(history, bs) + Aggregate(Filter(all, From(bound)), bs), Aggregate(all, bs);
    assert k in full;
    if k in next {
      assert next[k].samples < full[k].samples;
    }
  }
}
