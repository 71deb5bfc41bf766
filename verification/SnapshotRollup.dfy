/** One rollup pass of scripts/maintain_snapshot_rollups.py:84-273: the rows a pass reads, the
    streaming group-by over them, and the aggregate each bucket must hold.

    Timestamps are whole seconds, as SQLite's CURRENT_TIMESTAMP stores them; averages are reals. Pair
    names are represented by their rank in SQLite's text order. Rows that tie on the ORDER BY columns
    keep their insertion order. */
module SnapshotRollup {
  import opened Wrappers
  import opened SeqFacts

  // ---------------------------------------------------------------- data

  /** A row of snapshots; the columns that may be NULL are optional. */
  datatype Snapshot = Snapshot(
    pair: nat, height: nat, mid: Option<int>, spread: Option<real>, inventory: Option<real>,
    sigma: Option<real>, regime: Option<string>, pnl: Option<int>, fxRate: Option<real>,
    pnlUsd: Option<real>, createdAt: nat)
  {
    function Mid(): int { mid.GetOr(0) }
    function Spread(): real { spread.GetOr(0.0) }
    function Inventory(): real { inventory.GetOr(0.0) }
    function Sigma(): real { sigma.GetOr(0.0) }
    function Fx(): real { fxRate.GetOr(0.0) }
  }

  datatype Key = Key(pair: nat, bucket: nat)

  /** A row of a rollup table, without its update stamp. */
  datatype Rollup = Rollup(
    open: int, high: int, low: int, close: int,
    avgSpread: real, avgInventory: real, avgSigma: real,
    closeRegime: string, closePnl: int, avgFx: real, closePnlUsd: real,
    samples: nat, firstBlock: nat, lastBlock: nat)

  type Table = map<Key, Rollup>

  /** The bucket sizes of the four rollup tables, in seconds. */
  predicate IsSpec(bs: nat) {
    bs == 60 || bs == 900 || bs == 3600 || bs == 86400
  }

  // ---------------------------------------------------------------- buckets

  /** Seconds into the bucket; spelled out per size so that each is arithmetic with a constant. */
  function Phase(t: nat, bs: nat): (p: nat)
    requires IsSpec(bs)
    ensures p <= t && p < bs
  {
    if bs == 60 then t % 60 else if bs == 900 then t % 900 else if bs == 3600 then t % 3600 else t % 86400
  }

  function BucketOf(t: nat, bs: nat): nat
    requires IsSpec(bs)
  {
    t - Phase(t, bs)
  }

  function KeyOf(r: Snapshot, bs: nat): Key
    requires IsSpec(bs)
  {
    Key(r.pair, BucketOf(r.createdAt, bs))
  }

  /** Row filters, by name so that two uses with the same arguments are the same function. */
  function HasKey(k: Key, bs: nat): Snapshot -> bool
    requires IsSpec(bs)
  {
    (r: Snapshot) => KeyOf(r, bs) == k
  }

  function From(t: nat): Snapshot -> bool {
    (r: Snapshot) => r.createdAt >= t
  }

  lemma BucketMonotone(a: nat, b: nat, bs: nat)
    requires IsSpec(bs) && a <= b
    ensures BucketOf(a, bs) <= BucketOf(b, bs)
  {
    if bs == 60 {
    } else if bs == 900 {
    } else if bs == 3600 {
    } else {
    }
  }

  lemma Boundary60(a: nat)
    ensures (a - a % 60) % 60 == 0
  {
  }

  lemma Boundary900(a: nat)
    ensures (a - a % 900) % 900 == 0
  {
  }

  lemma Boundary3600(a: nat)
    ensures (a - a % 3600) % 3600 == 0
  {
  }

  lemma Boundary86400(a: nat)
    ensures (a - a % 86400) % 86400 == 0
  {
  }

  lemma BucketIdempotent(a: nat, bs: nat)
    requires IsSpec(bs)
    ensures BucketOf(BucketOf(a, bs), bs) == BucketOf(a, bs)
  {
    if bs == 60 {
      Boundary60(a);
    } else if bs == 900 {
      Boundary900(a);
    } else if bs == 3600 {
      Boundary3600(a);
    } else {
      Boundary86400(a);
    }
  }

  /** A lower bound on a bucket boundary separates whole buckets. */
  lemma BoundaryKeepsBuckets(t: nat, bound: nat, bs: nat)
    requires IsSpec(bs) && BucketOf(bound, bs) == bound
    ensures t >= bound <==> BucketOf(t, bs) >= bound
  {
    if t >= bound {
      BucketMonotone(bound, t, bs);
    }
  }

  // ---------------------------------------------------------------- order

  /** ORDER BY pair_name, created_at, block_height. */
  predicate Less(a: Snapshot, b: Snapshot) {
    || a.pair < b.pair
    || (a.pair == b.pair && a.createdAt < b.createdAt)
    || (a.pair == b.pair && a.createdAt == b.createdAt && a.height < b.height)
  }

  predicate Sorted(rows: seq<Snapshot>) {
    forall i, j :: 0 <= i < j < |rows| ==> !Less(rows[j], rows[i])
  }

  function InsertRow(sorted: seq<Snapshot>, r: Snapshot): (out: seq<Snapshot>)
    ensures |out| == |sorted| + 1
  {
    if |sorted| == 0 then [r]
    else
      var front, last := sorted[..|sorted| - 1], sorted[|sorted| - 1];
      if Less(r, last) then InsertRow(front, r) + [last] else sorted + [r]
  }

  function SortRows(rows: seq<Snapshot>): (out: seq<Snapshot>)
    ensures |out| == |rows|
  {
    if |rows| == 0 then [] else InsertRow(SortRows(rows[..|rows| - 1]), rows[|rows| - 1])
  }

  lemma {:induction false} InsertMembers(sorted: seq<Snapshot>, r: Snapshot)
    ensures multiset(InsertRow(sorted, r)) == multiset(sorted) + multiset{r}
  {
    if |sorted| > 0 {
      var front, last := sorted[..|sorted| - 1], sorted[|sorted| - 1];
      assert sorted == front + [last];
      if Less(r, last) {
        InsertMembers(front, r);
      }
    }
  }

  /** Sorting permutes. */
  lemma {:induction false} SortMembers(rows: seq<Snapshot>)
    ensures multiset(SortRows(rows)) == multiset(rows)
  {
    if |rows| > 0 {
      var front, last := rows[..|rows| - 1], rows[|rows| - 1];
      SortMembers(front);
      InsertMembers(SortRows(front), last);
      assert SortRows(rows) == InsertRow(SortRows(front), last);
      hide *;
      MultisetOfLast(rows);
    }
  }

  lemma {:induction false} InsertKeepsSorted(sorted: seq<Snapshot>, r: Snapshot)
    requires Sorted(sorted)
    ensures Sorted(InsertRow(sorted, r))
  {
    if |sorted| > 0 {
      var front, last := sorted[..|sorted| - 1], sorted[|sorted| - 1];
      if Less(r, last) {
        InsertKeepsSorted(front, r);
        InsertMembers(front, r);
        var out := InsertRow(front, r);
        forall i | 0 <= i < |out|
          ensures !Less(last, out[i])
        {
          assert out[i] in multiset(out);
          assert out[i] == r || out[i] in front;
        }
      }
    }
  }

  lemma {:induction false} SortSorts(rows: seq<Snapshot>)
    ensures Sorted(SortRows(rows))
  {
    if |rows| > 0 {
      SortSorts(rows[..|rows| - 1]);
      InsertKeepsSorted(SortRows(rows[..|rows| - 1]), rows[|rows| - 1]);
    }
  }

  lemma {:induction false} FilterInsert(sorted: seq<Snapshot>, r: Snapshot, keep: Snapshot -> bool)
    requires Sorted(sorted)
    ensures Filter(InsertRow(sorted, r), keep)
         == if keep(r) then InsertRow(Filter(sorted, keep), r) else Filter(sorted, keep)
  {
    if |sorted| > 0 {
      var front, last := sorted[..|sorted| - 1], sorted[|sorted| - 1];
      if Less(r, last) {
        FilterInsert(front, r, keep);
        FilterSnoc(InsertRow(front, r), last, keep);
        if keep(r) && keep(last) {
          InsertBefore(Filter(front, keep), last, r);
        }
      } else {
        FilterSnoc(sorted, r, keep);
        FilterMembers(sorted, keep);
        InsertAtEnd(Filter(sorted, keep), r);
      }
    }
  }

  lemma InsertBefore(front: seq<Snapshot>, last: Snapshot, r: Snapshot)
    requires Less(r, last)
    ensures InsertRow(front + [last], r) == InsertRow(front, r) + [last]
  {
    assert (front + [last])[..|front|] == front;
  }

  lemma InsertAtEnd(kept: seq<Snapshot>, r: Snapshot)
    requires forall x :: x in kept ==> !Less(r, x)
    ensures InsertRow(kept, r) == kept + [r]
  {
  }

  /** Sorting and filtering commute: the rows of one bucket come out in the same order whether the
      bucket is cut out of a long sorted history or a short one. */
  lemma {:induction false} FilterSort(rows: seq<Snapshot>, keep: Snapshot -> bool)
    ensures Filter(SortRows(rows), keep) == SortRows(Filter(rows, keep))
  {
    if |rows| > 0 {
      var front, last := rows[..|rows| - 1], rows[|rows| - 1];
      FilterSort(front, keep);
      SortSorts(front);
      FilterInsert(SortRows(front), last, keep);
      if keep(last) {
        SortSnoc(Filter(front, keep), last);
      }
    }
  }

  lemma SortSnoc(rows: seq<Snapshot>, r: Snapshot)
    ensures SortRows(rows + [r]) == InsertRow(SortRows(rows), r)
  {
    assert (rows + [r])[..|rows|] == rows;
  }

  // ---------------------------------------------------------------- the aggregate of a bucket

  function Total(rows: seq<Snapshot>, f: Snapshot -> real): real {
    if |rows| == 0 then 0.0 else Total(rows[..|rows| - 1], f) + f(rows[|rows| - 1])
  }

  function MaxMid(rows: seq<Snapshot>): int
    requires |rows| > 0
  {
    var last := rows[|rows| - 1].Mid();
    if |rows| == 1 then last
    else
      var rest := MaxMid(rows[..|rows| - 1]);
      if rest > last then rest else last
  }

  function MinMid(rows: seq<Snapshot>): int
    requires |rows| > 0
  {
    var last := rows[|rows| - 1].Mid();
    if |rows| == 1 then last
    else
      var rest := MinMid(rows[..|rows| - 1]);
      if rest < last then rest else last
  }

  /** High and low bound every mid of the bucket and are both reached. */
  lemma {:induction false} HighLowMeaning(rows: seq<Snapshot>)
    requires |rows| > 0
    ensures forall r :: r in rows ==> MinMid(rows) <= r.Mid() <= MaxMid(rows)
    ensures exists r :: r in rows && r.Mid() == MaxMid(rows)
    ensures exists r :: r in rows && r.Mid() == MinMid(rows)
  {
    if |rows| > 1 {
      HighLowMeaning(rows[..|rows| - 1]);
    }
  }

  function Priced(): Snapshot -> bool {
    (r: Snapshot) => r.Fx() > 0.0
  }

  function SpreadOf(): Snapshot -> real { (r: Snapshot) => r.Spread() }
  function InventoryOf(): Snapshot -> real { (r: Snapshot) => r.Inventory() }
  function SigmaOf(): Snapshot -> real { (r: Snapshot) => r.Sigma() }
  function FxOf(): Snapshot -> real { (r: Snapshot) => r.Fx() }

  /** What a bucket holds, from its rows in order: open/high/low/close, plain averages, an FX average
      over the rows that carry a rate, and the closing state. */
  function AggOf(rows: seq<Snapshot>): Rollup
    requires |rows| > 0
  {
    var n := |rows| as real;
    var first, last := rows[0], rows[|rows| - 1];
    var priced := Filter(rows, Priced());
    Rollup(first.Mid(), MaxMid(rows), MinMid(rows), last.Mid(),
           Total(rows, SpreadOf()) / n, Total(rows, InventoryOf()) / n, Total(rows, SigmaOf()) / n,
           last.regime.GetOr(""), last.pnl.GetOr(0),
           if |priced| > 0 then Total(priced, FxOf()) / |priced| as real else 0.0,
           last.pnlUsd.GetOr(0.0), |rows|, first.height, last.height)
  }

  function KeysOf(rows: seq<Snapshot>, bs: nat): set<Key>
    requires IsSpec(bs)
  {
    set r | r in rows :: KeyOf(r, bs)
  }

  /** The rows of one bucket, in rollup order. */
  function BucketRows(rows: seq<Snapshot>, bs: nat, k: Key): (out: seq<Snapshot>)
    requires IsSpec(bs)
    ensures k in KeysOf(rows, bs) ==> |out| > 0
  {
    FilterMembers(rows, HasKey(k, bs));
    SortRows(Filter(rows, HasKey(k, bs)))
  }

  /** The table a rollup stands for: every bucket of the given rows, aggregated. */
  function Aggregate(rows: seq<Snapshot>, bs: nat): Table
    requires IsSpec(bs)
  {
    map k | k in KeysOf(rows, bs) :: AggOf(BucketRows(rows, bs, k))
  }

  // ---------------------------------------------------------------- the streaming pass

  /** The running variables of the loop, for the bucket being accumulated. */
  datatype Acc = Acc(open: int, high: int, low: int, close: int, spreadSum: real, invSum: real, sigmaSum: real,
                     fxSum: real, fxCount: nat, samples: nat, closeRegime: string, closePnl: int,
                     closePnlUsd: real, firstBlock: nat, lastBlock: nat)

  function AccOf(rows: seq<Snapshot>): Acc
    requires |rows| > 0
  {
    var first, last := rows[0], rows[|rows| - 1];
    Acc(first.Mid(), MaxMid(rows), MinMid(rows), last.Mid(),
        Total(rows, SpreadOf()), Total(rows, InventoryOf()), Total(rows, SigmaOf()),
        Total(Filter(rows, Priced()), FxOf()), |Filter(rows, Priced())|, |rows|,
        last.regime.GetOr(""), last.pnl.GetOr(0), last.pnlUsd.GetOr(0.0), first.height, last.height)
  }

  lemma TotalSnoc(rows: seq<Snapshot>, r: Snapshot, f: Snapshot -> real)
    ensures Total(rows + [r], f) == Total(rows, f) + f(r)
  {
    assert (rows + [r])[..|rows|] == rows;
  }

  method StartBucket(row: Snapshot) returns (acc: Acc)
    ensures acc == AccOf([row])
  {
    var priced := row.Fx() > 0.0;
    acc := Acc(row.Mid(), row.Mid(), row.Mid(), row.Mid(), row.Spread(), row.Inventory(), row.Sigma(),
               if priced then row.Fx() else 0.0, if priced then 1 else 0, 1,
               row.regime.GetOr(""), row.pnl.GetOr(0), row.pnlUsd.GetOr(0.0), row.height, row.height);
    TotalSnoc([], row, SpreadOf());
    TotalSnoc([], row, InventoryOf());
    TotalSnoc([], row, SigmaOf());
    TotalSnoc([], row, FxOf());
    FilterSnoc([], row, Priced());
    assert [] + [row] == [row];
  }

  lemma HighLowSnoc(rows: seq<Snapshot>, r: Snapshot)
    requires |rows| > 0
    ensures MaxMid(rows + [r]) == if MaxMid(rows) > r.Mid() then MaxMid(rows) else r.Mid()
    ensures MinMid(rows + [r]) == if MinMid(rows) < r.Mid() then MinMid(rows) else r.Mid()
  {
    assert (rows + [r])[..|rows|] == rows;
  }

  method AddRow(acc: Acc, row: Snapshot, ghost rows: seq<Snapshot>) returns (next: Acc)
    requires |rows| > 0 && acc == AccOf(rows)
    ensures next == AccOf(rows + [row])
  {
    hide Total, Filter, MaxMid, MinMid;
    var fxSum, fxCount := acc.fxSum, acc.fxCount;
    if row.Fx() > 0.0 {
      fxSum := fxSum + row.Fx();
      fxCount := fxCount + 1;
    }
    next := acc.(high := if acc.high > row.Mid() then acc.high else row.Mid(),
                 low := if acc.low < row.Mid() then acc.low else row.Mid(),
                 close := row.Mid(),
                 spreadSum := acc.spreadSum + row.Spread(), invSum := acc.invSum + row.Inventory(),
                 sigmaSum := acc.sigmaSum + row.Sigma(), fxSum := fxSum, fxCount := fxCount,
                 samples := acc.samples + 1, closeRegime := row.regime.GetOr(""), closePnl := row.pnl.GetOr(0),
                 closePnlUsd := row.pnlUsd.GetOr(0.0), lastBlock := row.height);
    HighLowSnoc(rows, row);
    TotalSnoc(rows, row, SpreadOf());
    TotalSnoc(rows, row, InventoryOf());
    TotalSnoc(rows, row, SigmaOf());
    FilterSnoc(rows, row, Priced());
    TotalSnoc(Filter(rows, Priced()), row, FxOf());
  }

  function Flushed(acc: Acc): Rollup
    requires acc.samples > 0
  {
    var n := acc.samples as real;
    Rollup(acc.open, acc.high, acc.low, acc.close, acc.spreadSum / n, acc.invSum / n, acc.sigmaSum / n,
           acc.closeRegime, acc.closePnl, if acc.fxCount > 0 then acc.fxSum / acc.fxCount as real else 0.0,
           acc.closePnlUsd, acc.samples, acc.firstBlock, acc.lastBlock)
  }

  predicate KeyLess(a: Key, b: Key) {
    a.pair < b.pair || (a.pair == b.pair && a.bucket < b.bucket)
  }

  lemma SortedKeys(rows: seq<Snapshot>, i: nat, j: nat, bs: nat)
    requires IsSpec(bs) && Sorted(rows) && i <= j < |rows|
    ensures KeyOf(rows[i], bs) == KeyOf(rows[j], bs) || KeyLess(KeyOf(rows[i], bs), KeyOf(rows[j], bs))
  {
    if i < j && rows[i].pair == rows[j].pair {
      BucketMonotone(rows[i].createdAt, rows[j].createdAt, bs);
    }
  }

  /** In sorted rows the rows of a bucket are one contiguous run. */
  lemma RunIsBucket(rows: seq<Snapshot>, s: nat, e: nat, bs: nat, k: Key)
    requires IsSpec(bs) && Sorted(rows) && s < e <= |rows|
    requires forall i :: s <= i < e ==> KeyOf(rows[i], bs) == k
    requires s > 0 ==> KeyOf(rows[s - 1], bs) != k
    requires e < |rows| ==> KeyOf(rows[e], bs) != k
    ensures Filter(rows, HasKey(k, bs)) == rows[s..e]
  {
    hide KeyOf, Less, Filter, Sorted;
    OtherKeysAround(rows, s, e, bs, k);
    FilterStretch(rows, s, e, HasKey(k, bs));
  }

  lemma OtherKeysAround(rows: seq<Snapshot>, s: nat, e: nat, bs: nat, k: Key)
    requires IsSpec(bs) && Sorted(rows) && s < e <= |rows|
    requires KeyOf(rows[s], bs) == KeyOf(rows[e - 1], bs) == k
    requires s > 0 ==> KeyOf(rows[s - 1], bs) != k
    requires e < |rows| ==> KeyOf(rows[e], bs) != k
    ensures forall i :: 0 <= i < s ==> KeyOf(rows[i], bs) != k
    ensures forall i :: e <= i < |rows| ==> KeyOf(rows[i], bs) != k
  {
    hide KeyOf, Less, Sorted;
    forall i | 0 <= i < s
      ensures KeyOf(rows[i], bs) != k
    {
      SortedKeys(rows, i, s - 1, bs);
      SortedKeys(rows, s - 1, s, bs);
    }
    forall i | e <= i < |rows|
      ensures KeyOf(rows[i], bs) != k
    {
      SortedKeys(rows, e, i, bs);
      SortedKeys(rows, e - 1, e, bs);
    }
  }

  lemma FlushIsAggregate(acc: Acc, rows: seq<Snapshot>)
    requires |rows| > 0 && acc == AccOf(rows)
    ensures acc.samples > 0 && Flushed(acc) == AggOf(rows)
  {
  }

  lemma KeysExtend(rows: seq<Snapshot>, s: nat, e: nat, bs: nat, k: Key)
    requires IsSpec(bs) && s < e <= |rows|
    requires forall i :: s <= i < e ==> KeyOf(rows[i], bs) == k
    ensures KeysOf(rows[..e], bs) == KeysOf(rows[..s], bs) + {k}
  {
    hide KeyOf;
    assert rows[s] in rows[..e];
    forall r | r in rows[..e]
      ensures r in rows[..s] || KeyOf(r, bs) == k
    {
      var i :| 0 <= i < e && rows[i] == r;
    }
    forall r | r in rows[..s]
      ensures r in rows[..e]
    {
      var i :| 0 <= i < s && rows[i] == r;
      assert rows[..e][i] == r;
    }
  }

  /** The emitted part of the output: the buckets of the first start rows, each aggregated over all
      its rows, all of them before the current key. */
  ghost predicate Emitted(upserts: map<Key, Rollup>, rows: seq<Snapshot>, start: nat, bs: nat, current: Key)
    requires IsSpec(bs) && start <= |rows|
  {
    && upserts.Keys == KeysOf(rows[..start], bs)
    && forall k :: k in upserts ==>
         && KeyLess(k, current)
         && |Filter(rows, HasKey(k, bs))| > 0
         && upserts[k] == AggOf(Filter(rows, HasKey(k, bs)))
  }

  /** The open run [start, i) of the current key. */
  ghost predicate OpenRun(acc: Acc, rows: seq<Snapshot>, start: nat, i: nat, bs: nat, current: Key)
    requires IsSpec(bs) && i <= |rows|
  {
    && start < i
    && (forall j :: start <= j < i ==> KeyOf(rows[j], bs) == current)
    && (start > 0 ==> KeyOf(rows[start - 1], bs) != current)
    && acc == AccOf(rows[start..i])
  }

  /** Closing the open run emits its bucket. */
  method Flush(upserts: map<Key, Rollup>, current: Key, acc: Acc,
               ghost rows: seq<Snapshot>, ghost start: nat, ghost i: nat, ghost bs: nat)
      returns (next: map<Key, Rollup>)
    requires IsSpec(bs) && Sorted(rows) && i <= |rows| && OpenRun(acc, rows, start, i, bs, current)
    requires Emitted(upserts, rows, start, bs, current)
    requires i < |rows| ==> KeyOf(rows[i], bs) != current
    ensures next.Keys == KeysOf(rows[..i], bs) && |next| == |upserts| + 1
    ensures forall k :: k in next ==>
              && (k == current || KeyLess(k, current))
              && |Filter(rows, HasKey(k, bs))| > 0
              && next[k] == AggOf(Filter(rows, HasKey(k, bs)))
  {
    hide KeyOf, AggOf, Flushed, Less, AccOf, Filter, KeysOf, Sorted;
    RunIsBucket(rows, start, i, bs, current);
    KeysExtend(rows, start, i, bs, current);
    FlushIsAggregate(acc, rows[start..i]);
    next := upserts[current := Flushed(acc)];
    assert next.Keys == upserts.Keys + {current};
  }

  /** The loop body: a row of another bucket closes the open run and opens its own. */
  method TakeRow(before: map<Key, Rollup>, count: nat, open: Key, sums: Acc,
                 rows: seq<Snapshot>, ghost from: nat, i: nat, bs: nat)
      returns (upserts: map<Key, Rollup>, emitted: nat, current: Key, acc: Acc, ghost start: nat)
    requires IsSpec(bs) && Sorted(rows) && from < i < |rows| && count == |before|
    requires OpenRun(sums, rows, from, i, bs, open) && Emitted(before, rows, from, bs, open)
    ensures start < i + 1 && emitted == |upserts|
    ensures OpenRun(acc, rows, start, i + 1, bs, current) && Emitted(upserts, rows, start, bs, current)
  {
    hide AggOf, AccOf, KeyOf, KeysOf, Less, Filter, Sorted, Emitted, OpenRun;
    upserts, emitted, current, acc, start := before, count, open, sums, from;
    var row := rows[i];
    var bucket := KeyOf(row, bs);
    RunHolds(acc, rows, start, i, bs, current);
    if bucket != current {
      upserts := Flush(upserts, current, acc, rows, start, i, bs);
      emitted := emitted + 1;
      EmittedMore(upserts, rows, i, bs, current, bucket, acc, start);
      current := bucket;
      acc := StartBucket(row);
      start := i;
      RunOpens(acc, rows, i, bs);
    } else {
      var next := AddRow(acc, row, rows[start..i]);
      RunGrows(acc, next, rows, start, i, bs, current);
      acc := next;
    }
  }

  /** The streaming group-by: over sorted rows it emits each bucket exactly once, with the aggregate
      of all its rows. */
  method GroupRows(rows: seq<Snapshot>, bs: nat) returns (upserts: map<Key, Rollup>, emitted: nat)
    requires IsSpec(bs) && Sorted(rows)
    ensures upserts.Keys == KeysOf(rows, bs) && emitted == |upserts|
    ensures forall k :: k in upserts ==>
              |Filter(rows, HasKey(k, bs))| > 0 && upserts[k] == AggOf(Filter(rows, HasKey(k, bs)))
  {
    hide AggOf, AccOf, KeyOf, KeysOf, Less, Filter, Sorted, Emitted, OpenRun;
    upserts, emitted := map[], 0;
    if |rows| == 0 {
      NoRowsNoKeys(rows, bs);
      return;
    }
    var current := KeyOf(rows[0], bs);
    var acc := StartBucket(rows[0]);
    ghost var start: nat := 0;
    RunOpens(acc, rows, 0, bs);
    EmittedNothing(rows, bs, current);
    for i := 1 to |rows|
      invariant start < i
      invariant OpenRun(acc, rows, start, i, bs, current)
      invariant Emitted(upserts, rows, start, bs, current)
      invariant emitted == |upserts|
    {
      upserts, emitted, current, acc, start := TakeRow(upserts, emitted, current, acc, rows, start, i, bs);
    }
    upserts := Flush(upserts, current, acc, rows, start, |rows|, bs);
    emitted := emitted + 1;
    assert rows[..|rows|] == rows;
  }

  lemma NoRowsNoKeys(rows: seq<Snapshot>, bs: nat)
    requires IsSpec(bs) && |rows| == 0
    ensures KeysOf(rows, bs) == {}
  {
  }

  lemma RunOpens(acc: Acc, rows: seq<Snapshot>, i: nat, bs: nat)
    requires IsSpec(bs) && i < |rows| && acc == AccOf([rows[i]])
    requires i > 0 ==> KeyOf(rows[i - 1], bs) != KeyOf(rows[i], bs)
    ensures OpenRun(acc, rows, i, i + 1, bs, KeyOf(rows[i], bs))
  {
    hide KeyOf, AccOf;
    assert rows[i..i + 1] == [rows[i]];
  }

  lemma RunHolds(acc: Acc, rows: seq<Snapshot>, start: nat, i: nat, bs: nat, current: Key)
    requires IsSpec(bs) && i <= |rows| && OpenRun(acc, rows, start, i, bs, current)
    ensures start < i && acc == AccOf(rows[start..i]) && KeyOf(rows[i - 1], bs) == current
  {
  }

  lemma RunGrows(acc: Acc, next: Acc, rows: seq<Snapshot>, start: nat, i: nat, bs: nat, current: Key)
    requires IsSpec(bs) && start < i < |rows| && OpenRun(acc, rows, start, i, bs, current)
    requires next == AccOf(rows[start..i] + [rows[i]]) && KeyOf(rows[i], bs) == current
    ensures OpenRun(next, rows, start, i + 1, bs, current)
  {
    hide KeyOf, AccOf;
    assert rows[start..i + 1] == rows[start..i] + [rows[i]];
  }

  lemma EmittedNothing(rows: seq<Snapshot>, bs: nat, current: Key)
    requires IsSpec(bs)
    ensures Emitted(map[], rows, 0, bs, current)
  {
  }

  /** After a flush everything emitted precedes the next key. */
  lemma EmittedMore(next: map<Key, Rollup>, rows: seq<Snapshot>, i: nat, bs: nat, current: Key, bucket: Key,
                    acc: Acc, start: nat)
    requires IsSpec(bs) && Sorted(rows) && i < |rows| && OpenRun(acc, rows, start, i, bs, current)
    requires bucket == KeyOf(rows[i], bs) && bucket != current
    requires next.Keys == KeysOf(rows[..i], bs)
    requires forall k :: k in next ==>
               && (k == current || KeyLess(k, current))
               && |Filter(rows, HasKey(k, bs))| > 0
               && next[k] == AggOf(Filter(rows, HasKey(k, bs)))
    ensures Emitted(next, rows, i, bs, bucket)
  {
    hide KeyOf, AggOf, AccOf, Filter, KeysOf, Less, Sorted;
    SortedKeys(rows, i - 1, i, bs);
  }

  /** Which rows a pass reads back: everything, or everything since one bucket before the newest one
      in the table. */
  function LatestBucket(table: Table): (latest: Option<nat>)
    ensures latest.None? <==> table.Keys == {}
    ensures latest.Some? ==> (exists k :: k in table && k.bucket == latest.value)
    ensures latest.Some? ==> forall k :: k in table ==> k.bucket <= latest.value
  {
    LatestIn(table.Keys)
  }

  ghost predicate IsLatest(keys: set<Key>, b: nat) {
    (exists k :: k in keys && k.bucket == b) && (forall k :: k in keys ==> k.bucket <= b)
  }

  lemma LatestExists(keys: set<Key>) returns (b: nat)
    requires keys != {}
    ensures IsLatest(keys, b)
  {
    var k :| k in keys;
    if keys == {k} {
      b := k.bucket;
    } else {
      var rest := keys - {k};
      b := LatestExists(rest);
      var w :| w in rest && w.bucket == b;
      if k.bucket > b {
        b := k.bucket;
      } else {
        assert w in keys;
      }
    }
  }

  function LatestIn(keys: set<Key>): (latest: Option<nat>)
    ensures latest.None? <==> keys == {}
    ensures latest.Some? ==> IsLatest(keys, latest.value)
  {
    if keys == {} then None
    else
      assert exists b: nat :: IsLatest(keys, b) by {
        var b := LatestExists(keys);
      }
      var buckets := set k | k in keys :: k.bucket;
      assert forall b: nat :: IsLatest(keys, b) ==> b in buckets;
      var b: nat :| b in buckets && forall k :: k in keys ==> k.bucket <= b;
      Some(b)
  }

  function Backtrack(latest: nat, bs: nat): nat {
    if latest >= bs then latest - bs else 0
  }

  function Recent(table: Table, log: seq<Snapshot>, bs: nat): seq<Snapshot> {
    match LatestBucket(table)
    case None => log
    case Some(latest) => Filter(log, From(Backtrack(latest, bs)))
  }

  /** One pass, as a whole: the recent part of the log is aggregated over the old table. */
  function NextTable(table: Table, log: seq<Snapshot>, bs: nat): Table
    requires IsSpec(bs)
  {
    table + Aggregate(Recent(table, log, bs), bs)
  }
}
