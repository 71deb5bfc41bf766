/** What an entry of a rollup table says of the snapshots it stands for
    (scripts/maintain_snapshot_rollups.py:94-273), stated without sorting or streaming. */
module RollupEntries {
  import opened Wrappers
  import opened SeqFacts
  import opened SnapshotRollup

  lemma {:induction false} TotalOfInsert(sorted: seq<Snapshot>, r: Snapshot, f: Snapshot -> real)
    ensures Total(InsertRow(sorted, r), f) == Total(sorted, f) + f(r)
  {
    if |sorted| == 0 {
      assert [r][..0] == [];
    } else {
      var front, last := sorted[..|sorted| - 1], sorted[|sorted| - 1];
      if Less(r, last) {
        TotalOfInsert(front, r, f);
        TotalSnoc(InsertRow(front, r), last, f);
      } else {
        TotalSnoc(sorted, r, f);
      }
    }
  }

  lemma {:induction false} TotalOfSorted(rows: seq<Snapshot>, f: Snapshot -> real)
    ensures Total(SortRows(rows), f) == Total(rows, f)
  {
    if |rows| > 0 {
      TotalOfSorted(rows[..|rows| - 1], f);
      TotalOfInsert(SortRows(rows[..|rows| - 1]), rows[|rows| - 1], f);
    }
  }

  /** A first and a last row of a bucket: by time, and by block height within one second. */
  ghost predicate FirstOf(rows: seq<Snapshot>, r: Snapshot) {
    r in rows && forall x :: x in rows ==>
      r.createdAt < x.createdAt || (r.createdAt == x.createdAt && r.height <= x.height)
  }

  ghost predicate LastOf(rows: seq<Snapshot>, r: Snapshot) {
    r in rows && forall x :: x in rows ==>
      x.createdAt < r.createdAt || (x.createdAt == r.createdAt && x.height <= r.height)
  }

  ghost predicate OnePair(rows: seq<Snapshot>) {
    forall x, y :: x in rows && y in rows ==> x.pair == y.pair
  }

  ghost predicate Opens(e: Rollup, rows: seq<Snapshot>) {
    exists r :: FirstOf(rows, r) && e.open == r.mid.GetOr(0) && e.firstBlock == r.height
  }

  ghost predicate Closes(e: Rollup, rows: seq<Snapshot>) {
    exists r :: LastOf(rows, r) && e.close == r.mid.GetOr(0) && e.lastBlock == r.height && e.closePnl == r.pnl.GetOr(0)
                && e.closePnlUsd == r.pnlUsd.GetOr(0.0) && e.closeRegime == r.regime.GetOr("")
  }

  ghost predicate Spans(e: Rollup, rows: seq<Snapshot>) {
    && (forall r :: r in rows ==> e.low <= r.mid.GetOr(0) <= e.high)
    && (exists r :: r in rows && r.mid.GetOr(0) == e.high)
    && (exists r :: r in rows && r.mid.GetOr(0) == e.low)
  }

  function SumOf(xs: seq<real>): real {
    if |xs| == 0 then 0.0 else SumOf(xs[..|xs| - 1]) + xs[|xs| - 1]
  }

  /** A mean over the rows; NULL counts as zero. */
  ghost predicate MeanOf(mean: real, xs: seq<real>) {
    IsMean(mean, SumOf(xs), |xs|)
  }

  /** The rates that were recorded, in order. */
  function Rates(rows: seq<Snapshot>): seq<real> {
    if |rows| == 0 then []
    else
      var r := rows[|rows| - 1];
      Rates(rows[..|rows| - 1]) + if r.fxRate.Some? && r.fxRate.value > 0.0 then [r.fxRate.value] else []
  }

  ghost predicate Averages(e: Rollup, rows: seq<Snapshot>) {
    && MeanOf(e.avgSpread, seq(|rows|, i requires 0 <= i < |rows| => rows[i].spread.GetOr(0.0)))
    && MeanOf(e.avgInventory, seq(|rows|, i requires 0 <= i < |rows| => rows[i].inventory.GetOr(0.0)))
    && MeanOf(e.avgSigma, seq(|rows|, i requires 0 <= i < |rows| => rows[i].sigma.GetOr(0.0)))
    && MeanOf(e.avgFx, Rates(rows))
  }

  lemma {:induction false} TotalIsSum(rows: seq<Snapshot>, f: Snapshot -> real, xs: seq<real>)
    requires |xs| == |rows| && forall i :: 0 <= i < |rows| ==> xs[i] == f(rows[i])
    ensures Total(rows, f) == SumOf(xs)
  {
    if |rows| > 0 {
      TotalIsSum(rows[..|rows| - 1], f, xs[..|xs| - 1]);
    }
  }

  lemma {:induction false} RatesAre(rows: seq<Snapshot>)
    ensures |Rates(rows)| == |Filter(rows, Priced())|
    ensures SumOf(Rates(rows)) == Total(Filter(rows, Priced()), FxOf())
  {
    if |rows| > 0 {
      var before, r := rows[..|rows| - 1], rows[|rows| - 1];
      RatesAre(before);
      if r.Fx() > 0.0 {
        TotalSnoc(Filter(before, Priced()), r, FxOf());
        assert (Rates(before) + [r.Fx()])[..|Rates(before)|] == Rates(before);
      } else {
        assert Rates(rows) == Rates(before);
      }
    }
  }

  /** The same means, over the columns the pass sums. */
  ghost predicate ColumnMeans(e: Rollup, rows: seq<Snapshot>) {
    var priced := Filter(rows, Priced());
    && IsMean(e.avgSpread, Total(rows, SpreadOf()), |rows|)
    && IsMean(e.avgInventory, Total(rows, InventoryOf()), |rows|)
    && IsMean(e.avgSigma, Total(rows, SigmaOf()), |rows|)
    && IsMean(e.avgFx, Total(priced, FxOf()), |priced|)
  }

  lemma ColumnMeansAreAverages(e: Rollup, rows: seq<Snapshot>)
    requires ColumnMeans(e, rows)
    ensures Averages(e, rows)
  {
    hide Total, SumOf, IsMean, Filter, Rates;
    TotalIsSum(rows, SpreadOf(), seq(|rows|, i requires 0 <= i < |rows| => rows[i].spread.GetOr(0.0)));
    TotalIsSum(rows, InventoryOf(), seq(|rows|, i requires 0 <= i < |rows| => rows[i].inventory.GetOr(0.0)));
    TotalIsSum(rows, SigmaOf(), seq(|rows|, i requires 0 <= i < |rows| => rows[i].sigma.GetOr(0.0)));
    RatesAre(rows);
  }

  /** What an entry says of the rows of its bucket, in whatever order they were logged. */
  ghost predicate Describes(e: Rollup, rows: seq<Snapshot>) {
    e.samples == |rows| > 0 && Opens(e, rows) && Closes(e, rows) && Spans(e, rows) && Averages(e, rows)
  }

  predicate IsMean(mean: real, total: real, n: nat) {
    mean * n as real == total && (n == 0 ==> mean == 0.0)
  }

  lemma SortedHasTheSame(rows: seq<Snapshot>)
    ensures forall r :: r in SortRows(rows) <==> r in rows
  {
    SortMembers(rows);
    forall r
      ensures r in SortRows(rows) <==> r in rows
    {
      assert r in SortRows(rows) <==> r in multiset(SortRows(rows));
      assert r in rows <==> r in multiset(rows);
    }
  }

  /** The means of an aggregate, multiplied out. */
  lemma AggregateMeans(rows: seq<Snapshot>)
    requires |rows| > 0
    ensures ColumnMeans(AggOf(rows), rows)
  {
    var priced := Filter(rows, Priced());
    hide MaxMid, MinMid, Filter;
    AverageTimesCount(Total(rows, SpreadOf()), |rows|);
    AverageTimesCount(Total(rows, InventoryOf()), |rows|);
    AverageTimesCount(Total(rows, SigmaOf()), |rows|);
    if |priced| > 0 {
      AverageTimesCount(Total(priced, FxOf()), |priced|);
    } else {
      NothingPriced(priced);
    }
    hide Total;
  }

  lemma MeansOfSorted(e: Rollup, rows: seq<Snapshot>)
    requires ColumnMeans(e, SortRows(rows))
    ensures ColumnMeans(e, rows)
  {
    hide SortRows, Total, Filter, IsMean;
    TotalOfSorted(rows, SpreadOf());
    TotalOfSorted(rows, InventoryOf());
    TotalOfSorted(rows, SigmaOf());
    FilterSort(rows, Priced());
    TotalOfSorted(Filter(rows, Priced()), FxOf());
  }

  lemma AggregateSpans(rows: seq<Snapshot>)
    requires |rows| > 0
    ensures Spans(AggOf(rows), rows)
  {
    HighLowMeaning(rows);
    hide Total, Filter, MaxMid, MinMid;
  }

  lemma SpansOfSorted(e: Rollup, rows: seq<Snapshot>)
    requires Spans(e, SortRows(rows))
    ensures Spans(e, rows)
  {
    hide SortRows;
    SortedHasTheSame(rows);
  }

  lemma SortedEnds(rows: seq<Snapshot>)
    requires |rows| > 0 && OnePair(rows)
    ensures FirstOf(rows, SortRows(rows)[0]) && LastOf(rows, SortRows(rows)[|rows| - 1])
  {
    var sorted := SortRows(rows);
    SortSorts(rows);
    SortedHasTheSame(rows);
    hide SortRows, Less;
    var n := |sorted| - 1;
    assert sorted[0] in sorted && sorted[n] in sorted;
    forall x | x in rows
      ensures !Less(x, sorted[0]) && !Less(sorted[n], x)
    {
      var j :| 0 <= j < |sorted| && sorted[j] == x;
      OrderedAt(sorted, 0, j);
      OrderedAt(sorted, j, n);
    }
    EndsByTime(rows, sorted[0], sorted[n]);
  }

  lemma EndsByTime(rows: seq<Snapshot>, first: Snapshot, last: Snapshot)
    requires OnePair(rows) && first in rows && last in rows
    requires forall x :: x in rows ==> !Less(x, first) && !Less(last, x)
    ensures FirstOf(rows, first) && LastOf(rows, last)
  {
  }

  lemma AggregateEnds(rows: seq<Snapshot>)
    requires |rows| > 0 && OnePair(rows)
    ensures Opens(AggOf(SortRows(rows)), rows) && Closes(AggOf(SortRows(rows)), rows)
    ensures AggOf(SortRows(rows)).samples == |rows|
  {
    SortedEnds(rows);
    hide FirstOf, LastOf, SortRows, Total, Filter, MaxMid, MinMid;
  }

  /** The aggregate of ordered rows describes the rows. */
  lemma AggregateDescribes(rows: seq<Snapshot>)
    requires |rows| > 0 && OnePair(rows)
    ensures Describes(AggOf(SortRows(rows)), rows)
  {
    var e := AggOf(SortRows(rows));
    hide Opens, Closes, Spans, Averages, AggOf, SortRows, OnePair;
    AggregateEnds(rows);
    AggregateSpans(SortRows(rows));
    SpansOfSorted(e, rows);
    AggregateMeans(SortRows(rows));
    MeansOfSorted(e, rows);
    hide ColumnMeans;
    ColumnMeansAreAverages(e, rows);
  }

  lemma OrderedAt(sorted: seq<Snapshot>, i: nat, j: nat)
    requires Sorted(sorted) && i <= j < |sorted|
    ensures !Less(sorted[j], sorted[i])
  {
  }

  lemma AverageTimesCount(total: real, n: nat)
    requires n > 0
    ensures (total / n as real) * n as real == total
  {
  }

  lemma NothingPriced(rows: seq<Snapshot>)
    requires |rows| == 0
    ensures Total(rows, FxOf()) == 0.0
  {
  }

  // ---------------------------------------------------------------- what a bucket is

  lemma Multiples60(a: nat, b: nat)
    ensures (a - a % 60) % 60 == 0 && (a - a % 60) / 60 == a / 60
    ensures a - a % 60 < b - b % 60 ==> a - a % 60 + 60 <= b - b % 60
    ensures a - a % 60 == b - b % 60 <==> a / 60 == b / 60
  {
    assert a - a % 60 == 60 * (a / 60) && b - b % 60 == 60 * (b / 60);
  }

  lemma Multiples900(a: nat, b: nat)
    ensures (a - a % 900) % 900 == 0 && (a - a % 900) / 900 == a / 900
    ensures a - a % 900 < b - b % 900 ==> a - a % 900 + 900 <= b - b % 900
    ensures a - a % 900 == b - b % 900 <==> a / 900 == b / 900
  {
    assert a - a % 900 == 900 * (a / 900) && b - b % 900 == 900 * (b / 900);
  }

  lemma Multiples3600(a: nat, b: nat)
    ensures (a - a % 3600) % 3600 == 0 && (a - a % 3600) / 3600 == a / 3600
    ensures a - a % 3600 < b - b % 3600 ==> a - a % 3600 + 3600 <= b - b % 3600
    ensures a - a % 3600 == b - b % 3600 <==> a / 3600 == b / 3600
  {
    assert a - a % 3600 == 3600 * (a / 3600) && b - b % 3600 == 3600 * (b / 3600);
  }

  lemma Multiples86400(a: nat, b: nat)
    ensures (a - a % 86400) % 86400 == 0 && (a - a % 86400) / 86400 == a / 86400
    ensures a - a % 86400 < b - b % 86400 ==> a - a % 86400 + 86400 <= b - b % 86400
    ensures a - a % 86400 == b - b % 86400 <==> a / 86400 == b / 86400
  {
    assert a - a % 86400 == 86400 * (a / 86400) && b - b % 86400 == 86400 * (b / 86400);
  }

  /** In terms of the bucket size alone: a bucket starts at the multiple of it that the time has reached, and two
      times share one exactly if as many whole buckets lie behind them. */
  lemma BucketIsMultiple(a: nat, b: nat, bs: nat)
    requires IsSpec(bs)
    ensures BucketOf(a, bs) % bs == 0 && BucketOf(a, bs) / bs == a / bs
    ensures BucketOf(a, bs) < BucketOf(b, bs) ==> BucketOf(a, bs) + bs <= BucketOf(b, bs)
    ensures BucketOf(a, bs) == BucketOf(b, bs) <==> a / bs == b / bs
  {
    if bs == 60 {
      Multiples60(a, b);
    } else if bs == 900 {
      Multiples900(a, b);
    } else if bs == 3600 {
      Multiples3600(a, b);
    } else {
      Multiples86400(a, b);
    }
  }

  /** The rows an entry stands for. */
  function RowsOf(rows: seq<Snapshot>, bs: nat, k: Key): seq<Snapshot>
    requires IsSpec(bs)
  {
    Filter(rows, HasKey(k, bs))
  }

  /** For every table size: an entry starts at a multiple of the size and stands for exactly the rows of its
      pair from there on, up to the next multiple; and every row has one. */
  lemma EntriesAreWholeBuckets(rows: seq<Snapshot>, bs: nat, k: Key, r: Snapshot)
    requires IsSpec(bs) && r in rows
    ensures k in Aggregate(rows, bs) ==>
              && k.bucket % bs == 0
              && (r in RowsOf(rows, bs, k) <==> r.pair == k.pair && k.bucket <= r.createdAt < k.bucket + bs)
    ensures Key(r.pair, BucketOf(r.createdAt, bs)) in Aggregate(rows, bs)
  {
    hide AggOf, SortRows, BucketOf;
    FilterMembers(rows, HasKey(k, bs));
    assert KeyOf(r, bs) in KeysOf(rows, bs);
    if k in Aggregate(rows, bs) {
      var x :| x in rows && KeyOf(x, bs) == k;
      BucketIsMultiple(x.createdAt, x.createdAt, bs);
      InBucketIff(r.createdAt, x.createdAt, bs);
    }
  }

  lemma InBucketIff(t: nat, x: nat, bs: nat)
    requires IsSpec(bs)
    ensures BucketOf(t, bs) == BucketOf(x, bs) <==> BucketOf(x, bs) <= t < BucketOf(x, bs) + bs
  {
    hide Phase;
    BucketIsMultiple(t, x, bs);
    BucketIsMultiple(x, t, bs);
  }

  /** Two snapshots share an entry if and only if they have the same pair and the same number of whole buckets
      behind them. */
  lemma ShareAnEntryIff(rows: seq<Snapshot>, bs: nat, a: Snapshot, b: Snapshot)
    requires IsSpec(bs) && a in rows && b in rows
    ensures (exists k :: k in Aggregate(rows, bs) && a in RowsOf(rows, bs, k) && b in RowsOf(rows, bs, k))
       <==> a.pair == b.pair && a.createdAt / bs == b.createdAt / bs
  {
    hide AggOf, SortRows, BucketOf;
    BucketIsMultiple(a.createdAt, b.createdAt, bs);
    var k := KeyOf(a, bs);
    assert k in KeysOf(rows, bs);
    FilterMembers(rows, HasKey(k, bs));
    if a.pair == b.pair && a.createdAt / bs == b.createdAt / bs {
      assert k in Aggregate(rows, bs) && a in RowsOf(rows, bs, k) && b in RowsOf(rows, bs, k);
    }
    if x :| x in Aggregate(rows, bs) && a in RowsOf(rows, bs, x) && b in RowsOf(rows, bs, x) {
      FilterMembers(rows, HasKey(x, bs));
    }
  }

  /** Every entry of the aggregate describes exactly the rows of its bucket. */
  lemma EntriesDescribeBuckets(rows: seq<Snapshot>, bs: nat, k: Key)
    requires IsSpec(bs) && k in Aggregate(rows, bs)
    ensures Describes(Aggregate(rows, bs)[k], RowsOf(rows, bs, k))
  {
    FilterMembers(rows, HasKey(k, bs));
    hide Describes, AggOf, SortRows;
    var r :| r in rows && KeyOf(r, bs) == k;
    assert r in Filter(rows, HasKey(k, bs));
    assert OnePair(Filter(rows, HasKey(k, bs)));
    AggregateDescribes(Filter(rows, HasKey(k, bs)));
  }
}
