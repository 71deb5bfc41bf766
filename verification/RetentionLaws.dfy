/** What a maintenance run reads back and deletes (scripts/maintain_snapshot_rollups.py:94-104, 298-406), in
    seconds, days and quarters. */
module RetentionLaws {
  import opened Wrappers
  import opened SeqFacts
  import opened SnapshotRollup
  import opened RollupHistory

  /** A raw row is out of retention when it is older than so many days of 86,400 seconds. */
  predicate OutOfRetention(createdAt: nat, now: nat, days: nat) {
    createdAt + 86_400 * days < now
  }

  lemma CutoffIs(createdAt: nat, now: nat, days: nat)
    ensures createdAt < Cutoff(now, days) <==> OutOfRetention(createdAt, now, days)
  {
  }

  /** The rows out of retention, by their place. */
  function Doomed(rows: seq<Snapshot>, now: nat, days: nat): set<nat> {
    set i: nat | i < |rows| && OutOfRetention(rows[i].createdAt, now, days)
  }

  lemma {:induction false} DoomedAreOlder(rows: seq<Snapshot>, now: nat, days: nat)
    ensures |Filter(rows, SnapshotOlder(Cutoff(now, days)))| == |Doomed(rows, now, days)|
  {
    if |rows| > 0 {
      var n := |rows| - 1;
      DoomedAreOlder(rows[..n], now, days);
      CutoffIs(rows[n].createdAt, now, days);
      assert Doomed(rows, now, days)
          == Doomed(rows[..n], now, days) + if OutOfRetention(rows[n].createdAt, now, days) then {n} else {};
      assert n !in Doomed(rows[..n], now, days);
      hide Cutoff, OutOfRetention, Doomed;
    } else {
      assert Doomed(rows, now, days) == {};
    }
  }

  /** An unconfirmed prune is refused when more than a quarter of the rows is out of retention. */
  lemma RefusedIff(rows: seq<Snapshot>, now: nat, days: nat)
    ensures TooMany(|Filter(rows, SnapshotOlder(Cutoff(now, days)))|, |rows|)
       <==> 4 * |Doomed(rows, now, days)| > |rows|
  {
    DoomedAreOlder(rows, now, days);
    FilterMembers(rows, SnapshotOlder(Cutoff(now, days)));
  }

  lemma {:induction false} KeptSpread(rows: seq<Snapshot>, keep: Snapshot -> bool, i: nat)
    requires i < |rows| && keep(rows[i])
    ensures |Filter(rows[..i], keep)| < |Filter(rows, keep)| && Filter(rows, keep)[|Filter(rows[..i], keep)|] == rows[i]
  {
    var n := |rows| - 1;
    if i < n {
      KeptSpread(rows[..n], keep, i);
      assert rows[..n][..i] == rows[..i];
    }
  }

  /** A prune keeps every row within retention, in order, and no other. */
  lemma PruneKeeps(rows: seq<Snapshot>, now: nat, days: nat, i: nat)
    requires i < |rows|
    ensures var kept := Filter(rows, From(Cutoff(now, days)));
            && (forall r :: r in kept <==> r in rows && !OutOfRetention(r.createdAt, now, days))
            && |kept| == |rows| - |Doomed(rows, now, days)|
            && (!OutOfRetention(rows[i].createdAt, now, days) ==>
                  var place := i - |Doomed(rows[..i], now, days)|;
                  0 <= place < |kept| && kept[place] == rows[i])
  {
    var keep := From(Cutoff(now, days));
    FilterMembers(rows, keep);
    forall r: Snapshot
      ensures keep(r) <==> !OutOfRetention(r.createdAt, now, days)
    {
      CutoffIs(r.createdAt, now, days);
    }
    DoomedAreOlder(rows, now, days);
    DoomedAreOlder(rows[..i], now, days);
    OlderAndNewer(rows, Cutoff(now, days));
    OlderAndNewer(rows[..i], Cutoff(now, days));
    hide Filter, Doomed, From, OutOfRetention, Cutoff;
    if keep(rows[i]) {
      KeptSpread(rows, keep, i);
    }
  }

  /** A quote is kept by the same rule. */
  lemma QuoteIsKeptIff(quotes: seq<nat>, now: nat, days: nat, t: nat)
    ensures t in Filter(quotes, NotOlder(Cutoff(now, days))) <==> t in quotes && !OutOfRetention(t, now, days)
  {
    FilterMembers(quotes, NotOlder(Cutoff(now, days)));
    CutoffIs(t, now, days);
  }

  /** A pass reads every row on an empty table, and otherwise those from one bucket before the newest one on. */
  lemma PassReads(table: Table, rows: seq<Snapshot>, bs: nat, r: Snapshot)
    ensures r in Recent(table, rows, bs)
       <==> r in rows && forall k :: k in table ==> k.bucket <= r.createdAt + bs
  {
    FilterMembers(rows, From(Backtrack(LatestBucket(table).GetOr(0), bs)));
  }
}
