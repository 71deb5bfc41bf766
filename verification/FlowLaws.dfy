/** What a rebuilt block holds (cpp/src/backtest.cpp:396-470), from the offers and candles alone: the reference price,
    the volumes and the counts. */
module FlowLaws {
  import opened Wrappers
  import opened RealFacts
  import opened SeqFacts
  import opened Ledger
  import opened OrderFlow

  // ---------------------------------------------------------------- the reference price

  predicate InReach(c: Candle, lo: nat, h: nat) {
    lo <= c.block <= h
  }

  /** The candle that prices height h: of those in the blocks up to h, one of the latest block that has any, and of
      those the last one. */
  ghost predicate Prices(candles: seq<Candle>, lo: nat, h: nat, i: nat) {
    && i < |candles| && InReach(candles[i], lo, h)
    && forall j :: 0 <= j < |candles| && InReach(candles[j], lo, h) ==>
         candles[j].block < candles[i].block || (candles[j].block == candles[i].block && j <= i)
  }

  ghost predicate NoneInReach(candles: seq<Candle>, lo: nat, h: nat) {
    forall j :: 0 <= j < |candles| ==> !InReach(candles[j], lo, h)
  }

  lemma {:induction false} LastCandleIs(candles: seq<Candle>, h: nat)
    ensures match LastCandleAt(candles, h)
            case None => forall j :: 0 <= j < |candles| ==> candles[j].block != h
            case Some(c) => exists i :: 0 <= i < |candles| && candles[i] == c && c.block == h
                              && forall j :: i < j < |candles| ==> candles[j].block != h
  {
    if |candles| > 0 {
      LastCandleIs(candles[..|candles| - 1], h);
    }
  }

  lemma OwnCandlePrices(candles: seq<Candle>, lo: nat, h: nat) returns (i: nat)
    requires lo <= h && LastCandleAt(candles, h).Some?
    ensures Prices(candles, lo, h, i) && LastCandleAt(candles, h) == Some(candles[i])
  {
    LastCandleIs(candles, h);
    hide LastCandleAt;
    var c := LastCandleAt(candles, h).value;
    i :| i < |candles| && candles[i] == c && c.block == h && forall j :: i < j < |candles| ==> candles[j].block != h;
  }

  lemma CarriedOver(candles: seq<Candle>, lo: nat, h: nat)
    requires lo < h && LastCandleAt(candles, h).None?
    ensures NoneInReach(candles, lo, h) <==> NoneInReach(candles, lo, h - 1)
    ensures forall i: nat :: Prices(candles, lo, h - 1, i) <==> Prices(candles, lo, h, i)
  {
    LastCandleIs(candles, h);
    hide LastCandleAt;
    assert forall j :: 0 <= j < |candles| ==> (InReach(candles[j], lo, h) <==> InReach(candles[j], lo, h - 1));
    hide InReach;
  }

  lemma {:induction false} PricedMid(candles: seq<Candle>, lo: nat, h: nat, i: nat)
    requires |candles| > 0 && lo <= h && Prices(candles, lo, h, i)
    ensures 2.0 * MidAt(candles, lo, h) == candles[i].open + candles[i].close
    decreases h
  {
    if LastCandleAt(candles, h).Some? {
      var k := OwnCandlePrices(candles, lo, h);
      hide LastCandleAt;
      assert k == i;
    } else {
      LastCandleIs(candles, h);
      hide LastCandleAt;
      assert h > lo;
      CarriedOver(candles, lo, h);
      hide Prices;
      PricedMid(candles, lo, h - 1, i);
    }
  }

  lemma {:induction false} UnpricedMid(candles: seq<Candle>, lo: nat, h: nat)
    requires |candles| > 0 && lo <= h && NoneInReach(candles, lo, h)
    ensures MidAt(candles, lo, h) == candles[0].close
    decreases h
  {
    LastCandleIs(candles, h);
    hide LastCandleAt;
    assert LastCandleAt(candles, h).None?;
    if h > lo {
      CarriedOver(candles, lo, h);
      hide NoneInReach, InReach;
      UnpricedMid(candles, lo, h - 1);
    }
  }

  lemma {:induction false} SomeCandlePrices(candles: seq<Candle>, lo: nat, h: nat) returns (i: nat)
    requires lo <= h && !NoneInReach(candles, lo, h)
    ensures Prices(candles, lo, h, i)
    decreases h
  {
    if LastCandleAt(candles, h).Some? {
      i := OwnCandlePrices(candles, lo, h);
    } else {
      LastCandleIs(candles, h);
      hide LastCandleAt;
      assert h > lo;
      CarriedOver(candles, lo, h);
      hide NoneInReach, InReach, Prices;
      i := SomeCandlePrices(candles, lo, h - 1);
    }
  }

  /** The reference price of a block is the mean of open and close of the candle that prices it; where the blocks up
      to it have no candle it is the close of the very first. */
  lemma MidIs(candles: seq<Candle>, lo: nat, h: nat)
    requires |candles| > 0 && lo <= h
    ensures if exists j :: 0 <= j < |candles| && InReach(candles[j], lo, h)
            then exists i: nat :: Prices(candles, lo, h, i) && 2.0 * MidAt(candles, lo, h) == candles[i].open + candles[i].close
            else MidAt(candles, lo, h) == candles[0].close
  {
    hide MidAt, Prices;
    if NoneInReach(candles, lo, h) {
      UnpricedMid(candles, lo, h);
    } else {
      var i := SomeCandlePrices(candles, lo, h);
      PricedMid(candles, lo, h, i);
    }
  }

  // ---------------------------------------------------------------- volumes and counts

  ghost function SizeOn(o: Offer, side: Side): real {
    if o.side == side then o.size else 0.0
  }

  lemma OneOffer(o: Offer)
    ensures FlowOf([o]).buyVolume == SizeOn(o, Bid) && FlowOf([o]).sellVolume == SizeOn(o, Ask)
    ensures FlowOf([]).buyVolume == 0.0 == FlowOf([]).sellVolume
  {
    assert FlowOf([o]) == AddOffer(FlowOf([o][..0]), [o][0]);
  }

  /** Volumes add up over any split of the offers. */
  lemma {:induction false} VolumesAdd(a: seq<Offer>, b: seq<Offer>)
    ensures FlowOf(a + b).buyVolume == FlowOf(a).buyVolume + FlowOf(b).buyVolume
    ensures FlowOf(a + b).sellVolume == FlowOf(a).sellVolume + FlowOf(b).sellVolume
  {
    if |b| == 0 {
      assert a + b == a;
    } else {
      var b', o := b[..|b| - 1], b[|b| - 1];
      VolumesAdd(a, b');
      assert (a + b)[..|a + b| - 1] == a + b';
    }
  }

  /** The offers of a kind, by their place. */
  ghost function Which(offers: seq<Offer>, kind: Offer -> bool): set<nat> {
    set i: nat | i < |offers| && kind(offers[i])
  }

  lemma {:induction false} KeptAreWhich(offers: seq<Offer>, keep: Offer -> bool, kind: Offer -> bool)
    requires forall o :: kind(o) <==> keep(o)
    ensures |Filter(offers, keep)| == |Which(offers, kind)|
  {
    if |offers| > 0 {
      var n := |offers| - 1;
      KeptAreWhich(offers[..n], keep, kind);
      assert Which(offers, kind) == Which(offers[..n], kind) + if kind(offers[n]) then {n} else {};
      assert n !in Which(offers[..n], kind);
    } else {
      assert Which(offers, kind) == {};
    }
  }

  /** A block has its height and reference price, and counts the offers posted at its height and those filled at
      it. */
  lemma BlockCounts(offers: seq<Offer>, candles: seq<Candle>, lo: nat, h: nat)
    requires |candles| > 0 && lo <= h
    ensures var b := ScannedBlock(offers, candles, lo, h);
            && b.data.height == h && b.data.cexMid == MidAt(candles, lo, h)
            && b.posted == |Which(offers, (o: Offer) => o.createdBlock == h)|
            && b.taken == |Which(offers, (o: Offer) => o.wasFilled && o.filledBlock == h)|
  {
    hide FlowOf, MidAt, Which;
    FlowMeaning(FilledAt(offers, h));
    KeptAreWhich(offers, (o: Offer) => o.createdBlock == h, (o: Offer) => o.createdBlock == h);
    KeptAreWhich(offers, (o: Offer) => FillsAt(o, h), (o: Offer) => o.wasFilled && o.filledBlock == h);
    hide Filter;
  }

  /** One more filled offer adds its size to its own side's volume of its own block, and to nothing else. */
  lemma OneMoreOffer(offers: seq<Offer>, o: Offer, candles: seq<Candle>, lo: nat, h: nat)
    requires |candles| > 0 && lo <= h
    ensures var b, b' := ScannedBlock(offers, candles, lo, h), ScannedBlock(offers + [o], candles, lo, h);
            && b'.buyVolume == b.buyVolume + (if o.wasFilled && o.filledBlock == h then SizeOn(o, Bid) else 0.0)
            && b'.sellVolume == b.sellVolume + (if o.wasFilled && o.filledBlock == h then SizeOn(o, Ask) else 0.0)
            && ScannedBlock([], candles, lo, h).buyVolume == 0.0 == ScannedBlock([], candles, lo, h).sellVolume
  {
    hide FlowOf, MidAt;
    ScanSnoc(offers, o, h);
    ScanEmpty(h);
    OneOffer(o);
    VolumesAdd(FilledAt(offers, h), [o]);
    hide FilledAt, PostedAt;
    assert FilledAt(offers, h) + [] == FilledAt(offers, h);
  }
}
