/** Rebuilding per-block order flow from historical offers (cpp/src/backtest.cpp:292-470): one pass
    indexes the offers by the block they filled in, and the index answers as a scan of all offers
    would. Candle timestamps arrive already assigned to blocks. */
module OrderFlow {
  import opened Wrappers
  import opened RealFacts
  import opened Ledger
  import opened SeqFacts

  datatype Offer = Offer(side: Side, price: real, size: real, createdBlock: nat, filledBlock: nat, wasFilled: bool)

  datatype Candle = Candle(open: real, close: real, block: nat)

  /** What the filled offers of one block amount to. */
  datatype Flow = Flow(lowestSell: Option<real>, highestBuy: real, buyVolume: real, sellVolume: real, taken: nat)

  datatype BuiltBlock = BuiltBlock(data: BlockData, buyVolume: real, sellVolume: real, posted: nat, taken: nat)

  // ---------------------------------------------------------------- the scan

  predicate FillsAt(o: Offer, h: nat) {
    o.wasFilled && o.filledBlock == h
  }

  predicate FillsWithin(o: Offer, lo: nat, hi: nat) {
    o.wasFilled && lo <= o.filledBlock <= hi
  }

  function FilledAt(offers: seq<Offer>, h: nat): seq<Offer> {
    Filter(offers, (o: Offer) => FillsAt(o, h))
  }

  function FilledWithin(offers: seq<Offer>, lo: nat, hi: nat): seq<Offer> {
    Filter(offers, (o: Offer) => FillsWithin(o, lo, hi))
  }

  function PostedAt(offers: seq<Offer>, h: nat): seq<Offer> {
    Filter(offers, (o: Offer) => o.createdBlock == h)
  }

  lemma ScanSnoc(offers: seq<Offer>, o: Offer, h: nat)
    ensures FilledAt(offers + [o], h) == FilledAt(offers, h) + if FillsAt(o, h) then [o] else []
    ensures |PostedAt(offers + [o], h)| == |PostedAt(offers, h)| + if o.createdBlock == h then 1 else 0
  {
    FilterSnoc(offers, o, (x: Offer) => FillsAt(x, h));
    FilterSnoc(offers, o, (x: Offer) => x.createdBlock == h);
  }

  lemma ScanEmpty(h: nat)
    ensures FilledAt([], h) == [] && PostedAt([], h) == []
  {
  }

  function EmptyFlow(): Flow {
    Flow(None, 0.0, 0.0, 0.0, 0)
  }

  function AddOffer(f: Flow, o: Offer): Flow {
    match o.side
    case Ask => f.(lowestSell := Some(if f.lowestSell.None? then o.price else Min(f.lowestSell.value, o.price)),
                   sellVolume := f.sellVolume + o.size, taken := f.taken + 1)
    case Bid => f.(highestBuy := Max(f.highestBuy, o.price),
                   buyVolume := f.buyVolume + o.size, taken := f.taken + 1)
  }

  function FlowOf(offers: seq<Offer>): Flow {
    if |offers| == 0 then EmptyFlow() else AddOffer(FlowOf(offers[..|offers| - 1]), offers[|offers| - 1])
  }

  /** A flow knows the cheapest filled ask and the dearest filled bid, where a bid only counts if its
      price is positive. */
  lemma {:induction false} FlowMeaning(offers: seq<Offer>)
    ensures FlowOf(offers).taken == |offers|
    ensures forall o :: o in offers && o.side.Ask? ==>
              FlowOf(offers).lowestSell.Some? && FlowOf(offers).lowestSell.value <= o.price
    ensures FlowOf(offers).lowestSell.Some? ==>
              exists o :: o in offers && o.side.Ask? && o.price == FlowOf(offers).lowestSell.value
    ensures FlowOf(offers).highestBuy >= 0.0
    ensures forall o :: o in offers && o.side.Bid? ==> o.price <= FlowOf(offers).highestBuy
    ensures FlowOf(offers).highestBuy > 0.0 ==>
              exists o :: o in offers && o.side.Bid? && o.price == FlowOf(offers).highestBuy
  {
    if |offers| > 0 {
      var rest, last := offers[..|offers| - 1], offers[|offers| - 1];
      FlowMeaning(rest);
      assert forall o :: o in offers <==> o in rest || o == last;
      if last.side.Ask? {
        if FlowOf(rest).lowestSell.Some? && FlowOf(rest).lowestSell.value <= last.price {
          var o :| o in rest && o.side.Ask? && o.price == FlowOf(rest).lowestSell.value;
          assert o in offers;
        }
      } else if FlowOf(rest).highestBuy > 0.0 && FlowOf(rest).highestBuy >= last.price {
        var o :| o in rest && o.side.Bid? && o.price == FlowOf(rest).highestBuy;
        assert o in offers;
      }
    }
  }

  // ---------------------------------------------------------------- the block range

  /** The heights the blocks cover: from the first posting to the last posting or fill, both attained; without
      any dated posting, the span estimated from the candles. */
  ghost predicate Covers(offers: seq<Offer>, estimatedBlocks: nat, minBlock: nat, maxBlock: nat) {
    && 0 < minBlock <= maxBlock
    && if exists o :: o in offers && o.createdBlock > 0 then
         && (exists o :: o in offers && o.createdBlock == minBlock)
         && (exists o :: o in offers && (o.createdBlock == maxBlock || o.filledBlock == maxBlock))
         && (forall o :: o in offers && o.createdBlock > 0 ==> minBlock <= o.createdBlock <= maxBlock)
         && (forall o :: o in offers ==> o.filledBlock <= maxBlock)
       else
         minBlock == 1 && maxBlock == if estimatedBlocks >= 1 then estimatedBlocks else 1
  }

  method BlockRange(offers: seq<Offer>, estimatedBlocks: nat) returns (minBlock: nat, maxBlock: nat)
    ensures Covers(offers, estimatedBlocks, minBlock, maxBlock)
  {
    var lowest: Option<nat> := None;
    maxBlock := 0;
    for k := 0 to |offers|
      invariant lowest.None? <==> forall o :: o in offers[..k] ==> o.createdBlock == 0
      invariant lowest.Some? ==> lowest.value > 0 && lowest.value <= maxBlock
      invariant lowest.Some? ==> exists o :: o in offers[..k] && o.createdBlock == lowest.value
      invariant forall o :: o in offers[..k] ==> o.createdBlock <= maxBlock && o.filledBlock <= maxBlock
      invariant maxBlock > 0 ==>
                  exists o :: o in offers[..k] && (o.createdBlock == maxBlock || o.filledBlock == maxBlock)
      invariant forall o :: o in offers[..k] && o.createdBlock > 0 ==> lowest.Some? && lowest.value <= o.createdBlock
    {
      var offer := offers[k];
      assert offers[..k + 1] == offers[..k] + [offer];
      if offer.createdBlock > 0 {
        lowest := Some(if lowest.None? || offer.createdBlock < lowest.value then offer.createdBlock else lowest.value);
        maxBlock := if offer.createdBlock > maxBlock then offer.createdBlock else maxBlock;
      }
      if offer.filledBlock > 0 {
        maxBlock := if offer.filledBlock > maxBlock then offer.filledBlock else maxBlock;
      }
    }
    assert offers[..|offers|] == offers;
    if lowest.None? {
      minBlock := 1;
      maxBlock := if estimatedBlocks >= 1 then estimatedBlocks else 1;
    } else {
      minBlock := lowest.value;
    }
  }

  // ---------------------------------------------------------------- the index

  function Lookup<T>(m: map<nat, T>, h: nat, default: T): T {
    if h in m then m[h] else default
  }

  /** One pass groups the offers: afterwards each height answers with exactly the offers a full scan
      would pick, in the order they were loaded. */
  method IndexOffers(offers: seq<Offer>, minBlock: nat, maxBlock: nat)
      returns (byBlock: map<nat, seq<Offer>>, posted: map<nat, nat>)
    ensures forall h :: minBlock <= h <= maxBlock ==> Lookup(byBlock, h, []) == FilledAt(offers, h)
    ensures forall h :: minBlock <= h <= maxBlock ==> Lookup(posted, h, 0) == |PostedAt(offers, h)|
  {
    hide FilledAt, PostedAt;
    byBlock, posted := map[], map[];
    forall h: nat {
      ScanEmpty(h);
    }
    for k := 0 to |offers|
      invariant forall h :: minBlock <= h <= maxBlock ==> Lookup(byBlock, h, []) == FilledAt(offers[..k], h)
      invariant forall h :: minBlock <= h <= maxBlock ==> Lookup(posted, h, 0) == |PostedAt(offers[..k], h)|
    {
      var offer := offers[k];
      assert offers[..k + 1] == offers[..k] + [offer];
      forall h | minBlock <= h <= maxBlock {
        ScanSnoc(offers[..k], offer, h);
      }
      if offer.wasFilled && offer.filledBlock >= minBlock && offer.filledBlock <= maxBlock {
        byBlock := byBlock[offer.filledBlock := Lookup(byBlock, offer.filledBlock, []) + [offer]];
      }
      if offer.createdBlock >= minBlock && offer.createdBlock <= maxBlock {
        posted := posted[offer.createdBlock := Lookup(posted, offer.createdBlock, 0) + 1];
      }
    }
    assert offers[..|offers|] == offers;
  }

  /** The last candle mapped to a height. */
  function LastCandleAt(candles: seq<Candle>, h: nat): Option<Candle> {
    if |candles| == 0 then None
    else if candles[|candles| - 1].block == h then Some(candles[|candles| - 1])
    else LastCandleAt(candles[..|candles| - 1], h)
  }

  /** The reference price at h: its own candle's, else carried forward from the nearest earlier block
      that has one, else the first candle's close. */
  function MidAt(candles: seq<Candle>, minBlock: nat, h: nat): real
    requires |candles| > 0 && minBlock <= h
    decreases h
  {
    match LastCandleAt(candles, h)
    case Some(c) => (c.open + c.close) / 2.0
    case None => if h == minBlock then candles[0].close else MidAt(candles, minBlock, h - 1)
  }

  method IndexCandles(candles: seq<Candle>) returns (byBlock: map<nat, Candle>)
    ensures forall h :: LastCandleAt(candles, h) == if h in byBlock then Some(byBlock[h]) else None
  {
    byBlock := map[];
    for k := 0 to |candles|
      invariant forall h :: LastCandleAt(candles[..k], h) == if h in byBlock then Some(byBlock[h]) else None
    {
      assert candles[..k + 1][..k] == candles[..k];
      byBlock := byBlock[candles[k].block := candles[k]];
    }
    assert candles[..|candles|] == candles;
  }

  method FlowLoop(filled: seq<Offer>) returns (f: Flow)
    ensures f == FlowOf(filled)
  {
    var lowestSell: Option<real> := None;
    var highestBuy, buyVolume, sellVolume := 0.0, 0.0, 0.0;
    var taken: nat := 0;
    for k := 0 to |filled|
      invariant Flow(lowestSell, highestBuy, buyVolume, sellVolume, taken) == FlowOf(filled[..k])
    {
      assert filled[..k + 1][..k] == filled[..k];
      var offer := filled[k];
      taken := taken + 1;
      if offer.side.Ask? {
        lowestSell := Some(if lowestSell.None? then offer.price else Min(lowestSell.value, offer.price));
        sellVolume := sellVolume + offer.size;
      } else {
        highestBuy := Max(highestBuy, offer.price);
        buyVolume := buyVolume + offer.size;
      }
    }
    assert filled[..|filled|] == filled;
    f := Flow(lowestSell, highestBuy, buyVolume, sellVolume, taken);
  }

  /** The block a scan of all offers and candles would produce at height h. */
  function ScannedBlock(offers: seq<Offer>, candles: seq<Candle>, minBlock: nat, h: nat): BuiltBlock
    requires |candles| > 0 && minBlock <= h
  {
    var flow := FlowOf(FilledAt(offers, h));
    BuiltBlock(BlockData(h, MidAt(candles, minBlock, h), flow.lowestSell, flow.highestBuy),
               flow.buyVolume, flow.sellVolume, |PostedAt(offers, h)|, flow.taken)
  }

  /** build_blocks: one block per height of the range, each equal to a full scan. Nothing is built
      without candles. */
  method BuildBlocks(offers: seq<Offer>, candles: seq<Candle>, estimatedBlocks: nat)
      returns (blocks: seq<BuiltBlock>, minBlock: nat, maxBlock: nat)
    ensures |candles| == 0 ==> blocks == []
    ensures |candles| > 0 ==>
              && Covers(offers, estimatedBlocks, minBlock, maxBlock)
              && |blocks| == maxBlock - minBlock + 1
              && forall k :: 0 <= k < |blocks| ==>
                   blocks[k] == ScannedBlock(offers, candles, minBlock, minBlock + k)
    ensures |candles| > 0 && (forall o :: o in offers && o.wasFilled ==> 0 < o.createdBlock <= o.filledBlock) ==>
              forall o :: o in offers && o.wasFilled ==> FillsWithin(o, minBlock, maxBlock)
  {
    hide FilledAt, PostedAt, FlowOf, LastCandleAt;
    blocks, minBlock, maxBlock := [], 0, 0;
    if |candles| == 0 {
      return;
    }
    minBlock, maxBlock := BlockRange(offers, estimatedBlocks);
    var byBlock, posted := IndexOffers(offers, minBlock, maxBlock);
    var candleByBlock := IndexCandles(candles);
    var lastCexMid := candles[0].close;
    for h := minBlock to maxBlock + 1
      invariant |blocks| == h - minBlock
      invariant lastCexMid == if h == minBlock then candles[0].close else MidAt(candles, minBlock, h - 1)
      invariant forall k :: 0 <= k < |blocks| ==>
                  blocks[k] == ScannedBlock(offers, candles, minBlock, minBlock + k)
    {
      if h in candleByBlock {
        var c := candleByBlock[h];
        lastCexMid := (c.open + c.close) / 2.0;
      }
      var flow := FlowLoop(Lookup(byBlock, h, []));
      blocks := blocks + [BuiltBlock(BlockData(h, lastCexMid, flow.lowestSell, flow.highestBuy),
                                     flow.buyVolume, flow.sellVolume, Lookup(posted, h, 0), flow.taken)];
    }
  }

  // ---------------------------------------------------------------- what the index promises

  /** A bid would fill in a built block iff some ask that filled at that height was offered at or
      below it. */
  lemma WouldFillBidIff(offers: seq<Offer>, candles: seq<Candle>, minBlock: nat, h: nat, ourBid: real)
    requires |candles| > 0 && minBlock <= h
    ensures WouldFillBid(ourBid, ScannedBlock(offers, candles, minBlock, h).data) <==>
            exists o :: o in offers && o.wasFilled && o.filledBlock == h && o.side.Ask? && o.price <= ourBid
  {
    FilterMembers(offers, (o: Offer) => FillsAt(o, h));
    FlowMeaning(FilledAt(offers, h));
    var flow := FlowOf(FilledAt(offers, h));
    if o :| o in offers && FillsAt(o, h) && o.side.Ask? && o.price <= ourBid {
      assert o in FilledAt(offers, h);
    }
  }

  /** An ask would fill iff some bid that filled at that height, at a positive price, reached it. */
  lemma WouldFillAskIff(offers: seq<Offer>, candles: seq<Candle>, minBlock: nat, h: nat, ourAsk: real)
    requires |candles| > 0 && minBlock <= h
    ensures WouldFillAsk(ourAsk, ScannedBlock(offers, candles, minBlock, h).data) <==>
            exists o :: && o in offers && o.wasFilled && o.filledBlock == h && o.side.Bid?
                        && o.price > 0.0 && o.price >= ourAsk
  {
    FilterMembers(offers, (o: Offer) => FillsAt(o, h));
    FlowMeaning(FilledAt(offers, h));
    var flow := FlowOf(FilledAt(offers, h));
    if o :| o in offers && FillsAt(o, h) && o.side.Bid? && o.price > 0.0 && o.price >= ourAsk {
      assert o in FilledAt(offers, h);
    }
  }

  /** Offers taken in the first n blocks from minBlock on. */
  function TakenSum(offers: seq<Offer>, candles: seq<Candle>, minBlock: nat, n: nat): nat
    requires |candles| > 0
  {
    if n == 0 then 0
    else TakenSum(offers, candles, minBlock, n - 1) + ScannedBlock(offers, candles, minBlock, minBlock + n - 1).taken
  }

  lemma {:induction false} FilledWithinSplits(offers: seq<Offer>, lo: nat, hi: nat)
    requires lo <= hi
    ensures |FilledWithin(offers, lo, hi)|
         == (if lo == hi then 0 else |FilledWithin(offers, lo, hi - 1)|) + |FilledAt(offers, hi)|
  {
    if |offers| > 0 {
      FilledWithinSplits(offers[..|offers| - 1], lo, hi);
    }
  }

  /** No filled offer in the range is lost or counted twice: the per-block counts add up to the
      number of offers filled within the blocks built. */
  lemma {:induction false} TakenAddsUp(offers: seq<Offer>, candles: seq<Candle>, minBlock: nat, n: nat)
    requires |candles| > 0 && n > 0
    ensures TakenSum(offers, candles, minBlock, n) == |FilledWithin(offers, minBlock, minBlock + n - 1)|
  {
    hide FilledWithin, FilledAt, MidAt, PostedAt;
    FlowMeaning(FilledAt(offers, minBlock + n - 1));
    FilledWithinSplits(offers, minBlock, minBlock + n - 1);
    if n > 1 {
      TakenAddsUp(offers, candles, minBlock, n - 1);
    } else {
      assert TakenSum(offers, candles, minBlock, 0) == 0;
    }
  }
}
