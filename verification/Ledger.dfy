/** The event-driven backtest of cpp/src/backtest.cpp:523-808: one run of simulate_range over a
    range of blocks, its cash and inventory ledger, and the laws every run obeys.

    The trading strategy is an arbitrary deterministic state machine; C++ doubles are reals. */
module Ledger {
  import opened Wrappers
  import opened RealFacts
  import Drawdown

  // ---------------------------------------------------------------- data

  datatype Side = Bid | Ask

  /** One simulation tick. lowestSell is None where the source stores infinity: no sell was taken. */
  datatype BlockData = BlockData(height: nat, cexMid: real, lowestSell: Option<real>, highestBuy: real)

  datatype Quote = Quote(bidPrice: real, askPrice: real, bidSize: real, askSize: real)

  datatype Strategy<!S> = Strategy(
    updatePrice: (S, real, nat) -> S,
    setCostBasis: (S, real, real) -> S,
    computeQuotes: (S, real, real, real, nat) -> (S, Quote))

  datatype Config = Config(
    initialCapital: real,
    marginBps: real,
    sigmas: seq<real>,
    sigmaMean: real,
    noLoss: bool)

  datatype Fill = Fill(block: nat, side: Side, price: real, size: real, cexMid: real,
                       costBasis: real, pnl: real, wasLoss: bool)

  /** Cash and inventory, with the weighted-average cost of what is held. */
  datatype Books = Books(cash: real, inventory: real, costBasis: real, totalCost: real,
                         grossProfit: real, grossLoss: real)

  /** The running counters of the source's result record. */
  datatype Counts = Counts(bidFills: nat, askFills: nat, losses: nat, adverse: nat)

  /** Everything the loop carries from one block to the next. */
  datatype Sim<S> = Sim(strategy: S, books: Books, counts: Counts, fills: seq<Fill>, equity: seq<real>,
                        rets: seq<real>, prevEquity: real, peakEquity: real, underwater: nat)

  datatype Report = Report(
    totalBlocks: nat, totalPnl: real, realizedPnl: real, unrealizedPnl: real,
    rets: seq<real>, maxDrawdown: real, profitFactor: Option<real>, fillRate: real,
    inventoryTurnover: real, adverseSelection: real, timeUnderwater: real,
    fillCount: nat, bidFills: nat, askFills: nat, lossTradeCount: nat,
    equityCurve: seq<real>, fills: seq<Fill>)

  // ---------------------------------------------------------------- fill conditions

  predicate WouldFillBid(ourBid: real, blk: BlockData) {
    match blk.lowestSell
    case None => false
    case Some(lowest) => ourBid >= lowest
  }

  predicate WouldFillAsk(ourAsk: real, blk: BlockData) {
    blk.highestBuy > 0.0 && ourAsk <= blk.highestBuy
  }

  // ---------------------------------------------------------------- one block

  function OpeningBooks(capital: real): Books {
    Books(capital, 0.0, 0.0, 0.0, 0.0, 0.0)
  }

  /** The lowest ask the no-loss constraint allows for a cost basis. */
  function AskFloor(costBasis: real, marginBps: real): real {
    costBasis * (1.0 + marginBps / 10000.0)
  }

  function EffectiveAsk(cfg: Config, b: Books, askPrice: real): real {
    if cfg.noLoss && b.inventory > 0.0 && b.costBasis > 0.0
    then Max(askPrice, AskFloor(b.costBasis, cfg.marginBps))
    else askPrice
  }

  predicate BuysIn(q: Quote, blk: BlockData) {
    WouldFillBid(q.bidPrice, blk) && q.bidSize > 0.0 && q.bidPrice > 0.0
  }

  function Buy(b: Books, price: real, size: real): Books {
    var newTotal := b.totalCost + price * size;
    var newInventory := b.inventory + size;
    b.(costBasis := if newInventory > 0.0 then newTotal / newInventory else 0.0,
       totalCost := newTotal, inventory := newInventory, cash := b.cash - price * size)
  }

  predicate SellsIn(b: Books, ask: real, askSize: real, blk: BlockData) {
    WouldFillAsk(ask, blk) && b.inventory > 0.0 && Min(askSize, b.inventory) > 0.0 && ask > 0.0
  }

  function Realized(b: Books, price: real, size: real): real {
    (price - b.costBasis) * size
  }

  function Sell(b: Books, price: real, size: real): Books
    requires b.inventory != 0.0
  {
    var realized := Realized(b, price, size);
    var newTotal := b.totalCost - b.totalCost * (size / b.inventory);
    var newInventory := b.inventory - size;
    Books(b.cash + price * size, newInventory,
          if newInventory > 0.0 then newTotal / newInventory else 0.0, newTotal,
          if realized >= 0.0 then b.grossProfit + realized else b.grossProfit,
          if realized >= 0.0 then b.grossLoss else b.grossLoss - realized)
  }

  /** The books between the bid and the ask of a block. */
  function AfterBid(b: Books, q: Quote, blk: BlockData): Books {
    if BuysIn(q, blk) then Buy(b, q.bidPrice, q.bidSize) else b
  }

  function AfterAsk(b1: Books, ask: real, askSize: real, blk: BlockData): Books {
    if SellsIn(b1, ask, askSize, blk) then Sell(b1, ask, Min(askSize, b1.inventory)) else b1
  }

  /** The books after one block's fills: the bid first, then the ask against the updated holdings,
      at an ask price that was fixed before the bid filled. */
  function Traded(cfg: Config, b: Books, q: Quote, blk: BlockData): Books {
    AfterAsk(AfterBid(b, q, blk), EffectiveAsk(cfg, b, q.askPrice), q.askSize, blk)
  }

  /** The purchase of a block, if any; b1 are the books after it. */
  function BidFills(b1: Books, q: Quote, blk: BlockData): seq<Fill> {
    if BuysIn(q, blk)
    then [Fill(blk.height, Bid, q.bidPrice, q.bidSize, blk.cexMid, b1.costBasis, 0.0, false)]
    else []
  }

  /** The sale of a block, if any; b1 are the books before it. */
  function AskFills(b1: Books, ask: real, askSize: real, blk: BlockData): seq<Fill> {
    if SellsIn(b1, ask, askSize, blk) then
      var size := Min(askSize, b1.inventory);
      var realized := Realized(b1, ask, size);
      [Fill(blk.height, Ask, ask, size, blk.cexMid, Sell(b1, ask, size).costBasis, realized, realized < 0.0)]
    else []
  }

  function BlockFills(cfg: Config, b: Books, q: Quote, blk: BlockData): seq<Fill> {
    var b1 := AfterBid(b, q, blk);
    BidFills(b1, q, blk) + AskFills(b1, EffectiveAsk(cfg, b, q.askPrice), q.askSize, blk)
  }

  /** A fill is adverse when the next block's mid moved against it. */
  predicate IsAdverse(f: Fill, nextMid: Option<real>) {
    nextMid.Some? && if f.side.Bid? then nextMid.value < f.price else nextMid.value > f.price
  }

  /** The counters after one more fill. */
  function Counted(c: Counts, f: Fill, nextMid: Option<real>): Counts {
    Counts(c.bidFills + if f.side.Bid? then 1 else 0,
           c.askFills + if f.side.Ask? then 1 else 0,
           c.losses + if f.wasLoss then 1 else 0,
           c.adverse + if IsAdverse(f, nextMid) then 1 else 0)
  }

  /** The counters after a block's fills, at most one on each side. */
  function CountedAll(c: Counts, fills: seq<Fill>, nextMid: Option<real>): Counts {
    if |fills| == 0 then c
    else Counted(CountedAll(c, fills[..|fills| - 1], nextMid), fills[|fills| - 1], nextMid)
  }

  function Sigma(cfg: Config, i: nat): real {
    if i < |cfg.sigmas| then cfg.sigmas[i] else cfg.sigmaMean
  }

  /** The strategy's answer for one block: observe the price, learn the basis, quote. */
  function Quoted<S>(strat: Strategy<S>, cfg: Config, s: S, b: Books, blk: BlockData, i: nat): (S, Quote) {
    var s1 := strat.updatePrice(s, blk.cexMid, blk.height);
    var s2 := if cfg.noLoss && b.inventory > 0.0
              then strat.setCostBasis(s1, b.costBasis, cfg.marginBps) else s1;
    strat.computeQuotes(s2, blk.cexMid, Sigma(cfg, i), b.inventory, blk.height)
  }

  function EquityOf(b: Books, mid: real): real {
    b.cash + b.inventory * mid
  }

  /** Close a block: mark to market and append to the equity and return series. */
  function Marked<S>(sim: Sim<S>, s: S, books: Books, fills: seq<Fill>, mid: real, nextMid: Option<real>): Sim<S> {
    var equity := EquityOf(books, mid);
    Sim(s, books, CountedAll(sim.counts, fills, nextMid), sim.fills + fills, sim.equity + [equity],
        if sim.prevEquity > 0.0 then sim.rets + [(equity - sim.prevEquity) / sim.prevEquity] else sim.rets,
        equity, Max(sim.peakEquity, equity),
        sim.underwater + if books.inventory * mid - books.totalCost < 0.0 then 1 else 0)
  }

  function StepBlock<S>(strat: Strategy<S>, cfg: Config, sim: Sim<S>, blk: BlockData,
                        nextMid: Option<real>, i: nat): Sim<S>
  {
    var (s, q) := Quoted(strat, cfg, sim.strategy, sim.books, blk, i);
    Marked(sim, s, Traded(cfg, sim.books, q, blk), BlockFills(cfg, sim.books, q, blk), blk.cexMid, nextMid)
  }

  function Opening<S>(s0: S, cfg: Config): Sim<S> {
    Sim(s0, OpeningBooks(cfg.initialCapital), Counts(0, 0, 0, 0), [], [], [],
        cfg.initialCapital, cfg.initialCapital, 0)
  }

  function NextMid(blocks: seq<BlockData>, i: nat, end: nat): Option<real>
    requires end <= |blocks|
  {
    if i + 1 < end then Some(blocks[i + 1].cexMid) else None
  }

  /** The simulation after the blocks in [start, i) of a run over [start, end). */
  function After<S>(strat: Strategy<S>, s0: S, cfg: Config, blocks: seq<BlockData>,
                    start: nat, i: nat, end: nat): Sim<S>
    requires start <= i <= end <= |blocks|
  {
    if i == start then Opening(s0, cfg)
    else StepBlock(strat, cfg, After(strat, s0, cfg, blocks, start, i - 1, end),
                   blocks[i - 1], NextMid(blocks, i - 1, end), i - 1)
  }

  // ---------------------------------------------------------------- report

  function CountSide(fills: seq<Fill>, side: Side): nat {
    if |fills| == 0 then 0
    else CountSide(fills[..|fills| - 1], side) + if fills[|fills| - 1].side == side then 1 else 0
  }

  function CountLosses(fills: seq<Fill>): nat {
    if |fills| == 0 then 0
    else CountLosses(fills[..|fills| - 1]) + if fills[|fills| - 1].wasLoss then 1 else 0
  }

  function SumPnl(fills: seq<Fill>): real {
    if |fills| == 0 then 0.0 else SumPnl(fills[..|fills| - 1]) + fills[|fills| - 1].pnl
  }

  /** Base units traded on one side. */
  function SumSize(fills: seq<Fill>, side: Side): real {
    if |fills| == 0 then 0.0
    else SumSize(fills[..|fills| - 1], side) + if fills[|fills| - 1].side == side then fills[|fills| - 1].size else 0.0
  }

  function SumVolume(fills: seq<Fill>): real {
    if |fills| == 0 then 0.0
    else SumVolume(fills[..|fills| - 1]) + fills[|fills| - 1].size * fills[|fills| - 1].price
  }

  function Fraction(part: real, whole: real): real {
    if whole > 0.0 then part / whole else 0.0
  }

  function ReportOf<S>(cfg: Config, sim: Sim<S>, lastMid: real, n: nat): Report {
    var b := sim.books;
    var fillCount := sim.counts.bidFills + sim.counts.askFills;
    var finalEquity := if |sim.equity| == 0 then cfg.initialCapital else sim.equity[|sim.equity| - 1];
    var totalPnl := finalEquity - cfg.initialCapital;
    var unrealized := if b.inventory > 0.0 then b.inventory * lastMid - b.totalCost else 0.0;
    Report(n, totalPnl, totalPnl - unrealized, unrealized, sim.rets,
           Drawdown.MaxDrawdown(sim.equity),
           if b.grossLoss > 0.0 then Some(b.grossProfit / b.grossLoss) else None,
           Fraction(fillCount as real, n as real),
           Fraction(SumVolume(sim.fills), (cfg.initialCapital + sim.peakEquity) / 2.0),
           Fraction(sim.counts.adverse as real, fillCount as real),
           Fraction(sim.underwater as real, n as real),
           fillCount, sim.counts.bidFills, sim.counts.askFills, sim.counts.losses,
           sim.equity, sim.fills)
  }

  lemma CountsSnoc(fills: seq<Fill>, f: Fill)
    ensures CountSide(fills + [f], Bid) == CountSide(fills, Bid) + (if f.side.Bid? then 1 else 0)
    ensures CountSide(fills + [f], Ask) == CountSide(fills, Ask) + (if f.side.Ask? then 1 else 0)
    ensures CountLosses(fills + [f]) == CountLosses(fills) + (if f.wasLoss then 1 else 0)
    ensures SumPnl(fills + [f]) == SumPnl(fills) + f.pnl
    ensures SumSize(fills + [f], Bid) == SumSize(fills, Bid) + (if f.side.Bid? then f.size else 0.0)
    ensures SumSize(fills + [f], Ask) == SumSize(fills, Ask) + (if f.side.Ask? then f.size else 0.0)
    ensures SumVolume(fills + [f]) == SumVolume(fills) + f.size * f.price
  {
    var all := fills + [f];
    assert all[..|all| - 1] == fills;
  }

  /** The ledger update of a purchase: the basis becomes the weighted average cost. */
  method BuyUnits(b: Books, fillPrice: real, fillSize: real) returns (b1: Books)
    ensures b1 == Buy(b, fillPrice, fillSize)
  {
    var newTotalCost := b.totalCost + fillPrice * fillSize;
    var newInventory := b.inventory + fillSize;
    var costBasis := if newInventory > 0.0 then newTotalCost / newInventory else 0.0;
    var cash := b.cash - fillPrice * fillSize;
    b1 := b.(costBasis := costBasis, totalCost := newTotalCost, inventory := newInventory, cash := cash);
  }

  /** The ledger update of a sale: proportional cost drawdown, profit or loss against the basis. */
  method SellUnits(b: Books, fillPrice: real, fillSize: real) returns (b1: Books, realized: real)
    requires b.inventory != 0.0
    ensures realized == Realized(b, fillPrice, fillSize)
    ensures b1 == Sell(b, fillPrice, fillSize)
  {
    realized := (fillPrice - b.costBasis) * fillSize;
    var removedFraction := fillSize / b.inventory;
    var totalCost := b.totalCost - b.totalCost * removedFraction;
    var inventory := b.inventory - fillSize;
    var cash := b.cash + fillPrice * fillSize;
    var costBasis := if inventory > 0.0 then totalCost / inventory else 0.0;
    var grossProfit, grossLoss := b.grossProfit, b.grossLoss;
    if realized >= 0.0 {
      grossProfit := grossProfit + realized;
    } else {
      grossLoss := grossLoss - realized;
    }
    b1 := Books(cash, inventory, costBasis, totalCost, grossProfit, grossLoss);
  }

  /** A purchase between two states of the books: units against cash, the price added to the cost, the basis
      the cost per unit, no profit or loss. */
  ghost predicate IsPurchase(b: Books, b1: Books, f: Fill) {
    && f.side.Bid? && f.size > 0.0 && f.price > 0.0 && f.pnl == 0.0 && !f.wasLoss && f.costBasis == b1.costBasis
    && b1.inventory == b.inventory + f.size
    && b1.cash == b.cash - f.price * f.size
    && b1.cash + b1.totalCost == b.cash + b.totalCost
    && (if b1.inventory > 0.0 then b1.costBasis * b1.inventory == b1.totalCost else b1.costBasis == 0.0)
    && b1.grossProfit == b.grossProfit && b1.grossLoss == b.grossLoss
  }

  /** A sale: never more than is held, cash for units, the cost released in proportion, and the difference
      between price and basis booked as profit or as loss. */
  ghost predicate IsSale(b: Books, b1: Books, f: Fill) {
    && f.side.Ask? && 0.0 < f.size <= b.inventory && f.price > 0.0 && f.costBasis == b1.costBasis
    && f.pnl == (f.price - b.costBasis) * f.size && (f.wasLoss <==> f.pnl < 0.0)
    && b1.inventory == b.inventory - f.size
    && b1.cash == b.cash + f.price * f.size
    && b1.totalCost * b.inventory == b.totalCost * b1.inventory
    && (if b1.inventory > 0.0 then b1.costBasis * b1.inventory == b1.totalCost else b1.costBasis == 0.0)
    && b1.grossProfit - b1.grossLoss == b.grossProfit - b.grossLoss + f.pnl
    && (if f.wasLoss then b1.grossProfit == b.grossProfit else b1.grossLoss == b.grossLoss)
  }

  lemma BuyIsPurchase(b: Books, price: real, size: real, height: nat, mid: real)
    requires price > 0.0 && size > 0.0
    ensures var b1 := Buy(b, price, size);
            IsPurchase(b, b1, Fill(height, Bid, price, size, mid, b1.costBasis, 0.0, false))
  {
    var b1 := Buy(b, price, size);
    if b1.inventory > 0.0 {
      DivCancel(b1.totalCost, b1.inventory);
    }
  }

  lemma SellIsSale(b: Books, price: real, size: real, height: nat, mid: real)
    requires price > 0.0 && 0.0 < size <= b.inventory
    ensures var b1, pnl := Sell(b, price, size), Realized(b, price, size);
            IsSale(b, b1, Fill(height, Ask, price, size, mid, b1.costBasis, pnl, pnl < 0.0))
  {
    var b1 := Sell(b, price, size);
    if b1.inventory > 0.0 {
      DivCancel(b1.totalCost, b1.inventory);
    }
    CostInProportion(b.totalCost, b.inventory, size);
  }

  lemma CostInProportion(cost: real, held: real, sold: real)
    requires held > 0.0
    ensures (cost - cost * (sold / held)) * held == cost * (held - sold)
  {
    var part := sold / held;
    DivCancel(sold, held);
    assert cost * part * held == cost * (part * held);
    assert (cost - cost * part) * held == cost * held - cost * part * held;
  }

  /** The bid half of a block: a purchase of the quoted size at our bid exactly when a taker sold at or below
      it, and otherwise nothing. */
  method FillBid(b: Books, quotes: Quote, blk: BlockData) returns (b1: Books, fills: seq<Fill>)
    ensures |fills| <= 1
    ensures |fills| == 1 <==> blk.lowestSell.Some? && blk.lowestSell.value <= quotes.bidPrice
                              && quotes.bidSize > 0.0 && quotes.bidPrice > 0.0
    ensures |fills| == 0 ==> b1 == b
    ensures |fills| == 1 ==> IsPurchase(b, b1, fills[0]) && fills[0].price == quotes.bidPrice
                             && fills[0].size == quotes.bidSize && fills[0].block == blk.height
                             && fills[0].cexMid == blk.cexMid
    ensures b1 == AfterBid(b, quotes, blk) && fills == BidFills(b1, quotes, blk)
  {
    if quotes.bidSize > 0.0 && quotes.bidPrice > 0.0 {
      BuyIsPurchase(b, quotes.bidPrice, quotes.bidSize, blk.height, blk.cexMid);
    }
    hide Buy, IsPurchase;
    b1, fills := b, [];
    var effectiveBid := quotes.bidPrice;
    if WouldFillBid(effectiveBid, blk) {
      var fillPrice, fillSize := effectiveBid, quotes.bidSize;
      if fillSize > 0.0 && fillPrice > 0.0 {
        b1 := BuyUnits(b, fillPrice, fillSize);
        fills := [Fill(blk.height, Bid, fillPrice, fillSize, blk.cexMid, b1.costBasis, 0.0, false)];
      }
    }
  }

  /** The ask half of a block: a sale at our ask, of the quoted size or all that is held, exactly when a
      taker bought at or above it and something is held; otherwise nothing. */
  method FillAsk(b: Books, effectiveAsk: real, askSize: real, blk: BlockData)
      returns (b1: Books, fills: seq<Fill>)
    ensures |fills| <= 1
    ensures |fills| == 1 <==> 0.0 < effectiveAsk <= blk.highestBuy && b.inventory > 0.0 && askSize > 0.0
    ensures |fills| == 0 ==> b1 == b
    ensures |fills| == 1 ==> IsSale(b, b1, fills[0]) && fills[0].price == effectiveAsk
                             && fills[0].size == Min(askSize, b.inventory) && fills[0].block == blk.height
                             && fills[0].cexMid == blk.cexMid
    ensures b1 == AfterAsk(b, effectiveAsk, askSize, blk) && fills == AskFills(b, effectiveAsk, askSize, blk)
  {
    if effectiveAsk > 0.0 && askSize > 0.0 && b.inventory > 0.0 {
      SellIsSale(b, effectiveAsk, Min(askSize, b.inventory), blk.height, blk.cexMid);
    }
    hide Sell, Realized, IsSale;
    b1, fills := b, [];
    if WouldFillAsk(effectiveAsk, blk) && b.inventory > 0.0 {
      var fillPrice := effectiveAsk;
      var fillSize := Min(askSize, b.inventory);
      if fillSize > 0.0 && fillPrice > 0.0 {
        var sold, realized := SellUnits(b, fillPrice, fillSize);
        b1 := sold;
        fills := [Fill(blk.height, Ask, fillPrice, fillSize, blk.cexMid, b1.costBasis, realized, realized < 0.0)];
      }
    }
  }

  /** Raise the ask to the floor the cost basis demands: the least price that is neither below the quoted ask
      nor, where the constraint applies, below the basis plus the margin. */
  method ApplyNoLoss(cfg: Config, b: Books, askPrice: real) returns (effectiveAsk: real)
    ensures effectiveAsk >= askPrice
    ensures var floor := b.costBasis + b.costBasis * cfg.marginBps / 10000.0;
            if cfg.noLoss && b.inventory > 0.0 && b.costBasis > 0.0
            then effectiveAsk >= floor && (effectiveAsk == askPrice || effectiveAsk == floor)
            else effectiveAsk == askPrice
    ensures effectiveAsk == EffectiveAsk(cfg, b, askPrice)
  {
    assert AskFloor(b.costBasis, cfg.marginBps) == b.costBasis + b.costBasis * cfg.marginBps / 10000.0;
    effectiveAsk := askPrice;
    if cfg.noLoss && b.inventory > 0.0 && b.costBasis > 0.0 {
      var minAsk := b.costBasis * (1.0 + cfg.marginBps / 10000.0);
      effectiveAsk := Max(effectiveAsk, minAsk);
    }
  }

  /** Steps 5 and 6 of the loop body: fix the ask, then fill the bid, then the ask. */
  method TradeBlock(cfg: Config, b: Books, quotes: Quote, blk: BlockData)
      returns (b2: Books, fills: seq<Fill>)
    ensures b2 == Traded(cfg, b, quotes, blk)
    ensures fills == BlockFills(cfg, b, quotes, blk)
  {
    var effectiveAsk := ApplyNoLoss(cfg, b, quotes.askPrice);
    var b1, bought := FillBid(b, quotes, blk);
    var b', sold := FillAsk(b1, effectiveAsk, quotes.askSize, blk);
    b2 := b';
    fills := bought + sold;
  }

  /** The fill counters, including the adverse-selection check against the next block's mid. */
  method CountFills(c: Counts, fills: seq<Fill>, nextMid: Option<real>) returns (counts: Counts)
    ensures counts == CountedAll(c, fills, nextMid)
  {
    counts := c;
    for k := 0 to |fills|
      invariant counts == CountedAll(c, fills[..k], nextMid)
    {
      assert fills[..k + 1][..k] == fills[..k];
      counts := Counted(counts, fills[k], nextMid);
    }
    assert fills[..|fills|] == fills;
  }

  /** Step 7: equity, peak, time underwater and the per-block return. */
  method MarkToMarket<S>(sim: Sim<S>, s: S, b: Books, fills: seq<Fill>, mid: real, nextMid: Option<real>)
      returns (next: Sim<S>)
    ensures next == Marked(sim, s, b, fills, mid, nextMid)
  {
    var mtmValue := b.inventory * mid;
    var equity := b.cash + mtmValue;
    var unrealized := mtmValue - b.totalCost;
    var peakEquity, underwater, rets := sim.peakEquity, sim.underwater, sim.rets;
    if equity > peakEquity {
      peakEquity := equity;
    }
    if unrealized < 0.0 {
      underwater := underwater + 1;
    }
    if sim.prevEquity > 0.0 {
      rets := rets + [(equity - sim.prevEquity) / sim.prevEquity];
    }
    var counts := CountFills(sim.counts, fills, nextMid);
    next := Sim(s, b, counts, sim.fills + fills, sim.equity + [equity], rets, equity, peakEquity, underwater);
  }

  /** One iteration of the main loop. */
  method SimulateBlock<S>(strat: Strategy<S>, cfg: Config, sim: Sim<S>, blk: BlockData,
                          nextMid: Option<real>, i: nat) returns (next: Sim<S>)
    ensures next == StepBlock(strat, cfg, sim, blk, nextMid, i)
  {
    var b := sim.books;
    var strategy := strat.updatePrice(sim.strategy, blk.cexMid, blk.height);
    if cfg.noLoss && b.inventory > 0.0 {
      strategy := strat.setCostBasis(strategy, b.costBasis, cfg.marginBps);
    }
    var sigma := if i < |cfg.sigmas| then cfg.sigmas[i] else cfg.sigmaMean;
    var (strategy', quotes) := strat.computeQuotes(strategy, blk.cexMid, sigma, b.inventory, blk.height);
    var b2, fills := TradeBlock(cfg, b, quotes, blk);
    next := MarkToMarket(sim, strategy', b2, fills, blk.cexMid, nextMid);
  }

  method TotalVolume(fills: seq<Fill>) returns (total: real)
    ensures total == SumVolume(fills)
  {
    total := 0.0;
    for k := 0 to |fills|
      invariant total == SumVolume(fills[..k])
    {
      CountsSnoc(fills[..k], fills[k]);
      assert fills[..k + 1] == fills[..k] + [fills[k]];
      total := total + fills[k].size * fills[k].price;
    }
    assert fills[..|fills|] == fills;
  }

  /** The closing metrics of a run. */
  method Summarise<S>(cfg: Config, sim: Sim<S>, lastMid: real, nBlocks: nat) returns (report: Report)
    ensures report == ReportOf(cfg, sim, lastMid, nBlocks)
  {
    var b := sim.books;
    var fillCount := sim.counts.bidFills + sim.counts.askFills;
    var finalEquity := if |sim.equity| == 0 then cfg.initialCapital else sim.equity[|sim.equity| - 1];
    var totalPnl := finalEquity - cfg.initialCapital;
    var unrealizedPnl := if b.inventory > 0.0 then b.inventory * lastMid - b.totalCost else 0.0;
    var maxDrawdown := Drawdown.ComputeMaxDrawdown(sim.equity);
    var profitFactor := if b.grossLoss > 0.0 then Some(b.grossProfit / b.grossLoss) else None;
    var totalVolume := TotalVolume(sim.fills);
    report := Report(nBlocks, totalPnl, totalPnl - unrealizedPnl, unrealizedPnl, sim.rets, maxDrawdown, profitFactor,
                     Fraction(fillCount as real, nBlocks as real),
                     Fraction(totalVolume, (cfg.initialCapital + sim.peakEquity) / 2.0),
                     Fraction(sim.counts.adverse as real, fillCount as real),
                     Fraction(sim.underwater as real, nBlocks as real),
                     fillCount, sim.counts.bidFills, sim.counts.askFills, sim.counts.losses,
                     sim.equity, sim.fills);
  }

  /** The loop of simulate_range over a non-empty range. */
  method SimulateBlocks<S>(strat: Strategy<S>, s0: S, cfg: Config, blocks: seq<BlockData>,
                           startIdx: nat, endIdx: nat) returns (sim: Sim<S>)
    requires startIdx < endIdx <= |blocks|
    ensures sim == After(strat, s0, cfg, blocks, startIdx, endIdx, endIdx)
  {
    hide StepBlock;
    sim := Opening(s0, cfg);
    for i := startIdx to endIdx
      invariant sim == After(strat, s0, cfg, blocks, startIdx, i, endIdx)
    {
      var nextMid := if i + 1 < endIdx then Some(blocks[i + 1].cexMid) else None;
      sim := SimulateBlock(strat, cfg, sim, blocks[i], nextMid, i);
    }
  }

  /** simulate_range. An empty or overlong range is refused; otherwise the report is the one the
      block-by-block semantics above assigns to the range. */
  method SimulateRange<S>(strat: Strategy<S>, s0: S, cfg: Config, blocks: seq<BlockData>,
                          startIdx: nat, endIdx: nat) returns (r: Result<Report, string>)
    ensures r.Failure? <==> startIdx >= endIdx || endIdx > |blocks|
    ensures r.Success? ==>
              r.value == ReportOf(cfg, After(strat, s0, cfg, blocks, startIdx, endIdx, endIdx),
                                  blocks[endIdx - 1].cexMid, endIdx - startIdx)
  {
    hide ReportOf, StepBlock, Opening;
    if startIdx >= endIdx {
      return Failure("start_idx must be < end_idx");
    }
    if endIdx > |blocks| {
      return Failure("end_idx must be <= blocks_.size()");
    }
    var sim := SimulateBlocks(strat, s0, cfg, blocks, startIdx, endIdx);
    var report := Summarise(cfg, sim, blocks[endIdx - 1].cexMid, endIdx - startIdx);
    return Success(report);
  }
}
