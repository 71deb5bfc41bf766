/** What every backtest run obeys: conservation of value, and the exact reach of the
    never-sell-at-a-loss constraint. */
module LedgerLaws {
  import opened Wrappers
  import opened RealFacts
  import opened Ledger

  // ---------------------------------------------------------------- the ledger invariant

  /** Inventory is never negative and is carried at exactly its weighted-average cost, which is
      positive while anything is held; nothing held costs nothing. */
  ghost predicate ValidBooks(b: Books) {
    && b.inventory >= 0.0
    && b.totalCost == b.costBasis * b.inventory
    && (b.inventory > 0.0 ==> b.costBasis > 0.0)
    && (b.inventory == 0.0 ==> b.costBasis == 0.0)
  }

  /** Money is neither made nor lost except through realised profit and loss. */
  ghost predicate Balanced(b: Books, capital: real) {
    && b.grossProfit >= 0.0 && b.grossLoss >= 0.0
    && b.cash + b.totalCost == capital + b.grossProfit - b.grossLoss
  }

  /** Pooling m units at c with n units at p costs between c and p a unit. */
  lemma WeightedAverage(c: real, m: real, p: real, n: real, total: real)
    requires m >= 0.0 && n > 0.0 && total == c * m + p * n
    ensures m == 0.0 ==> total / (m + n) == p
    ensures Min(c, p) <= total / (m + n) <= Max(c, p)
    ensures (total / (m + n)) * (m + n) == total
  {
    var lo, hi := Min(c, p), Max(c, p);
    DivCancel(total, m + n);
    if m == 0.0 {
      DivUnique(p, total, m + n);
    }
    MulMonotone(lo, c, m);
    MulMonotone(c, hi, m);
    MulMonotone(lo, p, n);
    MulMonotone(p, hi, n);
    AverageBounds(total, m, n, lo, hi);
  }

  lemma AverageBounds(total: real, m: real, n: real, lo: real, hi: real)
    requires m + n > 0.0
    requires lo * m + lo * n <= total <= hi * m + hi * n
    ensures lo <= total / (m + n) <= hi
  {
    assert lo * (m + n) <= total <= hi * (m + n);
    DivBounds(total, m + n, lo, hi);
  }

  /** A purchase averages the basis between the old basis and the price paid. */
  lemma BuyAverages(b: Books, price: real, size: real)
    requires ValidBooks(b) && price > 0.0 && size > 0.0
    ensures ValidBooks(Buy(b, price, size))
    ensures Buy(b, price, size).totalCost == b.totalCost + price * size
    ensures Buy(b, price, size).inventory == b.inventory + size
    ensures b.inventory == 0.0 ==> Buy(b, price, size).costBasis == price
    ensures b.inventory > 0.0 ==>
              Min(b.costBasis, price) <= Buy(b, price, size).costBasis <= Max(b.costBasis, price)
  {
    WeightedAverage(b.costBasis, b.inventory, price, size, b.totalCost + price * size);
  }

  /** The cost drawn down by a sale is the basis times the size, whatever the price. */
  lemma DrawdownOfCost(costBasis: real, inventory: real, size: real)
    requires inventory > 0.0
    ensures (costBasis * inventory) * (size / inventory) == costBasis * size
  {
    DivCancel(size, inventory);
    var f := size / inventory;
    assert costBasis * inventory * f == costBasis * (f * inventory);
  }

  /** A sale leaves the basis of what remains untouched and turns the difference to the price into
      realised profit or loss. */
  lemma SellKeepsBasis(b: Books, price: real, size: real)
    requires ValidBooks(b) && 0.0 < size <= b.inventory
    ensures ValidBooks(Sell(b, price, size))
    ensures Sell(b, price, size).totalCost == b.totalCost - b.costBasis * size
    ensures size < b.inventory ==> Sell(b, price, size).costBasis == b.costBasis
    ensures size == b.inventory ==> Sell(b, price, size).totalCost == 0.0
  {
    DrawdownOfCost(b.costBasis, b.inventory, size);
    var rest := b.inventory - size;
    assert b.totalCost - b.costBasis * size == b.costBasis * rest;
    if rest > 0.0 {
      DivUnique(b.costBasis, b.costBasis * rest, rest);
    }
  }

  lemma SellBalances(b: Books, price: real, size: real, capital: real)
    requires ValidBooks(b) && 0.0 < size <= b.inventory && Balanced(b, capital)
    ensures Balanced(Sell(b, price, size), capital)
  {
    SellKeepsBasis(b, price, size);
    ProceedsSplit(price, b.costBasis, size);
  }

  lemma ProceedsSplit(price: real, basis: real, size: real)
    ensures price * size - basis * size == (price - basis) * size
  {
  }

  // ---------------------------------------------------------------- one block

  lemma AfterBidKeeps(b: Books, q: Quote, blk: BlockData, capital: real)
    requires ValidBooks(b) && Balanced(b, capital)
    ensures ValidBooks(AfterBid(b, q, blk)) && Balanced(AfterBid(b, q, blk), capital)
  {
    if BuysIn(q, blk) {
      BuyAverages(b, q.bidPrice, q.bidSize);
    }
  }

  lemma TradedKeeps(cfg: Config, b: Books, q: Quote, blk: BlockData, capital: real)
    requires ValidBooks(b) && Balanced(b, capital)
    ensures ValidBooks(Traded(cfg, b, q, blk)) && Balanced(Traded(cfg, b, q, blk), capital)
  {
    AfterBidKeeps(b, q, blk, capital);
    var b1 := AfterBid(b, q, blk);
    var ask := EffectiveAsk(cfg, b, q.askPrice);
    if SellsIn(b1, ask, q.askSize, blk) {
      SellBalances(b1, ask, Min(q.askSize, b1.inventory), capital);
      SellKeepsBasis(b1, ask, Min(q.askSize, b1.inventory));
    }
  }

  /** What the fills of one block add up to. */
  ghost predicate FillsExplain(b: Books, b2: Books, fills: seq<Fill>) {
    && b2.inventory == b.inventory + SumSize(fills, Bid) - SumSize(fills, Ask)
    && b2.grossProfit - b2.grossLoss == b.grossProfit - b.grossLoss + SumPnl(fills)
    && b2.grossLoss >= b.grossLoss
    && (b2.grossLoss == b.grossLoss <==> CountLosses(fills) == 0)
  }

  lemma SingleFill(f: Fill)
    ensures CountSide([f], Bid) == (if f.side.Bid? then 1 else 0)
    ensures CountSide([f], Ask) == (if f.side.Ask? then 1 else 0)
    ensures CountLosses([f]) == (if f.wasLoss then 1 else 0)
    ensures SumPnl([f]) == f.pnl
    ensures SumSize([f], Bid) == (if f.side.Bid? then f.size else 0.0)
    ensures SumSize([f], Ask) == (if f.side.Ask? then f.size else 0.0)
  {
    CountsSnoc([], f);
    assert [] + [f] == [f];
  }

  lemma BidFillsExplain(b: Books, q: Quote, blk: BlockData)
    ensures FillsExplain(b, AfterBid(b, q, blk), BidFills(AfterBid(b, q, blk), q, blk))
  {
    if BuysIn(q, blk) {
      SingleFill(BidFills(AfterBid(b, q, blk), q, blk)[0]);
    }
  }

  lemma AskFillsExplain(b1: Books, ask: real, askSize: real, blk: BlockData)
    ensures FillsExplain(b1, AfterAsk(b1, ask, askSize, blk), AskFills(b1, ask, askSize, blk))
  {
    if SellsIn(b1, ask, askSize, blk) {
      SingleFill(AskFills(b1, ask, askSize, blk)[0]);
    }
  }

  lemma BlockFillsExplain(cfg: Config, b: Books, q: Quote, blk: BlockData)
    ensures FillsExplain(b, Traded(cfg, b, q, blk), BlockFills(cfg, b, q, blk))
  {
    var b1, ask := AfterBid(b, q, blk), EffectiveAsk(cfg, b, q.askPrice);
    BidFillsExplain(b, q, blk);
    AskFillsExplain(b1, ask, q.askSize, blk);
    ExplainTransitive(b, b1, AfterAsk(b1, ask, q.askSize, blk), BidFills(b1, q, blk),
                      AskFills(b1, ask, q.askSize, blk));
  }

  lemma ExplainTransitive(b0: Books, b1: Books, b2: Books, f1: seq<Fill>, f2: seq<Fill>)
    requires FillsExplain(b0, b1, f1) && FillsExplain(b1, b2, f2)
    ensures FillsExplain(b0, b2, f1 + f2)
  {
    TotalsConcat(f1, f2);
  }

  /** Fills concatenate: their totals add. */
  lemma {:induction false} TotalsConcat(a: seq<Fill>, b: seq<Fill>)
    ensures CountSide(a + b, Bid) == CountSide(a, Bid) + CountSide(b, Bid)
    ensures CountSide(a + b, Ask) == CountSide(a, Ask) + CountSide(b, Ask)
    ensures CountLosses(a + b) == CountLosses(a) + CountLosses(b)
    ensures SumPnl(a + b) == SumPnl(a) + SumPnl(b)
    ensures SumSize(a + b, Bid) == SumSize(a, Bid) + SumSize(b, Bid)
    ensures SumSize(a + b, Ask) == SumSize(a, Ask) + SumSize(b, Ask)
  {
    if |b| == 0 {
      assert a + b == a;
    } else {
      var b', f := b[..|b| - 1], b[|b| - 1];
      TotalsConcat(a, b');
      assert b == b' + [f];
      assert a + b == (a + b') + [f];
      CountsSnoc(a + b', f);
      CountsSnoc(b', f);
    }
  }

  /** Every fill trades at a price some taker in that block accepted: our own bid, or our ask at or
      above the quoted one. */
  ghost predicate IsExecutable(f: Fill, q: Quote, blk: BlockData) {
    && f.block == blk.height && f.price > 0.0 && f.size > 0.0
    && (f.wasLoss <==> f.pnl < 0.0)
    && match f.side
       case Bid => f.price == q.bidPrice && f.size == q.bidSize && f.pnl == 0.0
                   && blk.lowestSell.Some? && blk.lowestSell.value <= f.price
       case Ask => q.askPrice <= f.price <= blk.highestBuy && f.size <= q.askSize
  }

  lemma FillsAreExecutable(cfg: Config, b: Books, q: Quote, blk: BlockData)
    ensures forall f :: f in BlockFills(cfg, b, q, blk) ==> IsExecutable(f, q, blk)
    ensures |BlockFills(cfg, b, q, blk)| <= 2
  {
  }

  // ---------------------------------------------------------------- whole runs

  ghost predicate RunInvariant<S>(sim: Sim<S>, capital: real) {
    && ValidBooks(sim.books)
    && Balanced(sim.books, capital)
    && FillsExplain(OpeningBooks(capital), sim.books, sim.fills)
    && sim.counts.bidFills == CountSide(sim.fills, Bid)
    && sim.counts.askFills == CountSide(sim.fills, Ask)
    && sim.counts.losses == CountLosses(sim.fills)
    && |sim.fills| == sim.counts.bidFills + sim.counts.askFills
    && sim.peakEquity >= capital
    && (forall e :: e in sim.equity ==> e <= sim.peakEquity)
  }

  /** The running counters tally the fill log. */
  lemma {:induction false} CountersTally(c: Counts, fills: seq<Fill>, nextMid: Option<real>)
    ensures CountedAll(c, fills, nextMid).bidFills == c.bidFills + CountSide(fills, Bid)
    ensures CountedAll(c, fills, nextMid).askFills == c.askFills + CountSide(fills, Ask)
    ensures CountedAll(c, fills, nextMid).losses == c.losses + CountLosses(fills)
    ensures CountSide(fills, Bid) + CountSide(fills, Ask) == |fills|
  {
    if |fills| > 0 {
      CountersTally(c, fills[..|fills| - 1], nextMid);
    }
  }

  lemma StepKeepsInvariant<S>(strat: Strategy<S>, cfg: Config, sim: Sim<S>, blk: BlockData,
                              nextMid: Option<real>, i: nat)
    requires RunInvariant(sim, cfg.initialCapital)
    ensures RunInvariant(StepBlock(strat, cfg, sim, blk, nextMid, i), cfg.initialCapital)
  {
    hide Traded, BlockFills, Marked;
    var (s, q) := Quoted(strat, cfg, sim.strategy, sim.books, blk, i);
    var fills := BlockFills(cfg, sim.books, q, blk);
    var b2 := Traded(cfg, sim.books, q, blk);
    TradedKeeps(cfg, sim.books, q, blk, cfg.initialCapital);
    BlockFillsExplain(cfg, sim.books, q, blk);
    MarkKeepsInvariant(sim, s, b2, fills, blk.cexMid, nextMid, cfg.initialCapital);
  }

  lemma MarkKeepsInvariant<S>(sim: Sim<S>, s: S, b2: Books, fills: seq<Fill>, mid: real,
                              nextMid: Option<real>, capital: real)
    requires RunInvariant(sim, capital)
    requires ValidBooks(b2) && Balanced(b2, capital) && FillsExplain(sim.books, b2, fills)
    ensures RunInvariant(Marked(sim, s, b2, fills, mid, nextMid), capital)
  {
    hide EquityOf;
    ExplainTransitive(OpeningBooks(capital), sim.books, b2, sim.fills, fills);
    TotalsConcat(sim.fills, fills);
    CountersTally(sim.counts, fills, nextMid);
  }

  lemma OpeningKeepsInvariant<S>(s0: S, cfg: Config)
    ensures RunInvariant(Opening(s0, cfg), cfg.initialCapital)
  {
  }

  lemma {:induction false} RunKeepsInvariant<S>(strat: Strategy<S>, s0: S, cfg: Config, blocks: seq<BlockData>,
                                                start: nat, i: nat, end: nat)
    requires start <= i <= end <= |blocks|
    ensures RunInvariant(After(strat, s0, cfg, blocks, start, i, end), cfg.initialCapital)
  {
    hide StepBlock, RunInvariant;
    OpeningKeepsInvariant(s0, cfg);
    if i > start {
      RunKeepsInvariant(strat, s0, cfg, blocks, start, i - 1, end);
      StepKeepsInvariant(strat, cfg, After(strat, s0, cfg, blocks, start, i - 1, end),
                         blocks[i - 1], NextMid(blocks, i - 1, end), i - 1);
    }
  }

  /** The equity curve ends with the books marked at mid. */
  ghost predicate MarkedAt<S>(sim: Sim<S>, mid: real) {
    |sim.equity| > 0 && sim.equity[|sim.equity| - 1] == EquityOf(sim.books, mid)
  }

  lemma StepMarks<S>(strat: Strategy<S>, cfg: Config, sim: Sim<S>, blk: BlockData, nextMid: Option<real>, i: nat)
    ensures MarkedAt(StepBlock(strat, cfg, sim, blk, nextMid, i), blk.cexMid)
  {
    hide Marked, MarkedAt, Traded, BlockFills;
    var (s, q) := Quoted(strat, cfg, sim.strategy, sim.books, blk, i);
    MarkMarks(sim, s, Traded(cfg, sim.books, q, blk), BlockFills(cfg, sim.books, q, blk), blk.cexMid, nextMid);
  }

  lemma RunMarks<S>(strat: Strategy<S>, s0: S, cfg: Config, blocks: seq<BlockData>, start: nat, i: nat, end: nat)
    requires start < i <= end <= |blocks|
    ensures MarkedAt(After(strat, s0, cfg, blocks, start, i, end), blocks[i - 1].cexMid)
  {
    hide StepBlock, MarkedAt;
    StepMarks(strat, cfg, After(strat, s0, cfg, blocks, start, i - 1, end), blocks[i - 1],
              NextMid(blocks, i - 1, end), i - 1);
  }

  lemma MarkMarks<S>(sim: Sim<S>, s: S, b: Books, fills: seq<Fill>, mid: real, nextMid: Option<real>)
    ensures MarkedAt(Marked(sim, s, b, fills, mid, nextMid), mid)
  {
  }

  /** What a report says of a ledger that satisfies the run invariant. */
  ghost predicate ReportAddsUp<S>(cfg: Config, sim: Sim<S>, report: Report) {
    && sim.books.inventory == SumSize(report.fills, Bid) - SumSize(report.fills, Ask) >= 0.0
    && sim.books.totalCost == sim.books.costBasis * sim.books.inventory
    && sim.books.cash + sim.books.totalCost == cfg.initialCapital + sim.books.grossProfit - sim.books.grossLoss
    && report.realizedPnl == SumPnl(report.fills)
    && report.totalPnl == report.realizedPnl + report.unrealizedPnl
    && report.fillCount == |report.fills| == report.bidFills + report.askFills
    && report.bidFills == CountSide(report.fills, Bid)
    && report.lossTradeCount == CountLosses(report.fills)
    && (report.profitFactor.None? <==> report.lossTradeCount == 0)
  }

  lemma ReportBalances<S>(cfg: Config, sim: Sim<S>, lastMid: real, n: nat)
    requires RunInvariant(sim, cfg.initialCapital) && MarkedAt(sim, lastMid)
    ensures ReportAddsUp(cfg, sim, ReportOf(cfg, sim, lastMid, n))
  {
    hide Fraction, SumVolume;
  }

  /** Conservation over every run: the report's realised PnL, computed from equity and mark-to-market,
      is exactly the sum of the PnL of the recorded fills; the counters are those of the fill log;
      what is held is what was bought less what was sold; the profit factor is infinite exactly when
      no loss was recorded. */
  lemma RunConservesValue<S>(strat: Strategy<S>, s0: S, cfg: Config, blocks: seq<BlockData>, start: nat, end: nat)
    requires start < end <= |blocks|
    ensures var sim := After(strat, s0, cfg, blocks, start, end, end);
            ReportAddsUp(cfg, sim, ReportOf(cfg, sim, blocks[end - 1].cexMid, end - start))
  {
    hide StepBlock, ReportOf, MarkedAt, RunInvariant, ReportAddsUp;
    RunKeepsInvariant(strat, s0, cfg, blocks, start, end, end);
    RunMarks(strat, s0, cfg, blocks, start, end, end);
    ReportBalances(cfg, After(strat, s0, cfg, blocks, start, end, end), blocks[end - 1].cexMid, end - start);
  }

  // ---------------------------------------------------------------- never sell at a loss

  /** With the constraint on, the ask a non-empty book trades at is at least its floor. */
  lemma FloorHolds(cfg: Config, b: Books, askPrice: real)
    requires cfg.noLoss && ValidBooks(b) && b.inventory > 0.0
    ensures EffectiveAsk(cfg, b, askPrice) >= AskFloor(b.costBasis, cfg.marginBps)
    ensures EffectiveAsk(cfg, b, askPrice) >= askPrice
    ensures cfg.marginBps >= 0.0 ==> EffectiveAsk(cfg, b, askPrice) >= b.costBasis
  {
    if cfg.marginBps >= 0.0 {
      var m := cfg.marginBps / 10000.0;
      MulMonotone(0.0, m, b.costBasis);
      assert AskFloor(b.costBasis, cfg.marginBps) == b.costBasis + m * b.costBasis;
    }
  }

  /** The ask floor is fixed from the basis BEFORE the same block's bid fills and moves it; the sale
      still cannot lose as long as the bid did not exceed the ask, because averaging keeps the basis
      between the old basis and the bid. */
  lemma UncrossedBlockNeverLoses(cfg: Config, b: Books, q: Quote, blk: BlockData)
    requires cfg.noLoss && cfg.marginBps >= 0.0 && ValidBooks(b) && q.bidPrice <= q.askPrice
    ensures CountLosses(BlockFills(cfg, b, q, blk)) == 0
  {
    BasisBelowAsk(cfg, b, q, blk);
    LossIsTheSale(cfg, b, q, blk);
  }

  lemma BasisBelowAsk(cfg: Config, b: Books, q: Quote, blk: BlockData)
    requires cfg.noLoss && cfg.marginBps >= 0.0 && ValidBooks(b) && q.bidPrice <= q.askPrice
    ensures AfterBid(b, q, blk).inventory > 0.0 ==>
              AfterBid(b, q, blk).costBasis <= EffectiveAsk(cfg, b, q.askPrice)
  {
    if b.inventory > 0.0 {
      FloorHolds(cfg, b, q.askPrice);
    }
    if BuysIn(q, blk) {
      BuyAverages(b, q.bidPrice, q.bidSize);
    }
  }

  /** A block fills at most once a side, and only its sale can be a loss. */
  lemma LossIsTheSale(cfg: Config, b: Books, q: Quote, blk: BlockData)
    ensures var b1, ask, fills := AfterBid(b, q, blk), EffectiveAsk(cfg, b, q.askPrice), BlockFills(cfg, b, q, blk);
            && CountSide(fills, Bid) == (if BuysIn(q, blk) then 1 else 0)
            && CountSide(fills, Ask) == (if SellsIn(b1, ask, q.askSize, blk) then 1 else 0)
            && CountLosses(fills) == (if SellsIn(b1, ask, q.askSize, blk) && ask < b1.costBasis then 1 else 0)
  {
    hide Buy, EffectiveAsk;
    var b1, ask := AfterBid(b, q, blk), EffectiveAsk(cfg, b, q.askPrice);
    TotalsConcat(BidFills(b1, q, blk), AskFills(b1, ask, q.askSize, blk));
    if BuysIn(q, blk) {
      SingleFill(BidFills(b1, q, blk)[0]);
    }
    TallyAsk(b1, ask, q.askSize, blk);
  }

  lemma TallyAsk(b1: Books, ask: real, askSize: real, blk: BlockData)
    ensures var fills := AskFills(b1, ask, askSize, blk);
            && CountSide(fills, Bid) == 0
            && CountSide(fills, Ask) == (if SellsIn(b1, ask, askSize, blk) then 1 else 0)
            && CountLosses(fills) == (if SellsIn(b1, ask, askSize, blk) && ask < b1.costBasis then 1 else 0)
  {
    if SellsIn(b1, ask, askSize, blk) {
      SingleFill(AskFills(b1, ask, askSize, blk)[0]);
      SignOfProduct(ask - b1.costBasis, Min(askSize, b1.inventory));
    }
  }

  /** The purchase lifts the total cost of the enlarged holding above what the ask, fixed before the
      purchase, would bring in for it. */
  ghost predicate BidOvertakesAsk(cfg: Config, b: Books, q: Quote) {
    EffectiveAsk(cfg, b, q.askPrice) * (b.inventory + q.bidSize) < b.totalCost + q.bidPrice * q.bidSize
  }

  lemma OvertakenIffBasisAboveAsk(cfg: Config, b: Books, q: Quote)
    requires ValidBooks(b) && q.bidPrice > 0.0 && q.bidSize > 0.0
    ensures EffectiveAsk(cfg, b, q.askPrice) < Buy(b, q.bidPrice, q.bidSize).costBasis
       <==> BidOvertakesAsk(cfg, b, q)
  {
    hide EffectiveAsk;
    BuyAverages(b, q.bidPrice, q.bidSize);
    BelowAverageIff(EffectiveAsk(cfg, b, q.askPrice), Buy(b, q.bidPrice, q.bidSize).costBasis,
                    b.inventory + q.bidSize, b.totalCost + q.bidPrice * q.bidSize);
  }

  /** A quote that makes a block lose: both sides fill, and the purchase lifts the average above the ask. */
  ghost predicate QuoteLoses(cfg: Config, b: Books, q: Quote, blk: BlockData) {
    && BuysIn(q, blk)
    && SellsIn(AfterBid(b, q, blk), EffectiveAsk(cfg, b, q.askPrice), q.askSize, blk)
    && BidOvertakesAsk(cfg, b, q)
  }

  /** Exactly when the constraint fails in one block: both sides fill and the bid overtakes the ask. */
  lemma BlockLosesIff(cfg: Config, b: Books, q: Quote, blk: BlockData)
    requires cfg.noLoss && cfg.marginBps >= 0.0 && ValidBooks(b)
    ensures CountLosses(BlockFills(cfg, b, q, blk)) > 0 <==> QuoteLoses(cfg, b, q, blk)
  {
    hide Buy, EffectiveAsk, BidOvertakesAsk, BlockFills;
    LossIsTheSale(cfg, b, q, blk);
    if BuysIn(q, blk) {
      OvertakenIffBasisAboveAsk(cfg, b, q);
    } else if b.inventory > 0.0 {
      FloorHolds(cfg, b, q.askPrice);
    }
  }

  lemma BelowAverageIff(price: real, average: real, units: real, total: real)
    requires units > 0.0 && average * units == total
    ensures price < average <==> price * units < total
  {
    SignOfProduct(price - average, units);
    ProceedsSplit(price, average, units);
  }

  lemma SignOfProduct(a: real, k: real)
    requires k > 0.0
    ensures a * k < 0.0 <==> a < 0.0
  {
  }

  /** A sale in a block with no purchase earns at least the configured margin over the basis. */
  lemma SaleEarnsMargin(cfg: Config, b: Books, q: Quote, blk: BlockData, f: Fill)
    requires cfg.noLoss && ValidBooks(b) && !BuysIn(q, blk)
    requires f in BlockFills(cfg, b, q, blk)
    ensures f.side.Ask?
    ensures f.pnl >= b.costBasis * (cfg.marginBps / 10000.0) * f.size
  {
    FloorHolds(cfg, b, q.askPrice);
    var m := b.costBasis * (cfg.marginBps / 10000.0);
    assert AskFloor(b.costBasis, cfg.marginBps) == b.costBasis + m;
    MulMonotone(m, f.price - b.costBasis, f.size);
  }

  /** The quote of block i of a run meets that condition. */
  ghost predicate LosesAt<S>(strat: Strategy<S>, s0: S, cfg: Config, blocks: seq<BlockData>, start: nat, i: nat, end: nat)
    requires start <= i < end <= |blocks|
  {
    var sim := After(strat, s0, cfg, blocks, start, i, end);
    QuoteLoses(cfg, sim.books, Quoted(strat, cfg, sim.strategy, sim.books, blocks[i], i).1, blocks[i])
  }

  lemma StepLosses<S>(strat: Strategy<S>, cfg: Config, sim: Sim<S>, blk: BlockData, nextMid: Option<real>, i: nat)
    requires cfg.noLoss && cfg.marginBps >= 0.0 && ValidBooks(sim.books)
    ensures StepBlock(strat, cfg, sim, blk, nextMid, i).counts.losses >= sim.counts.losses
    ensures StepBlock(strat, cfg, sim, blk, nextMid, i).counts.losses > sim.counts.losses
       <==> QuoteLoses(cfg, sim.books, Quoted(strat, cfg, sim.strategy, sim.books, blk, i).1, blk)
  {
    var (s, q) := Quoted(strat, cfg, sim.strategy, sim.books, blk, i);
    hide Quoted, BlockFills, Traded, ValidBooks, EffectiveAsk;
    CountersTally(sim.counts, BlockFills(cfg, sim.books, q, blk), nextMid);
    BlockLosesIff(cfg, sim.books, q, blk);
  }

  /** With the constraint on, a run of any strategy records a loss if and only if one of its quotes, against
      the books it met, bought in the block it sold in at an average above its own ask. */
  lemma {:induction false} RunLosesIff<S>(strat: Strategy<S>, s0: S, cfg: Config, blocks: seq<BlockData>,
                                          start: nat, i: nat, end: nat)
    requires start <= i <= end <= |blocks| && cfg.noLoss && cfg.marginBps >= 0.0
    ensures After(strat, s0, cfg, blocks, start, i, end).counts.losses > 0
       <==> exists k :: start <= k < i && LosesAt(strat, s0, cfg, blocks, start, k, end)
  {
    hide StepBlock, LosesAt;
    if i > start {
      RunLosesIff(strat, s0, cfg, blocks, start, i - 1, end);
      RunKeepsInvariant(strat, s0, cfg, blocks, start, i - 1, end);
      var sim := After(strat, s0, cfg, blocks, start, i - 1, end);
      ValidInRun(sim, cfg.initialCapital);
      StepLosses(strat, cfg, sim, blocks[i - 1], NextMid(blocks, i - 1, end), i - 1);
      LosesAtIs(strat, s0, cfg, blocks, start, i - 1, end);
    }
  }

  lemma ValidInRun<S>(sim: Sim<S>, capital: real)
    requires RunInvariant(sim, capital)
    ensures ValidBooks(sim.books)
  {
  }

  lemma LosesAtIs<S>(strat: Strategy<S>, s0: S, cfg: Config, blocks: seq<BlockData>, start: nat, i: nat, end: nat)
    requires start <= i < end <= |blocks|
    ensures var sim := After(strat, s0, cfg, blocks, start, i, end);
            LosesAt(strat, s0, cfg, blocks, start, i, end)
            <==> QuoteLoses(cfg, sim.books, Quoted(strat, cfg, sim.strategy, sim.books, blocks[i], i).1, blocks[i])
  {
    hide After;
  }

  /** A strategy whose bid never exceeds its ask. */
  ghost predicate NeverCrosses<S(!new)>(strat: Strategy<S>) {
    forall s, mid, sigma, inventory, height ::
      strat.computeQuotes(s, mid, sigma, inventory, height).1.bidPrice
      <= strat.computeQuotes(s, mid, sigma, inventory, height).1.askPrice
  }

  lemma UncrossedStepNeverLoses<S(!new)>(strat: Strategy<S>, cfg: Config, sim: Sim<S>, blk: BlockData,
                                         nextMid: Option<real>, i: nat)
    requires cfg.noLoss && cfg.marginBps >= 0.0 && NeverCrosses(strat) && ValidBooks(sim.books)
    ensures StepBlock(strat, cfg, sim, blk, nextMid, i).counts.losses == sim.counts.losses
  {
    hide Traded, BlockFills, EquityOf, EffectiveAsk;
    var (s, q) := Quoted(strat, cfg, sim.strategy, sim.books, blk, i);
    UncrossedBlockNeverLoses(cfg, sim.books, q, blk);
    CountersTally(sim.counts, BlockFills(cfg, sim.books, q, blk), nextMid);
  }

  /** No run of any length of such a strategy records a loss trade under the constraint. */
  lemma {:induction false} UncrossedRunNeverLoses<S(!new)>(strat: Strategy<S>, s0: S, cfg: Config,
                                                           blocks: seq<BlockData>, start: nat, i: nat, end: nat)
    requires start <= i <= end <= |blocks|
    requires cfg.noLoss && cfg.marginBps >= 0.0 && NeverCrosses(strat)
    ensures After(strat, s0, cfg, blocks, start, i, end).counts.losses == 0
  {
    hide StepBlock;
    if i > start {
      UncrossedRunNeverLoses(strat, s0, cfg, blocks, start, i - 1, end);
      RunKeepsInvariant(strat, s0, cfg, blocks, start, i - 1, end);
      UncrossedStepNeverLoses(strat, cfg, After(strat, s0, cfg, blocks, start, i - 1, end), blocks[i - 1],
                              NextMid(blocks, i - 1, end), i - 1);
    }
  }

  /** A strategy that always quotes q. */
  function Fixed(q: Quote): Strategy<()> {
    Strategy((s, mid, height) => (), (s, basis, margin) => (), (s, mid, sigma, inventory, height) => ((), q))
  }

  /** The promise "never a loss under the constraint" is exactly the promise not to cross: for a
      fixed two-sided quote, it holds on every sequence of blocks if and only if bid <= ask. The
      source states it unconditionally. */
  lemma FixedQuoteNeverLosesIff(q: Quote, cfg: Config)
    requires cfg.noLoss && cfg.marginBps >= 0.0
    requires q.bidPrice > 0.0 && q.askPrice > 0.0 && q.bidSize > 0.0 && q.askSize > 0.0
    ensures q.bidPrice <= q.askPrice <==>
            forall blocks: seq<BlockData> ::
              After(Fixed(q), (), cfg, blocks, 0, |blocks|, |blocks|).counts.losses == 0
  {
    if q.bidPrice <= q.askPrice {
      forall blocks: seq<BlockData>
        ensures After(Fixed(q), (), cfg, blocks, 0, |blocks|, |blocks|).counts.losses == 0
      {
        UncrossedRunNeverLoses(Fixed(q), (), cfg, blocks, 0, |blocks|, |blocks|);
      }
    } else {
      CrossedQuoteLoses(q, cfg);
    }
  }

  /** A crossed quote that fills on both sides of its first block books a loss although the
      constraint is on. */
  lemma CrossedQuoteLoses(q: Quote, cfg: Config)
    requires cfg.noLoss && cfg.marginBps >= 0.0
    requires q.bidPrice > q.askPrice > 0.0 && q.bidSize > 0.0 && q.askSize > 0.0
    ensures var blocks := [BlockData(1, q.askPrice, Some(q.bidPrice), q.askPrice)];
            After(Fixed(q), (), cfg, blocks, 0, |blocks|, |blocks|).counts.losses == 1
  {
    var blk := BlockData(1, q.askPrice, Some(q.bidPrice), q.askPrice);
    var blocks := [blk];
    var sim := Opening((), cfg);
    assert After(Fixed(q), (), cfg, blocks, 0, 0, 1) == sim;
    var fills := BlockFills(cfg, sim.books, q, blk);
    BuyAverages(sim.books, q.bidPrice, q.bidSize);
    LossIsTheSale(cfg, sim.books, q, blk);
    CountersTally(sim.counts, fills, NextMid(blocks, 0, 1));
  }
}
