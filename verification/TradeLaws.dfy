/** What happens inside the blocks of a backtest (cpp/src/backtest.cpp:558-734): what the strategy is told, how its
    quote trades, which fills turn out adverse, and how the cash and the closing ratios follow from the fills. */
module TradeLaws {
  import opened Wrappers
  import opened RealFacts
  import opened Ledger
  import opened EquityLaws

  // ---------------------------------------------------------------- what a strategy is told

  datatype Event = Price(mid: real, height: nat)
                 | Basis(costBasis: real, marginBps: real)
                 | Asked(mid: real, sigma: real, inventory: real, height: nat)

  /** A strategy that remembers all it is told and quotes by an arbitrary rule on that history. */
  function Recorder(rule: seq<Event> -> Quote): Strategy<seq<Event>> {
    Strategy((log, mid, height) => log + [Price(mid, height)],
             (log, costBasis, marginBps) => log + [Basis(costBasis, marginBps)],
             (log, mid, sigma, inventory, height) =>
               var told := log + [Asked(mid, sigma, inventory, height)];
               (told, rule(told)))
  }

  /** In every block of every run the strategy is told the price, then the basis of what is held before the block
      if the constraint applies, and is then asked for a quote; that quote is what trades. */
  lemma BlockTells(rule: seq<Event> -> Quote, log: seq<Event>, cfg: Config, blocks: seq<BlockData>,
                   start: nat, k: nat, end: nat)
    requires start <= k < end <= |blocks|
    ensures var sim, next := After(Recorder(rule), log, cfg, blocks, start, k, end),
                             After(Recorder(rule), log, cfg, blocks, start, k + 1, end);
            && next.strategy == sim.strategy + [Price(blocks[k].cexMid, blocks[k].height)]
                 + (if cfg.noLoss && sim.books.inventory > 0.0 then [Basis(sim.books.costBasis, cfg.marginBps)] else [])
                 + [Asked(blocks[k].cexMid, if k < |cfg.sigmas| then cfg.sigmas[k] else cfg.sigmaMean,
                          sim.books.inventory, blocks[k].height)]
            && |sim.fills| <= |next.fills| && next.fills[..|sim.fills|] == sim.fills
            && Trades(cfg, sim.books, next.books, next.fills[|sim.fills|..], rule(next.strategy), blocks[k])
  {
    var strat := Recorder(rule);
    var sim := After(strat, log, cfg, blocks, start, k, end);
    var (s, q) := Quoted(strat, cfg, sim.strategy, sim.books, blocks[k], k);
    assert q == rule(s);
    BlockTrades(cfg, sim.books, q, blocks[k]);
    hide Trades, Traded, BlockFills, CountedAll, EquityOf;
  }

  // ---------------------------------------------------------------- how a quote trades

  /** The purchase of a block: our bid and its size, exactly when a taker sold at or below it. */
  ghost predicate BidHalf(b: Books, b1: Books, fills: seq<Fill>, q: Quote, blk: BlockData) {
    if blk.lowestSell.Some? && blk.lowestSell.value <= q.bidPrice && q.bidSize > 0.0 && q.bidPrice > 0.0 then
      && |fills| == 1 && IsPurchase(b, b1, fills[0])
      && fills[0].price == q.bidPrice && fills[0].size == q.bidSize
      && fills[0].block == blk.height && fills[0].cexMid == blk.cexMid
    else fills == [] && b1 == b
  }

  /** The sale of a block at an ask price: the quoted size or all that is held, exactly when a taker bought at or
      above it. */
  ghost predicate AskHalf(b1: Books, b2: Books, fills: seq<Fill>, ask: real, askSize: real, blk: BlockData) {
    if 0.0 < ask <= blk.highestBuy && b1.inventory > 0.0 && askSize > 0.0 then
      && |fills| == 1 && IsSale(b1, b2, fills[0])
      && fills[0].price == ask && fills[0].size == (if askSize <= b1.inventory then askSize else b1.inventory)
      && fills[0].block == blk.height && fills[0].cexMid == blk.cexMid
    else fills == [] && b2 == b1
  }

  /** The least ask that is neither below the quote nor, under the constraint, below the basis plus the margin. */
  ghost predicate IsFloored(cfg: Config, b: Books, quoted: real, ask: real) {
    var floor := b.costBasis + b.costBasis * cfg.marginBps / 10000.0;
    if cfg.noLoss && b.inventory > 0.0 && b.costBasis > 0.0 && quoted < floor then ask == floor else ask == quoted
  }

  /** A block trades its quote: the bid first, then an ask floored by the books before the bid. */
  ghost predicate Trades(cfg: Config, b: Books, b2: Books, fills: seq<Fill>, q: Quote, blk: BlockData) {
    exists b1: Books, bought: seq<Fill>, sold: seq<Fill>, ask: real ::
      && fills == bought + sold
      && BidHalf(b, b1, bought, q, blk)
      && IsFloored(cfg, b, q.askPrice, ask)
      && AskHalf(b1, b2, sold, ask, q.askSize, blk)
  }

  lemma BidTrades(b: Books, q: Quote, blk: BlockData)
    ensures BidHalf(b, AfterBid(b, q, blk), BidFills(AfterBid(b, q, blk), q, blk), q, blk)
  {
    if BuysIn(q, blk) {
      BuyIsPurchase(b, q.bidPrice, q.bidSize, blk.height, blk.cexMid);
    }
    hide IsPurchase, Buy;
  }

  lemma AskTrades(b1: Books, ask: real, askSize: real, blk: BlockData)
    ensures AskHalf(b1, AfterAsk(b1, ask, askSize, blk), AskFills(b1, ask, askSize, blk), ask, askSize, blk)
  {
    if SellsIn(b1, ask, askSize, blk) {
      SellIsSale(b1, ask, Min(askSize, b1.inventory), blk.height, blk.cexMid);
    }
    hide IsSale, Sell, Realized;
  }

  lemma AskIsFloored(cfg: Config, b: Books, quoted: real)
    ensures IsFloored(cfg, b, quoted, EffectiveAsk(cfg, b, quoted))
  {
    assert AskFloor(b.costBasis, cfg.marginBps) == b.costBasis + b.costBasis * cfg.marginBps / 10000.0;
  }

  lemma BlockTrades(cfg: Config, b: Books, q: Quote, blk: BlockData)
    ensures Trades(cfg, b, Traded(cfg, b, q, blk), BlockFills(cfg, b, q, blk), q, blk)
  {
    hide BidHalf, AskHalf, IsFloored, AfterBid, AfterAsk, BidFills, AskFills, EffectiveAsk;
    var b1, ask := AfterBid(b, q, blk), EffectiveAsk(cfg, b, q.askPrice);
    BidTrades(b, q, blk);
    AskIsFloored(cfg, b, q.askPrice);
    AskTrades(b1, ask, q.askSize, blk);
  }

  // ---------------------------------------------------------------- adverse fills

  /** The fills on the wrong side of a later price: bought above it or sold below it. */
  ghost function WrongSide(fills: seq<Fill>, later: real): set<nat> {
    set m: nat | m < |fills| && if fills[m].side == Bid then fills[m].price > later else fills[m].price < later
  }

  lemma WrongSideSnoc(fills: seq<Fill>, later: real)
    requires |fills| > 0
    ensures var n := |fills| - 1;
            |WrongSide(fills, later)|
            == |WrongSide(fills[..n], later)| + if IsAdverse(fills[n], Some(later)) then 1 else 0
  {
    var n := |fills| - 1;
    var was, now := WrongSide(fills[..n], later), WrongSide(fills, later);
    assert n !in was;
    assert now == was + if IsAdverse(fills[n], Some(later)) then {n} else {};
  }

  /** A block's fills count as adverse on the wrong side of the next block's price, and never in the last block. */
  lemma {:induction false} AdverseAreWrongSide(c: Counts, fills: seq<Fill>, nextMid: Option<real>)
    ensures CountedAll(c, fills, nextMid).adverse
         == c.adverse + if nextMid.Some? then |WrongSide(fills, nextMid.value)| else 0
  {
    if |fills| > 0 {
      AdverseAreWrongSide(c, fills[..|fills| - 1], nextMid);
      if nextMid.Some? {
        WrongSideSnoc(fills, nextMid.value);
      }
    } else if nextMid.Some? {
      assert WrongSide(fills, nextMid.value) == {};
    }
    hide WrongSide;
  }

  /** The wrong-side fills of all blocks but the last of a range. */
  ghost function AdverseOver<S>(strat: Strategy<S>, s0: S, cfg: Config, blocks: seq<BlockData>,
                                start: nat, i: nat, end: nat): nat
    requires start <= i <= end <= |blocks|
  {
    if i == start then 0
    else
      var sim, next := After(strat, s0, cfg, blocks, start, i - 1, end), After(strat, s0, cfg, blocks, start, i, end);
      AdverseOver(strat, s0, cfg, blocks, start, i - 1, end)
      + if i < end && |sim.fills| <= |next.fills| then |WrongSide(next.fills[|sim.fills|..], blocks[i].cexMid)| else 0
  }

  lemma {:induction false} AdverseCounts<S>(strat: Strategy<S>, s0: S, cfg: Config, blocks: seq<BlockData>,
                                            start: nat, i: nat, end: nat)
    requires start <= i <= end <= |blocks|
    ensures After(strat, s0, cfg, blocks, start, i, end).counts.adverse
         == AdverseOver(strat, s0, cfg, blocks, start, i, end)
  {
    hide Traded, BlockFills, CountedAll, EquityOf, Quoted, WrongSide;
    if i > start {
      AdverseCounts(strat, s0, cfg, blocks, start, i - 1, end);
      var sim := After(strat, s0, cfg, blocks, start, i - 1, end);
      var (s, q) := Quoted(strat, cfg, sim.strategy, sim.books, blocks[i - 1], i - 1);
      var fills := BlockFills(cfg, sim.books, q, blocks[i - 1]);
      assert (sim.fills + fills)[|sim.fills|..] == fills;
      AdverseAreWrongSide(sim.counts, fills, NextMid(blocks, i - 1, end));
    }
  }

  // ---------------------------------------------------------------- cash and volume

  /** The value of the fills on one side. */
  ghost function Value(fills: seq<Fill>, side: Side): real {
    if |fills| == 0 then 0.0
    else Value(fills[..|fills| - 1], side)
         + (if fills[|fills| - 1].side == side then fills[|fills| - 1].price * fills[|fills| - 1].size else 0.0)
  }

  lemma VolumeSnoc(fills: seq<Fill>, f: Fill)
    ensures Value(fills + [f], Bid) == Value(fills, Bid) + (if f.side.Bid? then f.price * f.size else 0.0)
    ensures Value(fills + [f], Ask) == Value(fills, Ask) + (if f.side.Ask? then f.price * f.size else 0.0)
    ensures SumVolume(fills + [f]) == SumVolume(fills) + f.price * f.size
  {
    assert (fills + [f])[..|fills|] == fills;
  }

  /** What the fills say the cash has become. */
  ghost predicate CashExplained(was: Books, now: Books, fills: seq<Fill>) {
    now.cash == was.cash - Value(fills, Bid) + Value(fills, Ask)
    && SumVolume(fills) == Value(fills, Bid) + Value(fills, Ask)
  }

  lemma HalvesMoveCash(was: Books, b: Books, fills: seq<Fill>, cfg: Config, b2: Books, more: seq<Fill>, q: Quote,
                       blk: BlockData)
    requires CashExplained(was, b, fills) && Trades(cfg, b, b2, more, q, blk)
    ensures CashExplained(was, b2, fills + more)
  {
    hide Value, SumVolume, IsFloored;
    var b1, bought, sold, ask :|
      && more == bought + sold
      && BidHalf(b, b1, bought, q, blk)
      && IsFloored(cfg, b, q.askPrice, ask)
      && AskHalf(b1, b2, sold, ask, q.askSize, blk);
    BidMovesCash(was, b, fills, b1, bought, q, blk);
    AskMovesCash(was, b1, fills + bought, b2, sold, ask, q.askSize, blk);
    assert fills + more == fills + bought + sold;
  }

  lemma BidMovesCash(was: Books, b: Books, fills: seq<Fill>, b1: Books, bought: seq<Fill>, q: Quote, blk: BlockData)
    requires CashExplained(was, b, fills) && BidHalf(b, b1, bought, q, blk)
    ensures CashExplained(was, b1, fills + bought)
  {
    hide Value, SumVolume;
    if bought == [] {
      assert fills + bought == fills;
    } else {
      VolumeSnoc(fills, bought[0]);
      assert bought == [bought[0]];
    }
  }

  lemma AskMovesCash(was: Books, b1: Books, fills: seq<Fill>, b2: Books, sold: seq<Fill>, ask: real, askSize: real,
                     blk: BlockData)
    requires CashExplained(was, b1, fills) && AskHalf(b1, b2, sold, ask, askSize, blk)
    ensures CashExplained(was, b2, fills + sold)
  {
    hide Value, SumVolume;
    if sold == [] {
      assert fills + sold == fills;
    } else {
      VolumeSnoc(fills, sold[0]);
      assert sold == [sold[0]];
    }
  }

  /** At any point of any run the cash is the capital less the value bought plus the value sold, and the traded
      volume is the two together. */
  lemma {:induction false} CashIsExplained<S>(strat: Strategy<S>, s0: S, cfg: Config, blocks: seq<BlockData>,
                                              start: nat, i: nat, end: nat)
    requires start <= i <= end <= |blocks|
    ensures var sim := After(strat, s0, cfg, blocks, start, i, end);
            CashExplained(OpeningBooks(cfg.initialCapital), sim.books, sim.fills)
  {
    hide Traded, BlockFills, CountedAll, EquityOf, Quoted, Trades;
    if i > start {
      hide CashExplained;
      CashIsExplained(strat, s0, cfg, blocks, start, i - 1, end);
      var sim := After(strat, s0, cfg, blocks, start, i - 1, end);
      var (s, q) := Quoted(strat, cfg, sim.strategy, sim.books, blocks[i - 1], i - 1);
      BlockTrades(cfg, sim.books, q, blocks[i - 1]);
      HalvesMoveCash(OpeningBooks(cfg.initialCapital), sim.books, sim.fills, cfg, Traded(cfg, sim.books, q, blocks[i - 1]),
                     BlockFills(cfg, sim.books, q, blocks[i - 1]), q, blocks[i - 1]);
    }
  }

  // ---------------------------------------------------------------- the report

  /** A ratio, multiplied out; no whole gives zero. */
  ghost predicate IsShare(share: real, part: real, whole: real) {
    if whole > 0.0 then share * whole == part else share == 0.0
  }

  lemma FractionIsShare(part: real, whole: real)
    ensures IsShare(Fraction(part, whole), part, whole)
  {
    if whole > 0.0 {
      DivCancel(part, whole);
    }
  }

  /** The closing figures of a run over n blocks. */
  ghost predicate ReportMeans<S>(cfg: Config, sim: Sim<S>, lastMid: real, n: nat, r: Report) {
    && r.totalBlocks == n && r.equityCurve == sim.equity && r.rets == sim.rets && r.fills == sim.fills
    && r.totalPnl == Before(cfg.initialCapital, sim.equity, |sim.equity|) - cfg.initialCapital
    && r.unrealizedPnl == (if sim.books.inventory > 0.0 then sim.books.inventory * lastMid - sim.books.totalCost else 0.0)
    && r.realizedPnl + r.unrealizedPnl == r.totalPnl
    && (r.profitFactor.Some? <==> sim.books.grossLoss > 0.0)
    && (r.profitFactor.Some? ==> r.profitFactor.value * sim.books.grossLoss == sim.books.grossProfit)
    && IsShare(r.fillRate, r.fillCount as real, n as real)
    && IsShare(r.timeUnderwater, sim.underwater as real, n as real)
    && IsShare(r.adverseSelection, sim.counts.adverse as real, r.fillCount as real)
    && IsShare(r.inventoryTurnover, SumVolume(sim.fills), (cfg.initialCapital + sim.peakEquity) / 2.0)
  }

  lemma ReportIsMeant<S>(cfg: Config, sim: Sim<S>, lastMid: real, n: nat)
    ensures ReportMeans(cfg, sim, lastMid, n, ReportOf(cfg, sim, lastMid, n))
  {
    hide Fraction, IsShare, SumVolume;
    var b, fillCount := sim.books, sim.counts.bidFills + sim.counts.askFills;
    FractionIsShare(fillCount as real, n as real);
    FractionIsShare(sim.underwater as real, n as real);
    FractionIsShare(sim.counts.adverse as real, fillCount as real);
    FractionIsShare(SumVolume(sim.fills), (cfg.initialCapital + sim.peakEquity) / 2.0);
    if b.grossLoss > 0.0 {
      DivCancel(b.grossProfit, b.grossLoss);
    }
  }

  /** Every run's report: one entry of the curve for each block, one return for each entry that starts from a positive
      equity; while the equity stays positive the capital compounded by the returns is the capital plus the PnL. */
  lemma RunReport<S>(strat: Strategy<S>, s0: S, cfg: Config, blocks: seq<BlockData>, start: nat, end: nat)
    requires start < end <= |blocks|
    ensures var sim := After(strat, s0, cfg, blocks, start, end, end);
            var r := ReportOf(cfg, sim, blocks[end - 1].cexMid, end - start);
            && ReportMeans(cfg, sim, blocks[end - 1].cexMid, end - start, r)
            && |r.equityCurve| == end - start
            && ReturnsExplain(cfg.initialCapital, r.equityCurve, r.rets)
            && (cfg.initialCapital > 0.0 && (forall k :: 0 <= k < |r.equityCurve| ==> r.equityCurve[k] > 0.0) ==>
                  |r.rets| == end - start && Compounded(cfg.initialCapital, r.rets) == cfg.initialCapital + r.totalPnl)
  {
    var sim := After(strat, s0, cfg, blocks, start, end, end);
    ReportIsMeant(cfg, sim, blocks[end - 1].cexMid, end - start);
    CurveIsMarked(strat, s0, cfg, blocks, start, end, end);
    ReturnsExplainCurve(strat, s0, cfg, blocks, start, end, end);
    hide StepBlock, After, ReportOf, IsShare, ReturnsExplain, Compounded, IsMarked, Held;
    if cfg.initialCapital > 0.0 && forall k :: 0 <= k < |sim.equity| ==> sim.equity[k] > 0.0 {
      ReturnsCompound(cfg.initialCapital, sim.equity, sim.rets);
    }
  }
}
