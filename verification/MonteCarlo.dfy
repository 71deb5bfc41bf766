/** The hand-inlined copy of the simulation loop that Monte Carlo paths run
    (cpp/src/backtest.cpp:882-976), proved to be the main loop with the no-loss constraint on. */
module MonteCarlo {
  import opened Wrappers
  import opened RealFacts
  import opened Ledger
  import LedgerLaws
  import Drawdown

  /** The part of the result record a path fills in. */
  datatype PathResult = PathResult(
    totalBlocks: nat, equityCurve: seq<real>, rets: seq<real>,
    fillCount: nat, bidFills: nat, askFills: nat, lossTradeCount: nat,
    totalPnl: real, maxDrawdown: real, profitFactor: Option<real>, fillRate: real)

  /** The path reports what a full run over the same blocks reports. The Sharpe ratio of either is
      the same function of the same return series. */
  ghost predicate SameRun(path: PathResult, report: Report) {
    && path.totalBlocks == report.totalBlocks
    && path.equityCurve == report.equityCurve
    && path.rets == report.rets
    && path.fillCount == report.fillCount
    && path.bidFills == report.bidFills
    && path.askFills == report.askFills
    && path.lossTradeCount == report.lossTradeCount
    && path.totalPnl == report.totalPnl
    && path.maxDrawdown == report.maxDrawdown
    && path.profitFactor == report.profitFactor
    && path.fillRate == report.fillRate
  }

  /** The state of the inlined loop: its own short-named ledger and counters, no fill log. */
  datatype Path<S> = Path(strategy: S, books: Books, fillCount: nat, bidFills: nat, askFills: nat, losses: nat,
                          equity: seq<real>, rets: seq<real>, prevEq: real)

  ghost predicate Mirrors<S>(p: Path<S>, sim: Sim<S>) {
    && p.strategy == sim.strategy && p.books == sim.books
    && p.fillCount == sim.counts.bidFills + sim.counts.askFills
    && p.bidFills == sim.counts.bidFills && p.askFills == sim.counts.askFills && p.losses == sim.counts.losses
    && p.equity == sim.equity && p.rets == sim.rets && p.prevEq == sim.prevEquity
  }

  method PathBuy(b: Books, fp: real, fs: real) returns (b1: Books)
    ensures b1 == Buy(b, fp, fs)
  {
    var ntc := b.totalCost + fp * fs;
    var ni := b.inventory + fs;
    var cb := if ni > 0.0 then ntc / ni else 0.0;
    b1 := b.(costBasis := cb, totalCost := ntc, inventory := ni, cash := b.cash - fp * fs);
  }

  method PathRealize(b: Books, fp: real, fs: real) returns (realized: real, loss: bool)
    requires fs > 0.0
    ensures realized == Realized(b, fp, fs)
    ensures loss <==> fp < b.costBasis
  {
    realized := (fp - b.costBasis) * fs;
    loss := realized < 0.0;
    LedgerLaws.SignOfProduct(fp - b.costBasis, fs);
  }

  method PathSell(b: Books, fp: real, fs: real, realized: real) returns (b1: Books)
    requires b.inventory != 0.0 && realized == Realized(b, fp, fs)
    ensures b1 == Sell(b, fp, fs)
  {
    var gp, gl := b.grossProfit, b.grossLoss;
    if realized >= 0.0 {
      gp := gp + realized;
    } else {
      gl := gl - realized;
    }
    var rf := fs / b.inventory;
    var tc := b.totalCost - b.totalCost * rf;
    var inv := b.inventory - fs;
    var cash := b.cash + fp * fs;
    var cb := if inv > 0.0 then tc / inv else 0.0;
    b1 := Books(cash, inv, cb, tc, gp, gl);
  }

  method PathFloor(cfg: Config, b: Books, askPrice: real) returns (effAsk: real)
    ensures effAsk == EffectiveAsk(cfg.(noLoss := true), b, askPrice)
  {
    effAsk := askPrice;
    if b.inventory > 0.0 && b.costBasis > 0.0 {
      var minA := b.costBasis * (1.0 + cfg.marginBps / 10000.0);
      effAsk := Max(effAsk, minA);
    }
  }

  /** The fills of one block, with the conditions merged and reordered as the copy has them. */
  method PathTrade(cfg: Config, b: Books, q: Quote, blk: BlockData)
      returns (b2: Books, bought: bool, sold: bool, loss: bool)
    ensures b2 == Traded(cfg.(noLoss := true), b, q, blk)
    ensures bought <==> BuysIn(q, blk)
    ensures var b1 := AfterBid(b, q, blk);
            var ask := EffectiveAsk(cfg.(noLoss := true), b, q.askPrice);
            && (sold <==> SellsIn(b1, ask, q.askSize, blk))
            && (loss <==> sold && ask < b1.costBasis)
  {
    hide Buy, Sell, Realized, EffectiveAsk;
    var effAsk := PathFloor(cfg, b, q.askPrice);
    b2, bought, sold, loss := b, false, false, false;
    if blk.lowestSell.Some? && q.bidPrice >= blk.lowestSell.value && q.bidSize > 0.0 && q.bidPrice > 0.0 {
      b2 := PathBuy(b, q.bidPrice, q.bidSize);
      bought := true;
    }
    if effAsk <= blk.highestBuy && blk.highestBuy > 0.0 && b2.inventory > 0.0 {
      var fs := Min(q.askSize, b2.inventory);
      if fs > 0.0 && effAsk > 0.0 {
        var realized, isLoss := PathRealize(b2, effAsk, fs);
        b2 := PathSell(b2, effAsk, fs, realized);
        loss := isLoss;
        sold := true;
      }
    }
  }

  /** The three tallies of a block, as the counters of the main loop see them. */
  ghost predicate Tallies(c: Counts, counts: Counts, bought: bool, sold: bool, loss: bool) {
    && counts.bidFills == c.bidFills + (if bought then 1 else 0)
    && counts.askFills == c.askFills + (if sold then 1 else 0)
    && counts.losses == c.losses + (if loss then 1 else 0)
  }

  lemma CountsOfBlock(cfg: Config, b: Books, q: Quote, blk: BlockData, c: Counts, nextMid: Option<real>,
                      bought: bool, sold: bool, loss: bool)
    requires bought <==> BuysIn(q, blk)
    requires sold <==> SellsIn(AfterBid(b, q, blk), EffectiveAsk(cfg, b, q.askPrice), q.askSize, blk)
    requires loss <==> sold && EffectiveAsk(cfg, b, q.askPrice) < AfterBid(b, q, blk).costBasis
    ensures Tallies(c, CountedAll(c, BlockFills(cfg, b, q, blk), nextMid), bought, sold, loss)
  {
    LedgerLaws.LossIsTheSale(cfg, b, q, blk);
    LedgerLaws.CountersTally(c, BlockFills(cfg, b, q, blk), nextMid);
  }

  method PathMark<S>(p: Path<S>, strategy: S, b: Books, bought: bool, sold: bool, loss: bool, mid: real,
                     ghost sim: Sim<S>, ghost fills: seq<Fill>, ghost nextMid: Option<real>)
      returns (next: Path<S>)
    requires Mirrors(p, sim) && Tallies(sim.counts, CountedAll(sim.counts, fills, nextMid), bought, sold, loss)
    ensures Mirrors(next, Marked(sim, strategy, b, fills, mid, nextMid))
  {
    var fillCount, bids, asks, losses := p.fillCount, p.bidFills, p.askFills, p.losses;
    if bought {
      fillCount, bids := fillCount + 1, bids + 1;
    }
    if loss {
      losses := losses + 1;
    }
    if sold {
      fillCount, asks := fillCount + 1, asks + 1;
    }
    var eq := b.cash + b.inventory * mid;
    assert eq == EquityOf(b, mid);
    var rets := p.rets;
    if p.prevEq > 0.0 {
      rets := rets + [(eq - p.prevEq) / p.prevEq];
    }
    next := Path(strategy, b, fillCount, bids, asks, losses, p.equity + [eq], rets, eq);
    ghost var marked := Marked(sim, strategy, b, fills, mid, nextMid);
    assert marked.equity == sim.equity + [eq];
    assert marked.rets == rets;
  }

  /** One iteration of the inlined loop keeps step with one block of the main loop. */
  method PathBlock<S>(strat: Strategy<S>, cfg: Config, p: Path<S>, blk: BlockData, bi: nat,
                      ghost sim: Sim<S>, ghost nextMid: Option<real>) returns (next: Path<S>)
    requires Mirrors(p, sim)
    ensures Mirrors(next, StepBlock(strat, cfg.(noLoss := true), sim, blk, nextMid, bi))
  {
    var strategy := strat.updatePrice(p.strategy, blk.cexMid, blk.height);
    if p.books.inventory > 0.0 {
      strategy := strat.setCostBasis(strategy, p.books.costBasis, cfg.marginBps);
    }
    var s := if bi < |cfg.sigmas| then cfg.sigmas[bi] else cfg.sigmaMean;
    var (strategy', q) := strat.computeQuotes(strategy, blk.cexMid, s, p.books.inventory, blk.height);
    var b2, bought, sold, loss := PathTrade(cfg, p.books, q, blk);
    CountsOfBlock(cfg.(noLoss := true), p.books, q, blk, sim.counts, nextMid, bought, sold, loss);
    next := PathMark(p, strategy', b2, bought, sold, loss, blk.cexMid,
                     sim, BlockFills(cfg.(noLoss := true), p.books, q, blk), nextMid);
  }

  method PathSummary<S>(cfg: Config, p: Path<S>, n: nat, ghost sim: Sim<S>, ghost lastMid: real)
      returns (result: PathResult)
    requires Mirrors(p, sim)
    ensures SameRun(result, ReportOf(cfg.(noLoss := true), sim, lastMid, n))
  {
    var feq := if |p.equity| == 0 then cfg.initialCapital else p.equity[|p.equity| - 1];
    var maxDrawdown := Drawdown.ComputeMaxDrawdown(p.equity);
    var profitFactor := if p.books.grossLoss > 0.0 then Some(p.books.grossProfit / p.books.grossLoss) else None;
    var fillRate := if n == 0 then 0.0 else p.fillCount as real / n as real;
    result := PathResult(n, p.equity, p.rets, p.fillCount, p.bidFills, p.askFills, p.losses,
                         feq - cfg.initialCapital, maxDrawdown, profitFactor, fillRate);
  }

  /** One Monte Carlo path: on any blocks and any strategy it reports exactly what simulate_range
      reports over all of them with the no-loss constraint on, whatever cfg.noLoss says. */
  method SimulatePath<S>(strat: Strategy<S>, s0: S, cfg: Config, blocks: seq<BlockData>)
      returns (result: PathResult)
    ensures var n := |blocks|;
            SameRun(result, ReportOf(cfg.(noLoss := true),
                                     After(strat, s0, cfg.(noLoss := true), blocks, 0, n, n),
                                     if n == 0 then 0.0 else blocks[n - 1].cexMid, n))
  {
    var n := |blocks|;
    ghost var on := cfg.(noLoss := true);
    var p := Path(s0, Books(cfg.initialCapital, 0.0, 0.0, 0.0, 0.0, 0.0), 0, 0, 0, 0, [], [], cfg.initialCapital);
    for bi := 0 to n
      invariant Mirrors(p, After(strat, s0, on, blocks, 0, bi, n))
    {
      p := PathBlock(strat, cfg, p, blocks[bi], bi, After(strat, s0, on, blocks, 0, bi, n), NextMid(blocks, bi, n));
    }
    result := PathSummary(cfg, p, n, After(strat, s0, on, blocks, 0, n, n),
                          if n == 0 then 0.0 else blocks[n - 1].cexMid);
  }

  /** Both loops side by side: the copy cannot drift from the original. */
  method PathAgreesWithRange<S>(strat: Strategy<S>, s0: S, cfg: Config, blocks: seq<BlockData>)
      returns (path: PathResult, report: Report)
    requires |blocks| > 0 && cfg.noLoss
    ensures SameRun(path, report)
    ensures report == ReportOf(cfg, After(strat, s0, cfg, blocks, 0, |blocks|, |blocks|),
                               blocks[|blocks| - 1].cexMid, |blocks|)
  {
    path := SimulatePath(strat, s0, cfg, blocks);
    var r := SimulateRange(strat, s0, cfg, blocks, 0, |blocks|);
    assert cfg.(noLoss := true) == cfg;
    report := r.value;
  }
}
