/** What a backtest reports of its equity (cpp/src/backtest.cpp:697-764): the curve, the per-block returns that feed
    the Sharpe ratio, and the closing ratios, each said from the books, the fills or the curve alone. */
module EquityLaws {
  import opened Wrappers
  import opened RealFacts
  import opened Ledger
  import opened LedgerLaws

  // ---------------------------------------------------------------- marking a block

  /** An entry of the curve: the cash, and the inventory at the block's reference price. */
  ghost predicate IsMarked(b: Books, mid: real, equity: real) {
    equity == b.cash + b.inventory * mid
  }

  /** What is held is worth less than it cost. */
  ghost predicate IsUnderwater(b: Books, mid: real) {
    b.inventory * mid < b.totalCost
  }

  /** A return: the equity before times one plus it is the equity after. */
  ghost predicate Grows(before: real, ret: real, equity: real) {
    before * (1.0 + ret) == equity
  }

  ghost predicate IsHigher(peak: real, equity: real, next: real) {
    next >= peak && next >= equity && (next == peak || next == equity)
  }

  /** What closing a block adds to the series. */
  ghost predicate Closes<S>(sim: Sim<S>, next: Sim<S>, mid: real) {
    && next.equity == sim.equity + [next.prevEquity]
    && IsMarked(next.books, mid, next.prevEquity)
    && IsHigher(sim.peakEquity, next.prevEquity, next.peakEquity)
    && next.underwater == sim.underwater + (if IsUnderwater(next.books, mid) then 1 else 0)
    && (sim.prevEquity <= 0.0 ==> next.rets == sim.rets)
    && (sim.prevEquity > 0.0 ==>
          && |next.rets| == |sim.rets| + 1 && next.rets[..|sim.rets|] == sim.rets
          && Grows(sim.prevEquity, next.rets[|sim.rets|], next.prevEquity))
  }

  lemma ReturnGrows(before: real, equity: real)
    requires before > 0.0
    ensures Grows(before, (equity - before) / before, equity)
  {
    DivCancel(equity - before, before);
  }

  lemma MarkedCloses<S>(sim: Sim<S>, s: S, books: Books, fills: seq<Fill>, mid: real, nextMid: Option<real>)
    ensures Closes(sim, Marked(sim, s, books, fills, mid, nextMid), mid)
  {
    hide Grows, CountedAll;
    if sim.prevEquity > 0.0 {
      ReturnGrows(sim.prevEquity, EquityOf(books, mid));
    }
  }

  lemma StepCloses<S>(strat: Strategy<S>, cfg: Config, sim: Sim<S>, blk: BlockData, nextMid: Option<real>, i: nat)
    ensures Closes(sim, StepBlock(strat, cfg, sim, blk, nextMid, i), blk.cexMid)
  {
    hide Closes, Marked, Traded, BlockFills, Quoted;
    var (s, q) := Quoted(strat, cfg, sim.strategy, sim.books, blk, i);
    MarkedCloses(sim, s, Traded(cfg, sim.books, q, blk), BlockFills(cfg, sim.books, q, blk), blk.cexMid, nextMid);
  }

  /** Every block of every run closes that way. */
  lemma BlockCloses<S>(strat: Strategy<S>, s0: S, cfg: Config, blocks: seq<BlockData>, start: nat, k: nat, end: nat)
    requires start <= k < end <= |blocks|
    ensures Closes(After(strat, s0, cfg, blocks, start, k, end),
                   After(strat, s0, cfg, blocks, start, k + 1, end), blocks[k].cexMid)
  {
    hide Closes, StepBlock;
    StepCloses(strat, cfg, After(strat, s0, cfg, blocks, start, k, end), blocks[k], NextMid(blocks, k, end), k);
  }

  // ---------------------------------------------------------------- the curve

  /** The books a run holds after block k. */
  ghost function Held<S>(strat: Strategy<S>, s0: S, cfg: Config, blocks: seq<BlockData>, start: nat, k: nat, end: nat): Books
    requires start <= k < end <= |blocks|
  {
    After(strat, s0, cfg, blocks, start, k + 1, end).books
  }

  /** Every entry of the curve is the cash plus the inventory at that block's reference price. */
  lemma {:induction false} CurveIsMarked<S>(strat: Strategy<S>, s0: S, cfg: Config, blocks: seq<BlockData>,
                                            start: nat, i: nat, end: nat)
    requires start <= i <= end <= |blocks|
    ensures |After(strat, s0, cfg, blocks, start, i, end).equity| == i - start
    ensures forall k :: start <= k < i ==>
              IsMarked(Held(strat, s0, cfg, blocks, start, k, end), blocks[k].cexMid,
                       After(strat, s0, cfg, blocks, start, i, end).equity[k - start])
  {
    hide IsMarked, IsHigher, IsUnderwater, Grows, StepBlock;
    if i > start {
      CurveIsMarked(strat, s0, cfg, blocks, start, i - 1, end);
      BlockCloses(strat, s0, cfg, blocks, start, i - 1, end);
    }
  }

  /** The peak is the highest of the capital and the curve. */
  lemma {:induction false} PeakIsHighestEquity<S>(strat: Strategy<S>, s0: S, cfg: Config, blocks: seq<BlockData>,
                                                  start: nat, i: nat, end: nat)
    requires start <= i <= end <= |blocks|
    ensures var sim := After(strat, s0, cfg, blocks, start, i, end);
            && sim.peakEquity >= cfg.initialCapital
            && (forall e :: e in sim.equity ==> e <= sim.peakEquity)
            && (sim.peakEquity == cfg.initialCapital || sim.peakEquity in sim.equity)
  {
    hide IsMarked, IsUnderwater, Grows, StepBlock;
    if i > start {
      PeakIsHighestEquity(strat, s0, cfg, blocks, start, i - 1, end);
      BlockCloses(strat, s0, cfg, blocks, start, i - 1, end);
      var sim, next := After(strat, s0, cfg, blocks, start, i - 1, end), After(strat, s0, cfg, blocks, start, i, end);
      assert next.equity[|sim.equity|] == next.prevEquity;
    }
  }

  /** The blocks that close with the holdings worth less than they cost. */
  ghost function UnderwaterBlocks<S>(strat: Strategy<S>, s0: S, cfg: Config, blocks: seq<BlockData>,
                                     start: nat, i: nat, end: nat): set<nat>
    requires start <= i <= end <= |blocks|
  {
    set k: nat | start <= k < i && IsUnderwater(Held(strat, s0, cfg, blocks, start, k, end), blocks[k].cexMid)
  }

  lemma UnderwaterSnoc<S>(strat: Strategy<S>, s0: S, cfg: Config, blocks: seq<BlockData>,
                          start: nat, i: nat, end: nat)
    requires start < i <= end <= |blocks|
    ensures |UnderwaterBlocks(strat, s0, cfg, blocks, start, i, end)|
         == |UnderwaterBlocks(strat, s0, cfg, blocks, start, i - 1, end)|
          + if IsUnderwater(Held(strat, s0, cfg, blocks, start, i - 1, end), blocks[i - 1].cexMid) then 1 else 0
  {
    hide IsUnderwater, Held;
    var was := UnderwaterBlocks(strat, s0, cfg, blocks, start, i - 1, end);
    assert UnderwaterBlocks(strat, s0, cfg, blocks, start, i, end)
        == was + if IsUnderwater(Held(strat, s0, cfg, blocks, start, i - 1, end), blocks[i - 1].cexMid) then {i - 1} else {};
    assert i - 1 !in was;
  }

  lemma {:induction false} UnderwaterCounts<S>(strat: Strategy<S>, s0: S, cfg: Config, blocks: seq<BlockData>,
                                               start: nat, i: nat, end: nat)
    requires start <= i <= end <= |blocks|
    ensures After(strat, s0, cfg, blocks, start, i, end).underwater
         == |UnderwaterBlocks(strat, s0, cfg, blocks, start, i, end)|
  {
    hide IsMarked, IsHigher, IsUnderwater, Grows, StepBlock;
    if i > start {
      hide UnderwaterBlocks;
      UnderwaterCounts(strat, s0, cfg, blocks, start, i - 1, end);
      BlockCloses(strat, s0, cfg, blocks, start, i - 1, end);
      UnderwaterSnoc(strat, s0, cfg, blocks, start, i, end);
    } else {
      assert UnderwaterBlocks(strat, s0, cfg, blocks, start, i, end) == {};
    }
  }

  // ---------------------------------------------------------------- the returns

  /** The equity before entry k: the capital, then the entry before. */
  ghost function Before(capital: real, curve: seq<real>, k: nat): real
    requires k <= |curve|
  {
    if k == 0 then capital else curve[k - 1]
  }

  /** The entries with a return: those that start from a positive equity. */
  ghost function Starts(capital: real, curve: seq<real>): seq<nat> {
    if |curve| == 0 then []
    else
      var n := |curve| - 1;
      Starts(capital, curve[..n]) + if Before(capital, curve, n) > 0.0 then [n] else []
  }

  lemma {:induction false} StartsAreEntries(capital: real, curve: seq<real>)
    ensures forall m :: 0 <= m < |Starts(capital, curve)| ==> Starts(capital, curve)[m] < |curve|
  {
    if |curve| > 0 {
      StartsAreEntries(capital, curve[..|curve| - 1]);
    }
  }

  /** One return for each entry that starts from a positive equity, in order; the equity before it times one
      plus the return is the entry. */
  ghost predicate ReturnsExplain(capital: real, curve: seq<real>, rets: seq<real>) {
    var starts := Starts(capital, curve);
    |rets| == |starts|
    && forall m :: 0 <= m < |rets| ==>
         starts[m] < |curve| && Grows(Before(capital, curve, starts[m]), rets[m], curve[starts[m]])
  }

  lemma StartsSnoc(capital: real, curve: seq<real>, e: real)
    ensures Starts(capital, curve + [e])
         == Starts(capital, curve) + if Before(capital, curve, |curve|) > 0.0 then [|curve|] else []
  {
    assert (curve + [e])[..|curve|] == curve;
  }

  lemma ReturnsSnoc(capital: real, curve: seq<real>, rets: seq<real>, e: real, rets': seq<real>)
    requires ReturnsExplain(capital, curve, rets)
    requires Before(capital, curve, |curve|) <= 0.0 ==> rets' == rets
    requires Before(capital, curve, |curve|) > 0.0 ==>
               |rets'| == |rets| + 1 && rets'[..|rets|] == rets
               && Grows(Before(capital, curve, |curve|), rets'[|rets|], e)
    ensures ReturnsExplain(capital, curve + [e], rets')
  {
    hide Starts, Grows;
    StartsSnoc(capital, curve, e);
    forall m | 0 <= m < |rets|
      ensures rets'[m] == rets[m]
    {
      assert rets'[..|rets|][m] == rets'[m];
    }
  }

  /** The returns of every run, from its curve alone. */
  lemma {:induction false} ReturnsExplainCurve<S>(strat: Strategy<S>, s0: S, cfg: Config, blocks: seq<BlockData>,
                                                  start: nat, i: nat, end: nat)
    requires start <= i <= end <= |blocks|
    ensures var sim := After(strat, s0, cfg, blocks, start, i, end);
            && sim.prevEquity == Before(cfg.initialCapital, sim.equity, |sim.equity|)
            && ReturnsExplain(cfg.initialCapital, sim.equity, sim.rets)
  {
    hide IsMarked, IsHigher, IsUnderwater, Grows, StepBlock, ReturnsExplain;
    if i == start {
      OpeningExplains(cfg.initialCapital);
    } else {
      var sim, next := After(strat, s0, cfg, blocks, start, i - 1, end), After(strat, s0, cfg, blocks, start, i, end);
      ReturnsExplainCurve(strat, s0, cfg, blocks, start, i - 1, end);
      BlockCloses(strat, s0, cfg, blocks, start, i - 1, end);
      ReturnsSnoc(cfg.initialCapital, sim.equity, sim.rets, next.prevEquity, next.rets);
    }
  }

  lemma OpeningExplains(capital: real)
    ensures ReturnsExplain(capital, [], [])
  {
  }

  /** What the returns compound to. */
  ghost function Compounded(capital: real, rets: seq<real>): real {
    if |rets| == 0 then capital else Compounded(capital, rets[..|rets| - 1]) * (1.0 + rets[|rets| - 1])
  }

  lemma {:induction false} AllStart(capital: real, curve: seq<real>)
    requires capital > 0.0 && forall k :: 0 <= k < |curve| ==> curve[k] > 0.0
    ensures |Starts(capital, curve)| == |curve|
    ensures forall m :: 0 <= m < |curve| ==> Starts(capital, curve)[m] == m
  {
    if |curve| > 0 {
      AllStart(capital, curve[..|curve| - 1]);
    }
  }

  /** Returns that lead from each entry to the next compound to the last one. */
  lemma {:induction false} ChainCompounds(capital: real, curve: seq<real>, rets: seq<real>)
    requires |rets| == |curve|
    requires forall m :: 0 <= m < |rets| ==> Grows(Before(capital, curve, m), rets[m], curve[m])
    ensures Compounded(capital, rets) == Before(capital, curve, |curve|)
  {
    if |curve| > 0 {
      var n := |curve| - 1;
      hide Grows;
      forall m | 0 <= m < n
        ensures Grows(Before(capital, curve[..n], m), rets[..n][m], curve[..n][m])
      {
        assert Grows(Before(capital, curve, m), rets[m], curve[m]);
      }
      ChainCompounds(capital, curve[..n], rets[..n]);
      LastGrows(Compounded(capital, rets[..n]), rets[n], curve[n]);
    }
  }

  lemma LastGrows(before: real, ret: real, equity: real)
    requires Grows(before, ret, equity)
    ensures before * (1.0 + ret) == equity
  {
  }

  /** While the equity stays positive there is a return for every block, and the capital compounded by them is
      the final equity. */
  lemma ReturnsCompound(capital: real, curve: seq<real>, rets: seq<real>)
    requires capital > 0.0 && (forall k :: 0 <= k < |curve| ==> curve[k] > 0.0) && ReturnsExplain(capital, curve, rets)
    ensures |rets| == |curve|
    ensures forall m :: 0 <= m < |rets| ==> Grows(Before(capital, curve, m), rets[m], curve[m])
    ensures Compounded(capital, rets) == Before(capital, curve, |curve|)
  {
    hide Grows, Compounded;
    AllStart(capital, curve);
    ChainCompounds(capital, curve, rets);
  }
}
