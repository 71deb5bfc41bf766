# Verification models of the XOP trader

A market maker for Chia offers: a C++ engine that quotes and keeps the books, a Python GUI that starts and
stops it, and scripts that size offers, roll up history, check completeness and judge a probe. This project
models the parts of it where state is carried over many steps, and proves what those parts promise over all
inputs, all runs or all interleavings.

Doubles and floats are mathematical reals. Integers are unbounded unless a width matters, in which case it is
written out (64-bit mojos in `PositionBook`, PIDs up to 2^32 - 1 in `ShutdownRequest`). Code that updates
variables in a loop is a method with a loop, proved equal to a function of its inputs; objects that update
their fields are classes. The laws are lemmas about those functions; a module `...Laws` says what its partner computes
in the source's own figures, without the functions it is computed by.

| file | what it models |
|---|---|
| `Ledger`, `LedgerLaws`, `EquityLaws`, `TradeLaws` | the backtest's event loop, its cash and inventory ledger, and the laws of every run, its curve, its trades and its report |
| `MonteCarlo` | the second, hand-copied version of that loop |
| `OrderFlow`, `FlowLaws` | rebuilding per-block order flow from offers through an index |
| `WalkForward` | the sliding train and test windows |
| `Drawdown` | the one-pass running-peak drawdown |
| `SnapshotRollup`, `RollupEntries`, `RollupHistory`, `RetentionLaws` | the streaming group-by, what its entries say, the incremental rollup cache and the pruning of its source |
| `DepthSessions`, `SessionLaws`, `FrozenWindow`, `DepthVerdict`, `DepthLaws` | the probe analysis: sessions, the carried window, the verdict |
| `ShutdownRequest`, `RequestLaws`, `StopProtocol`, `ExitWait` | the stop request's text and its two parsers, the multi-process protocol, the bounded wait |
| `PositionBook`, `PositionLaws`, `Doubles` | the weighted-average position book, and the conversion of its prices to doubles |
| `OfferSizing`, `SizingLaws`, `IdealBalances`, `PriceLaws`, `BalanceLaws` | offer sizing and its claimed inverse |
| `RatioTargets`, `RatioLaws` | the settings page's three-way merge |
| `FillSweep`, `SweepLaws` | the fill-completeness sweep |
| `Wrappers`, `RealFacts`, `SeqFacts`, `Text` | options, facts about reals, sequences and numerals |

## What the proofs found

- Under the no-loss constraint the source says a loss trade "should never happen". The ask floor is fixed
  before the same block's bid changes the cost basis, so a quote whose bid exceeds its ask does lose. A fixed
  quote never loses on any data if and only if its bid does not exceed its ask (`LedgerLaws.FixedQuoteNeverLosesIff`);
  the exact condition is `LedgerLaws.BlockLosesIff` within one block and `LedgerLaws.RunLosesIff` for any strategy.
- The drawdown is documented as the worst fall over all pairs. It is that on curves without negative equity;
  with negative equity it can understate (`Drawdown.NegativeEquityUnderstates`), exactly when a negative sample
  lies further below the smallest positive one before it than the reported figure (`Drawdown.ScanIsExactIff`).
- The walk-forward comment says the parts "remain constant across all folds". Every full-size fold tests
  exactly `advance_blocks`, and those tests tile the data; a fold has these parts if and only if it is full-size
  (`WalkForward.FullWindowPartsIff`), and the last folds, cut by the end of the data, overlap
  (`WalkForward.CutTestsOverlap`, `WalkForward.CutFoldsOccur`).
- A rollup pass after a prune stays exact if and only if the cutoff does not cut through a bucket the pass
  re-reads (`RollupHistory.PruneIsHarmlessIff`).
- A bracketed transition is dropped so that it cannot open an inferred window. Of several in a row only every
  other one is (`FrozenWindow.DroppedIffOddStreak`), and none behind an unreadable row. So it opens the window exactly
  when the row before it was dropped or unreadable (`FrozenWindow.BracketedTransitionOpensIff`, with the sessions
  `FrozenWindow.SecondChangeIsKept` and `FrozenWindow.ChangeAcrossAHoleIsKept`); the asserted tail has the same two
  gaps (`FrozenWindow.SuspectOpensAssertedTailIff`).
- The Python parser is said to mirror the engine's "line for line". The two differ exactly on a pid value of
  more than 4300 digits whose number is a PID (`ShutdownRequest.ParsersAgreeIff`); the 4096-byte read limit keeps such
  a text from both, so on flag files they agree (`ShutdownRequest.ParsersAgreeOnFlags`).
- An engine can stop for a request written for another one only if it got that engine's PID and started in the
  very clock instant of the writing, because the engine's comparison is inclusive
  (`StopProtocol.HeirCanStopForAnother`). The clean-up after a singleton kill closes even that case.
- `state.cpp` documents a basis that truncates and never overstates; `llround` rounds to the nearest mojo, and
  `PositionBook.BasisOverstatesIff` says exactly when the basis is above the average. The bound of `to_mojo_checked`
  is described as above the largest mojo; the literal denotes the double 2^63 - 1024, so a price from 2^63 - 1535 on
  does reach the reset (`PositionBook.ResetReachableIff`). `add` and `remove` call `llround` without that check, and
  from a price of 2^63 - 512 on its argument can be out of range (`PositionBook.OverflowReachableIff`).
- The ideal balances invert the holdings cap, but the spread haircut is applied after the cap and so counts twice
  (`IdealBalances.HaircutCountsTwice`). In general a pair gets its ideal size exactly when its ladder before haircut
  fits in what all ideal ladders lock, or the minimum decides (`IdealBalances.InversionIsExactIff`).
- The settings page says an out-of-band write "is never replaced silently". That holds under every name whose rows
  kept it (`RatioTargets.UnmovedPageLosesNothing`); a deleted, renamed or added row can drop or replace one with no
  line naming it. `RatioTargets.SilentlyLostIff` says exactly when, and three inputs show that each kind happens.
- The sweep of the "full history" stops at 50,000 wallet records; a strict pass proves completeness exactly up to
  that size (`FillSweep.StrictPassIsCompleteIff`).

## Model

| member | source | states |
|---|---|---|
| Drawdown.ComputeMaxDrawdown | cpp/src/backtest.cpp:1640-1660 | the loop's result bounds every fall from the running peak and, when positive, is one of them |
| Drawdown.DrawdownIsWorstPair | cpp/src/backtest.cpp:1640-1660 | on non-negative curves it is the largest (e_i - e_j)/e_i over all pairs i <= j |
| Drawdown.DrawdownBelowOneIff | cpp/src/backtest.cpp:1640-1660 | it is below 1 iff no sample at or under zero follows a positive one |
| Drawdown.PeakIsWorstStartIff | cpp/src/backtest.cpp:1640-1660 | at any sample: the running peak is the worst start iff the sample is not negative or all positive samples so far were equal |
| Drawdown.ScanIsExactIff | cpp/src/backtest.cpp:1640-1660 | for every curve: the scan reports the worst pair iff no negative sample lies further below the smallest positive sample before it than the scan's figure |
| Drawdown.StaysExactIff | cpp/src/backtest.cpp:1640-1660 | the scan stays exact whatever sample comes next iff all positive samples so far are equal |
| Drawdown.NegativeEquityUnderstates | cpp/src/backtest.cpp:1640-1660 | a curve with negative equity on which it is less than the worst pair |
| Drawdown.PeakIsHighest | cpp/src/backtest.cpp:1640-1660 | the running peak is a sample, and the highest so far |
| Ledger.FillBid | cpp/src/backtest.cpp:598-635 | a purchase of the quoted size at our bid exactly when a taker sold at or below it: cash turns into cost, the basis is cost per unit, no profit; otherwise nothing changes |
| Ledger.FillAsk | cpp/src/backtest.cpp:637-695 | a sale of the quoted size or all that is held, exactly when a taker bought at or above our ask: cost leaves in proportion, price against basis is booked as profit or loss; otherwise nothing changes |
| Ledger.ApplyNoLoss | cpp/src/backtest.cpp:587-592 | never below the quoted ask nor, where the constraint applies, below basis plus margin, and one of the two |
| LedgerLaws.TradedKeeps | cpp/src/backtest.cpp:587-695 | floor, bid and ask of one block keep the books valid and balanced |
| LedgerLaws.BlockFillsExplain | cpp/src/backtest.cpp:587-695 | the fills of one block account for the change of inventory, profit and loss |
| Ledger.CountFills | cpp/src/backtest.cpp:622-633 | the fill, loss and adverse-selection counters of a block |
| Ledger.Summarise | cpp/src/backtest.cpp:722-764 | the closing metrics from the final state |
| Ledger.SimulateRange | cpp/src/backtest.cpp:523-765 | refuses an empty or overlong range, else reports what the block-by-block semantics assigns to it |
| LedgerLaws.BuyAverages | cpp/src/backtest.cpp:604-612 | a purchase makes the basis the exact weighted average, between the old basis and the price |
| LedgerLaws.SellKeepsBasis | cpp/src/backtest.cpp:659-666 | the proportional cost drawdown leaves the basis of the rest unchanged |
| LedgerLaws.FillsAreExecutable | cpp/src/backtest.cpp:598-695 | every fill is at a price some taker of that block paid or took, for a positive size within the quote |
| LedgerLaws.StepKeepsInvariant | cpp/src/backtest.cpp:563-719 | one block keeps: inventory, cost and cash balance, and the fill log explains them |
| LedgerLaws.RunKeepsInvariant | cpp/src/backtest.cpp:523-719 | so does every prefix of every run, for every strategy |
| LedgerLaws.RunConservesValue | cpp/src/backtest.cpp:523-765 | of every run: inventory is bought minus sold and never negative; cost is basis times inventory; cash + cost = capital + profit - loss; the reported realised PnL is the sum over the fills; the counters count the fills |
| LedgerLaws.CountersTally | cpp/src/backtest.cpp:622-633 | counting as the fills come is counting the log |
| LedgerLaws.TotalsConcat | cpp/src/backtest.cpp:625-693 | sums and counts over a fill log split at any point |
| LedgerLaws.UncrossedBlockNeverLoses | cpp/src/backtest.cpp:587-695 | with the constraint on and bid <= ask no block records a loss, although the floor predates the same block's purchase |
| LedgerLaws.BlockLosesIff | cpp/src/backtest.cpp:587-695 | a block records a loss iff bid and ask both fill and the purchase lifts the average cost above the ask |
| LedgerLaws.SaleEarnsMargin | cpp/src/backtest.cpp:587-651 | a sale in a block without a purchase earns at least the margin over the basis |
| LedgerLaws.UncrossedRunNeverLoses | cpp/src/backtest.cpp:561-719 | no run of any length of a strategy that never crosses records a loss |
| LedgerLaws.RunLosesIff | cpp/src/backtest.cpp:561-719 | a run of any strategy records a loss iff one of its quotes, against the books it met, meets that condition |
| LedgerLaws.FixedQuoteNeverLosesIff | cpp/src/backtest.cpp:561-719 | a fixed quote never loses on any blocks iff its bid does not exceed its ask |
| LedgerLaws.CrossedQuoteLoses | cpp/src/backtest.cpp:587-659 | blocks on which a crossed quote does lose |
| EquityLaws.BlockCloses | cpp/src/backtest.cpp:697-719 | what closing any block of any run adds: the entry of the curve, the higher of peak and equity, a block under water, and a return if the equity before was positive |
| EquityLaws.CurveIsMarked | cpp/src/backtest.cpp:697-702 | every entry of every run's curve is the cash plus the inventory at that block's reference price |
| EquityLaws.PeakIsHighestEquity | cpp/src/backtest.cpp:704-707 | the peak is the highest of the capital and the curve, and one of them |
| EquityLaws.UnderwaterCounts | cpp/src/backtest.cpp:709-712 | the counter counts the blocks that close with the holdings worth less than they cost |
| EquityLaws.ReturnsExplainCurve | cpp/src/backtest.cpp:714-719 | from the curve alone: one return for each entry that starts from a positive equity, in order, and that equity times one plus the return is the entry |
| EquityLaws.ReturnsCompound | cpp/src/backtest.cpp:714-719 | while the equity stays positive there is a return for every block and the capital compounded by them is the final equity |
| TradeLaws.BlockTells | cpp/src/backtest.cpp:563-585 | for any quoting rule on the whole history: what a strategy is told in each block and in which order, and that the quote it then gives is the one that trades |
| TradeLaws.BlockTrades | cpp/src/backtest.cpp:587-695 | how a quote trades: the bid at its price and size iff a taker sold at or below it, then an ask floored by the books before the bid, for its size or all that is held, iff a taker bought at or above it |
| TradeLaws.AdverseCounts | cpp/src/backtest.cpp:628-633 | over any run the adverse fills are those of all blocks but the last that were bought above or sold below the next block's price |
| TradeLaws.CashIsExplained | cpp/src/backtest.cpp:604-695 | at any point of any run the cash is the capital less the value bought plus the value sold, and the volume is the two together |
| TradeLaws.ReportIsMeant | cpp/src/backtest.cpp:724-762 | the closing figures multiplied out: PnL from the curve, profit factor, fill rate, turnover, adverse share, time under water |
| TradeLaws.RunReport | cpp/src/backtest.cpp:523-765 | of every run's report: the curve has one entry a block, the returns explain it, and on a positive curve they compound to the capital plus the PnL |
| MonteCarlo.PathTrade | cpp/src/backtest.cpp:916-957 | the copied fill code moves the books as the original does with the constraint on |
| MonteCarlo.PathBlock | cpp/src/backtest.cpp:901-964 | one turn of the copied loop keeps in step with one block of the original |
| MonteCarlo.SimulatePath | cpp/src/backtest.cpp:882-976 | for any blocks and strategy the copy reports what simulate_range reports with the constraint on: curve, returns, counts, losses, PnL, drawdown, profit factor, fill rate |
| MonteCarlo.PathAgreesWithRange | cpp/src/backtest.cpp:882-976 | both loops run side by side give the same report |
| OrderFlow.BlockRange | cpp/src/backtest.cpp:301-331 | the heights covered: first posting to last posting or fill, both attained; without dated postings the candle span |
| OrderFlow.IndexOffers | cpp/src/backtest.cpp:333-349 | the index answers each height with exactly the offers a full scan picks, in order |
| OrderFlow.IndexCandles | cpp/src/backtest.cpp:402-408 | the last candle of each height |
| OrderFlow.FlowLoop | cpp/src/backtest.cpp:434-456 | the order flow of one height's offers |
| OrderFlow.FlowMeaning | cpp/src/backtest.cpp:434-456 | the flow holds the cheapest filled ask and the dearest filled bid, both attained |
| OrderFlow.BuildBlocks | cpp/src/backtest.cpp:292-470 | exactly one block per covered height, each equal to a full scan; every properly dated filled offer falls inside |
| OrderFlow.WouldFillBidIff | cpp/src/backtest.cpp:788-797 | in a built block a bid fills iff some filled ask offer at that height has price <= the bid |
| OrderFlow.WouldFillAskIff | cpp/src/backtest.cpp:799-808 | an ask fills iff some filled bid offer at that height, of positive price, has price >= the ask |
| OrderFlow.FilledWithinSplits | cpp/src/backtest.cpp:341-349 | the offers filled in a range are those of its heights |
| OrderFlow.TakenAddsUp | cpp/src/backtest.cpp:439-456 | offers taken, summed over the blocks, are the offers filled in the range |
| FlowLaws.MidIs | cpp/src/backtest.cpp:410-432 | a block's reference price is the mean of open and close of the last candle of the latest block up to it that has one; without any, the first candle's close |
| FlowLaws.BlockCounts | cpp/src/backtest.cpp:434-463 | a block counts the offers posted at its height and those filled at it |
| FlowLaws.OneMoreOffer | cpp/src/backtest.cpp:443-455 | one more filled offer adds its size to its own side's volume of its own block and to nothing else |
| WalkForward.WindowFrom | cpp/src/backtest.cpp:1135-1143 | a window stays inside the data, train before test |
| WalkForward.CutWindow | cpp/src/backtest.cpp:1134-1148 | a window as long as the data allow, its train part the whole blocks of its share; the loop breaks iff a part has at most ten blocks |
| WalkForward.SlideWindows | cpp/src/backtest.cpp:1081-1236 | refused without data or parameters; else the slide ends, for zero advance too, and yields exactly the usable folds up to the first unusable one |
| WalkForward.FoldsAre | cpp/src/backtest.cpp:1120-1148 | what every fold is: sized so that the train part has its share beside advance test blocks, cut at the end of the data, split at whole blocks of that share; evaluated iff more than 100 blocks lie ahead and both parts have more than ten |
| WalkForward.FullShareIsTrainBlocks | cpp/src/backtest.cpp:1128-1141 | the two floors agree: a full window's train share is the precomputed train part |
| WalkForward.FullWindowPartsIff | cpp/src/backtest.cpp:1120-1148 | a fold has the sized train part and tests exactly advance_blocks iff it is full-size |
| WalkForward.TestPartsMeetIff | cpp/src/backtest.cpp:1134-1236 | consecutive tests leave no gap; exactly when they do not overlap |
| WalkForward.FullTestsTile | cpp/src/backtest.cpp:1120-1236 | the tests of full-size folds tile the data |
| WalkForward.CutTestsOverlap | cpp/src/backtest.cpp:1120-1148 | consecutive folds cut by the end of the data always overlap |
| WalkForward.CutFoldsOccur | cpp/src/backtest.cpp:1120-1148 | such folds: 1000 blocks, advance 100, train share 70 % |
| SnapshotRollup.SortMembers | scripts/maintain_snapshot_rollups.py:106-125 | the ordered read returns the same rows |
| SnapshotRollup.SortSorts | scripts/maintain_snapshot_rollups.py:106-125 | ordered by pair, time and height |
| SnapshotRollup.FilterSort | scripts/maintain_snapshot_rollups.py:106-125 | a bucket's rows come out in the same order from a long history and from a short one |
| SnapshotRollup.BoundaryKeepsBuckets | scripts/maintain_snapshot_rollups.py:101-104 | a lower bound on a bucket boundary separates whole buckets |
| SnapshotRollup.HighLowMeaning | scripts/maintain_snapshot_rollups.py:213-214 | high and low bound every mid of the bucket and are reached |
| SnapshotRollup.StartBucket | scripts/maintain_snapshot_rollups.py:192-211 | the running variables after a bucket's first row |
| SnapshotRollup.AddRow | scripts/maintain_snapshot_rollups.py:213-226 | the running variables after one more row |
| SnapshotRollup.Flush | scripts/maintain_snapshot_rollups.py:147-175 | closing the open run emits that bucket's aggregate, and no bucket twice |
| SnapshotRollup.RunIsBucket | scripts/maintain_snapshot_rollups.py:177-228 | in ordered rows a run of one key is that whole bucket |
| SnapshotRollup.GroupRows | scripts/maintain_snapshot_rollups.py:130-228 | the one-pass group-by emits each bucket exactly once with the aggregate of all its rows |
| SnapshotRollup.LatestBucket | scripts/maintain_snapshot_rollups.py:84-91 | the newest bucket of a table |
| RollupEntries.EntriesDescribeBuckets | scripts/maintain_snapshot_rollups.py:177-228 | each entry opens with a first and closes with a last snapshot of its bucket, spans its mids, counts its rows and holds their means, in whatever order they were logged |
| RollupEntries.BucketIsMultiple | scripts/maintain_snapshot_rollups.py:189-190 | for every table size a bucket is a multiple of it, and it is the multiple at or right below the time |
| RollupEntries.EntriesAreWholeBuckets | scripts/maintain_snapshot_rollups.py:177-228 | a table has an entry for a pair and time iff the time is a multiple of the table's size and a snapshot of the pair falls in the interval it starts; the entry is made of exactly those |
| RollupEntries.ShareAnEntryIff | scripts/maintain_snapshot_rollups.py:189-192 | for every table size: two snapshots share an entry iff they are of one pair and their times have one quotient by it |
| RollupHistory.SnapshotDb.BuildRollup | scripts/maintain_snapshot_rollups.py:94-273 | a pass replaces exactly the re-read buckets by their aggregates |
| RollupHistory.SnapshotDb.BuildAllRollups | scripts/maintain_snapshot_rollups.py:526-530 | one pass for each of the four tables |
| RollupHistory.SnapshotDb.Prune | scripts/maintain_snapshot_rollups.py:298-406 | refuses an unconfirmed deletion of more than a quarter of a table and then changes nothing; else deletes exactly the older rows |
| RollupHistory.SnapshotDb.Maintain | scripts/maintain_snapshot_rollups.py:461-589 | a rollup and then, unless refused, a prune of the store; exactly when it is refused (exit 3); what is deleted otherwise; a dry run changes nothing |
| RollupHistory.PassCatchesUp | scripts/maintain_snapshot_rollups.py:94-273 | a pass over the pruned log takes a table to the aggregate of the full history |
| RollupHistory.RollUpKeepsInvariant | scripts/maintain_snapshot_rollups.py:94-273 | a rollup keeps the invariant and makes all tables exact |
| RollupHistory.PruneKeepsInvariant | scripts/maintain_snapshot_rollups.py:298-406 | a safe prune keeps it |
| RollupHistory.RunKeepsInvariant | scripts/maintain_snapshot_rollups.py:509-580 | every interleaving of appends, rollups and safe prunes keeps it |
| RollupHistory.RollupsAggregateFullHistory | scripts/maintain_snapshot_rollups.py:94-273 | after any such run each table equals the aggregate of everything ever appended |
| RollupHistory.YoungEnoughIsSafe | scripts/maintain_snapshot_rollups.py:305-322 | a prune is safe when the newest rolled-up row is younger than the window less two buckets |
| RollupHistory.YoungRunsAggregateFullHistory | scripts/maintain_snapshot_rollups.py:94-273 | over whole runs of timely appends, rollups and prunes that each happen while the newest rolled-up row is that young, every table equals the aggregate of everything ever appended |
| RollupHistory.PruneIsHarmlessIff | scripts/maintain_snapshot_rollups.py:101-104 | for any cutoff: the next pass stays exact iff no re-read bucket straddles it |
| RollupHistory.StraddlingPruneLoses | scripts/maintain_snapshot_rollups.py:101-104 | a prune through the day of the only two rows: the next pass loses one |
| RollupHistory.LateRowIsPickedUpIff | scripts/maintain_snapshot_rollups.py:101-104 | for any late row: a pass picks it up iff it is not older than the read-back bound |
| RetentionLaws.PassReads | scripts/maintain_snapshot_rollups.py:94-104 | a pass reads every row on an empty table, and otherwise those from one bucket before the newest on |
| RetentionLaws.RefusedIff | scripts/maintain_snapshot_rollups.py:350-362 | an unconfirmed prune is refused iff more than a quarter of the rows is older than so many days of 86,400 seconds |
| RetentionLaws.PruneKeeps | scripts/maintain_snapshot_rollups.py:305-395 | a prune keeps exactly the rows within retention, in order |
| RetentionLaws.QuoteIsKeptIff | scripts/maintain_snapshot_rollups.py:398-404 | a quote is kept by the same rule |
| DepthSessions.LoadSessions | scripts/permuto_depth_analyze.py:37-93 | the sessions own the data rows in order, each session what the break rules give it; unreadable records are counted |
| DepthSessions.ShareSessionIff | scripts/permuto_depth_analyze.py:54-92 | two rows share a session iff no header and no unreadable record lies between |
| DepthSessions.BreakSeparates | scripts/permuto_depth_analyze.py:54-92 | nothing behind a break joins what came before it |
| DepthSessions.TrailingRecordOpensNothing | scripts/permuto_depth_analyze.py:50-54 | trailing unreadable records open no session |
| SessionLaws.SessionsAreStarts | scripts/permuto_depth_analyze.py:54-92 | a file opens as many sessions as lines start one: a header, or a data row behind an unreadable record or before anything readable |
| SessionLaws.OwnerIsLastStart | scripts/permuto_depth_analyze.py:54-92 | a data row belongs to the session of the last such line up to it |
| SessionLaws.OwnedRowsAre | scripts/permuto_depth_analyze.py:54-92 | each data row stands in its session's rows at the place its line has among them, and nothing else does |
| SessionLaws.OpenerIsStart | scripts/permuto_depth_analyze.py:82-90 | a session carries the header of the line that starts it; it is marked truncated iff a data row behind an unreadable record does |
| SessionLaws.MalformedIsCount | scripts/permuto_depth_analyze.py:60-81 | the malformed count is the number of unreadable lines |
| FrozenWindow.ScanRuns | scripts/permuto_depth_analyze.py:246-295 | the scanner keeps the last run of the session, open or completed |
| FrozenWindow.RunIsMaximalClean | scripts/permuto_depth_analyze.py:246-295 | a run is clean and cannot be extended to the left |
| FrozenWindow.InferWindow | scripts/permuto_depth_analyze.py:203-333 | a window is inferred iff such a run reaches the end, and is that suffix |
| FrozenWindow.InferredWindowIsSound | scripts/permuto_depth_analyze.py:203-333 | it is a clean suffix behind an earlier, different oracle value |
| FrozenWindow.CleanTailIsInferred | scripts/permuto_depth_analyze.py:203-333 | conversely a clean tail behind a differing reading is inferred |
| FrozenWindow.CleanIsOneValue | scripts/permuto_depth_analyze.py:267-294 | a clean window has one oracle value and strictly increasing times |
| FrozenWindow.BracketedTransitionOpensIff | scripts/permuto_depth_analyze.py:275-293 | a bracketed row that does not continue the value right before it opens the inferred window iff the row before was dropped or unreadable, the tail from it is clean and a different value came before |
| FrozenWindow.ChangeBehindUnreadableRowOpens | scripts/permuto_depth_analyze.py:261-293 | so a bracketed change across unreadable rows opens the window with nothing dropped |
| FrozenWindow.ChangeAcrossAHoleIsKept | scripts/permuto_depth_analyze.py:261-293 | such a session |
| FrozenWindow.DroppedIffOddStreak | scripts/permuto_depth_analyze.py:275-293 | of consecutive bracketed transitions exactly every other one is dropped, the first included |
| FrozenWindow.SecondChangeIsKept | scripts/permuto_depth_analyze.py:275-293 | and there it does: a concrete session |
| FrozenWindow.CheckTail | scripts/permuto_depth_analyze.py:165-200 | the validation loop accepts exactly the clean tails |
| FrozenWindow.SuspectOpensAssertedTailIff | scripts/permuto_depth_analyze.py:148-159 | a bracketed change of the last value read opens an asserted tail iff it stands behind an unread row or right behind the skipped one |
| FrozenWindow.AssertWindow | scripts/permuto_depth_analyze.py:120-200 | an asserted boundary gives the whole tail or, on any defect, nothing |
| FrozenWindow.SelectWindow | scripts/permuto_depth_analyze.py:203-333 | whatever window is returned is a clean suffix of the session, with matching provenance |
| DepthVerdict.SustainedRisers | scripts/permuto_depth_analyze.py:336-361 | exactly the accounts that rose in every sub-window |
| DepthVerdict.RiseTelescopes | scripts/permuto_depth_analyze.py:336-361 | rising in every sub-window is rising end to end |
| DepthVerdict.SustainedIsRiser | scripts/permuto_depth_analyze.py:539-545 | so a corroborated account is a riser |
| DepthVerdict.TopRate | scripts/permuto_depth_analyze.py:541-549 | the reported rate is the largest of the accounts', attained and positive |
| DepthVerdict.JudgeWindow | scripts/permuto_depth_analyze.py:462-598 | exactly when each verdict on a window is given; its span is positive |
| DepthVerdict.Judge | scripts/permuto_depth_analyze.py:388-598 | exactly when each of the seven verdicts is given; STRONG EVIDENCE iff a boundary was asserted, its tail is clean and an account rose in every sub-window; the rate is then positive and earned; every measured span is positive |
| DepthLaws.CleanHoldsTogether | scripts/permuto_depth_analyze.py:165-237 | for every sampling interval: a stretch is clean iff it has one reading throughout and every gap is positive and at most three intervals or at most 30 s |
| DepthLaws.AssertionIsRefutedIff | scripts/permuto_depth_analyze.py:120-200 | an assertion is refuted iff the whole tail behind its boundary, of two samples or more, does not hold together in that sense; otherwise the tail is the window |
| DepthLaws.CountedIffRead | scripts/permuto_depth_analyze.py:420-421 | a sample counts iff it carries the reading of some account |
| DepthLaws.CorroboratedIff | scripts/permuto_depth_analyze.py:336-361 | an account corroborates a window of 20 samples or more iff it gains over every sub-window: of ten samples or more, at most six of them, the last one to the end |
| DepthLaws.ShortWindowsCorroborateNobody | scripts/permuto_depth_analyze.py:539-540 | fewer samples corroborate nobody |
| DepthLaws.ReportedRateIsHighest | scripts/permuto_depth_analyze.py:545-549 | the reported rate, over the hours of the window, is the gain of a corroborated account, and none of them has a higher one |
| ShutdownRequest.ParseShutdownRequest | gui/shutdown_flag.py:152-196 | the loop with its early exits equals the declarative rule: no pid line unaddressed, one usable addressed, else malformed |
| ShutdownRequest.EnginePid | cpp/include/xop/util/shutdown_flag.hpp:157-186 | the accumulating digit loop reads exactly the values that name a process |
| ShutdownRequest.EngineParse | cpp/include/xop/util/shutdown_flag.hpp:114-193 | the engine's parser equals its rule |
| ShutdownRequest.CaseRulesAgree | gui/stop_offers.py:56-70 | lower-casing and comparing without case accept the same policy words |
| ShutdownRequest.ParsersAgreeIff | gui/shutdown_flag.py:138-196 | the two parsers agree on addressee and policy iff no pid value has more than 4300 digits and still names a process |
| ShutdownRequest.OverlongPidExists | gui/shutdown_flag.py:138-149 | such a text exists |
| ShutdownRequest.ParsersAgreeOnFlags | gui/shutdown_flag.py:199-206 | within the read limit they always agree |
| ShutdownRequest.RenderRoundTrip | gui/shutdown_flag.py:103-196 | parsing a rendered request returns its PID, requester and policy, for every PID of the format |
| ShutdownRequest.CrlfReadsTheSame | gui/shutdown_flag.py:156-165 | LF to CRLF changes nothing in a text without CR |
| ShutdownRequest.BomReadsTheSame | gui/shutdown_flag.py:154-155 | nor does a leading BOM |
| ShutdownRequest.OffersLineKeepsAddressee | gui/shutdown_flag.py:169-178 | an offers line anywhere never changes whose request it is |
| RequestLaws.CleanLinesAreRead | gui/shutdown_flag.py:154-165 | the lines that are read: the pieces between newlines, without a byte order mark and one carriage return each |
| RequestLaws.PidIs | gui/shutdown_flag.py:138-149 | a value names a process iff, blanks and tabs aside, it is 1 to 4300 ASCII digits of a number from 1 to 2^32 - 1 |
| RequestLaws.PolicyIs | gui/stop_offers.py:56-70 | a value says cancel or keep iff it is that word in any mixture of cases, blanks and tabs aside |
| RequestLaws.ReadMeans | gui/shutdown_flag.py:152-196 | what any text says, from its lines alone: the addressee, the requester and the offers; two pid lines are malformed, two offers lines unrecognised, two requesters none |
| StopProtocol.CheckTakesAllButLive | cpp/include/xop/util/shutdown_flag.hpp:275-355 | a check removes everything but a live request of that engine; a checkpoint takes that too and stops; unreadable content is left |
| StopProtocol.CheckActsIff | cpp/include/xop/util/shutdown_flag.hpp:275-355 | with whatever a check can see: exactly when it removes the flag and when it stops |
| StopProtocol.OnlyTheHeadCounts | gui/shutdown_flag.py:199-206 | nothing behind the first 4096 characters of a flag counts, and everything up to there does |
| StopProtocol.FlagFile.Evaluate | cpp/src/engine.cpp:27169-27283 | what a check leaves in the file and whether the engine stops; a request that replaces the file meanwhile, at another time, is left there and stops nobody |
| StopProtocol.FlagFile.CleanupAfterKill | gui/shutdown_flag.py:344-381 | exactly which flag the clean-up removes; none when no engine was killed, and never a malformed one |
| StopProtocol.FlagFile.RemoveIfAddressedTo | gui/shutdown_flag.py:273-285 | removes the flag iff it is addressed to that PID and can be read and removed |
| StopProtocol.RequestNamesItsPid | gui/shutdown_flag.py:216-260 | both readers take a written request for the PID it was written for |
| StopProtocol.StepKeepsSound | gui/shutdown_flag.py:1-45 | every step of every process keeps the protocol's invariant |
| StopProtocol.RunKeepsSound | gui/shutdown_flag.py:1-45 | and so does every interleaving |
| StopProtocol.OnlyASimultaneousHeirStopsForAnother | gui/shutdown_flag.py:11-13 | in every run, an engine never stops for a request older than itself; it stops for another engine's only under its PID and in the instant of its own start |
| StopProtocol.ForeignRequestStopsIff | cpp/include/xop/util/shutdown_flag.hpp:275-325 | exactly when a running engine would stop for another's request |
| StopProtocol.HeirCanStopForAnother | cpp/include/xop/util/shutdown_flag.hpp:300-312 | a run in which that remaining case happens |
| StopProtocol.CleanupSilencesTheKilled | gui/main.py:528-582 | after a clean-up no engine, however soon started, stops for an earlier request for a killed engine, nor for an unaddressed one if any was killed |
| StopProtocol.CleanupKeepsIff | gui/shutdown_flag.py:344-381 | a clean-up keeps the flag iff it cannot be read or removed, is malformed, names no killed engine, or is unaddressed and none was killed |
| StopProtocol.HarmlessStartKeepsTheFlag | gui/main.py:486-582 | in every state: the clean-up of a startup that killed nobody leaves the flag as it is |
| StopProtocol.OnlyTheKilledLoseTheirRequest | gui/shutdown_flag.py:344-381 | a clean-up takes a running engine's request iff this startup killed its PID; then it killed that engine, or another before this one started |
| StopProtocol.GoneForGood | gui/shutdown_flag.py:198-285 | a request that is gone is never honoured again |
| StopProtocol.RequestIsDelivered | cpp/src/engine.cpp:27155-27283 | as long as nobody rewrites the flag, kills its PID or evaluates it elsewhere, an engine's next full checkpoint takes its request and stops |
| StopProtocol.FinishStop | gui/services/engine_bridge.py:1737-1750 | the outcome reported, and the flag after an undelivered request is taken back |
| StopProtocol.OutcomeSays | gui/shutdown_flag.py:302-337 | exactly when each outcome is reported, and when a request counts as undelivered |
| StopProtocol.StopLeavesNoRequest | gui/services/engine_bridge.py:1737-1750 | once the engine is gone no request names its PID, and no other is touched; when a stop is called graceful |
| ExitWait.WaitForProcessExit | gui/main.py:216-227 | looks until the process is not seen alive or the time is up, with at most a quarter of a second of sleep between two looks; reports the last look, a live process only after the timeout; ends |
| ExitWait.AwaitStopInProgress | gui/main.py:230-334 | it looks at the engine of a stop under way until that is gone, then at the GUI that asked; both waits together ask for at most 45 s of sleep |
| ExitWait.StopUnderWayIff | gui/main.py:262-296 | exactly when a stop is under way, and of which engine and GUI |
| PositionBook.Position.Add | cpp/src/state.cpp:45-87 | the position after a purchase, or its refusal, wrap-around included |
| PositionBook.Position.Remove | cpp/src/state.cpp:89-123 | the position after a sale, or its refusal |
| PositionBook.State.RecordBuy | cpp/src/state.cpp:167-182 | the whole book after a purchase; a refused one still opens an entry |
| PositionBook.State.RecordSell | cpp/src/state.cpp:184-200 | the whole book after a sale, and when it succeeds |
| PositionBook.State.ReconcileBalance | cpp/src/state.cpp:202-264 | the whole book after an observed balance, and the balance before |
| PositionBook.AssetsAreIndependent | cpp/src/state.cpp:167-264 | after any operations an asset's entry is what its own operations made of it |
| PositionBook.BalanceIsCount | cpp/src/state.cpp:45-264 | after any operations the balance is a plain count of units: purchases are refused only at overflow, sales only beyond the balance, an observation sets it |
| PositionBook.PurchaseWeighs | cpp/src/state.cpp:79-86 | a purchase weighs its price into the average by its size |
| PositionBook.RunKeepsBook | cpp/src/state.cpp:45-264 | after any operations the balance is not negative, an empty position costs nothing, and the cost lies between the balance at the lowest and highest price paid since it was last empty |
| PositionBook.BasisIsAFairPrice | cpp/src/state.cpp:79-86 | the basis is the average to the nearest mojo and lies between those prices; exactly when it fits 64 bits |
| PositionBook.RoundOverstatesIff | cpp/src/state.cpp:81-84 | llround exceeds its argument iff the fraction is above a half, or a half and not negative |
| PositionBook.BasisOverstatesIff | cpp/src/state.cpp:47-86 | after any operations: exactly when the basis is above the average, and when equal to it |
| PositionBook.BasisCanOverstate | cpp/src/state.cpp:47-55 | purchases after which it is above |
| PositionBook.SaleKeepsAverage | cpp/src/state.cpp:104-115 | a partial sale keeps the exact average and releases its share of the cost |
| PositionBook.ReconciliationKeepsAverageIff | cpp/src/state.cpp:230-257 | a reconciliation keeps it iff it is representable, else it becomes 1 |
| PositionBook.SalesCompose | cpp/src/state.cpp:104-115 | selling in two parts is selling at once |
| PositionBook.ObservedFallIsASale | cpp/src/state.cpp:227-257 | an observed fall is booked as the sale of the difference |
| PositionBook.RepresentableIff | cpp/include/xop/peg_registry.hpp:518-530 | which prices the bound of to_mojo_checked accepts once they are doubles |
| PositionBook.ResetReachableIff | cpp/src/state.cpp:242-257 | the fall-back to the unit basis is reachable iff some price is negative or at least 2^63 - 1535 |
| PositionBook.OverflowReachableIff | cpp/src/state.cpp:80-85 | llround in add and remove gets a value out of range in some run iff some price is at least 2^63 - 512 |
| PositionLaws.RoundIs | cpp/src/state.cpp:81-84 | llround is the nearest integer, of two the one farther from zero |
| PositionLaws.OperationMeans | cpp/src/state.cpp:45-264 | after any operations: what the next one does to balance, cost and basis, every refusal and the reset included |
| PositionLaws.OtherEntriesStay | cpp/src/state.cpp:167-264 | and it touches no other entry |
| Doubles.TopDoubles | cpp/src/state.cpp:80 | which prices become the two largest doubles concerned |
| Doubles.DoubleIsNearest | cpp/src/state.cpp:80 | every 64-bit price becomes the nearest number of at most 53 significant bits, the even one on a tie |
| OfferSizing.ApplyCaps | scripts/offer_sizing.py:336-341 | the loop over the caps yields the least, and the last cap that was strictly lower |
| OfferSizing.DecidingIsAttained | scripts/offer_sizing.py:336-341 | the limit named as deciding is the size, and strictly below those before it |
| OfferSizing.CappedSizeIsGreatestAllowed | scripts/offer_sizing.py:307-341 | the size before haircut and floor is the largest within every limit: target, participation cap, inventory days, 40 % of the holdings each side locks |
| OfferSizing.Recommend | scripts/offer_sizing.py:242-359 | the whole recommendation: its early returns, participation, size and ladder, what decided it and whether holdings bound it |
| OfferSizing.RecommendationIsIdealIff | scripts/offer_sizing.py:407-417 | for any holdings the recommendation is at most the ideal; exactly when it is the ideal |
| OfferSizing.FinishedMonotone | scripts/offer_sizing.py:343-349 | haircut and floor keep the order of sizes, and where they merge two |
| SizingLaws.MatchIsFirst | scripts/offer_sizing.py:130-136 | the ticker is the first that lists the two assets, in either orientation |
| SizingLaws.RecommendationMeans | scripts/offer_sizing.py:234-359 | the recommendation in the ticker's own figures: a seventh of its volume in the pair's base asset, its price the right way round, the haircut, every limit, what decided and what bound |
| SizingLaws.CappedSizeIsGreatest | scripts/offer_sizing.py:307-341 | the size before haircut and minimum is the greatest that seven days of the ticker's volume of the pair's base asset and 40 % of each side's holdings allow |
| SizingLaws.MirrorsGetOneSize | scripts/offer_sizing.py:139-155 | on a ticker whose two volumes are one turnover at its price, a pair and its mirror image get one size before holdings: the one is the other at that price |
| SizingLaws.MirroredPricesCancel | scripts/offer_sizing.py:158-167 | the prices of the two ways round cancel |
| SizingLaws.EvenLadder | scripts/offer_sizing.py:225-254 | a ladder of equal tiers is as many tier-0 sizes as it has tiers |
| IdealBalances.UsdPrices | scripts/offer_sizing.py:386-404 | the dollar prices, or the refusal without an anchor |
| IdealBalances.UsdIsPositive | scripts/offer_sizing.py:386-404 | every price is positive |
| PriceLaws.PricedAssets | scripts/offer_sizing.py:386-404 | there are prices iff some ticker prices wUSDC.b in XCH; then exactly of XCH and of what some ticker prices in it |
| PriceLaws.PricesMean | scripts/offer_sizing.py:386-404 | wUSDC.b is one dollar, XCH what its last ticker then makes it, any other asset its last price in XCH |
| IdealBalances.RequirementsFromLadders | scripts/offer_sizing.py:420-443 | requirements and deployments are the sums over all pairs and both sides |
| IdealBalances.SumBacksEach | scripts/offer_sizing.py:420-443 | the sum backs each ladder |
| BalanceLaws.OneLadderLocks | scripts/offer_sizing.py:428-442 | one ladder locks itself in its base and its dollar worth in its quote, and nothing else |
| BalanceLaws.LockedAdds | scripts/offer_sizing.py:428-442 | what ladders lock adds up over any split of the pairs |
| BalanceLaws.RequirementsMean | scripts/offer_sizing.py:420-443 | exactly the assets of a ladder are required and deployed; what is locked is deployed and is 40 % of what is required |
| IdealBalances.ApplyReserves | scripts/offer_sizing.py:462-476 | the ideal holdings with liquid floor and fee reserve |
| BalanceLaws.ReservesMean | scripts/offer_sizing.py:462-476 | the ideal holdings of an asset are what its ladders require or what the liquid floor asks for, whichever is more, and of XCH the fee reserve on top |
| IdealBalances.LiquidFloorBindsIff | scripts/offer_sizing.py:465-468 | the liquid floor matters exactly above 60 % |
| IdealBalances.UniqueTickerAgrees | scripts/offer_sizing.py:158-167 | for an XCH pair with one ticker the ticker's price and the dollar cross cancel |
| IdealBalances.IdealHoldingsFund | scripts/offer_sizing.py:446-476 | the ideal holdings back both sides of every ladder at once |
| IdealBalances.IdealHoldingsAre | scripts/offer_sizing.py:420-476 | 40 % of the ideal holdings of an asset is what all ladders lock of it, raised by the liquid floor, plus the share of the fee reserve: to the unit |
| IdealBalances.IdealHoldingsInvertTheCap | scripts/offer_sizing.py:307-359 | holding them, every pair whose prices agree is recommended at most its ideal and at least that less one more haircut; exactly the ideal without a haircut |
| IdealBalances.XchPairsAreInverted | scripts/offer_sizing.py:307-476 | in particular every XCH pair whose other asset has one ticker |
| IdealBalances.InversionIsExactIff | scripts/offer_sizing.py:307-476 | for every list of pairs, any prices and any liquid floor: a pair is recommended its ideal iff its ladder before haircut fits on both sides in what all ideal ladders lock, or the minimum decides |
| IdealBalances.HaircutCountsTwice | scripts/offer_sizing.py:343-349 | in a list of any length, an XCH pair with one ticker and a quote asset of its own gets the ideal with the haircut taken again; the ideal itself iff there is no haircut or the minimum decides |
| RatioTargets.FreshTextIsNoEdit | gui/ratio_targets.py:84-108 | a populated cell's text is never read as an edit, rounded though it is |
| RatioTargets.TypedEditCountsIff | gui/ratio_targets.py:146-180 | a typed percentage is an edit iff it differs from the shown one in its hundredths; then it is kept unrounded |
| RatioLaws.HundredthsAre | gui/ratio_targets.py:84-90 | a cell shows the nearest hundredth of a percent, the even one on a tie |
| RatioLaws.StripIs | gui/ratio_targets.py:92-100 | white space is taken off both ends, and nothing else |
| RatioLaws.DropPercentIs | gui/ratio_targets.py:92-100 | percent signs are dropped wherever they stand, and nothing else is |
| RatioLaws.RowAsks | gui/ratio_targets.py:146-180 | of any row: exactly which texts are no edit, and what the row asks of its entry then and otherwise |
| RatioTargets.MergeRatioTargets | gui/ratio_targets.py:183-227 | the three loops give every name the entry of the row-by-row rule |
| RatioTargets.OnlyValidEntries | gui/ratio_targets.py:183-227 | only values the engine accepts are written |
| RatioTargets.UnnamedEntries | gui/ratio_targets.py:183-227 | a name no row carries keeps its valid entry, unless the page had shown it |
| RatioTargets.UntouchedRowCarries | gui/ratio_targets.py:215-223 | an untouched row leaves the file's present value, and carries it along when renamed |
| RatioTargets.EditsAreSaved | gui/ratio_targets.py:146-227 | a cleared cell removes its entry, a typed percentage writes that fraction, a populated value that is not the file's is written exactly |
| RatioTargets.SwappedNamesSwapValues | gui/ratio_targets.py:215-223 | swapping two names swaps their values |
| RatioTargets.SavingAgainChangesNothing | gui/widgets/settings.py:4578-4603 | saving the page again after a save changes no valid entry, whatever was written in between |
| RatioTargets.DescribeChanges | gui/ratio_targets.py:230-248 | the audit lines are true, and applying them to the old map gives the new one |
| RatioLaws.DifferencesAreListed | gui/ratio_targets.py:230-248 | such lines list exactly the entries that differ, each with its old and its new value |
| RatioTargets.DescribeConflicts | gui/ratio_targets.py:251-282 | the loop lists, in order, exactly the edits of loaded rows whose old name holds neither what was loaded nor what is written |
| RatioTargets.MergedValidIs | gui/ratio_targets.py:183-227 | the value the merge leaves under any name, from rows and file alone: the last deciding row's, else the file's unless the name was given up |
| RatioTargets.SilentlyLostIff | gui/ratio_targets.py:251-282 | for any rows and file: exactly when a value written after the page loaded is replaced with no line naming it and no row taking it along |
| RatioTargets.UnmovedPageLosesNothing | gui/ratio_targets.py:251-282 | under a name that was not given up and whose rows were loaded from it, never |
| RatioTargets.KeptNameIsListedIff | gui/ratio_targets.py:251-282 | a row that kept its name has a line iff the file no longer holds what was loaded and the merge changes it |
| RatioLaws.CarriedIsKept | gui/ratio_targets.py:215-223 | a value that a renamed row takes along is what the merge leaves under its new name |
| RatioTargets.DeletedRowLosesSilently | gui/widgets/settings.py:5261-5265 | a deleted row whose entry was written meanwhile: dropped without a line |
| RatioTargets.RenamedRowLosesSilently | gui/ratio_targets.py:251-282 | a renamed row that removes another entry without a line |
| RatioTargets.AddedRowLosesSilently | gui/ratio_targets.py:251-282 | an added row that replaces an entry without a line |
| RatioTargets.ReadFixed2Reads | gui/ratio_targets.py:84-108 | a reader that reads what the formatter prints exists |
| FillSweep.SweepRecords | scripts/verify_fill_completeness.py:326-371 | counters and lists are those of the declarative classification |
| FillSweep.SortByTimeSorts | scripts/verify_fill_completeness.py:369-370 | the reported lists are ordered by time, none lost or doubled |
| FillSweep.CountsAddUp | scripts/verify_fill_completeness.py:326-371 | confirmed = out of scope + in grace + checked; checked = recorded + missing + dead |
| FillSweep.EveryRecordIsAccountedFor | scripts/verify_fill_completeness.py:326-371 | every checked record is recorded, missing, or its offer has exactly one excluded entry |
| FillSweep.RecentlyConfirmedIsChecked | scripts/verify_fill_completeness.py:200-225 | under --since-days N a record past grace confirmed within N days of blocks is checked however old its posting; a longer window checks no less |
| FillSweep.FetchAll | scripts/verify_fill_completeness.py:250-269 | paging returns the wallet's records up to the limit |
| FillSweep.Verify | scripts/verify_fill_completeness.py:405-549 | the exit code from arguments, wallet and database |
| FillSweep.ExitCodeMeans | scripts/verify_fill_completeness.py:524-549 | what each exit code says of every record fetched, both ways |
| FillSweep.StrictPassIsCompleteIff | scripts/verify_fill_completeness.py:250-269 | a strict pass proves every record of a wallet recorded iff the wallet fits the paging limit |
| SweepLaws.IdIs | scripts/verify_fill_completeness.py:155-157 | an offer's id is its trade id in lower case without one leading 0x |
| SweepLaws.CheckedIff | scripts/verify_fill_completeness.py:185-225 | which records a call checks, from its arguments, the clock and the wallet's height: 86,400 s and 4608 blocks a day, a tenth more of the blocks |
| SweepLaws.HeightlessIsCheckedByTime | scripts/verify_fill_completeness.py:211-225 | a record without a height is checked by its time alone, in a window that starts above genesis |
| SweepLaws.VerifyAnswers | scripts/verify_fill_completeness.py:405-549 | the exit code of any call: 2 iff it cannot be answered, else 1 iff one of the first 50,000 records is checked, unrecorded and not known dead, else 3 iff --strict and one is known dead, else 0 |
| SweepLaws.ReadyIff | scripts/verify_fill_completeness.py:445-482 | exactly when a call can be answered |
| SweepLaws.CountersCount | scripts/verify_fill_completeness.py:345-361 | what each counter counts |
| SweepLaws.SortIsStable | scripts/verify_fill_completeness.py:369-370 | records of one time are listed in the order they came |
| SweepLaws.ExcludedAreFirsts | scripts/verify_fill_completeness.py:363-367 | the excluded list holds exactly the first record of each dead offer |

## Left out

- Rounding of IEEE doubles, infinities and NaN: every law above is about the real arithmetic the code intends.
- The Sharpe ratio, price-path generation and the volatility estimators: transcendental; both loops are shown to
  feed the Sharpe ratio the same return series.
- OrderFlow.BuildBlocks: timestamps and the candle's low and high are not modelled; candles arrive assigned to a
  block, and the span estimated from the candles is an input.
- WalkForward.SlideWindows: the grid search and acceptance of a fold are not modelled, only the size of the grid, and
  the train fraction lies strictly between 0 and 1.
- Ledger.SimulateRange: the strategy is an arbitrary deterministic state machine; it cannot call back.
- RollupHistory.SnapshotDb.Maintain: the database is sequences and maps, so transactions, text timestamps, the
  `updated_at` stamp, backups and vacuuming are not modelled; rows appended later are not older than one bucket before the newest, and
  what happens otherwise is stated exactly by the two if-and-only-if lemmas.
- FrozenWindow.FirstEqual: the source finds the run's first row again by comparing whole rows; the model compares the
  four fields it has, so rows that differ only elsewhere are equal here.
- DepthSessions.LoadSessions: JSON decoding is an input; a line is blank, unreadable, a header or a data row.
- ShutdownRequest.EngineParse: text is characters, not UTF-8 bytes, so the engine's three-byte BOM is one character
  and the read limit counts characters.
- StopProtocol.StepKeepsSound: one monotone clock stamps files and processes, and reading the flag and removing it
  is one step, as the source itself declines to promise more; signalling, zombies and handles are reduced to
  "running" and "the PID is still held by the GUI that started the engine".
- StopProtocol.RequestIsDelivered: an engine sharing the directory discards a request that is not its own, so
  delivery is stated for as long as no other engine evaluates the flag.
- ExitWait.WaitForProcessExit: processes are observed, and a sleep may overshoot by any amount; the bound is on the sleep asked for. The
  Windows wait on a handle is not modelled.
- PositionBook.Position.Add: signed overflow, undefined in C++, wraps; the cost is a real.
- PositionBook.BasisIsAFairPrice: that the basis fits 64 bits is not promised for every price, because from 2^63 - 512 on
  it does not; the contract says exactly when it does.
- PositionBook.RunKeepsBook: prices are converted to doubles; quantities, balances, products, sums and quotients are
  not rounded.
- PositionBook.State.RecordBuy: locks and logging are not modelled; each method takes one lock.
- OfferSizing.Recommend: the database reads (fills, spread, holdings), modal sizes and the rationale text are not
  modelled; the weights' sum and the first weight are not zero, as the source's divisions demand.
- RatioTargets.MergeRatioTargets: the order of the map's entries is not modelled, and `float()` is a parameter of
  which only this is asked, where needed: it reads what two-decimal formatting prints.
- FillSweep.SweepRecords: the wallet RPC, the database and the report text are inputs or left out.
- Threads, Qt, network clients, strategies, the quoting engine and the retired scripts: no state of the kind above.
