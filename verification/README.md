# A verified model of the copy-trading engine

The engine watches the trades of chosen wallets on a prediction market, sizes a copy of each,
passes it through a risk gate, executes it against a (simulated) venue, and accounts for the
result. This project models the arithmetic and the state machines of that chain in Dafny and proves
what holds over every input and every run.

| file | what it models |
|---|---|
| `Products.dfy`, `MapSums.dfy` | products and quotients of reals by name; sums over a hash map's values |
| `Money.dfy` | prices, quantities, clamping and tick rounding |
| `OrderBooks.dfy` | order books and the greedy sweep; optimality by an exchange argument |
| `BookBuilding.dfy` | streamed books refine a price-to-size map |
| `Matching.dfy` | simulated fills for every outcome of the random generator |
| `Orders.dfy`, `OrderManagement.dfy` | the order state machine; runs of the manager over an unconstrained adapter |
| `PaperVenue.dfy`, `OrderManagers.dfy` | the paper venue and the order manager, updated in place, and their wiring |
| `Positions.dfy`, `Portfolios.dfy` | weighted-average-cost accounting; cash, profit, equity, attribution |
| `TradingSystem.dfy` | manager, venue and portfolio run together: three ledgers of the same fills |
| `Reconciliation.dfy` | position reconciliation, and what it sees of any reachable paper system |
| `Sizing.dfy`, `RiskGate.dfy`, `Pipeline.dfy` | sizing, the risk gate over whole runs, and the two fed from one portfolio |
| `RiskCases.dfy` | gated runs that end past a cap |
| `Dedup.dfy`, `Tracker.dfy` | idempotency of source trades without a unique key |
| `CopyRuns.dfy` | detection and order management run together |
| `Octets.dfy`, `Base64Url.dfy`, `Signing.dfy` | byte codecs and the amounts of a signed order |
| `LatencyRing.dfy` | the sample ring and its nearest-rank percentiles |

How the model is built:

- A decimal is an exact real. Identifiers are opaque keys. Time is an integer. A random draw is an
  input of the step that consumes it. The iteration order of a hash map is an input too, or the loop
  picks keys in any order.
- Each component is a specification function (or a relation) on values. Where the program updates an
  object, a class does the same in place and its methods are proved equal to those functions. The
  theorems are about the functions, so they hold of the classes.
- Products of two unknowns go through `Products.Times` and `Products.Quot`; proofs keep those two
  abstract (`hide`) and use only the lemmas in `Products.dfy`.

## Where the code and its documentation or comments differ

The model follows the code. Each point is decided by the lemma named first, which says exactly when it
happens; the second, where there is one, is a concrete input.

- Slippage is documented as adverse. A buy whose walk price is above 0.9999, or a sell below 0.0001, is
  clamped to a price better than the book: `Matching.FillBeatsBookExactly`,
  `Matching.SlippageCanImproveNearCertainty`.
- Fill-or-kill is commented as all-or-nothing. The queue draw can shorten such a fill:
  `Matching.FillOrKillIsAllOrNothingExactly`, `TradingSystem.StrandedOrdersAreReachable`.
- Signed amounts are documented as never asking for less. A buy rounds what it asks for down, so its
  implied price can exceed the limit, by less than one base unit in total:
  `Signing.BuyRespectsLimitExactly`, `Signing.ABuyCanImplyAWorsePrice`.
- Tick rounding is commented as never more aggressive. Outside [0.0001, 0.9999] the clamp makes it so:
  `Money.RoundToTickNeverMoreAggressive`, `Money.TickRoundingCanRaiseAPrice`.
- The limit price is documented as the worst price within the slippage budget. A budget that ends
  outside the tradable range on the far side is exceeded: `Sizing.LimitPriceStaysWithinBudget`,
  `Sizing.ALimitCanPassItsBudget`.
- The minimum trade size is tested before rounding down to the size increment, so the gate can stop an
  accepted size as too small: `Pipeline.AcceptedSizesCanBeTooSmallExactly`,
  `Pipeline.AnAcceptedSizeIsTooSmall`.
- A fill on a terminal order is documented as refused. A Filled order takes an empty fill, and is charged
  its fee: `Orders.TerminalTakesOnlyEmptyFills`, `OrderManagement.AFilledOrderTakesAnEmptyFill`.
- An overfill is documented as a failure that must surface. A fill accepted after it in the same
  acknowledgement, or completion, hides it: `OrderManagement.RefusedFillsBookNothing`,
  `OrderManagement.ALaterFillHidesAnOverfill` and `OrderManagement.CompletionHidesAnOverfill`.
- The gate's projection is commented as conservative. On a token marked above the order's limit, or for a
  sale that opens a short, a fill can add more exposure than is projected:
  `RiskGate.ProjectionIsConservativeExactly`, `RiskCases.AnApprovedBuyCanPassAnyCap`.
- The manager ignores an acknowledgement's terminal flag. An immediate order that the venue fills in part
  stays open though nothing rests: `TradingSystem.ImmediateOrderStaysOpenExactly`,
  `TradingSystem.StrandedOrdersAreReachable`. It keeps its open-order slot until it is cancelled:
  `TradingSystem.OnlyCancellingFreesAStrandedOrder`.
- The paper venue reports positions without sign, so reconciliation flags every short deeper than half the
  tolerance although the books agree: `Reconciliation.PaperRunsReconcile`,
  `Reconciliation.SomeRunNeverReconciles`.

## Model

| member | source | states |
|---|---|---|
| OrderBooks.SweepVwap | crates/domain/src/market.rs:139-156 | the loop computes exactly the outcome of the greedy walk: nothing, or its average price and the quantity taken |
| OrderBooks.WalkTotal | crates/domain/src/market.rs:139-153 | on any book, sorted or not, the walk takes exactly the smaller of the request and the liquidity within the limit |
| OrderBooks.WalkIsOptimal | crates/domain/src/market.rs:139-156 | on a best-first book no other way of drawing that quantity from levels within the limit costs less (buy) or earns more (sell) |
| OrderBooks.SweepReport | crates/domain/src/market.rs:154-155 | a sweep fails exactly when nothing can be taken, so its price is never out of range; the price lies between the touch and the limit |
| OrderBooks.SweepPaysItsWalk | crates/domain/src/market.rs:150-155 | price times quantity of a sweep is the notional of its walk |
| OrderBooks.LiquidityIsEveryLevelWithin | crates/domain/src/market.rs:112-121 | on a best-first book the prefix sum is the sum over all levels within the limit |
| OrderBooks.NotionalIsTheCostOfEverything | crates/domain/src/market.rs:125-136 | the notional within a limit is what the walk costs that takes all the liquidity within it |
| OrderBooks.WellFormedExactly | crates/domain/src/market.rs:93-101 | the checks on neighbours and touches hold exactly when both sides are best-first throughout and every bid is below every ask |
| BookBuilding.BookBuilder.Apply | crates/market_data/src/market_ws.rs:250-306 | one event in place: the new books, counters and the reported token |
| BookBuilding.SideListsTheWire | crates/market_data/src/market_ws.rs:116-124 | a snapshot side holds a level exactly as often as the raw rows list its price with that positive size, and nothing else |
| BookBuilding.SnapshotSideIsStrictExactly | crates/market_data/src/market_ws.rs:116-215 | a snapshot side becomes strictly best-first with positive sizes exactly when the usable raw rows have distinct prices, and then has exactly the entries they list |
| BookBuilding.ReplaceLevelRefines | crates/market_data/src/market_ws.rs:276-286 | retain, push and sort is replace-or-delete on the price-to-size map, and keeps the side strictly sorted |
| BookBuilding.MapDeterminesSide | crates/market_data/src/market_ws.rs:276-286 | the sorted side is determined by its map |
| BookBuilding.StreamRefinesMaps | crates/market_data/src/market_ws.rs:205-306 | over any feed of wire frames in which the usable raw rows of a token's own snapshots have distinct prices, its book is held exactly where the replace-or-delete maps keep one, strictly sorted and with exactly their entries; a snapshot's map is what its raw rows list |
| BookBuilding.HonestFeedsKeepTrueBooks | crates/market_data/src/market_ws.rs:250-306 | while the raw rows and quotes the venue sends of a token are true its book is never dropped and is at every moment the true one |
| BookBuilding.HonestFeedsNeverFail | crates/market_data/src/market_ws.rs:290-302 | while the venue tells the truth about every token the integrity check never fires |
| BookBuilding.HeldBooksAgreeWithLastQuotes | crates/market_data/src/market_ws.rs:276-302 | over any feed, a held book agrees with the last snapshot or change of its token, including every best price quoted on it |
| BookBuilding.QuotedBooksAreWellFormed | crates/domain/src/market.rs:93-101 | a held book whose own snapshots list distinct prices is well formed whenever the last frame on its token was an uncrossed snapshot or quoted both sides in order |
| BookBuilding.HeldBooksCarryTheirHeader | crates/market_data/src/market_ws.rs:205-306 | over any feed, the tick, minimum size, market, time and sequence number of a held book are those of the frames and settings that last said them |
| BookBuilding.OnlyTheReportedTokenChanges | crates/market_data/src/market_ws.rs:250-306 | no book but that of the reported token comes, goes or changes |
| Matching.FillStaysWithinOrderAndBook | crates/simulator/src/matching.rs:64-125 | for every draw a fill is positive, within order and reachable liquidity, and no worse than the limit |
| Matching.FillQuantityExactly | crates/simulator/src/matching.rs:84-124 | when a crossing order is filled, for exactly how much, and the exact fee |
| Matching.SlippageIsAdverseExactly | crates/simulator/src/matching.rs:148-155 | slippage never improves the walk price, except exactly where the clamp overshoots it |
| Matching.FillBeatsBookExactly | crates/simulator/src/matching.rs:90-97 | for every draw, a fill beats the price of its own walk exactly when there is slippage and that price is outside the tradable range |
| Matching.SlippageCanImproveNearCertainty | crates/simulator/src/matching.rs:148-155 | a well-formed book and a buy that the simulator fills below every ask |
| Matching.FillPriceExactly | crates/simulator/src/matching.rs:88-155 | a fill costs exactly the configured basis points more than its walk, unless that is outside the tradable range or past the limit, where it is held; without slippage it costs what the walk does |
| Matching.LimitOrderCrossesExactly | crates/simulator/src/matching.rs:128-137 | looking at the touch alone, a limit order crosses exactly when something is on offer within its limit |
| Matching.FillPriceBetweenBookAndLimit | crates/simulator/src/matching.rs:90-97 | with a tradable limit the price lies between the book's price for the size and the limit |
| Matching.FillOrKillIsAllOrNothingExactly | crates/simulator/src/matching.rs:99-121 | a covered fill-or-kill is all-or-nothing for every draw exactly when the queue draw cannot shorten it |
| Matching.FillOrKillNeedsFullCover | crates/simulator/src/matching.rs:100-104 | an uncovered fill-or-kill is never filled |
| Orders.LiveOrder.MoveTo | crates/domain/src/order.rs:213-220 | moves when the state machine allows, otherwise reports the illegal transition and changes nothing |
| Orders.LiveOrder.ApplyFill | crates/domain/src/order.rs:233-266 | books an acceptable fill; otherwise changes nothing and says which rule refused it |
| Orders.BookFillKeepsOrder | crates/domain/src/order.rs:253-264 | a booked fill never passes the request, completes the order exactly when nothing is left, and cannot reopen a terminal one |
| Orders.BookedFillsAreLegalMoves | crates/domain/src/order.rs:233-264 | fills are booked past the state machine, which would allow each but the empty fill of a Filled order |
| Orders.TerminalTakesOnlyEmptyFills | crates/domain/src/order.rs:233-252 | a terminal order takes a fill exactly when it is Filled and the fill is empty, and then only the fee is booked |
| OrderManagement.RunsKeepInv | crates/execution/src/order_manager.rs:83-212 | over every run with fresh ids and any adapter: one adapter call per order, filled at most the request, Filled exactly when complete, totals equal the accepted fills |
| OrderManagement.CancelExactly | crates/execution/src/order_manager.rs:188-212 | a working order ends Cancelled, also when the venue no longer knows it, and stays CancelRequested on any other error; nothing else of any order changes |
| OrderManagement.BookImmediateKeepsOrder | crates/execution/src/order_manager.rs:119-130 | booking an acknowledgement's fills adds exactly the accepted ones and keeps terminal orders terminal |
| OrderManagement.AdapterSeesOnlyValidated | crates/execution/src/order_manager.rs:92-106 | a step calls the adapter exactly when it submits an order that is Validated, never one sent before |
| OrderManagement.TerminalIsForever | crates/domain/src/order.rs:67-86 | whatever follows, a terminal order keeps its state and filled quantity |
| OrderManagement.AvgFillPriceIsAnAverage | crates/domain/src/order.rs:208-211 | the average fill price exists exactly when something filled, and lies within the band of accepted prices |
| OrderManagement.RefusedFillsBookNothing | crates/execution/src/order_manager.rs:119-130 | whatever fills an acknowledgement carries, the refused ones change no booked amount, and the order is left flagged exactly when the last fill asks for more than the others left of the request and they left something |
| OrderManagement.ALaterFillHidesAnOverfill | crates/execution/src/order_manager.rs:124-128 | a run in which an overfill followed by a smaller fill leaves the order unflagged |
| OrderManagement.CompletionHidesAnOverfill | crates/execution/src/order_manager.rs:124-128 | a run in which an overfill after completion leaves the order unflagged |
| OrderManagement.AFilledOrderTakesAnEmptyFill | crates/execution/src/order_manager.rs:169-185 | a run in which a Filled order accepts an empty fill and is charged its fee |
| OrderManagement.ReusedIdForgetsFills | crates/execution/src/order_manager.rs:83-89 | freshness is needed: registering a used id forgets its fills |
| OrderManagers.OrderManager.RegisterValidated | crates/execution/src/order_manager.rs:83-89 | stores a Validated order, or refuses a zero quantity |
| OrderManagers.OrderManager.Submit | crates/execution/src/order_manager.rs:92-166 | submits once through the venue and stores what the answer makes of the order |
| OrderManagers.OrderManager.BookFills | crates/execution/src/order_manager.rs:119-130 | the loop over an acknowledgement's fills |
| OrderManagers.OrderManager.ApplyExternalFill | crates/execution/src/order_manager.rs:169-185 | accepts a pushed fill exactly when the order can take it; otherwise changes nothing |
| OrderManagers.OrderManager.Cancel | crates/execution/src/order_manager.rs:188-212 | cancels a working order here and at the venue; otherwise changes nothing |
| OrderManagers.OrderManager.CancelAll | crates/execution/src/order_manager.rs:215-225 | cancels every open order in turn; the successes are as many as the working orders, and nothing is left resting at a venue in step |
| OrderManagers.OrderManager.ComputeFilledExposure | crates/execution/src/order_manager.rs:71-79 | per token, the signed sum of filled quantities, in any iteration order |
| OrderManagers.Desk.PlaceRegistered | crates/app/src/pipeline.rs:299-334 | submission, then every applied fill booked in the portfolio |
| OrderManagers.Desk.OnBook | crates/app/src/tasks.rs:264-284 | mark, fill resting orders, tell manager and portfolio, cache the book |
| PaperVenue.PaperExecution.RecordFill | crates/execution/src/paper.rs:110-128 | moves the signed position of the fill's token |
| PaperVenue.PaperExecution.Submit | crates/execution/src/paper.rs:197-248 | refuses, rests, or fills and rests what a good-til-cancelled order has left |
| PaperVenue.PaperExecution.Cancel | crates/execution/src/paper.rs:250-256 | removes a resting order or reports it unknown |
| PaperVenue.PaperExecution.OnBookUpdate | crates/execution/src/paper.rs:132-171 | examines each resting order on the token once, in any map order |
| PaperVenue.BookUpdateExaminesEveryOrder | crates/execution/src/paper.rs:132-171 | each resting order is examined exactly once in any map order: left as the book says of it alone, filled once or not at all |
| TradingSystem.PaperSubmissionCases | crates/execution/src/paper.rs:197-248 | the three ways a submission ends: which one, with exact quantities, positions, terminal flag and what rests |
| TradingSystem.BooksExamineEveryRestingOrder | crates/app/src/tasks.rs:264-284 | at any point of any run a book that arrives examines every resting order |
| TradingSystem.NewestBookIsCached | crates/app/src/tasks.rs:264-284 | the book that arrived is the one the next submission on its token meets, though resting orders are filled before it is stored |
| TradingSystem.RunsKeepSystemInv | crates/app/src/tasks.rs:264-284 | the joint invariant of manager, venue and portfolio at every point of every run |
| TradingSystem.ThreeLedgersAgree | crates/execution/src/paper.rs:110-171 | filled plus resting is the request, a working order rests exactly when good-til-cancelled, venue position, filled exposure and net quantity are equal per token, and cash and fees are what the order manager's notionals and fees add up to |
| TradingSystem.ImmediateOrderStaysOpenExactly | crates/execution/src/order_manager.rs:106-134 | when an immediate order is left open after its submission, in terms of book, draws and settings |
| TradingSystem.OnlyCancellingFreesAStrandedOrder | crates/domain/src/order.rs:48-54 | such an order stays open and unchanged over any continuation that does not cancel it |
| TradingSystem.StrandedOrdersAreReachable | crates/execution/src/paper.rs:228-245 | runs that leave an immediate-or-cancel and a fill-or-kill order open |
| TradingSystem.NoPaperFillIsRefused | crates/execution/src/order_manager.rs:169-185 | the manager refuses no fill of the paper venue, on any step of any run |
| TradingSystem.CancelAllClearsTheVenue | crates/execution/src/order_manager.rs:215-225 | cancel-all leaves nothing resting, moves no position, books nothing, and ends exactly the working orders, as Cancelled |
| TradingSystem.CancelAllCountsTheWorking | crates/execution/src/order_manager.rs:215-225 | cancelling all open orders once each succeeds exactly once per working order |
| Positions.Position.Apply | crates/domain/src/position.rs:72-111 | one fill in place: opening, adding, reducing, closing or crossing zero |
| Positions.FillConservesValue | crates/domain/src/position.rs:72-111 | what a fill books is its cash impact plus the change of the cost basis, in every case |
| Positions.FillsAccountForCash | crates/domain/src/trade.rs:141-146 | net quantity is the signed sum, the average is zero exactly when flat, realised profit is cash moved plus cost held |
| Positions.AverageWithinBuildingFills | crates/domain/src/position.rs:78-103 | the average entry lies in the price band of the fills that built the exposure since it last opened or crossed zero |
| Positions.FlatProfitIgnoresOrder | crates/domain/src/position.rs:72-111 | reordering fills leaves the net quantity, and once flat the realised profit, unchanged |
| Portfolios.Portfolio.ApplyFill | crates/portfolio/src/lib.rs:105-139 | cash, fees, position, realised profit, attribution and peak after a fill |
| Portfolios.Portfolio.Mark | crates/portfolio/src/lib.rs:142-147 | marks a known token and refreshes the peak |
| Portfolios.Portfolio.ComputePositionValue | crates/portfolio/src/lib.rs:150-157 | the marked value of held positions in any order, none if one is unmarked |
| Portfolios.Portfolio.ComputeEquity | crates/portfolio/src/lib.rs:169-174 | cash plus marked value, or plus cost while a held position is unmarked |
| Portfolios.Portfolio.UpdatePeak | crates/portfolio/src/lib.rs:176-180 | the peak becomes the larger of itself and the equity |
| Portfolios.Portfolio.ComputeMarketExposure | crates/portfolio/src/lib.rs:87-89 | exposure summed over a market's tokens, in any order |
| Portfolios.Portfolio.ComputeGrossExposure | crates/portfolio/src/lib.rs:91-93 | exposure summed over all tokens, in any order |
| Portfolios.RunsKeepInv | crates/portfolio/src/lib.rs:105-147 | after any fills and marks: cash is starting cash plus realised profit less cost held; position and market profits each sum to it; peak at least equity |
| Portfolios.HoldingsAreTheirOwnFills | crates/portfolio/src/lib.rs:105-147 | over any run a token is known exactly when it was filled, and its position is what its own fills alone make of a fresh one, at its last mark |
| Portfolios.CashMovesByTheFills | crates/portfolio/src/lib.rs:105-139 | over any run, cash moves by what its fills cost or earn and by nothing else |
| Portfolios.EquityOfRuns | crates/portfolio/src/lib.rs:149-174 | equity is starting cash plus realised plus unrealised profit, and cash plus the position value; under the cost fallback it is without the unrealised part, and there is no position value |
| Portfolios.PeakNeverFalls | crates/portfolio/src/lib.rs:176-182 | the peak never falls over any continuation |
| Portfolios.PeakIsTheLargestEquity | crates/portfolio/src/lib.rs:176-180 | over any run the peak is the largest equity the portfolio had, the starting cash included |
| Portfolios.MarketsGetTheirOwnProfit | crates/portfolio/src/lib.rs:128-131 | each market is credited exactly what its tokens realised, while no fill books profit to a market that is not its token's |
| Portfolios.FillKeepsAttributionExactly | crates/portfolio/src/lib.rs:128-131 | a fill keeps that attribution if and only if it names its token's market or its fee equals what it closes |
| Reconciliation.Reconcile | crates/execution/src/reconciliation.rs:87-132 | the three lists, in any map order, and the number of positions checked |
| Reconciliation.QueryPositions | crates/execution/src/paper.rs:258-269 | one row per non-zero position, without its sign |
| Reconciliation.DisagreementsAreListedOnce | crates/execution/src/reconciliation.rs:99-123 | a token outside tolerance is listed exactly once over the three lists, any other not at all |
| Reconciliation.CleanExactlyWhenAllAgree | crates/execution/src/reconciliation.rs:52-56 | clean exactly when the two sides agree within tolerance on every token |
| Reconciliation.HaltsExactlyWhenAlarming | crates/execution/src/reconciliation.rs:62-65 | for any two thresholds, a halt is warranted exactly by an unknown venue position beyond tolerance or a difference beyond both |
| Reconciliation.PaperRunsReconcile | crates/execution/src/reconciliation.rs:87-132 | on every run of the paper system nothing is unexpected or missing, and the report is clean exactly when no short exceeds half the tolerance |
| Reconciliation.SomeRunNeverReconciles | crates/execution/src/paper.rs:258-269 | whatever the tolerance, some run ends where no report is clean |
| Dedup.DedupIndex.Restore | crates/wallet_tracker/src/dedup.rs:175-179 | a restored count only raises the held one |
| Dedup.DedupIndex.ObserveLive | crates/wallet_tracker/src/dedup.rs:182-194 | the next occurrence, or a counted refusal at the ceiling |
| Dedup.DedupIndex.ObserveBackfill | crates/wallet_tracker/src/dedup.rs:202-226 | claims an unheld ordinal below the ceiling |
| Dedup.BatchOrdinals.Next | crates/wallet_tracker/src/dedup.rs:256-261 | the number of identical rows earlier in the batch |
| Dedup.NewAtMostOnce | crates/wallet_tracker/src/dedup.rs:182-226 | in any interleaving counts never fall and no event is New twice, nor one held at the start |
| Dedup.CountsStayWithinCeiling | crates/wallet_tracker/src/dedup.rs:175-226 | with restored counts within 64 no count passes 64 |
| Dedup.BatchReconciles | crates/wallet_tracker/src/dedup.rs:202-226 | a batch with m rows of a content held e times yields max(0, min(m,64) - e) New and leaves max(e, min(m,64)) |
| Dedup.BatchIsIdempotent | crates/wallet_tracker/src/dedup.rs:202-226 | a repeated batch reports nothing new and changes no count |
| Dedup.BatchesCommute | crates/wallet_tracker/src/dedup.rs:202-226 | two batches end at the largest multiplicity reported and report as many New fills in either order |
| Dedup.LiveThenBackfill | crates/wallet_tracker/src/dedup.rs:28-34 | a batch adds only what the live feed missed |
| Dedup.RowsPastTheCeilingAreCounted | crates/wallet_tracker/src/dedup.rs:182-226 | of m identical backfilled rows exactly those past the ceiling are counted as suspicious |
| Tracker.WalletTracker.Observe | crates/wallet_tracker/src/tracker.rs:116-163 | wallet match, admission, idempotency and counters for one trade, live or backfilled |
| Tracker.WalletTracker.ObserveBackfilled | crates/wallet_tracker/src/tracker.rs:106-110 | a row consumes its batch ordinal whether or not it is admitted |
| Tracker.WalletTracker.RestoreDedup | crates/wallet_tracker/src/tracker.rs:166-171 | all entries restored in turn |
| Tracker.LiveRowExactly | crates/wallet_tracker/src/tracker.rs:116-163 | a live trade is emitted exactly when it is admitted and its content is held fewer than 64 times, as its next occurrence; every counter is exact |
| Tracker.BackfilledRowExactly | crates/wallet_tracker/src/tracker.rs:106-163 | a backfilled row is emitted exactly when it is admitted and its own ordinal is unheld and below 64, as that ordinal; every counter is exact |
| Tracker.BatchClaimsItsOrdinals | crates/wallet_tracker/src/tracker.rs:106-163 | a batch emits exactly its admitted rows whose batch ordinal was not held before, unadmitted rows leaving gaps, and each once |
| Tracker.RepeatedBatchYieldsNothing | crates/wallet_tracker/src/tracker.rs:106-163 | the same batch again emits nothing |
| Tracker.TrackedBatchReconciles | crates/wallet_tracker/src/tracker.rs:106-163 | an admitted batch with m rows of a content held e times emits max(0, min(m,64) - e) of them |
| Tracker.ActionableAtMostOnce | crates/wallet_tracker/src/tracker.rs:99-171 | however deliveries, restores and wallet changes interleave, actionable trades have distinct identities |
| Tracker.CountersAddUp | crates/wallet_tracker/src/tracker.rs:116-163 | the counters account for every match, and the actionable one counts the trades emitted |
| CopyRuns.TradesReachTheAdapterAtMostOnce | crates/app/src/tasks.rs:155-195 | however deliveries, restores, the pipeline, submissions, fills and cancellations interleave, no source trade reaches the adapter twice, and none the index already held |
| Base64Url.Encode | crates/execution/src/live.rs:142-155 | the loop over chunks produces the encoding |
| Base64Url.Decode | crates/execution/src/live.rs:157-179 | the loop over cleaned text produces the decoding, or refuses |
| Base64Url.DecodeInvertsEncode | crates/execution/src/live.rs:142-179 | decoding an encoding returns exactly the bytes, for every length |
| Base64Url.EncodingShape | crates/execution/src/live.rs:145-153 | four characters per started group of three, padded only at the end |
| Base64Url.EncodingIsPositional | crates/execution/src/live.rs:142-155 | each four characters, read as base-64 digits, are the number their three bytes are in base 256, most significant first |
| Base64Url.LettersAreTheAlphabet | crates/execution/src/live.rs:142-168 | a digit is written as its character of the URL-safe alphabet, and read back from it or from the plain alphabet's + and / |
| Base64Url.FillersDoNotMatter | crates/execution/src/live.rs:157-161 | padding and white space may stand anywhere without changing what a text decodes to |
| Base64Url.RefusedExactlyWhenForeign | crates/execution/src/live.rs:158-168 | text is refused exactly when a significant character is outside both alphabets |
| Signing.TimesTenPlus | crates/execution/src/signing.rs:135-141 | the in-place column loop: value times ten plus digit, with an exact carry out |
| Signing.WordFromDecimalString | crates/execution/src/signing.rs:128-147 | succeeds exactly on digit strings below 2^256; the 32 bytes read back as the value and are the only ones that do |
| Signing.DecimalTextIsRead | crates/execution/src/signing.rs:130-134 | every number written in decimal is read as itself |
| Signing.WordModulus | crates/execution/src/signing.rs:127-129 | the bound is 2^256 |
| Signing.AmountsAreNearest | crates/execution/src/signing.rs:203-219 | both amounts are within one base unit of the exact ones, on the side the order's direction says |
| Signing.AcceptedExactlyWhenItFits | crates/execution/src/signing.rs:205-225 | an order is accepted exactly when neither amount is zero and both fit in 128 bits |
| Signing.SellNeverImpliesWorse | crates/execution/src/signing.rs:218-219 | a sell never gives more, asks for less, or implies a price below its limit |
| Signing.BuyOverpaysLessThanOneUnit | crates/execution/src/signing.rs:215-217 | a buy never offers more money, and exceeds its limit by less than one base unit in total |
| Signing.BuyRespectsLimitExactly | crates/execution/src/signing.rs:205-219 | an accepted buy stays within its limit exactly when dropping the fraction of a token unit does not lower the whole money units it costs |
| Signing.BuyRespectsEveryLimitExactlyWhenWhole | crates/execution/src/signing.rs:205-225 | a quantity respects every limit exactly when it is a whole number of base units or is never accepted |
| Signing.ABuyCanImplyAWorsePrice | crates/execution/src/signing.rs:205-219 | the amounts of a buy at 0.90 that imply a price above it |
| Money.RoundToTickNeverMoreAggressive | crates/domain/src/money.rs:77-87 | rounding is never more aggressive exactly inside the tradable range |
| Money.RoundedLimitIsOnTick | crates/domain/src/money.rs:77-87 | a rounded limit is the nearest whole number of ticks on the less aggressive side, or the end of the tradable range it passes |
| Money.TickRoundingCanRaiseAPrice | crates/domain/src/money.rs:77-87 | a buy limit that tick rounding doubles |
| Sizing.Size | crates/strategy/src/sizing.rs:75-144 | an accepted size with its bound and the first cap equal to it, or the first refusal that applies |
| Sizing.AcceptedSizeIsLargest | crates/strategy/src/sizing.rs:123-143 | an accepted size is positive and the largest multiple whose notional stays within the raw size and every cap; the named cap equals that bound |
| Sizing.AcceptedSizeOnItsInputs | crates/strategy/src/sizing.rs:75-165 | in every mode, an accepted size costs at most what the mode asks for and each cap allows, and is the largest that costs no more than the named cap, or than what is asked for when none is named |
| Sizing.AcceptedExactlyWhen | crates/strategy/src/sizing.rs:75-144 | on the inputs alone: when a size is accepted, and which refusal is given otherwise |
| Sizing.SizingIsDetermined | crates/strategy/src/sizing.rs:75-144 | what is promised of a size leaves one outcome: size, notional, named cap or refusal |
| Sizing.RiskAdjustedIsProportional | crates/strategy/src/sizing.rs:151-162 | risk-adjusted sizing is the base in proportion to the headroom left under the cap, and nothing without a cap |
| Sizing.LimitPriceStaysWithinBudget | crates/strategy/src/sizing.rs:171-178 | for every reference, the limit stays within the slippage budget exactly when the budget does not end outside the tradable range on the far side, and rounding gives up less than one tick |
| Sizing.ALimitCanPassItsBudget | crates/strategy/src/sizing.rs:171-178 | a buy without any budget whose limit is twice its reference |
| RiskGate.ApprovedExactlyWithinEveryLimit | crates/risk/src/engine.rs:114-242 | approval means every limit at once, the slippage one being a bound on what the walk costs over the reference price |
| RiskGate.RejectionIsTheFirstBroken | crates/risk/src/engine.rs:114-242 | a rejection names a limit the order breaks, and the first of all it breaks |
| RiskGate.SlippageIsOverpayment | crates/domain/src/money.rs:213-221 | slippage per share is within the limit exactly when the whole walk costs at most that much over the reference price |
| RiskGate.ProjectionIsConservativeExactly | crates/risk/src/engine.rs:185-187 | the gate's projection bounds every fill an order can get exactly when, at the holding's mark or its worst price, the shares it adds count for no more than at its limit |
| RiskGate.ApprovedFillKeepsCaps | crates/risk/src/engine.rs:185-209 | whatever else is held or marked, a fill of a covered, approved order leaves its token, its market and the portfolio within their caps and breaks no other |
| RiskGate.ApprovedSubmissionsLandWithinCaps | crates/app/src/pipeline.rs:234-334 | at any point of any run, with resting orders and moving marks, a covered approved submission that fills lands within the three caps |
| RiskGate.BreachesComeFromMarks | crates/app/src/tasks.rs:264-284 | in runs of approved immediate orders, over any stretch without a mark of a held token or an uncovered submission, no exposure leaves its cap or grows past it |
| RiskGate.CapsHoldForever | crates/app/src/pipeline.rs:234-334 | so from a fresh portfolio, while nothing held is marked and every submission is covered, every cap holds forever |
| RiskCases.AMarkCanBreakAnyCap | crates/app/src/tasks.rs:264-267 | marks are enough: a gated run of immediate orders that a two-sided book carries past any cap |
| RiskCases.AnApprovedBuyCanPassAnyCap | crates/risk/src/engine.rs:185-194 | a gated run that ends with an approved buy past any cap |
| RiskCases.RestingOrdersCanBreakAnyCap | crates/risk/src/engine.rs:185-209 | immediate orders are needed: a gated run in which two resting orders, each approved within the cap, fill and pass it |
| Pipeline.TokenExposureWithinMarket | crates/portfolio/src/lib.rs:82-89 | a token's exposure is at most its market's |
| Pipeline.CopyFollowsItsSource | crates/app/src/pipeline.rs:212-232 | submitting a copy moves the copied token's position in the source's direction, by at most the copy's size, moves no other, moves cash accordingly and leaves nothing resting |
| Pipeline.SizedOrdersPassTheirCaps | crates/app/src/pipeline.rs:129-144 | an order from an accepted size is never stopped by the daily loss limit, the global trade ceiling or the position cap |
| Pipeline.AcceptedSizesCanBeTooSmallExactly | crates/strategy/src/sizing.rs:123-140 | the gate can stop an accepted size as too small exactly when one increment costs less than the global minimum and no number of increments costs between that minimum and sizing's floor |
| Pipeline.AnAcceptedSizeIsTooSmall | crates/risk/src/engine.rs:168-178 | sizing accepts $5.20 and the gate stops the resulting $5.00 |
| LatencyRing.Ring.Push | crates/metrics/src/latency.rs:44-52 | the buffer read from the next slot is the recent history |
| LatencyRing.Ring.Stats | crates/metrics/src/latency.rs:54-74 | the statistics of the buffer |
| LatencyRing.StatsMeanWhatTheySay | crates/metrics/src/latency.rs:59-73 | exact extremes, three nearest-rank percentiles in order, and a mean that is the truncated average |
| LatencyRing.RingHoldsRecentHistory | crates/metrics/src/latency.rs:44-52 | as a multiset, exactly the last min(n, 4096) samples, with the same percentiles |

## Left out

- OrderManagement.RunsKeepInv: calls are atomic steps. The program holds a clone of the order across an await, so calls that interleave on one order are not covered.
- TradingSystem.RunsKeepSystemInv: the same atomicity; order ids are minted fresh; resetting the venue or restoring orders and portfolio from storage is not a step of the runs.
- Dedup.NewAtMostOnce: runs without eviction, which deliberately forgets old contents; the digest of content and ordinal is taken as the pair, so digest collisions are not modelled; counters are unbounded naturals.
- RiskGate.CapsHoldForever: for immediate orders, covered submissions, tokens that keep their market and holdings that are not marked; each of the first, second and last is shown to be needed in `RiskCases.dfy`, and without the last `RiskGate.BreachesComeFromMarks` says what still holds.
- CopyRuns.TradesReachTheAdapterAtMostOnce: each delivery, pipeline pass and manager call is one atomic step, order ids are minted fresh, and the index is not evicted.
- Portfolios.Portfolio.ApplyFill: per-wallet attribution and the daily profit bucket are not part of the modelled state (the daily figure is an input of the gate).
- LatencyRing.StatsMeanWhatTheySay: the rank is exact, where the program multiplies in floating point; the 64-bit sum is unbounded.
- LatencyRing.SortSorts: library sorts are modelled as a stable insertion sort; only order and permutation are used.
- The 28-digit rounding and overflow of decimals.
- Strings and time stamps of orders, rejection texts, events, metrics, latency stamps, signal confidence.
- Text, JSON and float parsing, websocket and REST transport, the HTTP API, the dashboard, the database and configuration.
- Signatures and hashes (ECDSA, Keccak, SHA-256, HMAC, the typed-data digest) and the fixed-width word helpers around them.
- The kill switch, circuit breaker, reconnect backoff, health monitor, subscription set and daily risk budget: each is settled by reading its body.
