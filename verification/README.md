# A Dafny model of the council book's dense parts

Dafny 4.11 models of six pieces of the council-book repository, with proofs of what they promise:

- **The sleeve simulators** (`scripts/stock_sleeve_study.py`): the day loop over weights, NAV, pending orders, stops
  and costs, with and without a catastrophe stop. `SleeveBook`, `SleeveMoney`, `CatastropheStops`, `StopTheorems`,
  `StopArmor`, `StopCosts`, `StopRows`, `StopMarkets`, `StopRefinement`, `StopEntries`, `StopExamples`.
- **The random null**: percentiles and their correction (`NullRank`), the turnover-matched random selection
  (`RandomSelection`) and the chain of ticker changes (`SymbolHistory`).
- **The once-only run**: LOCK, run folders and gate.json over every interleaving (`RunOnce`, `LockHistory`).
- **The book map** (`site/build.py`): the squarified treemap (`Treemap`) and its two-level use (`BookMap`).
- **The paper book** (`src/council/paperbook.py`): `PaperLedger` (each operation as a function), `PaperBookObject` (the
  class, proved against those functions), `PaperAccounts` (conservation, operation by operation), `PaperRuns`
  (whole operations and runs), `PaperUnits` (the same in units of stock), `PaperExamples` and `PaperStore` (save, load, migration).
- **Clock, policy and evidence**: `Clock` and `Sessions`, `CalendarMerge`, `UniversePolicy`, `EvidenceLedger`.

`Vectors` and `Wrappers` hold the numpy-like vectors and the option and result types. `dafny verify dfyconfig.toml`
checks the whole project.

## How the model reads the source

- Floats are exact `real`s; the dust thresholds 1e-12 and 1e-9 are exact zero (the 1e-6 trade threshold and the
  universe's `WEIGHT_EPS` are kept). NaN and absent values are `None`; infinities do not occur.
- A data frame on the plan's calendar is a function from (session, column) to an optional real.
- The order decision at a close (`pending_trades`), the exit evaluation of a swing trade, cost models, prices, calendars
  and sector quotas are arbitrary functions or tables: every property holds for any choice of them.
- A loop of the source is a method with a loop, proved against a function; the theorems are about the function.

## Results where the code is narrower than one might expect

- A column that closes at a total loss keeps its stop until the next fill (`TotalLossLeavesAStop`). Weight and stop agree
  at every close of a run exactly when every session keeps every column on its side (`WeightExactlyWhereStop`); prices
  that never close at nothing are enough (`WithoutTotalLossArmored`).
- A stop filled at minus one hundred percent is charged a fixed fee on a zero trade (`StopAtTotalLossPaysUntraded`), so
  the fees recounted from the trades miss exactly those fees (`StopCharges`, `StopRecount`).
- An entry into the paper book made while equity is negative has a negative cost that the ledger's sum drops
  (`EntryUnderWaterUnbalances`); closing a trade twice pays its notional out twice (`SecondClosePaysAgain`). These two
  are the only ways to unbalance the accounts (`BalancedAtEveryMoment`). A declared cost of zero comes back from the
  file as the default 1.25 (`LoadAfterSave`).
- The correction for the best cell can raise a percentile when a cell has a draw that another lacks, and only then
  (`NeverRaisedExactly`); a study gives every cell every draw.
- The random selection repeats a name when the order repeats a held one in a sector with room for two, and only then
  (`RepeatsAreHarmlessExactly`); the study's orders are permutations.
- Below a header strip a line's share of the page is smaller than its share of the book (`LineShareOfPage`).
- Removing LOCK is safe exactly when a gate is already known or no run is alive (`RemovalIsSafeExactly`): a live run that
  is only cleaning up is enough to break the rule.

## Model

| member | source | states |
|---|---|---|
| SleeveBook.BudgetedSession | scripts/stock_sleeve_study.py:1022-1043 | one session of the plain simulator, on the loop's own variables, is the step function: drift, fill of the pending orders, next orders |
| SleeveBook.SimulateBudgeted | scripts/stock_sleeve_study.py:993-1052 | the day loop computes the run function for every plan and number of sessions, and stops on the session that wipes the book out |
| SleeveBook.RowsFollow | scripts/stock_sleeve_study.py:1022-1043 | from the reported rows alone: an order of one close is the weight of the next, every other weight drifts, the trades are what the fill changed, NAV grows and pays |
| SleeveBook.StartsInCash | scripts/stock_sleeve_study.py:1012-1022 | a run starts with the whole NAV of one in cash, nothing traded and nothing charged |
| SleeveBook.RuinsExactly | scripts/stock_sleeve_study.py:1024-1027 | a run is wiped out exactly on the first session whose growth leaves nothing, and names it |
| SleeveBook.BudgetedOrders | scripts/stock_sleeve_study.py:1037-1043 | a column's level is its last filled order's, and the orders are the order rule's on what the close shows: weights, levels, the session's targets, levels and thresholds, mask and budget |
| SleeveMoney.BudgetedKeepsMoney | scripts/stock_sleeve_study.py:1023-1028 | over every run a return earns on each position what it says and nothing on cash |
| CatastropheStops.StopDrift | scripts/stock_sleeve_study.py:1106-1121 | on every run, whatever the returns, a column with a stop has a price ratio of its weight's sign, so a testable stop never divides by zero |
| CatastropheStops.TestStops | scripts/stock_sleeve_study.py:1106-1115 | the armed columns whose low reaches their stop, and the day's returns with their fills, computed from the loop's vectors |
| CatastropheStops.SellStopped | scripts/stock_sleeve_study.py:1122-1133 | the sale on the loop's own variables: weights, NAV, cost, cool-off, stops, dropped orders and hits |
| CatastropheStops.FillPending | scripts/stock_sleeve_study.py:1134-1149 | the fill on the loop's own variables: weights, levels, NAV, cost, and the stops set on opened and dropped on closed columns |
| CatastropheStops.SimulateWithStops | scripts/stock_sleeve_study.py:1072-1164 | the day loop computes the run function |
| StopRows.StopRowsFollow | scripts/stock_sleeve_study.py:1105-1157 | on every session of every run with stops, from the reported rows: weights and trades of each column, the cost as one leg on each stopped and each other traded column, and a NAV that grows, pays for the sale and then for the fill |
| StopRows.StopsKeepMoney | scripts/stock_sleeve_study.py:1116-1120 | over every run with stops a return, fills of stops included, earns on each position what it says and nothing on cash |
| StopRows.StopsStartInCash | scripts/stock_sleeve_study.py:1096-1105 | a run with stops starts with the whole NAV of one in cash, nothing traded and nothing charged |
| StopRows.StopsRuinExactly | scripts/stock_sleeve_study.py:1116-1118 | a run with stops is wiped out exactly on the first session whose growth, fills included, leaves nothing, and names it |
| StopRows.StopOrders | scripts/stock_sleeve_study.py:1122-1156 | a column's level is its last filled order's and nothing once stopped; the orders are the order rule's on the session's targets and levels, zero while the column cools |
| StopRows.HitsAreStops | scripts/stock_sleeve_study.py:1133 | the number returned counts every stop of the run |
| StopTheorems.ColumnDay | scripts/stock_sleeve_study.py:1105-1157 | one column through one session: stopped means sold, disarmed and cooled; else filled at its pending target or drifted; the next target is zero while it cools |
| StopTheorems.ColumnTrade | scripts/stock_sleeve_study.py:1122-1149 | the reported trade of a column is the change of its drifted weight, sale and fill together |
| StopTheorems.ColumnStop | scripts/stock_sleeve_study.py:1121-1149 | a fill that opens a position sets its stop at the close, one that leaves none drops it, and otherwise the distance stays and the ratio moves with the return |
| StopTheorems.TopUpKeepsStop | scripts/stock_sleeve_study.py:1079-1081 | a top-up or a trim moves neither the distance nor the entry: the ratio moves with the session's return alone |
| StopArmor.SessionKeepsArmorExactly | scripts/stock_sleeve_study.py:1106-1149 | after a close at which weight and stop agree, the next close agrees if and only if every column keeps its side: stopped, or filled without a short turning long, or not wiped out |
| StopArmor.WeightExactlyWhereStop | scripts/stock_sleeve_study.py:1106-1149 | a run has weight exactly where it has a stop at every close if and only if every session of it keeps every column |
| StopArmor.WithoutTotalLossArmored | scripts/stock_sleeve_study.py:1106-1149 | so it does on every run none of whose columns closes at a total loss |
| StopExamples.TotalLossLeavesAStop | scripts/stock_sleeve_study.py:1106-1149 | a concrete run in which a total loss leaves a stop on an empty position |
| StopTheorems.DistanceInRange | scripts/stock_sleeve_study.py:1067-1069 | the distance lies between the minimum and the maximum if and only if the minimum is not above the maximum |
| StopTheorems.DistanceIsSigmaOverHorizon | scripts/stock_sleeve_study.py:1067-1069 | between its bounds the squared distance is the squared multiple of sigma times the horizon, outside them the bound, and a missing sigma counts as none |
| StopTheorems.EveryStopInRange | scripts/stock_sleeve_study.py:1067-1149 | every stop carried at a close of a run lies in the rule's range |
| StopTheorems.CoolOff | scripts/stock_sleeve_study.py:1122-1155 | a column stopped on session i has zero weight at every close from i to i + N + 1, whatever its targets and pending orders, and its own target is ordered again at the last of them |
| StopCosts.BudgetedCharges | scripts/stock_sleeve_study.py:1030-1039 | every session charges one leg on exactly the cells whose weight changed |
| StopCosts.SaleAndFillCharge | scripts/stock_sleeve_study.py:1122-1145 | sale and fill never trade the same cell: together they charge one leg a cell, plus a fee for each column sold at weight zero |
| StopCosts.StopCharges | scripts/stock_sleeve_study.py:1122-1145 | every session of a run with stops charges the legs its trades show, plus the fixed fees of stops filled at a total loss |
| StopCosts.BudgetedRecount | scripts/stock_sleeve_study.py:1285-1297 | the variable remainder of `metrics` is the turnover at the per-side rates |
| StopCosts.StopRecount | scripts/stock_sleeve_study.py:1285-1297 | with stops the remainder exceeds the turnover by exactly the fees of stops filled at a total loss |
| StopExamples.StopAtTotalLossPaysUntraded | scripts/stock_sleeve_study.py:1122-1126 | a concrete run, for every fee, that is charged exactly that fee on a trade of nothing |
| StopRefinement.WithoutLowsAPlainSleeve | scripts/stock_sleeve_study.py:1072-1164 | with no session low the two simulators produce equal NAV, weights, trades, costs and orders on every session, and fail on the same one |
| StopRefinement.SameTrigger | scripts/stock_sleeve_study.py:1110-1115 | the relative test fires if and only if the low reaches entry x (1 - distance), and the fill is the lesser of the open and the stop |
| StopMarkets.EveryMarketHasPrices | scripts/stock_sleeve_study.py:1167-1173 | every frame of carried closes, bars missing before a name's first included, has the prices the rule is stated in |
| StopRefinement.StopsFollowPriceRule | scripts/stock_sleeve_study.py:1067-1164 | for every market in prices the simulator equals a machine that remembers entry closes: same stops, fills and path, and each ratio is price over entry |
| StopEntries.StopIsOfLastOpening | scripts/stock_sleeve_study.py:1079-1081 | every stop carried at a close of a run is the one the column's last opening set: that session's distance, and the growth since its close |
| StopEntries.EntryIsOfLastOpening | scripts/stock_sleeve_study.py:1079-1081 | in a market the stop stands at the close of the last opening less that distance, whatever was added since |
| StopEntries.StopLosesItsDistance | scripts/stock_sleeve_study.py:1079-1083 | the fill of a column a run stops loses exactly that distance since the close that opened it, unless the open gaps through the stop, and then more |
| NullRank.PercentileCountsDraws | scripts/stock_sleeve_study.py:1331-1338 | the percentile is the share of the draws below with half of those at the value, a missing draw below every number; none without draws |
| NullRank.AverageRankIsPercentile | scripts/stock_sleeve_study.py:1341-1348 | average rank less one half over the sample size is the percentile of the draw in its own null |
| NullRank.PercentileKeepsOrder | scripts/stock_sleeve_study.py:1331-1338 | against any value, the percentiles of the draws order as the draws do, ties included |
| NullRank.OwnNullIsCalibrated | scripts/stock_sleeve_study.py:1331-1348 | the percentile of a percentile among the null's own percentiles is itself |
| NullRank.MaxDominates | scripts/stock_sleeve_study.py:1349-1351 | the per-draw maximum is at least every cell's percentile of that draw |
| NullRank.MaxIsReached | scripts/stock_sleeve_study.py:1349-1351 | the per-draw maximum is some cell's percentile |
| NullRank.AdjustmentNeverRaises | scripts/stock_sleeve_study.py:1879-1889 | the correction never raises the percentile of a cell whose draws all cells have, or when no draw is left |
| NullRank.NeverRaisedExactly | scripts/stock_sleeve_study.py:1345-1351 | for a table of present and missing draws no statistics raise a cell's percentile if and only if all its draws are shared or none is |
| NullRank.SingleCellUnchanged | scripts/stock_sleeve_study.py:1341-1351 | with one cell the correction changes nothing |
| NullRank.MoreCellsLower | scripts/stock_sleeve_study.py:1341-1351 | every further cell that has the shared draws can only lower an adjusted percentile |
| RandomSelection.GreedyIsLargest | scripts/stock_sleeve_study.py:964-979 | a greedy choice that exhausted its candidates is as large as any set of them within the sector limits |
| RandomSelection.LimitsExactly | scripts/stock_sleeve_study.py:962-967 | under a cap no sector of the names holds more than it; under quotas each has a quota and holds no more |
| RandomSelection.EligiblesKeepTheOrder | scripts/stock_sleeve_study.py:961 | the eligible order is the order itself with only the ineligible names left out |
| RandomSelection.Take | scripts/stock_sleeve_study.py:970-982 | one limited pass on any order: a choice without repeats took a candidate exactly when, at its turn, it was short and its sector had room, and ended short only with its candidates exhausted |
| RandomSelection.FillUp | scripts/stock_sleeve_study.py:982-987 | the relaxing pass takes every candidate still missing, up to the number wanted |
| RandomSelection.SelectedInThree | scripts/stock_sleeve_study.py:964-987 | the kept names are as many as any held names within target and limits; the limits are relaxed only if no extension by other names within them has n names; the size is exactly min(n, kept + other eligible) |
| RandomSelection.SelectRandom | scripts/stock_sleeve_study.py:951-987 | for every order, followed as drawn: a choice without repeats if and only if the names kept from the holdings have none, and then the three passes promise the above |
| RandomSelection.RepeatsAreHarmlessExactly | scripts/stock_sleeve_study.py:970-975 | no holdings and no target make an order repeat a name in the choice if and only if its repeated names stand in sectors with room for one at most |
| SymbolHistory.SymbolsAt | scripts/stock_sleeve_study.py:753-763 | terminates on every table, circular ones included; the symbol first, no duplicate, each later one replaced by an earlier one, and exactly the symbols reachable by changes after the date |
| RunOnce.StepKeepsInv | scripts/stock_sleeve_study.py:2517-2543 | every step, exception, kill or safe removal keeps the protocol's invariant |
| RunOnce.StudyRunsOnce | scripts/stock_sleeve_study.py:2657-2676 | over every interleaving at most one real run ever creates gate.json, and a verdict is shown only once its gate.json is complete |
| RunOnce.UnsafeRemoval | scripts/stock_sleeve_study.py:2535-2543 | removing LOCK under a live run before a gate exists has a continuation in which two runs write a gate |
| RunOnce.RemovalIsSafeExactly | scripts/stock_sleeve_study.py:2535-2537 | removing LOCK is safe on every later history if and only if a gate is known or no run is alive |
| LockHistory.LockMovesExactly | scripts/stock_sleeve_study.py:2535-2543 | LOCK appears only when a run takes it and disappears only when a run leaves the lock or someone removes it; a kill leaves it |
| LockHistory.AcquiresExactly | scripts/stock_sleeve_study.py:2532-2537 | a run gets inside exactly when LOCK is not there; else it is refused and nothing else changes |
| LockHistory.KilledRunBlocks | scripts/stock_sleeve_study.py:2527-2543 | after the run inside is killed, every continuation refuses every run and changes no folder, gate or verdict until LOCK is removed |
| LockHistory.ChecksExactly | scripts/stock_sleeve_study.py:2517-2523 | a run passes the check exactly when no folder holds a gate or a result |
| LockHistory.OpensExactly | scripts/stock_sleeve_study.py:2667-2669 | a run opens a folder of its own exactly when the name is new |
| LockHistory.StudyCanRun | scripts/stock_sleeve_study.py:2657-2676 | a study that has not run can run to its end: gate complete, verdict shown, result written, LOCK gone |
| LockHistory.FailureBeforeGateCanRetry | scripts/stock_sleeve_study.py:2540-2543 | a run that fails before its gate leaves LOCK free and nothing that counts |
| LockHistory.GatesOnlyMoveOn | scripts/stock_sleeve_study.py:1936-1941 | over every history a folder stays, its gate only moves on, and no result, writer or verdict is lost |
| LockHistory.KnownGateIsFinal | scripts/stock_sleeve_study.py:2658-2660 | once a gate is known no history, LOCK removed at will, opens a folder or adds a writer |
| Treemap.TileATile | site/build.py:3442-3490 | tiling one tile of a tiling is a tiling |
| Treemap.WorstIsWorstAspect | site/build.py:3458-3460 | what the test computes for a row is the greatest longer-over-shorter side of the rectangles it gets in its strip |
| Treemap.GrowRow | site/build.py:3462-3469 | the next row: each area was added because the row's rectangles did not get worse by it, and the next would make them worse |
| Treemap.LayShorterSide | site/build.py:3470-3488 | the row gets its pieces of a strip along the shorter side, which they tile, and the rest is what the strip leaves, with the remaining area |
| Treemap.LayOut | site/build.py:3452-3490 | for positive values the loop squarifies the box: rows grown by aspect, each laid along the shorter side; it tiles the box, each value with its exact share |
| Treemap.Squarify | site/build.py:3442-3490 | for any values and box: empty boxes for values that are not positive, and the others squarified with exact shares and an exact tiling; no division by zero, and it terminates |
| Treemap.EveryPointHasOneTile | site/build.py:3442-3444 | every point of the half-open box lies in the box of exactly one value, a positive one |
| Treemap.NoTileOutside | site/build.py:3442-3444 | no box reaches outside |
| BookMap.PctKeepsTiling | site/build.py:3493-3494 | percentages of a box keep a tiling |
| BookMap.LayOutBook | site/build.py:3561-3575 | in every page layout the classes are squarified into the page and the lines of each class into the box below its header of twenty pixels, in percent of it; a header exactly where every layout has 44 by 44 pixels for it, never for cash |
| BookMap.LineShareOfPage | site/build.py:3561-3575 | the area of a line on the page, which is its value over the whole book if and only if the lines' box is as high as the class box |
| BookMap.InnerIsWhole | site/build.py:3569-3573 | the lines' box is as high as the class box if and only if the class has no header and is at least one unit high |
| PaperBookObject.PaperBook.MarkCore | src/council/paperbook.py:240-249 | marks every line with a usable price and flags exactly the held lines without one |
| PaperBookObject.PaperBook.TradeCore | src/council/paperbook.py:279-307 | legs at the equity and weights of the start, in order, with their ledger rows and flags |
| PaperBookObject.PaperBook.TradeLeg | src/council/paperbook.py:290-306 | one target: skipped, flagged or filled |
| PaperBookObject.PaperBook.EnterSwing | src/council/paperbook.py:309-325 | the whole new state of an entry, or none when refused |
| PaperBookObject.PaperBook.CloseSwing | src/council/paperbook.py:327-335 | the whole new state of a close; an unknown trade changes nothing |
| PaperBookObject.PaperBook.SettleSwing | src/council/paperbook.py:251-276 | every open trade exits on its signal or is marked at the last close, with its days held counted on its bars |
| PaperBookObject.PaperBook.Drawdown | src/council/paperbook.py:184-189 | raises the peak first; equity is peak x (1 - drawdown), and zero exactly at the peak |
| PaperUnits.MarkedExactly | src/council/paperbook.py:240-249 | a mark moves a line to its positive quote and leaves everything else alone |
| PaperUnits.FillPriceExactly | src/council/paperbook.py:293 | a core leg fills at the quote, or at the position's last price where none or zero is quoted |
| PaperUnits.FillPriceOfNewLine | src/council/paperbook.py:293 | a line without a position fills at its quote, and has no price where none or zero is quoted |
| PaperUnits.LegFillsExactly | src/council/paperbook.py:290-296 | a leg fills exactly when it moves the weight by more than a millionth at a positive price, and is flagged exactly when there is none |
| PaperUnits.LegCostsItsBps | src/council/paperbook.py:298-303 | a filled leg takes its declared basis points of NAV out of the book, none if negative, and logs them |
| PaperUnits.FlagsExactly | src/council/paperbook.py:294-296 | a core trade flags exactly the lines it would move but has no price for |
| PaperUnits.RowCostExactly | src/council/paperbook.py:351-358 | what one ledger row counts as paid: its logged cost, none if negative, else the declared leg of the trade it names |
| PaperCoreTrade.CoreTradeReachesTargets | src/council/paperbook.py:284-303 | over a whole core trade each filled line ends at its target weight of the equity the trade started from, swing exposure included, off by its own re-mark; every other ordered line keeps its position |
| PaperCoreTrade.OtherLinesWait | src/council/paperbook.py:288-303 | a line no target names keeps its position |
| PaperUnits.RefusedExactly | src/council/paperbook.py:313-314 | an entry is refused exactly for a taken id, no positive entry price or no size, and then changes nothing |
| PaperUnits.MarkIsLastPrice | src/council/paperbook.py:109-112 | a trade's mark is its last price, or its entry reference where that is missing or zero |
| PaperUnits.EntryInUnits | src/council/paperbook.py:315-325 | an accepted entry takes its notional and one declared leg out of cash and leaves the book worth one leg less |
| PaperUnits.OpenTradeInUnits | src/council/paperbook.py:109-117 | an open trade is worth its notional and the gain of its units at the mark; a long its units at the mark |
| PaperUnits.ExposureInUnits | src/council/paperbook.py:119-122 | its exposure is its units at the mark, signed by its side |
| PaperUnits.ExposureOfEntry | src/council/paperbook.py:214-221 | an entry adds its signed notional to its own line's exposure and to no other's |
| PaperUnits.ExposureOfClose | src/council/paperbook.py:214-221 | a close takes the trade's units at the mark off its line again |
| PaperUnits.TradePnlInUnits | src/council/paperbook.py:109-112 | what a trade gains by an operation is its units times the price move, up for a long, down for a short |
| PaperUnits.CloseInUnits | src/council/paperbook.py:327-335 | a close pays the notional and the gain of its units less one declared leg; the recorded net return is the gain less two legs over the notional |
| PaperUnits.SignalIsTheReturn | src/council/paperbook.py:266-268 | a settlement's exit earns exactly the gross return the bars say, long or short |
| PaperUnits.SettledExactly | src/council/paperbook.py:256-275 | what a settlement makes of each trade: kept, closed at its signal, or marked with its days held counted on its bars |
| PaperAccounts.LegReachesTarget | src/council/paperbook.py:290-303 | a filled leg takes its line to the target weight, off by exactly the move from the mark to the fill price |
| PaperAccounts.LineKeepsAccount | src/council/paperbook.py:290-306 | a core leg moves equity plus costs by the re-marked price move only |
| PaperAccounts.EntryKeepsAccountExactly | src/council/paperbook.py:309-325 | an entry keeps equity plus costs if and only if equity is not negative or no cost is declared |
| PaperAccounts.CloseKeepsAccountExactly | src/council/paperbook.py:327-335 | a close moves equity plus costs by the trade's price move if and only if the trade was open, or its payment is nothing |
| PaperRuns.SettlesEachTrade | src/council/paperbook.py:251-276 | a settlement treats every trade once and by itself: kept, closed on its signal or marked |
| PaperRuns.RunKeepsAccount | src/council/paperbook.py:240-359 | over every run, equity plus costs moves by the price P&L plus the negative costs the ledger drops and the second payouts |
| PaperRuns.BalancedAtEveryMoment | src/council/paperbook.py:240-359 | a started book has equity plus costs equal to start NAV plus price P&L at every moment if and only if every accepted entry is made with equity not negative or nothing declared, and every close is of an open trade or pays nothing |
| PaperRuns.ReturnIsMarketMinusCost | site/build.py:5164-5168 | with no trade closed twice, the return is price P&L less costs paid if and only if every accepted entry is paid |
| PaperRuns.NetCashOfATrade | src/council/paperbook.py:309-335 | whatever happens between, the entry and close of a trade add up to notional x recorded net return, long or short |
| PaperExamples.EntryUnderWaterUnbalances | src/council/paperbook.py:309-325 | a short that triples and one more entry: a concrete run that loses the identity at that entry, for every declared cost |
| PaperExamples.SecondClosePaysAgain | src/council/paperbook.py:327-335 | a concrete run that loses the identity at the second close of a trade |
| PaperStore.LoadKeepsEquity | src/council/paperbook.py:145-164 | a version-1 file keeps its equity: old formula before, new formula after |
| PaperStore.LoadDefaults | src/council/paperbook.py:145-164 | what loading makes of missing and zero keys, and which versions it migrates |
| PaperStore.RoundTripExactly | src/council/paperbook.py:145-182 | loading what was written is the identity if and only if no field is one that `or` replaces |
| PaperStore.LoadAfterSave | src/council/paperbook.py:145-195 | save then load is the identity on started books, exactly unless no cost is declared, and keeps equity |
| PaperStore.MigratesOnce | src/council/paperbook.py:145-195 | what is saved after a migration is not migrated again |
| PaperStore.LegacyRowsCostTheSame | src/council/paperbook.py:337-359 | rows without a cost count the declared leg they would carry |
| Clock.ScanIsFloor | src/council/clock.py:32-40 | the two-day scan always finds a slot: the floor on the four-hour grid |
| Clock.SlotIsUnique | src/council/clock.py:14-40 | the slot of an instant is the only grid time with slot <= ts < slot + 4h |
| Clock.NextSlotIsNext | src/council/clock.py:43-44 | the next slot is the first grid time after the instant |
| Clock.GridInMinutes | src/council/clock.py:14-16 | the grid is 02:40, 06:40, 10:40, 14:40, 18:40 and 22:40 of every day |
| Clock.HoursInMinutes | src/council/clock.py:151-174 | the exchanges' hours by the clock: regular, early and half days, weekends, holidays, and past the calendars |
| Sessions.OpenExactlyInASession | src/council/clock.py:177-227 | a market is open if and only if the instant lies in the session of a trading day, CFD evenings counted for the next day |
| Sessions.CfdHoursInMinutes | src/council/clock.py:197-213 | the CFD market is open from 18:00 of the evening before to 17:00 New York of every weekday that is no closed trade date, and at no other time |
| Sessions.OpenUntilItsClose | src/council/clock.py:230-254 | an open session is open until the close the clock names and shut at it, across midnight, weekends and closed trade dates |
| Sessions.CloseAfterIsFirst | src/council/clock.py:230-254 | that close is the first close of any session strictly after the instant |
| Sessions.CloseScanFailsExactly | src/council/clock.py:240-254 | the scan raises if and only if its fourteen days hold no session still to close |
| Sessions.NextCloseIsFirstOpening | src/council/clock.py:257-281 | the close of the first session that opens strictly after the instant |
| Sessions.OpenScanFailsExactly | src/council/clock.py:268-281 | the scan raises if and only if its fifteen days open no session after the instant |
| Sessions.OpenLegHasDeadline | src/council/clock.py:284-292 | a leg whose market is open always gets a deadline |
| Sessions.LegLeavesTenMinutes | src/council/clock.py:284-292 | up to its deadline a leg has ten minutes of the open session left, and the next slot five minutes ahead |
| Sessions.DeadlineIsTight | src/council/clock.py:284-292 | the deadline is the slot's, or the session shuts ten minutes after it |
| CalendarMerge.MergeAssociates | src/council/policy.py:352-366 | merging is associative, and both groupings fail on the same inputs |
| CalendarMerge.MergeIdempotent | src/council/policy.py:352-366 | merging a file with itself changes nothing and never fails |
| CalendarMerge.GroupingDoesNotMatter | src/council/policy.py:369-380 | the result, failures included, depends on the order of the files and never on how they are grouped |
| CalendarMerge.MergedAt | src/council/policy.py:352-366 | a merge works path by path |
| CalendarMerge.MergeableExactly | src/council/policy.py:352-361 | two files merge exactly when no path both hold leads to different kinds |
| CalendarMerge.ListsAppendInOrder | src/council/policy.py:361-362 | a merged list is the list there was followed by the new items in their order |
| CalendarMerge.LatestValueWins | src/council/policy.py:369-373 | any other value comes from the latest file that sets it |
| CalendarMerge.ListsAreUnited | src/council/policy.py:369-373 | a merged list holds exactly what some file lists there |
| CalendarMerge.MergeCalendar | src/council/policy.py:352-366 | the loop, in any key order, computes the merge and fails exactly on a kind change at some depth, naming the key and leaving exactly the keys before it merged |
| CalendarMerge.LoadCalendars | src/council/policy.py:369-382 | the files merged in name order into an empty calendar: fails without a file, and at the first file that does not merge |
| UniversePolicy.SymbolOwners | src/council/policy.py:224-237 | every claimed symbol is owned by the first line that claims it, the messages are exactly the other ids' claims, and there is none if and only if ownership is unique |
| UniversePolicy.OneOwnerEach | src/council/policy.py:240-253 | in a valid universe every id, vehicle and alias belongs to exactly one line |
| UniversePolicy.VehicleMapNeverFails | src/council/policy.py:329-336 | a valid universe cannot collide when its vehicle map is built |
| UniversePolicy.ReferenceWithinGross | src/council/policy.py:297-303 | a valid universe with expanded stock lines weighs at most the gross limit in the reference book, within the tolerance |
| UniversePolicy.ExpandedLinesAreValid | src/council/policy.py:205-220 | the stock file cannot express a line the stock rules refuse |
| UniversePolicy.ExpandedExactly | src/council/policy.py:205-220 | each row is one line: one part in the target of the sleeve's weight, in the reference book if selected, claiming its id, broker symbol and former ids |
| UniversePolicy.ReferenceExactly | src/council/policy.py:205-220 | the reference book weighs its core and one part for each selected stock, the whole sleeve once the target is filled |
| UniversePolicy.CoreWeightOneMore | src/council/policy.py:297-298 | the weight the rule counts is the sum over the reference lines that are no stock |
| UniversePolicy.ClaimsExactly | src/council/policy.py:230-232 | a line claims its id, its vehicles and, where asked, its former ids |
| UniversePolicy.RulesExactly | src/council/policy.py:256-303 | exactly which universes the stock and weight rules accept, rule by rule |
| UniversePolicy.ValidStocks | src/council/policy.py:256-294 | what validation promises of stocks: satellite, long only in real shares, no more selected than places, no company live twice or live and retired |
| EvidenceLedger.FlagsAreSinceLastConsumed | src/council/runtime.py:534-572 | after any run of cycles a line is flagged if and only if it never consumed since it appeared, or its own or the market-wide fingerprint differs from those it consumed last |
| EvidenceLedger.FirstCycleFlags | src/council/runtime.py:561-571 | before anything is stored every line is flagged, unless the one legacy fingerprint still matches |
| EvidenceLedger.FirstWriteConsumesAll | src/council/runtime.py:553-558 | the first write consumes every line's evidence, whichever lines can act |
| EvidenceLedger.ConsumedExactly | src/council/runtime.py:553-558 | what is stored: keys of the lines that could act or had one, taken now or kept, and the market-wide fingerprint for reference |
| EvidenceLedger.ConsumingLeavesOthers | src/council/runtime.py:540-558 | consuming for some lines never alters another surviving line's flag |
| EvidenceLedger.ReturningLineIsFlagged | src/council/runtime.py:550-572 | a line that left the map counts as changed when it returns |
| EvidenceLedger.SameEvidenceAgain | src/council/runtime.py:545-551 | the same fingerprints again are new only to a line that could not act on them |
| EvidenceLedger.MarketWideEvidenceReachesEveryLine | src/council/runtime.py:534-537 | market-wide evidence is consumed by each line for itself |

## Left out

- NullRank.PercentileKeepsOrder: an infinite statistic, which the two rank formulas treat differently, is outside the reals.
- Sessions.LegLeavesTenMinutes: the zone is any pair of conversions that runs evenly from the instant to the session's close; the zone database, and the hour by which two local times compare differently across a change of offset, are not modelled.
- CalendarMerge.MergeCalendar: the merged calendar is a value that is returned, not a dictionary changed in place; scalars compare as their text.
- PaperBookObject.PaperBook: trades are values in a sequence, not objects: two names for one trade are not captured. Dictionaries are sequences in insertion order, and targets come already sorted.
- BookMap.LayOutBook: the percent boxes only; colours, titles, sorting and the geometry classes are not modelled.
- The exchange holiday tables are parameters of the clock, not copied; `classify`, `market_open` and `vehicle_session` would only add easy members.
- The id pattern, reserved prefix and whitespace rules of the identity check: independent tests of single strings.
- The daily returns and the final data frames the simulators wrap their rows into.
- The selection and gate of the study (`choose_cell`, `choose_overlay`, `evaluate_gate`), the other statistics of `metrics`, and the checks before a real run.
- `pending_trades`, `swing.paper.evaluate`, `sector_quotas` and `material_fingerprints` are not part of this model: they are parameters.
- I/O, file permissions, JSON text, pandas alignment, floating-point rounding and page rendering.
