# CipherTrader in Dafny

A verified model of four parts of CipherTrader, a C++ trading framework: the growable
row buffer behind its market data, the depth-walking triangular arbitrage bot, the
sliding-window indicators, and the candle store. Prices, volumes and amounts are exact
reals; NaN is a value of its own (`Num`), and comparisons and arithmetic treat it as
doubles do. C++ exceptions are error results.

`dafny verify dfyconfig.toml` checks the whole project.

## What is modelled

- **Row buffer** (`RowStore`, `RowStoreEffects`, `RowStoreBounds`, `RowStoreContents`,
  `RowStoreOldMemory`, `DynamicArrays`). A
  mutable class over an array of rows, with growth by 1.5, shrinking deletions and
  periodic drops. Each mutation is proved to take a step of a small transition system,
  and its effect on every row, cell and capacity is stated in plain numbers; theorems about all
  runs of that system bound space and copying, identify the rows kept, and show that the
  buffer behaves as a plain list.
- **Arbitrage** (`DepthWalk`, `BuySide`, `Conversion`, `Legs`, `Arbitrage`). The two
  greedy walks over a book are proved optimal by linear-programming duality; buying is
  selling on mirrored levels. Paths of any length inherit monotonicity, falling averages,
  concavity and loss of value from their legs, which yields the theorems on both triangular
  paths and on the gate. Where NaN arises, and what the gate makes of it, is stated exactly.
- **Indicators** (`MovingAverage`, `Alma`, `DirectionalIndex`, `AccumulationDistribution`,
  `Aroon`). Every loop is proved against the naive definition of its entries; ranges,
  bounds and agreements are proved of those definitions.
- **Candles** (`Candles`, `CandleStore`). Aggregation to longer timeframes, insertion by
  timestamp on top of the row buffer, folding of live trades and one-minute batches, and
  runs that mix them.

`Common` and `RealLemmas` hold shared datatypes and facts of real arithmetic.

## Where the code and its intent differ

The model follows the code. Each item is a theorem: where something fails only for some
inputs, with the exact condition on them.

- A full one-row buffer with bucket 0 or 1 cannot grow (`src/DynamicArray.cpp:276`), so
  the second append throws (`TwoAppendsGetStuckExactly`).
- `CandlesState::init` clears its map (`src/Candle.cpp:287`, `328`) and then assigns
  through `at` (`src/Candle.cpp:300`, `321`), which throws for every key that is not there:
  it fails exactly when there is a route, and no store ever comes out of it
  (`CandleStorage.Init`). The series of `CandlesState` is therefore taken to start from
  the store `init` was meant to make. Of those intended stores, one for a timeframe longer
  than the bucket size would get stuck on its second candle (`LongTimeframeStuckExactly`).
- `shrinkToFit` does not zero the rows behind the live ones (`src/DynamicArray.cpp:594`),
  so a column sum after a shrinking deletion may include old memory
  (`SumSurvivesExactly`, `SumTrustedExactly`), and a later batch of narrower rows takes over what is there
  (`RefinesPlainStep`, `NarrowBatchDiffers`).
- The drop test looks at one size only (`src/DynamicArray.cpp:343`): a batch can jump over
  the threshold, and then the size never falls below it again by adding rows
  (`BatchStaysBelowExactly`, `OverflowPersists`).
- An amount that is used up at an ask without a positive price becomes NaN
  (`arbitrage/main.cpp:366`, `BuyIsNaNExactly`). On numbers that are not negative this
  takes an amount of 0 and a first ask of price 0 (`EndsUnpricedExactly`); a positive
  amount takes zero-priced asks whole, at no cost (`arbitrage/main.cpp:371-373`,
  `FreeAsksAreTaken`, `FreeAskIsTraded`).
- NaN passes the `<=` of the gate (`arbitrage/main.cpp:644`). At the end of the forward
  path it makes the gate trade without a profit (`TradesWithoutProfitExactly`,
  `TradesWithoutProfitOnBooks`); at the end of the reverse path it makes the gate give up a
  forward profit (`ForwardGivenUpExactly`, `ReverseIsNaNOnBooks`); and between the two
  purchases of the reverse path it buys the whole last book (`ReverseIsNaNExactly`).
- The search for a late candle starts at row 0 and never tries row 1 of more than 20
  rows, and it runs out of range when nothing matches among 18 rows or fewer
  (`src/Candle.cpp:458-460`); its comment speaks of the last 20 items
  (`LateCandleExactly`).
- A trade opens at most one candle (`src/Candle.cpp:514`): at the exact start of the next
  minute, or after a gap of a minute, it is folded into an older one
  (`TradeInItsMinuteExactly`).
- ADX leaves out the DX of bar 2 period (`src/Indicator.cpp:378-387`, `AdxSkipsOneBar`).
- The AC oscillator always starts at zero, since its five-bar average skips NaN
  (`AcStartsAtZero`).
- Aroon's comment counts positions from the most recent bar (`src/Indicator.cpp:888-889`);
  the code counts from the oldest, and the two figures agree exactly when the extreme lies
  midway (`CommentDiffersExactly`).
- In non-sequential mode Aroon reports NaN when the warm-up slice is no longer than the
  period, although the full history would give a value (`LastValueAgreesExactly`).

## Model

| member | source | states |
|---|---|---|
| `DynamicArrays.DynamicArray.constructor` | src/DynamicArray.cpp:10-18 | a fresh array has no live rows, `shape[0]` rows of zeros and has copied nothing |
| `DynamicArrays.DynamicArray.Size` | src/DynamicArray.cpp:59-62 | the number of live rows |
| `DynamicArrays.DynamicArray.Capacity` | src/DynamicArray.cpp:68-71 | live and spare rows together |
| `DynamicArrays.DynamicArray.At` | src/DynamicArray.cpp:115-154 | positive and negative indexing answers from the live sequence, everything else is out of range |
| `DynamicArrays.DynamicArray.GetLastItem` | src/DynamicArray.cpp:77-85 | agrees with index -1, also in failing on an empty array |
| `DynamicArrays.DynamicArray.GetPastItem` | src/DynamicArray.cpp:93-106 | agrees with negative indexing: item k back is index -1-k |
| `DynamicArrays.DynamicArray.Slice` | src/DynamicArray.cpp:175-249 | returns the live rows between the normalised bounds, a stop of 0 meaning the end; empty ranges fail |
| `DynamicArrays.DynamicArray.SetRow` | src/DynamicArray.cpp:115-133 | assignment through the row view replaces exactly the addressed live row |
| `DynamicArrays.DynamicArray.SetRows` | src/DynamicArray.cpp:175-211 | assignment through the slice view replaces exactly the sliced rows and refuses any other shape |
| `DynamicArrays.DynamicArray.Append` | src/DynamicArray.cpp:268-303 | moves to the state RowStore.Next allows; fails exactly when the buffer is full and cannot grow; counts the rows copied |
| `DynamicArrays.DynamicArray.AppendMultiple` | src/DynamicArray.cpp:310-348 | moves to the state RowStore.Next allows, copying exactly when the batch does not fit |
| `DynamicArrays.DynamicArray.Flush` | src/DynamicArray.cpp:353-366 | empties the array, back to the bucket when the buffer exceeds two buckets, all rows zero |
| `DynamicArrays.DynamicArray.DeleteRow` | src/DynamicArray.cpp:373-419 | rows before the addressed one keep their place, rows behind it move up by one, bad indices change nothing; the argument check of shrinkToFit never fires |
| `DynamicArrays.DynamicArray.Filter` | src/DynamicArray.cpp:471-528 | exactly the live rows within the tolerance, in order; a bad column fails only on a non-empty array |
| `DynamicArrays.MatchingMembers` | src/DynamicArray.cpp:486-528 | a row is in the filter result exactly when it is live and matches |
| `DynamicArrays.MatchingInOrder` | src/DynamicArray.cpp:486-528 | the filter result holds, in order, the rows at exactly the positions within the tolerance |
| `DynamicArrays.SliceBoundsExactly` | src/DynamicArray.cpp:183-205 | slice bounds in numbers: negative ones count from the end, a stop of 0 is the end, both are cut to the rows there are |
| `DynamicArrays.DynamicArray.Sum` | src/DynamicArray.cpp:530-541 | adds the whole buffer column, spare rows included |
| `DynamicArrays.DynamicArray.Resize` | src/DynamicArray.cpp:558-576 | keeps the live rows, zeroes the rest, copies one row per live row |
| `DynamicArrays.DynamicArray.ShrinkToFit` | src/DynamicArray.cpp:583-603 | refuses sizes not above the last index; keeps the live rows and says nothing of the new spare rows |
| `DynamicArrays.DynamicArray.ShiftMatrix` | src/DynamicArray.cpp:610-649 | a left shift drops the oldest rows and zeroes the vacated ones; right shifts are refused |
| `RowStore.Position` | src/DynamicArray.cpp:121-130 | negative indices count from the end; defined exactly from -size to size-1 |
| `RowStoreEffects.DeleteExactly` | src/DynamicArray.cpp:373-403 | by index: what is before the deleted row stays, what is behind moves up, nothing else is removed |
| `RowStoreEffects.DeleteCapacityExactly` | src/DynamicArray.cpp:406-418 | a deletion from above the bucket that leaves less than a quarter halves the buffer, not below the bucket; otherwise one zero row is spare |
| `RowStoreEffects.AppendExactly` | src/DynamicArray.cpp:281-302 | by cell: the new row comes last, padded with zeros or cut; at multiples of the threshold half of it goes from the front |
| `RowStoreEffects.AppendCapacityExactly` | src/DynamicArray.cpp:272-278 | a full buffer grows by half, to the bucket or to one row, whichever is most |
| `RowStoreEffects.BatchExactly` | src/DynamicArray.cpp:310-347 | a batch follows the live rows; at multiples of the threshold half of it goes from the front |
| `RowStoreEffects.BatchCellsExactly` | src/DynamicArray.cpp:331-337 | by cell: the rows of a batch come in order, with the old cells where one is too narrow |
| `RowStoreEffects.BatchCapacityExactly` | src/DynamicArray.cpp:319-327 | a batch that does not fit makes the buffer as large as needed, or larger by half |
| `RowStoreEffects.FlushExactly` | src/DynamicArray.cpp:353-366 | nothing live, zeros only, back to the bucket above twice its size |
| `RowStoreEffects.CopiedExactly` | src/DynamicArray.cpp:558-603 | a change of capacity but for a flush copies all live rows; nothing else copies any |
| `RowStoreBounds.NextSizes` | src/DynamicArray.cpp:268-419 | exact size and capacity after every mutation, with and without a drop threshold |
| `RowStoreBounds.GrowthIsStrictExactly` | src/DynamicArray.cpp:272-278 | a growth step makes room exactly when capacity is 0, below the bucket, or at least 2 |
| `RowStoreBounds.TwoAppendsGetStuckExactly` | src/DynamicArray.cpp:272-283 | bucket sizes 0 and 1 are exactly those whose second append cannot make room |
| `RowStoreBounds.AppendAlwaysPossible` | src/DynamicArray.cpp:268-283 | with a bucket of two or more an append is possible in every reachable state, and capacity never falls below the bucket |
| `RowStoreBounds.SpaceBound` | src/DynamicArray.cpp:268-419 | after every run without drop threshold: bucket <= capacity <= max(2 bucket, 4 size + 3) |
| `RowStoreBounds.AmortisedCopying` | src/DynamicArray.cpp:558-603 | over every run of any mutations, reallocations copy at most 5 rows per row ever added, less the rows still held |
| `RowStoreBounds.AmortisedWithPotential` | src/DynamicArray.cpp:558-603 | the same with the potential that pays for the next growth or shrink |
| `RowStoreBounds.CopyingWithoutRemoval` | src/DynamicArray.cpp:558-576 | n rows added and none removed cost at most 4n row copies |
| `RowStoreBounds.ThresholdBound` | src/DynamicArray.cpp:296-302 | with threshold d and no batches: size stays below d and capacity at most max(bucket, 3(d-1)/2) |
| `RowStoreBounds.AppendSize` | src/DynamicArray.cpp:296-302 | below the threshold an append drops half of it exactly when it reaches it |
| `RowStoreBounds.BatchStaysBelowExactly` | src/DynamicArray.cpp:342-347 | a batch keeps the size below the threshold exactly when size plus batch does not exceed it |
| `RowStoreBounds.OverflowPersists` | src/DynamicArray.cpp:296-302 | once above the threshold, no further run of appends and batches brings the size below it |
| `RowStoreContents.CleanRun` | src/DynamicArray.cpp:268-649 | in every run without a shrinking deletion all rows behind the live ones are zero |
| `RowStoreContents.SumRun` | src/DynamicArray.cpp:530-541 | in every such run the buffer column sum is the sum over the live rows |
| `RowStoreContents.SumOfOneRow` | src/DynamicArray.cpp:530-541 | the column sum of one row is its cell |
| `RowStoreContents.SumSurvivesExactly` | src/DynamicArray.cpp:406-418 | from a clean buffer the sum stays right under every allocation exactly when the mutation is not a shrinking deletion |
| `RowStoreContents.SpoiledByShrink` | src/DynamicArray.cpp:594-601 | an outcome of a shrinking deletion in which the column sum is wrong |
| `RowStoreOldMemory.StaleRowsLast` | src/DynamicArray.cpp:268-649 | in every run all spare rows are zero but the last ones that the latest shrink left unwritten, whose number follows from sizes alone |
| `RowStoreOldMemory.SumTrustedExactly` | src/DynamicArray.cpp:530-603 | after any operations that can be run, the buffer column sum is that of the live rows under every allocation exactly when no such row is left |
| `RowStoreOldMemory.StaleRowsWearOff` | src/DynamicArray.cpp:272-366 | only a shrinking deletion leaves more such rows; growth and a flush leave none, and rows that come in take the last ones once the zeros are used up |
| `RowStoreContents.RefinesPlainStep` | src/DynamicArray.cpp:268-419 | one mutation does to the live rows what it does to a plain list, exactly unless a batch that fits the buffer has a row that is too narrow to cover a non-zero cell of the spare row under it and that the drop test does not remove again |
| `RowStoreContents.OverlayIsPadExactly` | src/DynamicArray.cpp:336-340 | a batch row laid over a spare row equals the padded batch row exactly when the uncovered cells are zero |
| `RowStoreContents.NothingOld` | src/DynamicArray.cpp:336-340 | neither a buffer clean behind its live rows nor a batch of full width meets that exception |
| `RowStoreContents.RefinesPlain` | src/DynamicArray.cpp:268-649 | the live rows are those of the plain list all through a run exactly when no batch of the run meets that exception |
| `RowStoreContents.RefinesPlainUnlessNarrow` | src/DynamicArray.cpp:268-649 | in every run whose batches after a shrinking deletion have full width, growth, shrink and shift are invisible: the live rows are those of the plain list |
| `RowStoreContents.NarrowBatchDiffers` | src/DynamicArray.cpp:336-601 | a run in which a narrow batch takes over old memory: [7, 1] is held where the plain list holds [7, 0] |
| `RowStoreContents.Retention` | src/DynamicArray.cpp:296-302 | with threshold d >= 2 and n appends, the live rows are exactly the last n (n < d) or (d - d/2) + (n - d) mod (d/2) of the padded history |
| `RowStoreContents.RetainedStep` | src/DynamicArray.cpp:296-302 | how the retained count moves with one more append |
| `DepthWalk.GetBestTurnOver` | arbitrage/main.cpp:305-385 | quote from the bids, base from the asks, and of each side the level after the one that uses up the amount, found by the volume or cost before it; -1 for an empty side, the last level for NaN |
| `DepthWalk.TurnOverReports` | arbitrage/main.cpp:317-378 | each reported level belongs to its own side and is the one after the walk |
| `DepthWalk.NaNTakesAll` | arbitrage/main.cpp:330-373 | a NaN amount sells into, or buys, the whole side, as any larger amount does |
| `DepthWalk.BuyIsNaNExactly` | arbitrage/main.cpp:366 | the ask walk yields NaN exactly when it uses up the amount at a level without a positive price |
| `DepthWalk.EndsUnpricedExactly` | arbitrage/main.cpp:353-366 | on numbers that are not negative the ask walk ends at such a level exactly when there is nothing to spend and the first ask has price 0 |
| `DepthWalk.FreeAsksAreTaken` | arbitrage/main.cpp:371-373 | with an amount to spend, the zero-priced asks of an ascending book are taken whole at no cost, on top of what the amount buys without them |
| `DepthWalk.SaleBringsNothingExactly` | arbitrage/main.cpp:319-343 | a sale brings nothing exactly when no level pays or the levels before the first paying one take the amount whole |
| `DepthWalk.NoVolumeBringsNothing` | arbitrage/main.cpp:319-343 | at positive prices that is exactly when the book holds no volume |
| `DepthWalk.SellLoop` | arbitrage/main.cpp:313-343 | quote received and next bid level of the bid loop |
| `DepthWalk.BuyLoop` | arbitrage/main.cpp:345-376 | base bought and next ask level of the ask loop, NaN where a reached price is not positive |
| `DepthWalk.GreedyIsTheWalk` | arbitrage/main.cpp:319-343 | the bid loop sells min(amount, total volume) within level volumes and is paid level by level |
| `DepthWalk.SellOptimal` | arbitrage/main.cpp:319-343 | on descending bids no allocation of at most the amount receives more quote |
| `DepthWalk.SellDual` | arbitrage/main.cpp:319-343 | the quote is the marginal price times the amount plus the surplus of the better levels |
| `DepthWalk.AllocationBound` | arbitrage/main.cpp:319-343 | every price bounds every allocation: at most price times amount plus the surplus above that price |
| `DepthWalk.SellConcave` | arbitrage/main.cpp:319-343 | the quote is concave in the amount, the marginal price being the slope |
| `DepthWalk.SellMonotone` | arbitrage/main.cpp:319-343 | selling more never receives less |
| `DepthWalk.SellAverageFalls` | arbitrage/main.cpp:319-343 | the average price never rises with the amount |
| `DepthWalk.SellAtMost` | arbitrage/main.cpp:319-343 | a bound on every price bounds the average price, sorted or not |
| `DepthWalk.SellInTwoSteps` | arbitrage/main.cpp:319-343 | selling x and then y on the residual book gives exactly the quote of selling x + y; the residual loses exactly what was sold |
| `DepthWalk.FilledAtLeastNextBid` | arbitrage/main.cpp:319-343 | on descending bids every level sold into is priced no worse than the reported next bid |
| `DepthWalk.NextBidExactly` | arbitrage/main.cpp:323-330 | the reported next bid is that of a level with all volume before it sold into, itself untouched unless it is the last |
| `DepthWalk.FilledIffWithinDepth` | arbitrage/main.cpp:319-343 | a level is sold into exactly when it holds volume and lies within the depth the walk reached, for a positive amount |
| `BuySide.BuyIsSell` | arbitrage/main.cpp:345-376 | the ask walk is the bid walk on mirrored levels, and no NaN arises on positive prices |
| `BuySide.BuyOptimal` | arbitrage/main.cpp:351-376 | on ascending asks no allocation costing at most the amount holds more base |
| `BuySide.SpendingFacts` | arbitrage/main.cpp:351-376 | an allocation of base and its spending are the two readings of one allocation |
| `BuySide.GreedyBuyIsTheWalk` | arbitrage/main.cpp:351-376 | the ask loop spends min(amount, cost of the whole depth) within level volumes |
| `BuySide.BuyInTwoSteps` | arbitrage/main.cpp:351-376 | spending x and then y on the residual asks buys exactly what x + y buys at once; the cost of the residual is less by exactly what was spent |
| `BuySide.BoughtIffWithinDepth` | arbitrage/main.cpp:351-376 | a level is bought from exactly when it holds volume and lies within the depth the walk reached, for a positive amount |
| `BuySide.FilledAtMostNextAsk` | arbitrage/main.cpp:351-376 | on ascending asks every level bought from is priced no worse than the reported next ask |
| `BuySide.NextAskExactly` | arbitrage/main.cpp:356-361 | the reported next ask is that of a level with all volume before it bought, itself untouched unless it is the last |
| `Conversion.ThroughThins` | arbitrage/main.cpp:587-621 | a path of legs that each pay ever less per unit pays ever less per unit |
| `Conversion.ThroughMonotone` | arbitrage/main.cpp:587-621 | over such legs a larger start never ends with less |
| `Conversion.ThroughConcave` | arbitrage/main.cpp:587-621 | a path of monotone concave legs is concave |
| `Conversion.ValueFalls` | arbitrage/main.cpp:587-621 | over legs that keep at most a share of the value, a path of n legs keeps at most its n-th power |
| `Conversion.GrowsExactly` | arbitrage/main.cpp:587-621 | some amount grows along a path exactly when the best rates multiply to more than one |
| `Legs.FollowIsThrough` | arbitrage/main.cpp:591-621 | on sound books the bot computes the composition of its legs and no NaN arises |
| `Legs.NetThinning` | arbitrage/main.cpp:591-621 | one leg with fee is monotone with falling average |
| `Legs.NetConcave` | arbitrage/main.cpp:591-621 | one leg with fee over sorted levels is concave in the amount |
| `Legs.PathConcave` | arbitrage/main.cpp:591-621 | along sorted books what the bot ends with is concave in what it starts with |
| `Legs.NetKeepsValue` | arbitrage/main.cpp:591-621 | over a consistent book a leg keeps at most 0.9975 of the value |
| `Legs.NetBestRate` | arbitrage/main.cpp:591-621 | a leg never beats its best price and attains it on small amounts |
| `Legs.ProfitableExactly` | arbitrage/main.cpp:591-621 | some amount grows along sorted books exactly when the best prices after fees multiply to more than one |
| `Arbitrage.ArbitrageBot.constructor` | arbitrage/main.cpp:513-516 | takes over the configuration and starts without books |
| `Arbitrage.ArbitrageBot.Create` | arbitrage/main.cpp:465-525 | construction fails exactly on an empty token, an empty symbol or a non-positive amount |
| `Arbitrage.ArbitrageBot.UpdateOrderbooks` | arbitrage/main.cpp:437-463 | stores the document, fails exactly when it is not an object, and otherwise lists its keys but "status" |
| `Arbitrage.ArbitrageBot.TurnOverFor` | arbitrage/main.cpp:387-434 | asks for new books exactly when neither WebSocket nor cached ones are used, then walks the book; fails exactly when nothing usable arrives or the symbol has no walkable book |
| `Arbitrage.ArbitrageBot.TurnOverWithRetry` | arbitrage/main.cpp:481-501 | the first of three attempts that brings a book for the symbol answers and ends the requests; fails exactly when none does, and then holds what the last usable request brought |
| `Arbitrage.ArbitrageBot.CalculateArbitrageProfit` | arbitrage/main.cpp:587-632 | only the first look-up may refresh; both percentages are those of following the two paths over the one snapshot then held; fails exactly when a refresh brings no book for A and B or one of the three books is missing |
| `Arbitrage.ArbitrageBot.Gate` | arbitrage/main.cpp:635-648 | rejects, or picks a path, as DecisionFor says of the snapshot and the trade amount |
| `Arbitrage.DecideWithoutNaN` | arbitrage/main.cpp:640-648 | on numbers the gate trades exactly when a path profits, and then on the better one |
| `Arbitrage.DecideRejectsExactly` | arbitrage/main.cpp:640-648 | with NaN: rejects exactly a non-positive forward figure without a positive reverse one, and never goes forward |
| `Arbitrage.ForwardIsNaNExactly` | arbitrage/main.cpp:366-605 | the forward path ends as NaN exactly when its purchase ends at an ask without a positive price |
| `Arbitrage.ReverseIsNaNExactly` | arbitrage/main.cpp:357-619 | the reverse path ends as NaN exactly when its last purchase does; a NaN from its first purchase turns into the whole volume of the last book instead |
| `Arbitrage.TradesWithoutProfitExactly` | arbitrage/main.cpp:366-648 | when neither path has a profit the gate trades exactly when the forward purchase ends at an ask without a positive price |
| `Arbitrage.TradesWithoutProfitOnBooks` | arbitrage/main.cpp:319-648 | on numbers that are not negative that is exactly when the best ask of A against C is free and one of the two sales brings nothing; with positive bids, when one of their books holds no volume |
| `Arbitrage.ReverseIsNaNOnBooks` | arbitrage/main.cpp:351-619 | on such numbers the reverse path ends as NaN exactly when its first purchase buys nothing and the best ask of its last book is free |
| `Arbitrage.FreeAskIsTraded` | arbitrage/main.cpp:353-648 | one free ask and a positive amount: the figure is the number 9875 and the gate trades forward on it |
| `Arbitrage.ForwardGivenUpExactly` | arbitrage/main.cpp:366-644 | a forward profit above any reverse one is given up, for the reverse path, exactly when the reverse path ends as NaN |
| `Arbitrage.ZeroPricedAskIsTraded` | arbitrage/main.cpp:366-648 | one zero-priced ask: neither figure is a positive number and the gate trades |
| `Arbitrage.ProfitGivenUp` | arbitrage/main.cpp:366-644 | one zero-priced ask: a forward profit above 800 percent is given up for the reverse path |
| `Arbitrage.NoArbitrage` | arbitrage/main.cpp:587-648 | if one set of asset values respects all three books, both paths keep at most 0.9975^3 for every amount and the gate rejects |
| `Arbitrage.SizeDependence` | arbitrage/main.cpp:591-621 | on sorted books a larger trade amount ends with no less on either path, but neither profit percentage rises |
| `Arbitrage.ProceedsConcave` | arbitrage/main.cpp:591-621 | on sorted books what either path ends with is concave in the trade amount |
| `Arbitrage.GateOpensExactly` | arbitrage/main.cpp:587-648 | the gate opens for some amount exactly when one of the two cycles gains at best prices after three fees |
| `Arbitrage.GateOpensBelow` | arbitrage/main.cpp:587-648 | on sorted sound books a gate that opens for an amount opens for every smaller one |
| `Candles.SliceCandles` | src/Helper.cpp:1886-1913 | non-sequential mode uses exactly the last warm-up rows |
| `MovingAverage.Sma` | src/Indicator.cpp:15-72 | every entry is the mean of the numbers in its complete window |
| `MovingAverage.SmaDefinedExactly` | src/Indicator.cpp:15-72 | an entry is a number exactly when its window is complete and holds a number |
| `MovingAverage.SmaMoves` | src/Indicator.cpp:15-72 | a number that moves by d moves the mean by d over how many numbers the window holds |
| `MovingAverage.SmaWithin` | src/Indicator.cpp:15-72 | the mean lies within any bounds of the numbers of its window |
| `MovingAverage.StrictSma` | src/Indicator.cpp:730-765 | argument errors; every entry is the window mean unless a NaN came before |
| `MovingAverage.StrictAgreesExactly` | src/Indicator.cpp:15-765 | sma and SMA agree at an entry exactly when no NaN precedes it, its window holds no number, or is incomplete |
| `MovingAverage.Momentum` | src/Indicator.cpp:74-93 | differences at distance period, NaN before |
| `MovingAverage.Acosc` | src/Indicator.cpp:95-135 | fails below 34 rows; returns the accelerator oscillator and its change |
| `MovingAverage.AcDefinedExactly` | src/Indicator.cpp:105-118 | on valid candles the oscillator is defined exactly from index 33, its change exactly from 34 |
| `MovingAverage.AcStartsAtZero` | src/Indicator.cpp:113-115 | its first defined value is always zero |
| `MovingAverage.MedianExactly` | src/Indicator.cpp:105-106 | twice the median price is high plus low |
| `MovingAverage.ChangeExactly` | src/Indicator.cpp:117-118 | the change is the value less the previous one |
| `MovingAverage.AcMoves` | src/Indicator.cpp:105-115 | a rise of the median price by d lifts that bar by 29/170 d, less its share in the mean of the last values |
| `MovingAverage.AcOnCandles` | src/Indicator.cpp:95-118 | the same of candles, in high plus low |
| `Common.EpsilonExactly` | src/Indicator.cpp:357 | machine epsilon is 2 to the power -52 |
| `MovingAverage.AoWithStrictAverages` | src/Indicator.cpp:785-798 | AO, computed with SMA, is the same oscillator |
| `Alma.CreateSlidingWindows` | src/Indicator.cpp:623-647 | all windows of the size, in order, whatever the size |
| `Alma.Alma` | src/Indicator.cpp:649-711 | argument errors; weighted window sums with weights divided by their sum |
| `Alma.NormalisedAddsToOne` | src/Indicator.cpp:691-693 | normalised weights are non-negative and add up to one |
| `Alma.AlmaMoves` | src/Indicator.cpp:691-708 | moving entry k of a window moves the average by the share raw weight k has in the total |
| `Alma.AlmaWithinWindow` | src/Indicator.cpp:695-708 | defined exactly from index period-1 and within any bounds of its window |
| `DirectionalIndex.Movements` | src/Indicator.cpp:325-343 | true ranges and directional movements of every bar |
| `DirectionalIndex.MovesExactly` | src/Indicator.cpp:325-342 | only the larger excursion beyond the previous bar counts, in full, and only if positive |
| `DirectionalIndex.RangeExactly` | src/Indicator.cpp:325-331 | the true range spans the bar and the previous close |
| `DirectionalIndex.SeriesExactly` | src/Indicator.cpp:318-343 | every entry is about the bar and the one before it |
| `DirectionalIndex.MovesWithinRange` | src/Indicator.cpp:333-342 | plus and minus movement together never exceed the true range |
| `DirectionalIndex.WilderSmooth` | src/Indicator.cpp:273-299 | zero, the first sum, then the recursion; zero throughout for a negative period |
| `DirectionalIndex.SmoothExactly` | src/Indicator.cpp:284-296 | zeros, the sum of entries 1 to period, then period - 1 parts of the old value to period parts of the entry |
| `DirectionalIndex.SmoothAdds` | src/Indicator.cpp:284-296 | smoothing is additive |
| `DirectionalIndex.SmoothDominated` | src/Indicator.cpp:284-296 | smoothing keeps two non-negative series whose sum is below a third |
| `DirectionalIndex.DirectionalSeries` | src/Indicator.cpp:345-368 | the DX series of the candles |
| `DirectionalIndex.DxExactly` | src/Indicator.cpp:345-368 | DX times the sum of the smoothed moves is 100 times their distance; zero before bar period and under the two guards |
| `DirectionalIndex.IndicatorsInRange` | src/Indicator.cpp:355-362 | DI+ and DI- are non-negative and add up to at most 100 |
| `DirectionalIndex.Adx` | src/Indicator.cpp:301-398 | argument errors; the ADX series or its last value |
| `DirectionalIndex.AdxExactly` | src/Indicator.cpp:370-388 | zeros, the mean of DX over [period, 2 period), then period - 1 parts of the old value to one of DX |
| `DirectionalIndex.AdxIsMix` | src/Indicator.cpp:370-388 | closed form: the first mean and every later DX with weights that fall off by (period - 1) / period, the newest with 1 / period, adding up to one |
| `DirectionalIndex.AdxInRange` | src/Indicator.cpp:301-398 | on candles closing inside their range every ADX value lies in [0, 100] |
| `DirectionalIndex.AdxSkipsOneBar` | src/Indicator.cpp:376-388 | the DX of bar 2 period enters no ADX value |
| `DirectionalIndex.CalculateAdxr` | src/Indicator.cpp:401-515 | the separately coded smoothing, windowed mean and ADXR; zero throughout for a period that is not positive |
| `DirectionalIndex.RunExactly` | src/Indicator.cpp:436-455 | the smoothing of ADXR in numbers, from the first entry on |
| `DirectionalIndex.DxRExactly` | src/Indicator.cpp:457-483 | its DX in the smoothed moves, the first range being high less low |
| `DirectionalIndex.AdxrExactly` | src/Indicator.cpp:485-512 | 2 period times ADXR is the sum of DX over the last 2 period bars, over period of them while the earlier window is incomplete, zero before |
| `DirectionalIndex.Adxr` | src/Indicator.cpp:517-552 | argument errors; the ADXR series or its last value |
| `DirectionalIndex.RunDominated` | src/Indicator.cpp:445-455 | the recursion of ADXR keeps domination as well |
| `DirectionalIndex.AdxrInRange` | src/Indicator.cpp:401-515 | on candles closing inside their range every ADXR value lies in [0, 100] |
| `AccumulationDistribution.Ad` | src/Indicator.cpp:137-179 | the AD line or its last value; fails on no candles |
| `AccumulationDistribution.ComputeMultiplier` | src/Indicator.cpp:181-199 | the money flow multiplier of every candle |
| `AccumulationDistribution.AdStepExactly` | src/Indicator.cpp:153-170 | across its range a candle moves the line by twice close less high less low, times volume; a flat one moves nothing |
| `AccumulationDistribution.AdRisesExactly` | src/Indicator.cpp:153-170 | the line rises exactly when something is traded and the close is above the middle |
| `AccumulationDistribution.CalculateEma` | src/Indicator.cpp:201-220 | the exponential average with factor 2 / (period + 1), for negative periods too |
| `AccumulationDistribution.EmaExactly` | src/Indicator.cpp:201-220 | the first input, then two parts of the new input to period - 1 parts of the old average |
| `AccumulationDistribution.EmaIsMix` | src/Indicator.cpp:207-217 | every value is the geometrically weighted combination of all inputs so far, and the weights add up to one |
| `AccumulationDistribution.EmaWithin` | src/Indicator.cpp:207-217 | a value stays within any bounds of its inputs so far |
| `AccumulationDistribution.Adosc` | src/Indicator.cpp:222-271 | argument errors; fast minus slow average of exactly the AD line of the same candles |
| `AccumulationDistribution.OscillatorOnRisingLine` | src/Indicator.cpp:257-262 | on a line that does not fall the oscillator is not negative, and positive where the line rises |
| `AccumulationDistribution.AdBounded` | src/Indicator.cpp:153-170 | the absolute AD value is at most the volume traded so far |
| `AccumulationDistribution.OscillatorBounded` | src/Indicator.cpp:257-262 | the absolute oscillator is at most the range of the AD line so far |
| `Aroon.Scan` | src/Indicator.cpp:867-885 | the scan returns the leftmost extremes |
| `Aroon.FirstExtremesExactly` | src/Indicator.cpp:867-885 | an index is recorded exactly when it is the leftmost extreme |
| `Aroon.BackRows` | src/Indicator.cpp:862-866 | entry j of a window is row i + 1 - length + j |
| `Aroon.Aroon` | src/Indicator.cpp:814-940 | argument errors, NaN while too short, both modes |
| `Aroon.AroonInRange` | src/Indicator.cpp:854-892 | defined exactly from index period on, between 0 and 100 |
| `Aroon.AroonExactly` | src/Indicator.cpp:854-892 | period times the figure is 100 times the distance of the extreme row from the oldest row |
| `Aroon.CommentDiffersExactly` | src/Indicator.cpp:887-892 | the figure and the one its comment describes add up to 100 and agree exactly when the extreme lies midway |
| `Aroon.LastValueAgreesExactly` | src/Indicator.cpp:824-939 | the single value equals the last sequential one exactly unless warm-up <= period < number of candles |
| `Aroon.ComputeAroonOsc` | src/Indicator.cpp:942-993 | the oscillator of every complete window, NaN before, and NaN throughout for a period that is not positive |
| `Aroon.OscExactly` | src/Indicator.cpp:956-990 | period times the oscillator is 100 times the rows by which the highest comes after the lowest |
| `Aroon.OscillatorMatchesAroon` | src/Indicator.cpp:854-990 | p times the p-bar oscillator is p-1 times up minus down of period p-1, and both are defined at the same indices |
| `Candles.GenerateFromOneMinutes` | src/Candle.cpp:164-188 | fails exactly on a wrong count when forming candles are refused; time and open of the first row, close of the last, high and low attained and bounding all, volume conserved, well-formedness kept |
| `Candles.GenerateFromGenerated` | src/Candle.cpp:164-188 | generating from generated candles of any partition is generating from all their rows |
| `Candles.GenerateFromPrices` | src/Candle.cpp:98-188 | on generated price candles it opens one below the first price, closes at the last and spans all prices and that opening |
| `Candles.AggregateConcat` | src/Candle.cpp:180-187 | aggregating two runs together is aggregating their aggregates |
| `Candles.AggregateGroups` | src/Candle.cpp:180-187 | aggregating the aggregates of any partition equals aggregating the whole run |
| `Candles.GenerateFromClosePrices` | src/Candle.cpp:96-136 | every candle moves from the previous price to its own, a minute apart |
| `Candles.PriceCandlesChain` | src/Candle.cpp:114-133 | generated candles are well formed and each opens at the previous close |
| `Candles.AggregateOfPrices` | src/Candle.cpp:98-188 | their aggregate opens one below the first price, closes at the last and spans all prices and that opening |
| `CandleStore.CandlesState.constructor` | src/Candle.cpp:299-300 | the empty one-minute store that init means to make |
| `CandleStore.CandleStorage.AssignAll` | src/Candle.cpp:290-322 | the loop of init gets through exactly when every key is in the map already, and adds none |
| `CandleStore.CandleStorage.Init` | src/Candle.cpp:285-336 | init clears the map and fails exactly when there is a route |
| `CandleStore.CandlesState.AddCandle` | src/Candle.cpp:360-468 | rows and error after the call are those of Added, through every reallocation |
| `CandleStore.AcceptedExactly` | src/Candle.cpp:367-397 | which candles are accepted, by timestamp, mode and clock |
| `CandleStore.IgnoredExactly` | src/Candle.cpp:367-397 | what is not accepted changes nothing |
| `CandleStore.CandlesState.OverwriteLate` | src/Candle.cpp:453-468 | the late branch overwrites the row its search finds, or reports the index error |
| `CandleStore.LateCandleExactly` | src/Candle.cpp:453-468 | a late candle replaces exactly the row of its timestamp, except row 1 of more than 20; otherwise rows are unchanged, with an index error exactly up to 18 rows |
| `CandleStore.InsertionChangesOneRow` | src/Candle.cpp:418-468 | an insertion changes nothing, appends a newer candle, or replaces one row of the same timestamp |
| `CandleStore.InsertionKeepsOrder` | src/Candle.cpp:418-468 | timestamps stay strictly increasing and a failing insertion changes nothing |
| `CandleStore.RunsKeepOrder` | src/Candle.cpp:418-468 | so they do over every run of insertions |
| `CandleStore.LastRowIsNewest` | src/Candle.cpp:418-468 | after every run the last row is the newest accepted candle in its latest version |
| `CandleStore.NewestDominates` | src/Candle.cpp:418-468 | that candle is at least as late as every accepted candle of the run |
| `CandleStore.MixedRunsKeepOrder` | src/Candle.cpp:418-814 | over every run that mixes candles, trades and strictly ordered batches, in any modes, timestamps stay strictly increasing |
| `CandleStore.CandlesState.AddCandleFromTrade` | src/Candle.cpp:484-528 | rows and error after a trade are those of TradeAdded: an error outside live modes, nothing before the pair is initiated |
| `CandleStore.TradeModesExactly` | src/Candle.cpp:489-502 | refused outside live modes, ignored before the pair is initiated, an error without any candle |
| `CandleStore.NextTimestampExactly` | src/Candle.cpp:190-200 | the next candle starts 60000 times the minutes later |
| `CandleStore.FoldFromEmpty` | src/Candle.cpp:508-911 | folding trades into the empty candle: open, close, high, low and volume of the result |
| `CandleStore.TradesFoldIntoLastRow` | src/Candle.cpp:508-528 | while no trade comes after the next start, trades change the last row only and fold into it |
| `CandleStore.TradeOpensNextCandle` | src/Candle.cpp:514-527 | the first trade after that appends the next candle, flat at the previous close, with the trade folded in |
| `CandleStore.TradeInItsMinuteExactly` | src/Candle.cpp:508-528 | a trade goes into the candle of its own minute exactly when it falls into the stored minute or strictly inside the next; at the next start and after a gap it goes into an older one, before the stored minute it is lost |
| `CandleStore.CandlesState.AddMultiple` | src/Candle.cpp:782-814 | rows and error after a batch are those of BatchAdded: an error except in backtesting and optimizing |
| `CandleStore.BatchModesExactly` | src/Candle.cpp:782-793 | refused outside backtesting and optimizing; an empty store takes any batch |
| `CandleStore.OverlapAcceptedExactly` | src/Candle.cpp:798-805 | an overlapping batch is accepted exactly when its length less the minutes by which it ends later, cut to an integer, addresses as many rows |
| `CandleStore.TruncatedExactly` | src/Candle.cpp:801-802 | the conversion cuts the fraction off |
| `CandleStore.BatchExactly` | src/Candle.cpp:788-814 | a gapless batch is appended exactly when newer, replaces the last rows exactly when it fits and ends at the stored end, and is rejected unchanged otherwise |
| `CandleStore.BatchOutcomes` | src/Candle.cpp:797-806 | whatever its spacing, a batch is rejected unchanged, follows older rows, or takes the place of as many last rows |
| `CandleStore.BatchKeepsOrder` | src/Candle.cpp:788-814 | on ordered rows an accepted batch leaves ordered rows exactly when it is ordered itself |
| `CandleStore.GaplessBatchKeepsOrder` | src/Candle.cpp:788-814 | so a gapless batch on ordered rows always leaves ordered rows |
| `CandleStore.LongTimeframeStuckExactly` | src/Candle.cpp:317-320 | the store init means to make for a longer timeframe would get stuck on its second candle exactly when its minutes exceed the bucket size |
| `CandleStore.ReservedRowsExactly` | src/Candle.cpp:317-318 | room for every whole candle in the bucket and for the forming one |

## Left out

- CandleStore.CandlesState.constructor: takes bucket sizes of two and more only; smaller ones break on the second candle, as TwoAppendsGetStuckExactly states of the buffer.
- DynamicArrays.DynamicArray.constructor: takes positive drop thresholds only; with a threshold of 0 construction succeeds and the first append divides by zero.
- DynamicArrays.DynamicArray.Append: after a refused append the array is left with an index past its buffer, as in the source; what later calls do to such an array is not modelled.
- DynamicArrays.DynamicArray.ShrinkToFit: the new spare rows are arbitrary numbers of the right width; trap values of the element type are not modelled.
- DynamicArrays.DynamicArray.At: row and slice views are modelled as values for reading and as SetRow and SetRows for writing; a view kept across a reallocation is not.
- DepthWalk.GetBestTurnOver: books come parsed to pairs of real numbers; JSON, text conversion and NaN prices are not modelled.
- Arbitrage.ArbitrageBot.TurnOverWithRetry: what each request brings is an input; pauses, and documents that a WebSocket delivers between two look-ups, are not modelled.
- Arbitrage.ArbitrageBot.CalculateArbitrageProfit: likewise, no document arrives between its look-ups.
- Alma.Alma: the exponential weights are an input, any positive numbers.
- Candles.GenerateFromClosePrices: the generator's clock and random volumes are inputs.
- CandleStore.CandlesState.AddCandle: positions, database saves, order simulation and higher timeframes are not modelled; one series stands for the storage map.
- CandleStore.CandlesState.AddCandleFromTrade: covers the one-minute timeframe; position updates and the loop over routes with other timeframes are not modelled.
- AccumulationDistribution.CalculateEma: takes at least one value, since the source reads the first one unchecked, and no period of -1, for which its factor is infinite.
- DirectionalIndex.WilderSmooth: a period of 0, for which the source divides by zero, is not modelled.
- Floating-point rounding and overflow of `int` indices: arithmetic is exact.
- Trading after the gate, wallets, network clients, configuration, logging, caches, database and authentication: I/O and plumbing.
- `getCandles`, `getCurrentCandle` above one minute and `generateHigherTimeframes`: they mix up the counts of short and long candles.
- `find`, SMMA, Alligator and elementwise helpers: they would add only easy members.
