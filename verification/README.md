# Verified model of the Navier-Stocks trading core

Navier-Stocks promotes breakout intents to execution messages, opens positions from
them, and closes those positions again when a price crosses the stop or the target or
when the 15:15 square-off runs. This project models that core in Dafny and proves what
its steps keep over every run.

The modules follow the program's packages.

- `Models`, `MarketTime`, `PositionTable`, `Risk`, `References`: messages and rows, the
  market-time guards, the positions table, the chain from capital to quantity, stop, target
  and realised profit, and the execution references.
- `ExitMonitor`, `PaperTrader`, `Exposure`, `SquareOff`: the four stateful agents as
  classes, each method tied to a function of the old state.
- `Lifecycle`, `LifecycleTheorems`, `LifecycleCloses`, `LifecycleLog`, `LifecycleSweep`,
  `LifecycleOrigins`, `StaleRefresh`: the same agents as one interleaved step protocol. A step is one remote call or one locked section; any call can fail, or
  take effect and be reported as failed; any message can be delivered any number of
  times, at any time. `Refresh` is split into its read and its swap, `close` into
  publish, update and drop, the square-off pass into one publish and one update a row.
- `ConcurrentRegister`: concurrent `Register` calls, one atomic operation at a time.
- `TickStore`, `Candles`, `Vwap`, `Stats`, `Bollinger`, `Breakout`: the ring buffer,
  the candle aggregation, the indicators and the breakout rule.
- `StableSort`, `Report`, `Replay`, `Dedup`: the performance summary, archive replay and
  the news scraper's deduplication.
- `Counting`, `Reals`: counting, sums over maps, and a few facts about real arithmetic.

Prices are `real`, and a conversion to an integer is written out where the code makes
one. The square root is a parameter: a nonnegative `sd` with `sd * sd` equal to the
variance. The fate of each remote call, the clock readings and the price cache are
parameters too. A digest (`articleHash`) is any function of its key, so collisions are
allowed.

## Where the code and its own words differ

The model follows the code. These points are stated as lemmas where a row below says so.

- `src/analysts/trader/exitmonitor.go:193` says that the in-flight mark is kept after a
  failed `MarkClosed`; `dropFromCache` (line 222) deletes it.
- A position can get two successfully published closing orders: a `Refresh` that read
  the table before a close swaps its stale listing in afterwards. The model shows the run,
  and says of every state of every run exactly when another order can still follow.
- A position whose log insert failed never gets its opening log entry: the duplicate
  check ends the retry first. The model shows a run, and the exact condition.
- `EntryGate` looks up a sector's counter before it compares, so a sector without a
  counter is admitted whatever the ceiling.
- With the default ceilings the directional-bias gate can never reject what the entry
  gate admitted.
- `posFromExec` defaults a missing stop to 95% of the price for either side, so a SHORT
  order without a stop is stopped out at its entry price.
- `IsClosingCutoff` is false on weekends while the square-off trigger has no weekday
  clause, so both liquidators are enabled at once there.
- `src/analysts/riskmanager/squareoff.go:84-86` announces a fallback to the entry price
  for a stale quote, but the code falls back only when there is no positive price.
- `Candles` describes its bucket as a floor; the code divides with truncation.
- `VolumeBreakout` describes a baseline of all earlier volumes, and no breakout for a
  history shorter than the window; the code uses at most the last `window` volumes and
  tests a short history too.
- A replay at maximum speed never looks at the context, so it cannot be cancelled.

## Model

| member | source | states |
|---|---|---|
| `MarketTime.LiquidatorsOverlapOnlyOnWeekends` | src/pkg/utils/time.go:31-59 | Exit-monitor closes and the square-off are enabled at one instant exactly on weekends from 15:15; never on a weekday |
| `MarketTime.GuardsByTheClock` | src/pkg/utils/time.go:31-59 | Hour by hour and minute by minute: the buffer is the open interval from 9:15 to 9:30, the cutoff starts with 15:00, both on workdays, and the square-off with 15:15 on any day |
| `PositionTable.MarkedEvolves` | src/pkg/database/positions.go:100-123 | The conditional update never reopens or alters a CLOSED row, never changes entry columns, and keeps keys and references unique |
| `PositionTable.PnlIsTheMove` | src/pkg/database/positions.go:105-107 | The profit is the price moved the position's way times the quantity, at every exit price |
| `PositionTable.ListingIsDetermined` | src/pkg/database/positions.go:56-61 | A listing holds each open row once, newest first, and two listings of one table are the same sequence |
| `PositionTable.PositionStore.constructor` | src/pkg/database/positions.go:18-20 | A new store is empty and valid |
| `PositionTable.PositionStore.Insert` | src/pkg/database/positions.go:30-51 | Reports success exactly when the call worked and no row had the reference; then exactly one row is added under a key not used before; a lost acknowledgement leaves the row behind |
| `PositionTable.PositionStore.ListOpen` | src/pkg/database/positions.go:56-92 | Every open row once, descending by key, and nothing else |
| `PositionTable.PositionStore.MarkClosed` | src/pkg/database/positions.go:100-123 | Success exactly when the call worked and the row was OPEN; that one row gets the exit price, reason and time given, and (exit - entry) or (entry - exit) times the quantity as its profit; all others are left |
| `Risk.SizingIsTight` | src/analysts/riskmanager/allocator.go:37-46 | The quantity fits the budget at the stop and one more share would not |
| `Risk.PromotedIsBracketed` | src/analysts/riskmanager/executor.go:60-98 | A promoted intent becomes a row of its ticker, side, price and sector with the same stop and target, five percent off the entry and bracketing it 1:2, within two percent of capital; promotion is refused exactly when one share's risk exceeds the budget |
| `References.DecimalReadsBack` | src/analysts/riskmanager/executor.go:78 | A printed instant is digits alone and reads back as the instant |
| `References.ReferencesAgreeExactlyWhen` | src/analysts/riskmanager/executor.go:78 | Two promoted executions share a reference exactly when ticker and instant agree |
| `Risk.BoundariesAreProfitBounds` | src/analysts/trader/exitmonitor.go:140-158 | For a bracketed row a stop-loss exit is one that loses at least quantity times unit risk (exactly that at the stop) and a take-profit exit one that gains at least twice that; the entry price triggers nothing |
| `Risk.RowCarriesOrder` | src/analysts/trader/papertrader.go:85-109 | A row carries its order field by field; an empty sector and zero boundaries are filled in |
| `Risk.EntryPriceFires` | src/analysts/trader/papertrader.go:85-109 | Exactly when a row opened straight from an order is closed by its own entry price, defaults included |
| `Risk.ShortDefaultStopFiresAtEntry` | src/analysts/trader/papertrader.go:88-96 | A SHORT order without a stop is stopped out at its entry price |
| `ExitMonitor.GroupedIsByTicker` | src/analysts/trader/exitmonitor.go:74-77 | The cache built by Refresh holds under each ticker exactly the listed rows of that ticker, in order |
| `ExitMonitor.ScanIsExact` | src/analysts/trader/exitmonitor.go:118-127 | One price starts closes of listed, unmarked, crossed positions only, no id twice, marks exactly those, and passes no crossed position over |
| `ExitMonitor.ReleasedFiresAgain` | src/analysts/trader/exitmonitor.go:185-189 | After a failed publish the next crossing price targets the position again |
| `ExitMonitor.MarkedDoesNotFire` | src/analysts/trader/exitmonitor.go:119-121 | While a position is marked no price starts a second close of it |
| `ExitMonitor.CompactInPlace` | src/analysts/trader/exitmonitor.go:215-221 | Filtering within the backing array gives the pure filter; the tail of the array is untouched |
| `ExitMonitor.ExitMonitor.constructor` | src/analysts/trader/exitmonitor.go:48-55 | Empty cache, no marks |
| `ExitMonitor.ExitMonitor.Refresh` | src/analysts/trader/exitmonitor.go:68-83 | Replaces the cache by the grouping of the listing and leaves the marks alone |
| `ExitMonitor.ExitMonitor.Evaluate` | src/analysts/trader/exitmonitor.go:106-128 | Outside the guarded windows fires exactly what the scan says; inside them changes nothing |
| `ExitMonitor.ExitMonitor.ReleaseMark` | src/analysts/trader/exitmonitor.go:205-209 | Removes one mark and nothing else |
| `ExitMonitor.ExitMonitor.DropFromCache` | src/analysts/trader/exitmonitor.go:213-224 | Removes the position from its ticker's list and its mark |
| `ExitMonitor.ExitMonitor.Close` | src/analysts/trader/exitmonitor.go:163-202 | Publishes an order of the other side for the full quantity, with the position's ticker, sector and key, at the price that crossed and for its reason; then marks the row closed and drops it; a failed publish only releases the mark |
| `PaperTrader.PromotedIsClosingExactlyWhen` | src/analysts/trader/papertrader.go:115-123 | A promoted intent is taken for a close exactly when its reason is an exit reason; a scout intent never is |
| `PaperTrader.PaperTrader.constructor` | src/analysts/trader/papertrader.go:25-27 | Binds the store; nothing logged |
| `PaperTrader.PaperTrader.Execute` | src/analysts/trader/papertrader.go:35-78 | A close is only logged; a reference already on a row adds neither row nor log entry; otherwise success adds one row and one entry that names it, and a failure leaves nothing, the row alone, or both, as the three calls went |
| `PaperTrader.PaperTrader.HandleExecution` | src/analysts/trader/agent.go:168-200 | Invalid payloads are acknowledged and dropped; a close is acknowledged exactly when it was logged, a first delivery exactly when row and entry were written; an acknowledged opening order has its row; redelivery changes nothing |
| `Exposure.RegisterTracks` | src/analysts/riskmanager/exposure.go:74-83 | Registering keeps the counters in step with the book of open (side, sector) holdings |
| `Exposure.ReleaseTracks` | src/analysts/riskmanager/exposure.go:88-107 | Releasing a held position removes exactly that one from what the counters track |
| `Exposure.RecountTracks` | src/analysts/riskmanager/exposure.go:140-163 | A recount tracks the listed portfolio |
| `Exposure.EntryGateAdmitsExactlyWhen` | src/analysts/riskmanager/exposure.go:62-71 | The entry gate admits exactly when the book has room and holds nothing of the sector or less than its ceiling |
| `Exposure.BiasGateComparesSides` | src/analysts/riskmanager/bias.go:29-46 | The bias gate admits exactly when, with the new entry, one side is empty or the larger is at most the ratio times the smaller |
| `Exposure.TrackedCountersAgree` | src/analysts/riskmanager/exposure.go:74-107 | Total equals longs plus shorts and equals the sum of the sector counters |
| `Exposure.GatesBoundEveryRun` | src/analysts/riskmanager/agent.go:274-290 | Over every run of gated entries, matched releases and in-limit refreshes both ceilings hold and all counters agree |
| `Exposure.SectorCeilingIsKeptExactlyWhen` | src/analysts/riskmanager/exposure.go:62-71 | The sector ceiling is kept over all runs exactly when it is at least one, or zero with nothing admitted at all |
| `Exposure.BiasGateIsRedundantExactlyWhen` | src/analysts/riskmanager/bias.go:29-46 | The bias gate never decides an entry exactly when the total ceiling is at most one more than the ratio ceiling, or at most one |
| `Exposure.DefaultBiasGateIsRedundant` | src/analysts/riskmanager/exposure.go:62-71 | With the default ceilings the bias gate rejects nothing the entry gate admits |
| `Exposure.ReleaseKeepsCountersNonnegative` | src/analysts/riskmanager/exposure.go:88-107 | Even an unmatched release never drives a counter below zero |
| `Exposure.Exposure.constructor` | src/analysts/riskmanager/exposure.go:48-57 | All counters zero |
| `Exposure.Exposure.Register` | src/analysts/riskmanager/exposure.go:74-83 | The three counters after one call, creating the sector's counter when absent |
| `Exposure.Exposure.Release` | src/analysts/riskmanager/exposure.go:88-107 | Counters floored at zero, an emptied sector's counter deleted |
| `Exposure.Exposure.RefreshFromDB` | src/analysts/riskmanager/exposure.go:140-163 | Equals registering the listed positions from scratch |
| `ConcurrentRegister.AdvanceCounts` | src/analysts/riskmanager/exposure.go:74-83 | One atomic operation of one call keeps every counter equal to its start plus the calls past that operation |
| `ConcurrentRegister.EveryInterleavingCountsCalls` | src/analysts/riskmanager/exposure.go:74-83 | The same at every moment of every interleaving of any number of calls |
| `ConcurrentRegister.QuiescenceIsSequential` | src/analysts/riskmanager/exposure.go:74-83 | Once all calls have returned, the counters are those of the calls made one after the other |
| `ConcurrentRegister.QuiescentTotals` | src/analysts/riskmanager/exposure.go:74-83 | Then total, longs plus shorts and the sector sum all equal the number of calls |
| `SquareOff.AnnouncementHoldsExactlyWhen` | src/analysts/riskmanager/squareoff.go:83-89 | The announced fallback to the entry price is what is used exactly when the quote is fresh, missing, or equal to the entry price |
| `SquareOff.PassIsExact` | src/analysts/riskmanager/squareoff.go:70-107 | A pass releases exposure for exactly the rows whose publish and update both succeeded, closes exactly the rows whose update took effect, touches no other row, and reports whether none failed |
| `SquareOff.PassSendsOrders` | src/analysts/riskmanager/squareoff.go:81-94 | A pass adds to the stream exactly one order for each listed row whose publish was not lost, in list order, each of the other side, the full quantity, the row's ticker, sector and key, at the price read for it |
| `SquareOff.ReachingIsExact` | src/analysts/riskmanager/squareoff.go:90-94 | Those rows are exactly the ones whose publish took effect, in list order |
| `SquareOff.ClosedRowsWereOrdered` | src/analysts/riskmanager/squareoff.go:81-106 | A listed row is closed exactly when its publish worked and its update took effect; it is closed at the price read, for square_off, with the move as its profit, and an order at that price is among those added |
| `SquareOff.SquareOffOrderCloses` | src/analysts/riskmanager/squareoff.go:117-131 | The order's fields, one by one |
| `SquareOff.OnlyThePrefixMarksSquareOff` | src/analysts/trader/papertrader.go:115-123 | A square-off order is recognised as a close by the prefix of its reference alone |
| `SquareOff.DoneOnlyAfterCleanPass` | src/analysts/riskmanager/squareoff.go:32-66 | The day is marked done exactly by a due tick that listed the table and closed every listed row; then no row is OPEN |
| `SquareOff.DoneDayIsFinal` | src/analysts/riskmanager/squareoff.go:52-54 | No later call of a done day does anything |
| `SquareOff.QuietTick` | src/analysts/riskmanager/squareoff.go:44-59 | Before 15:15, on a day already done, or after a failed listing, a call changes nothing |
| `SquareOff.DueTick` | src/analysts/riskmanager/squareoff.go:44-59 | Any other call sends the orders of the listing and closes exactly the rows whose publish and update took effect |
| `SquareOff.SquareOffRoutine.constructor` | src/analysts/riskmanager/agent.go:86-93 | A new routine has sent nothing and has no day done |
| `SquareOff.SquareOffRoutine.Liquidate` | src/analysts/riskmanager/squareoff.go:70-107 | The loop computes the pass over the listing and sends its orders, one a row that was reached, at the price read; a failed listing changes nothing |
| `SquareOff.SquareOffRoutine.SquareOff` | src/analysts/riskmanager/squareoff.go:32-66 | One call is one step of the tick function, early returns included |
| `Lifecycle.StepKeepsInv` | src/analysts/trader/exitmonitor.go:68-224 | Every action of every agent, failing or not, keeps the protocol's invariant |
| `Lifecycle.ReachableInv` | src/analysts/trader/exitmonitor.go:68-224 | The invariant holds after every run |
| `Lifecycle.InsertKeeps` | src/analysts/trader/papertrader.go:52-77 | An insert racing with redelivered copies keeps references unique and log entries single |
| `Lifecycle.TickKeeps` | src/analysts/trader/exitmonitor.go:106-128 | Firing keeps one owner a mark and one publishable close a generation |
| `Lifecycle.DropKeepsGenerations` | src/analysts/trader/exitmonitor.go:213-224 | Dropping a closed position keeps it out of the cache for the rest of the generation |
| `Lifecycle.SwapKeeps` | src/analysts/trader/exitmonitor.go:79-83 | Swapping in a listing read at any earlier moment keeps the invariant, in a new generation |
| `LifecycleTheorems.MarksHaveOneOwner` | src/analysts/trader/exitmonitor.go:114-128 | In every interleaving a mark is set exactly while exactly one close owns the position |
| `LifecycleTheorems.OnePublishedClosePerGeneration` | src/analysts/trader/exitmonitor.go:163-224 | Of the closes of one position started in one cache generation at most one is published successfully |
| `LifecycleCloses.AnotherCloseExactlyWhen` | src/analysts/trader/exitmonitor.go:68-224 | From any state of any run, some continuation publishes another exit close of a position exactly when its row is OPEN, a listing still to be swapped in holds it, a close of it is about to publish, or it is cached with no published close about to drop it |
| `LifecycleCloses.RetiredForGood` | src/analysts/trader/exitmonitor.go:68-224 | Once none of these holds none ever will, and no further close of it is published |
| `LifecycleTheorems.MomentsGrow` | src/pkg/database/positions.go:100-123 | Between any two moments of a run rows only evolve and the stream only gets longer |
| `LifecycleTheorems.RowsCloseOnceAndForGood` | src/pkg/database/positions.go:100-123 | A row closes at most once, its exit columns never change again, its profit is the price moved its way times the quantity, and a valid order of the other side for the full quantity, with its ticker and key and at its exit price, was on the stream before |
| `LifecycleOrigins.ExitPricesWereQuoted` | src/analysts/trader/exitmonitor.go:106-132 | In every run a stop or target exit is at the price of a tick of the row's ticker that came while exits were enabled, and a square-off exit at the price a due pass read |
| `LifecycleOrigins.PromotionOpensExactlyWhen` | src/analysts/trader/papertrader.go:48-63 | In every run a promoted opening order opens exactly when no row came from a promotion of the same ticker and instant |
| `LifecycleOrigins.FreshPromotionBecomesARow` | src/analysts/riskmanager/executor.go:37-58 | From every state of every run an intent of a new ticker and instant, promoted now, can become a row that carries it, with its log entry |
| `LifecycleTheorems.ExitsHonourTheRiskRule` | src/analysts/riskmanager/allocator.go:37-46 | Every row of every run: stake within two percent of capital and tight, stop-loss exits lose at least the stake, take-profit exits gain at least twice it |
| `LifecycleTheorems.ExecutionIsIdempotent` | src/pkg/database/migrations/001_initial_schema.up.sql:14 | Under any redelivery and any failure: one row a reference, each from an opening message, and at most one opening log entry a row |
| `LifecycleTheorems.MissingLogEntryIsNeverRepaired` | src/analysts/trader/papertrader.go:47-77 | A row without its log entry, and without a handler about to write it, stays without it, whatever is delivered later |
| `LifecycleLog.LogEntryArrivesExactlyWhen` | src/analysts/trader/papertrader.go:48-70 | From any state of any run, a row has or can still get its opening log entry exactly when it is there or the handler that inserted the row is about to write it |
| `LifecycleLog.RowWithoutLogEntry` | src/analysts/trader/papertrader.go:61-70 | A run that opens a position and loses its log entry for good |
| `LifecycleSweep.DayIsDoneExactlyAfterCleanPass` | src/analysts/riskmanager/squareoff.go:56-65 | In every run the day is marked done exactly by the end of a pass none of whose publishes and updates failed, whatever ran between its steps |
| `LifecycleSweep.ADayIsDone` | src/analysts/riskmanager/squareoff.go:32-66 | A run in which a pass closes a row and its end marks the day done |
| `LifecycleSweep.CleanSweepClosedItsListing` | src/analysts/riskmanager/squareoff.go:60-65 | That pass listed the table, every row the table then had is CLOSED when the day is done, and a row still OPEN was inserted after the listing was read |
| `LifecycleTheorems.SweptDayStaysDone` | src/analysts/riskmanager/squareoff.go:52-54 | From then on no pass starts before another day, whatever else runs |
| `StaleRefresh.OnePositionTwoClosingOrders` | src/analysts/trader/exitmonitor.go:68-83 | A run in which one position gets two published closing orders; its row is CLOSED before the price that starts the second close arrives |
| `Stats.SumOf` | src/pkg/math/math.go:10-16 | The loop computes the sum |
| `Stats.VarianceOf` | src/pkg/math/math.go:29-41 | The loop computes the population variance about the mean |
| `Stats.SMA` | src/pkg/math/math.go:53-70 | Each entry of the sliding sum is the mean of its own window |
| `Stats.SquareOfDeviation` | src/pkg/math/math.go:29-41 | Cauchy-Schwarz: the square of the summed deviations is at most their number times the spread |
| `Stats.NewestIsWithinSamuelson` | src/pkg/math/math.go:29-47 | The newest value lies within sqrt(n - 1) standard deviations of the mean |
| `Bollinger.BandsInOrder` | src/analysts/quantitative/indicators/bollinger.go:42-46 | Lower, middle and upper are in order for a nonnegative multiplier |
| `Bollinger.Chebyshev` | src/analysts/quantitative/indicators/bollinger.go:33-47 | The number of window prices strictly outside the bands, times k squared, is at most the window's length |
| `Bollinger.NewestInsideWideBands` | src/analysts/quantitative/indicators/bollinger.go:33-47 | Once k squared reaches n - 1 the newest price cannot lie outside its own bands |
| `Bollinger.BollingerBands` | src/analysts/quantitative/indicators/bollinger.go:33-47 | Refused exactly for a period below two or too few prices; otherwise the bands of the last window |
| `Bollinger.BollingerBandsSeries` | src/analysts/quantitative/indicators/bollinger.go:54-71 | One entry a window, its middle the mean that the sliding average computes |
| `TickStore.RingAppend` | src/analysts/quantitative/tickstore.go:60-69 | One write with wrap-around appends the newest and evicts the oldest |
| `TickStore.RingIndex` | src/analysts/quantitative/tickstore.go:190-195 | The slot (write + i) mod size is the i-th oldest |
| `TickStore.ForgettingIsLazy` | src/analysts/quantitative/tickstore.go:60-69 | Forgetting at every operation equals keeping the last `size` of the whole history |
| `TickStore.Drive` | src/analysts/quantitative/tickstore.go:60-69 | Any sequence of appends and volume updates leaves the store with the end of that sequence's history |
| `TickStore.TickStore.constructor` | src/analysts/quantitative/tickstore.go:47-55 | Empty, with a capacity of at least one |
| `TickStore.TickStore.Append` | src/analysts/quantitative/tickstore.go:60-69 | The history grows by the tick and the ring still holds its end |
| `TickStore.TickStore.Count` | src/analysts/quantitative/tickstore.go:181-186 | The smaller of size and history length |
| `TickStore.TickStore.At` | src/analysts/quantitative/tickstore.go:190-195 | The i-th stored tick of the history, across the wrap |
| `TickStore.TickStore.Len` | src/analysts/quantitative/tickstore.go:73-79 | The smaller of size and history length |
| `TickStore.TickStore.RecentPrices` | src/analysts/quantitative/tickstore.go:88-103 | Exactly the prices of the last n stored ticks |
| `TickStore.TickStore.RecentVolumes` | src/analysts/quantitative/tickstore.go:107-122 | Exactly the volumes of the last n stored ticks |
| `TickStore.TickStore.UpdateLatestVolume` | src/analysts/quantitative/tickstore.go:201-213 | Overwrites the newest volume in the history and nothing else; no effect when empty |
| `Candles.RunsAreMaximal` | src/analysts/quantitative/tickstore.go:144-165 | The buckets partition the ticks, in order, into maximal runs of one bucket |
| `Candles.MaximalRunsAreUnique` | src/analysts/quantitative/tickstore.go:144-165 | There is only one such partition |
| `Candles.CandleSummarisesRun` | src/analysts/quantitative/tickstore.go:147-164 | Open and Close are the ends of the run, High and Low its attained extremes, Volume its sum |
| `Candles.VolumeIsConserved` | src/analysts/quantitative/tickstore.go:128-177 | The candle volumes add up to the tick volumes |
| `Candles.QuotientIsFloorExactlyWhen` | src/analysts/quantitative/tickstore.go:124-146 | The bucket is the documented floor exactly from the epoch on and on bucket boundaries |
| `Candles.OneCandlePerBucket` | src/analysts/quantitative/tickstore.go:128-177 | For nondecreasing timestamps bucket numbers strictly increase along the candles |
| `Candles.VolumeUpdateTouchesLastCandleOnly` | src/analysts/quantitative/tickstore.go:201-213 | A volume update changes only the last candle's volume, by new minus old |
| `Candles.LastCloseIsNewestPrice` | src/analysts/quantitative/tickstore.go:128-177 | The last candle closes at the newest price |
| `Candles.CandlesFromStore` | src/analysts/quantitative/tickstore.go:128-177 | The one-pass loop over the ring computes the candles of the maximal runs |
| `Vwap.VwapIsAnAverage` | src/analysts/quantitative/indicators/vwap.go:28-51 | For nonnegative volumes a valid VWAP lies between the least and the greatest price |
| `Vwap.VwapWeighsEachTrade` | src/analysts/quantitative/indicators/vwap.go:28-51 | VWAP times the summed volumes is the sum of price times volume; valid exactly for equal, nonzero lengths and a nonzero total |
| `Vwap.VWAP` | src/analysts/quantitative/indicators/vwap.go:28-51 | Price-volume sum over volume; invalid exactly for empty input, unequal lengths or zero total |
| `Vwap.VWAPFromCandles` | src/analysts/quantitative/indicators/vwap.go:60-72 | VWAP of the closes and volumes |
| `Vwap.CumulativeVWAP.constructor` | src/analysts/quantitative/indicators/vwap.go:106-108 | Nothing added |
| `Vwap.CumulativeVWAP.Add` | src/analysts/quantitative/indicators/vwap.go:113-121 | After any number of additions the running value is the batch VWAP of them all, zero where that is invalid |
| `Vwap.CumulativeVWAP.Value` | src/analysts/quantitative/indicators/vwap.go:125-130 | The same, without a change |
| `Vwap.BaselineIsWholeHistoryExactlyWhen` | src/analysts/quantitative/indicators/volume.go:40-60 | The baseline is every volume but the newest exactly when the history is no longer than the window |
| `Vwap.ShortHistoryCanBreakOut` | src/analysts/quantitative/indicators/volume.go:35-50 | A history shorter than the window, documented as no breakout, can be one |
| `Vwap.BaselineIsTheLastFew` | src/analysts/quantitative/indicators/volume.go:50-58 | The baseline holds the volumes just before the newest one, at most `window` of them |
| `Vwap.BreakoutComparesWithBaseline` | src/analysts/quantitative/indicators/volume.go:42-78 | A breakout exactly when the newest volume reaches the threshold times the baseline's mean; never for a zero mean or arguments out of range |
| `Vwap.VolumeBreakout` | src/analysts/quantitative/indicators/volume.go:42-78 | The newest volume against the mean of at most `window` before it, with the degenerate cases |
| `Breakout.Evaluate` | src/analysts/quantitative/breakout.go:110-174 | The rule over the store is the rule over the stored ticks, every guard included |
| `Breakout.IntentExactlyWhen` | src/analysts/quantitative/breakout.go:110-174 | LONG exactly when the newest price lies above the VWAP and the upper band of the last `period` prices, SHORT exactly when below both, each with a volume breakout; the intent carries the symbol, that price, the VWAP, the ratio and the scout's reason |
| `Breakout.VwapWithinPrices` | src/analysts/quantitative/breakout.go:115-122 | The VWAP it compares with lies within any bounds on the tick prices |
| `Breakout.WideBandsNeverSignal` | src/analysts/quantitative/breakout.go:110-174 | With k at least 0 and k squared at least period - 1 no history produces an intent |
| `Breakout.SpikeSignalsExactlyWhen` | src/analysts/quantitative/breakout.go:110-174 | The bound is sharp both ways: a usable configuration signals on a spike exactly when k squared is below period - 1, LONG at the top of the upward one, SHORT at the bottom of the downward one |
| `Breakout.DefaultConfigCanSignal` | src/analysts/quantitative/breakout.go:34-42 | The default configuration lies below the bound |
| `StableSort.SortIsStable` | src/pkg/database/report.go:41-44 | Sorted, a permutation, equal keys in their input order |
| `StableSort.StableOrderIsUnique` | src/pkg/database/report.go:41-44 | Those promises leave one result |
| `Report.PeakIsHighestEquity` | src/pkg/database/report.go:69-72 | The running peak is the highest equity so far, zero before the first trade included |
| `Report.DrawdownIsLargestFall` | src/pkg/database/report.go:69-75 | The single pass gives the largest fall of equity from any point to any later one |
| `Report.DrawdownAndLosses` | src/pkg/database/report.go:69-75 | Zero exactly when no trade lost; never above the sum of the losses |
| `Report.DrawdownIsZeroExactlyWithoutLosses` | src/pkg/database/report.go:34-88 | The same in the summary's own fields: MaxDrawdown, Losses and AvgLoss |
| `Report.BreakdownsConserve` | src/pkg/database/report.go:55-58 | ByTicker, ByDay and ByExitReason each add up to TotalPnL |
| `Report.AveragesConserve` | src/pkg/database/report.go:78-86 | AvgWin times Wins plus AvgLoss times Losses is TotalPnL |
| `Report.EntriesAreTheirRows` | src/pkg/database/report.go:54-58 | Each breakdown has an entry for exactly the tickers, close days and exit reasons of the closed rows, holding what those rows earned |
| `Report.CountsAndWinRate` | src/pkg/database/report.go:54-80 | ClosedTrades, Wins and Losses count closed rows, winners and losers, and WinRate is the winners' share of the last two |
| `Report.SummaryIgnoresOrder` | src/pkg/database/report.go:34-88 | All fields but MaxDrawdown are the same for every order of the input |
| `Report.SummaryIsDeterminedByTimes` | src/pkg/database/report.go:41-87 | With distinct close times the whole summary is |
| `Report.SummaryIsDeterminedUnlessTiesMix` | src/pkg/database/report.go:41-87 | So it is when no win and loss share a close time, however other rows tie |
| `Report.TiesChangeDrawdown` | src/pkg/database/report.go:41-44 | With a win and losses tied it is not: a win between two equal losses halves the drawdown |
| `Report.TallyUp` | src/pkg/database/report.go:46-76 | The one-pass loop computes all accumulators as their separate definitions |
| `Report.ComputeSummary` | src/pkg/database/report.go:34-88 | The summary of the rows sorted stably by close time, open rows skipped; its MaxDrawdown is the largest fall of the equity of the closed rows in that order |
| `Replay.LoadTicks` | src/pkg/replay/engine.go:41-67 | Exactly the well-formed lines, sorted by time, equal times in file order; the two error cases |
| `Replay.WellFormedKeepsEachLine` | src/pkg/replay/engine.go:51-59 | The k-th line, if well-formed, is at the place given by the number of well-formed lines before it, and nothing else is there |
| `Replay.Plan` | src/pkg/replay/engine.go:72-87 | One step a tick, carrying it, each delay from the gap to the tick before |
| `Replay.PacingIsKept` | src/pkg/replay/engine.go:72-87 | On every prefix of m steps the waits stay at or under the scaled elapsed time and short of it by less than m nanoseconds |
| `Replay.MaximumSpeedNeverWaits` | src/pkg/replay/engine.go:69-83 | No delay is negative; all are zero exactly for a non-positive speed or gaps below a nanosecond |
| `Replay.CancellationNeedsAWait` | src/pkg/replay/engine.go:99-110 | A context cancelled from the start stops a replay exactly when some step waits |
| `Replay.Engine.constructor` | src/pkg/replay/engine.go:95-97 | Nothing sent |
| `Replay.Engine.Publish` | src/pkg/replay/engine.go:27-29 | A publish leaves its message unless it was lost |
| `Replay.Engine.Run` | src/pkg/replay/engine.go:101-122 | Exactly the first `published` ticks are sent, in order, under any failure or cancellation, plus at most one whose acknowledgement was lost; and why it stopped; each message has its ticker's subject and its tick |
| `Dedup.Scraper.constructor` | src/analysts/sentiment/scraper.go:164-170 | Nothing seen |
| `Dedup.Scraper.FetchFresh` | src/analysts/sentiment/scraper.go:175-200 | Lets through what the map admits and prunes; a failed fetch changes nothing |
| `Dedup.Scraper.Prune` | src/analysts/sentiment/scraper.go:215-223 | Keeps exactly the entries younger than the ttl, in any order of visits |
| `Dedup.HashedByUrlElseTitle` | src/analysts/sentiment/scraper.go:204-211 | Short of a collision, two articles share a hash exactly when their URLs, or titles where there is none, agree |
| `Dedup.PrunedRunAgrees` | src/analysts/sentiment/scraper.go:175-223 | The pruned run returns call by call what the unpruned one does, and what it forgot has expired for good |
| `Dedup.PruningIsInvisibleExactlyWhen` | src/analysts/sentiment/scraper.go:213-223 | Pruning never shows, whatever the articles, exactly when no expired entry can become current again; a clock that never runs back is enough |
| `Dedup.ClockSetBackShows` | src/analysts/sentiment/scraper.go:213-223 | A clock set back makes pruning visible |
| `Dedup.ScraperEmitsReference` | src/analysts/sentiment/scraper.go:175-200 | With map, calls and pruning the scraper emits what the map-free reference says: an arrival is dropped exactly when its hash was emitted less than ttl before |
| `Dedup.EmissionsAreApart` | src/analysts/sentiment/scraper.go:175-200 | Two emissions of one hash are at least ttl apart over the whole run |

## Left out

- NATS, JetStream and PostgreSQL drivers: an append-only stream with redelivery and a table with unique references and a conditional update stand for them.
- JSON encoding and decoding of messages and rows, taken to be lossless; a tick that does not encode is a parameter of the replay run only.
- The Groww client, websocket reconnects, quote polling, LLM calls, RSS and HTML parsing, configuration, logging and printing.
- Both rate limiters.
- Sub-step interleavings of `Release` and `RefreshFromDB` with `Register`: the code keeps no counter sums there, so those two are single steps.
- Exposure counters inside the interleaved protocol: `Lifecycle` has no counters, they are treated in `Exposure` and `SquareOff`.
- A square-off without a broker link or without a store: the model always publishes.
- Failure to load the time zone, and time-zone data: an instant is a day, a weekday and a time of day.
- Sides other than LONG and SHORT.
- Floating-point rounding, NaN, and overflow of 64-bit integers and of float-to-integer conversions.
- Column widths and CHECK constraints of the schema, except that a reference is unique.
- `Validate` methods beyond the fields the promoted messages need; the sentiment gate; the universe tables; subject-name parsing.
- `WeightedAverage`, `VWAPFromCandlesTypical`, `BandWidth`, `PercentB` and `VWAPBand`: `WeightedAverage` has the shape of `VWAP`, the others are settled by reading one expression.
- The per-symbol map of tick stores and its capacity.
- Concurrent calls of `FetchFresh`: a run is a sequence of whole calls, with any clock readings.
- PositionTable.PositionStore.ListOpen: a failed query is a parameter of the square-off pass and of no effect in the protocol, and a row that does not scan is not modelled.
- Replay.Engine.Run: real time is not modelled; a wait either ends or is cancelled.
- Breakout.Evaluate: ticks appended between its reads of one store are not modelled.
