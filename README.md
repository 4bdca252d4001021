# Wallet simulator ledger, in Dafny

A model of the ledger engine of the wallet simulator: the `WalletSimulator`
class of `src/index.ts`, the helpers it uses from `src/utils/general.ts`,
and the day arithmetic of `src/utils/mock.ts`, with the properties they
promise proved about the model.

The wallet keeps cash (`balance`), a quantity, a price and a cost basis per
ticker, the log of trades, and one snapshot of its value per UTC day. A buy
pays price times quantity plus a fee percentage. A sell is credited the
proceeds less the fee and never leaves a negative holding. Two flags allow
overdrafts and oversells. Every change of price writes the snapshot of its
day. On top of the ledger sit the read-only queries:

- the value of a position and of the wallet;
- average cost, liquidation price and unrealized profit or loss;
- the asset breakdown ("donut");
- the profit of each sell, from a weighted average over up to five earlier
  buys of the same ticker;
- two trend series:
  - the wallet's stored snapshots over a window of days, with gaps filled
    forward;
  - a buy-and-hold benchmark that replays the same days in a second wallet.
    The benchmark splits the creation balance into N+1 equal slices and buys
    one slice of each owned ticker on the first day it is priced.

Layout, one module per file:

- `wrappers.dfy` (`Wrappers`): `Option` and `Result`.
- `models.dfy` (`Models`): trades, trade options, snapshots, order movements
  and the wallet's errors.
- `general.dfy` (`General`): JavaScript truthiness, `getSafeNull`,
  `getSafeOrThrow`, `tradeOptionToTrade`, the fee formulas and
  `onlyNotBought`.
- `dates.dfy` (`Dates`): `daysBefore`, `daysBetween`, and the UTC day key of
  `todayDateNoTime`.
- `ledger.dfy` (`Ledger`):
  - the valuation of a wallet's maps, as a sum in key order and as an
    order-free sum;
  - the effect of a trade on that value;
  - the donut breakdown;
  - the date sort.
- `timestream.dfy` (`Timestream`): `fillTimestreamGaps`, which splices days
  into the list in place, and `fillTimestreamGapsWithLastRecord`.
- `profits.dfy` (`Profits`): `calculateProfitsMap` with its nested backward
  loops, and the order movements of `plMadeByOrders`.
- `keyorder.dfy` (`KeyOrder`): the order in which `Object.keys` lists a
  plain object's keys (array indexes first, in ascending numeric order, then
  the other keys in the order they were added, as section 10.1.11.1 of
  ECMA-262 defines it), and the facts the wallet needs about it.
- `buyhold.dfy` (`BuyAndHold`): a value-level definition of the
  buy-and-hold benchmark after each day, and its properties.
- `wallet.dfy` (`Wallet`):
  - the `WalletSimulator` class, whose methods change its fields in place;
  - the per-asset callbacks of `src/utils/general.ts` that drive a second
    wallet;
  - the day-by-day replay of `getTrendBalanceSnapshotsBuyAndHold`, proved
    against `BuyAndHold`.

To verify, give every file to Dafny at once:
`dafny verify --resource-limit 2000000 --verification-time-limit 0 *.dfy`.
The time limit is lifted because some methods (Wallet.SimulateDay among
them) can take longer than the default 30 seconds on a slow machine; the
resource limit bounds each proof instead.

Money and quantities are `real`, so arithmetic is exact. Timestamps are
`int` milliseconds. The clock is an explicit `now` (or `clock`) parameter
wherever the source reads `Date.now()` or `new Date()`. A thrown error is an
error value: `Option<WalletError>` or `Result`.

## Model

| member | source | states |
|---|---|---|
| Dates.DaysBeforeZero | src/utils/mock.ts:33-34 | going back 0 days gives the same instant |
| Dates.DaysBeforeCompose | src/utils/mock.ts:33-34 | going back m days and then n days is going back m + n days |
| Dates.DaysBetweenIsRound | src/utils/mock.ts:36-37 | daysBetween is Math.round (halves up) of the millisecond difference over one day's milliseconds |
| Dates.DaysBetweenShift | src/utils/mock.ts:36-37 | moving either end by k whole days changes the count by exactly k |
| Dates.DaysBetweenDaysBefore | src/utils/mock.ts:33-37 | daysBetween(daysBefore(d, n), d) == n for every integer n |
| Dates.DaysBetweenSame | src/utils/mock.ts:36-37 | daysBetween(a, a) == 0 |
| Dates.DaysBetweenMonotone | src/utils/mock.ts:36-37 | daysBetween(a, b) does not decrease as b moves later |
| Dates.DayKeySameDay | src/utils/general.ts:53-57 | two timestamps get the same year-month-day key exactly when they fall on the same UTC day |
| Dates.CivilFromDaysInjective | src/utils/general.ts:53-57 | different day numbers have different UTC year, month and day |
| Dates.EpochKey | src/utils/general.ts:53-57 | the instant 0 falls on 1970-1-1; todayDateNoTime itself never keys 0, since getSafeNull replaces it by the clock (General.TimestampOr) |
| General.GetSafeNull | src/utils/general.ts:16-22 | the result is obj exactly when obj is truthy (0, NaN, "", false, null and undefined fall back) |
| General.GetSafeOrThrow | src/utils/general.ts:24-27 | it fails, with the given message, exactly on undefined or null, and otherwise returns its input unchanged (0 passes) |
| General.TimestampOr | src/utils/general.ts:30 | the timestamp getSafeNull keeps: the given one unless it is absent or 0, then the clock |
| General.TradeOptionToTrade | src/utils/general.ts:29-41 | fails with the unresolvable-price error exactly when the given price is falsy and no price is known; otherwise the price is the given one when non-zero else the known one, the timestamp the given one when non-zero else the clock, and every other field is copied |
| General.OnlyNotBought | src/utils/general.ts:97-103 | a subsequence of the known tickers keeping exactly those in the to-buy list, not in the held list and not the empty ticker (find's result is tested for truthiness), each as often as it occurs |
| Ledger.AmountOr0 | src/index.ts:91 | the amount getSafeNull(m[key], 0) gives: the stored amount, 0 when absent |
| Ledger.SumPositionsIsSumHeld | src/index.ts:149-155 | summing quantity times price over the tickers in Object.keys order gives the order-free sum over the holdings |
| Ledger.SumHeldRemove | src/index.ts:149-155 | any holding can be taken out of the order-free sum first, so the total depends on no key order |
| Ledger.PositionsAfterTrade | src/index.ts:395-397 | moving a holding by d at its current price moves the sum of the positions by price times d, a new ticker being listed last |
| Ledger.BuyAtMarketCostsFee | src/index.ts:386-402 | a buy at the ticker's current price lowers the wallet's total value by exactly the fee |
| Ledger.SellAtMarketCostsFee | src/index.ts:365-379 | a sell at the current price of no more than is held lowers the total value by exactly the fee |
| Ledger.RepricingMovesValue | src/index.ts:77-83 | repricing a listed ticker moves the total value by its quantity times the price change |
| Ledger.Percentage | src/index.ts:177 | the percentage is defined exactly when the total is non-zero, and then percentage times total is 100 times the value |
| Ledger.Donut | src/index.ts:170-182 | one entry per listed ticker, in order, worth quantity times price, then "$" worth the cash, each with its percentage of the total value |
| Ledger.DonutAddsUp | src/index.ts:170-182 | the donut's values add up to the total value, and its percentages to 100 when the total is non-zero |
| Ledger.SortByDate | src/index.ts:252-253 | sorting keeps exactly the same snapshots (same multiset) |
| Ledger.SortByDateAscending | src/index.ts:252-253 | with distinct dates the sort is strictly ascending by date |
| Ledger.AscendingUnique | src/index.ts:242-254 | two ascending lists of the same snapshots are equal, so the sorted range does not depend on key order |
| Profits.BuyWindow | src/index.ts:311-322 | the walk back collects at most five entries, all buys of the sell's ticker from before it |
| Profits.BuyWindowIsRecentBuys | src/index.ts:311-322 | the walk back collects the newest buys of the ticker that come after its previous sell, newest first, at most five |
| Profits.LastSellBefore | src/index.ts:318-320 | the previous sell of the ticker: no sell of it lies between that one and the current order |
| Profits.SellProfit | src/index.ts:324-337 | a sell's profit is quantity times (price minus the weighted average buy price) plus the fee, with an average of 0 when no buys are found; when the buys' quantities add up to 0 but their cost does not, it is Infinity for a non-zero quantity sold, negative exactly when cost times quantity sold is positive; it is NaN when the fee is absent, when both totals are 0, or when 0 is sold against a zero total quantity |
| Profits.SumBuyOrders | src/index.ts:327-333 | the loop's running totals are the total quantity and the total cost of the collected buys |
| Profits.CollectBuyOrders | src/index.ts:311-322 | the inner loop's result is the window of buys defined by BuyWindow |
| Profits.CalculateProfitsMap | src/index.ts:289-345 | the backward loop builds exactly the profits map of the orders |
| Profits.ProfitsFromKeys | src/index.ts:289-345 | the map has exactly one key per order key |
| Profits.ProfitsFromFirst | src/index.ts:341 | under a shared key the earliest order's profit wins, because the backward scan writes it last |
| Profits.ProfitsOfDistinctKeys | src/index.ts:341 | with distinct keys each order's entry is its own profit |
| Profits.ShownProfit | src/index.ts:267 | a profit is shown exactly when the entry under the key is truthy (so 0 and NaN show as undefined, an infinite profit is shown), and then it is that entry |
| Profits.FirstWithKey | src/index.ts:341 | the first order whose key (its id, "undefined" when it has none) is that of order i |
| Profits.MovementProfit | src/index.ts:262-287 | every movement shows getSafeNull of the profit of the first order with its key, since the backward scan writes that one last |
| Profits.MovementsShowFirst | src/index.ts:262-287 | the same, for every movement of a list built from the orders and their profits map |
| Profits.DistinctKeysProfit | src/index.ts:262-287 | with distinct keys a buy's movement shows no profit, and a sell's its own profit exactly when that is truthy |
| Profits.ExampleProfits | src/__test__/details/profit-calc.test.ts:6-39 | on the test's five orders the buys get no profit and the sells 301 and 251 |
| Timestream.Filler | src/utils/general.ts:68-79 | a gap of g > 1 days gets g - 1 new entries, otherwise none |
| Timestream.SpliceGap | src/utils/general.ts:72-79 | the inner loop splices exactly the filler of gap i after position i |
| Timestream.FillTimestreamGaps | src/utils/general.ts:60-83 | the in-place splicing loop produces exactly the filled list FillGaps |
| Timestream.FillGapsAtMostOneDay | src/utils/general.ts:60-83 | in the filled list consecutive entries are at most one day apart |
| Timestream.FillGapsKeeps | src/utils/general.ts:60-83 | every original entry is still there at its position, the first first and the last last |
| Timestream.NeighbourPositions | src/utils/general.ts:60-83 | each original entry's position is after its predecessor's plus that gap's filler, so the originals keep their order |
| Timestream.CopiesBetween | src/utils/general.ts:70-79 | the entries between two originals are the forward-filled copies of the earlier one |
| Timestream.FillTimestreamGapsWithLastRecord | src/utils/general.ts:85-89 | the result is the fill of the list plus the sentinel with its last entry dropped, and empty for an empty list |
| Timestream.FilledWithLastThenRecord | src/utils/general.ts:85-89 | putting the sentinel back gives the fill of list plus sentinel, so exactly the sentinel is dropped |
| Timestream.FilledWithLastShape | src/utils/general.ts:85-89 | with the sentinel after every date, the result keeps every original, lies before the sentinel, and has gaps of at most a day |
| BuyAndHold.SliceQuantity | src/utils/general.ts:113 | the quantity bought for a slice at a non-zero price costs exactly the slice |
| BuyAndHold.BuyHoldSummary | src/index.ts:198-240 | after any run of days the benchmark holds exactly the to-buy tickers (never "") priced on some day, each at one slice over its first price; its cash is the seed less one slice per holding; it knows a price for exactly the tickers seen, the last day's being current |
| BuyAndHold.BuyHoldStep | src/index.ts:215-233 | one more day keeps that summary |
| BuyAndHold.HeldAtMost | src/index.ts:209 | the benchmark never holds more tickers than there are to buy |
| BuyAndHold.SlicesAfford | src/index.ts:209 | with a non-negative seed, a slice is non-negative and any number of slices up to the ticker count costs at most the seed (the extra slice stays as cash) |
| BuyAndHold.BuyHoldFlat | src/index.ts:198-240 | while every held ticker still has the price it was bought at, the benchmark is worth exactly the seed |
| BuyAndHold.BuyHoldPointsAt | src/index.ts:232 | point i has day i's date and prices and the benchmark's value after day i |
| BuyAndHold.FirstPricesStep | src/index.ts:226 | the days go through exactly when the earlier days did and every ticker first bought on the new day has a non-zero price |
| BuyAndHold.BuyHoldDay | src/index.ts:215-233 | one iteration: the next state is one NextDay step, one point is appended, and with a non-negative seed the cash always covers the day's slices |
| Wallet.PriceIfDefined | src/index.ts:422-427 | a price is returned exactly when the stored price is truthy (non-zero), and it is the stored one |
| Wallet.StoredByDay | src/index.ts:429-437 | a snapshot is stored exactly when it sits under its own day's key |
| Wallet.OnRange | src/index.ts:242-254 | the range is ascending by date and holds exactly the stored snapshots dated from pastDate to today |
| Wallet.CollectOnRange | src/index.ts:244-251 | the filtering loop collects exactly the stored snapshots in the range, no two with the same date |
| Wallet.NowOr | src/index.ts:185 | the given date, or the clock when none is given |
| Wallet.TrendShape | src/index.ts:184-196 | the trend keeps every stored snapshot of the window, lies before now, has gaps of at most a day, and is empty exactly when the window is |
| Wallet.ObjectKeys | src/index.ts:217 | the key list holds every key of the map exactly once |
| Wallet.SliceCost | src/utils/general.ts:105-116 | a slice buy at a non-zero price with no fee costs exactly the slice, both before and after the fee |
| Wallet.UpdateAssetsOnWallet | src/utils/general.ts:105-116 | a ticker the day does not price fails, changing nothing; any failure changes nothing; a success logs and applies exactly the trade tradeOptionToTrade resolves from the slice order (cash, holdings, listing, price, cost basis, log and the trade day's snapshot, through WalletSimulator.Traded); for a non-zero price the buy fails exactly when funds are short, and otherwise that trade is the slice trade, paying one slice and adding slice/price of the ticker at the day's price; a wallet that neither holds nor prices the ticker lists it last |
| Wallet.BuyPricedSlice | src/utils/general.ts:105-116 | at a non-zero day price the order resolves to the slice trade; the buy fails, changing nothing, exactly when overdrafts are off and the cash is short of the slice; otherwise the wallet has traded exactly that trade and pays one slice |
| Wallet.BuyNewAsset | src/utils/general.ts:105-116 | for an asset the wallet neither holds nor prices, with overdrafts off: the buy goes through exactly when the day's price is non-zero and the cash covers the slice; the whole new state (cash, holdings, prices, listing, cost basis, log, day snapshots) is then SliceBought of the old one, and a failure changes none of it |
| Wallet.UpdatePricesOnWallet | src/utils/general.ts:118-123 | fails, changing nothing, exactly when the day does not price the ticker; otherwise sets the price, rewriting the clock day's snapshot only when the price changed, so the whole new state is PriceSet of the old one |
| Wallet.SliceRunFields | src/index.ts:226 | after a run of slice buys the cash has paid one slice per buy and each ticker bought is held at slice/price and priced at the day's price |
| Wallet.BuyStep | src/index.ts:226 | the next buy of the run goes through exactly when it is affordable, and the wallet is then one SliceBought further on its run; otherwise it is unchanged |
| Wallet.BuyRun | src/index.ts:226 | the forEach loop stops at the first buy that is not affordable; every buy before it was, and the wallet is SliceRun of the old one over exactly those |
| Wallet.BuyEach | src/index.ts:226 | buying the new tickers in turn goes through exactly when each is given a non-zero price and the cash left before each covers a slice; the buys before the first failure (all of them on success) are done and the whole state is SliceRun of the old one over them: one slice paid, held, priced, listed last, cost basis, logged trade and day snapshot per ticker |
| Wallet.PriceRunFields | src/index.ts:229 | setting prices in turn gives each ticker the day's price and leaves cash, holdings, listing, cost basis and log as they were |
| Wallet.PriceEach | src/index.ts:229 | the whole new state is PriceRun of the old one over the day's tickers: every one takes the day's price, a price change rewrites the clock day's snapshot, and cash, holdings, listing, cost basis and log stay |
| Wallet.AffordableRun | src/index.ts:226 | for a non-negative slice, the run of buys goes through exactly when every price is non-zero and the cash covers all the slices |
| Wallet.DayPlan | src/index.ts:215-233 | the tickers bought in a day are exactly those onlyNotBought picks, and buying them and then pricing the day's tickers is one NextDay step |
| Wallet.TradeDay | src/index.ts:226-229 | the two forEach calls go through exactly when every buy is affordable, and then the cash has paid a slice per new ticker, each is held at slice/price, and the prices are the day's for every ticker bought or priced |
| Wallet.SimulateDay | src/index.ts:215-233 | one day of the replay moves the second wallet exactly as NextDay does, and returns a point with the day's date and prices worth the wallet's new value; it fails exactly when a first price is 0 or the cash is short |
| Wallet.ReplayBuyAndHold | src/index.ts:206-233 | the replay's points are exactly the benchmark's points; with a non-negative seed it fails exactly when some ticker's first price is 0 |
| Wallet.AsOptionsRoundTrip | src/index.ts:354-358 | resolving a stored trade again keeps its fields, is the trade itself when price and timestamp are non-zero, and fails only for price 0 with no known price |
| Wallet.WalletSimulator.constructor | src/index.ts:33-47 | a wallet with the given cash and nothing else; the creation balance and the two flags take an override only when it is truthy |
| Wallet.WalletSimulator.GetPositionQuantity | src/index.ts:90-92 | the holding, 0 for a ticker never traded |
| Wallet.WalletSimulator.GetPrice | src/index.ts:124-126 | the stored price, possibly 0; an unknown ticker is an error |
| Wallet.WalletSimulator.GetPositionAverageCost | src/index.ts:136-144 | 0 when nothing is held; otherwise average cost times quantity is the cost basis |
| Wallet.WalletSimulator.GetEstimatedLiquidationPrice | src/index.ts:98-104 | the average cost, which is 0 when nothing is held |
| Wallet.WalletSimulator.GetEstimatedUnrealizedProfitLoss | src/index.ts:110-118 | 0 when nothing is held; otherwise quantity times price minus the cost basis, i.e. (price - average cost) times quantity |
| Wallet.WalletSimulator.GetPositionValue | src/index.ts:161-165 | quantity times price; an unknown price is an error |
| Wallet.WalletSimulator.ValueOver | src/index.ts:151-153 | the loop over a list of priced keys gives the cash plus quantity times price over that list |
| Wallet.WalletSimulator.GetTotalValue | src/index.ts:149-155 | the loop over the holdings in Object.keys order gives the cash plus quantity times price over every holding |
| Wallet.DonutOf | src/index.ts:171-181 | mapping a key list and pushing the cash gives exactly the Donut breakdown of that list |
| Wallet.WalletSimulator.GetDonutAssetInformation | src/index.ts:170-182 | exactly the Donut breakdown of the current wallet with the tickers in Object.keys order |
| Wallet.WalletSimulator.PlMadeByOrders | src/index.ts:262-287 | one movement per order (the given ones, else the log) with its fields and notional; each shows getSafeNull of the profit of the first order with its key (with distinct keys, see Profits.DistinctKeysProfit) |
| Wallet.WalletSimulator.GetAllOwnedAssets | src/index.ts:439-441 | every held ticker exactly once, array-index tickers first in ascending numeric order, and the other tickers in the order they were first traded |
| KeyOrder.OwnKeysPermutes | src/index.ts:151 | Object.keys lists every key once, whatever the order of addition |
| KeyOrder.OwnKeysIndexesFirst | src/index.ts:172 | Object.keys lists every array-index key before any other key, the array indexes in ascending numeric order |
| KeyOrder.OwnKeysOthersInOrder | src/index.ts:172 | Object.keys lists the keys that are not array indexes in the order they were added |
| KeyOrder.SumPositionsReordered | src/index.ts:149-155 | listing the holdings in another order keeps them distinct and priced and does not change the sum of the positions |
| KeyOrder.DistinctReordered | src/index.ts:440 | a reordering of a list without repeats has no repeats |
| Wallet.WalletSimulator.SortedDaySnapshotsOnRange | src/index.ts:242-254 | exactly the stored snapshots dated in the range, ascending by date |
| Wallet.WalletSimulator.GetTrendBalanceSnapshots | src/index.ts:184-196 | the snapshots from backDays ago to yesterday, gaps filled forward, closed by a sentinel dated now that is then dropped |
| Wallet.WalletSimulator.GetTrendBalanceSnapshotsBuyAndHold | src/index.ts:198-240 | the benchmark points of the same days, seeded with the creation balance and the owned tickers, filled the same way; with a non-negative seed it fails exactly when some ticker's first price is 0 |
| Wallet.WalletSimulator.UpdateTodayBalance | src/index.ts:429-437 | rewrites the snapshot of the given (else the clock's) day with the current value and prices; nothing else changes |
| Wallet.WalletSimulator.UpdatePrice | src/index.ts:77-83 | the same defined price changes nothing; any other price is stored and the day's snapshot rewritten |
| Wallet.WalletSimulator.UpdateCostBasis | src/index.ts:410-413 | the ticker's cost basis (0 when absent) grows by the given cost; nothing else changes |
| Wallet.WalletSimulator.Buy | src/index.ts:386-402 | fails, changing nothing, exactly when overdrafts are off and the cash is below cost plus fee; otherwise pays cost plus fee, adds the quantity, adds the fee-free cost to the cost basis, sets the price and rewrites the trade day's snapshot |
| Wallet.WalletSimulator.ApplyBuy | src/index.ts:395-399 | pays the complete cost, adds the quantity to the holding (0 when absent) and lists a new ticker last, and adds the fee-free cost to the cost basis; prices, snapshots and the log stay |
| Wallet.WalletSimulator.Sell | src/index.ts:365-379 | fails, changing nothing, exactly when oversells are off and less is held than sold; otherwise credits proceeds less fee, floors the holding at 0, lowers the cost basis by the unit price, sets the price |
| Wallet.WalletSimulator.AddTrade | src/index.ts:54-69 | an unresolvable price or a failing buy or sell leaves the wallet as it was; otherwise exactly one resolved trade is logged, the buy or sell is applied and the trade day's snapshot rewritten |
| Wallet.WalletSimulator.SetTradesAsWritten | src/index.ts:354-358 | the setter as written: when every replay succeeds the log holds the list twice over |
| Wallet.WalletSimulator.ReplayTrades | src/index.ts:354-358 | the setter corrected: when every replay succeeds the log holds each replayed trade once, in order |
| Wallet.WalletSimulator.AddStored | src/index.ts:357 | addTrade on a stored trade: on success the log grows by exactly one trade resolved from it, on failure the log stays as it was |
| Wallet.WalletSimulator.AddEach | src/index.ts:357 | addTrade on each trade in turn: the log keeps its old entries and gains at most one resolved trade per given trade, the i-th from the i-th; it gains all of them exactly when no addTrade fails |

## Left out

- Floating point: money is exact `real`, so rounding that the tests rely on (such as 81.982) is not modelled, and neither are NaN and Infinity outside the places the model names them: a percentage of a zero total, the profit of a sell (Profits.SellProfit), and the cost basis of a zero volume.
- BuyAndHold.SliceQuantity: at a zero price the quantity is 0, where JavaScript divides to Infinity; the contract states only the non-zero case.
- Wallet.UpdateAssetsOnWallet: when the day's price is 0 and the wallet already knows a price for the ticker, the source buys Infinity units (slice / 0) at the known price, while the model buys SliceQuantity, 0 units; the contract states the new state of a success in that case (the resolved trade is applied) but not when it fails.
- Wallet.ObjectKeys: the order in which Object.keys lists a price table (KeyOrder.OwnKeys) is left open; no result below depends on it (see Ledger.SumHeldRemove and Ledger.AscendingUnique).
- Wallet.CollectOnRange: the order of the collected snapshots is left open, as it is sorted next.
- Wallet.SimulateDay: the exact failure condition is stated for a non-negative slice only; for a negative slice only the success direction is stated.
- Wallet.SimulateDay: states the second wallet's cash, holdings and prices after a day, not its cost basis, trade log or day snapshots, nor its state after a failed day. Those are stated one forEach at a time, by Wallet.BuyEach (SliceRun, also on failure) and Wallet.PriceEach (PriceRun). The second wallet is a local of getTrendBalanceSnapshotsBuyAndHold that is read only through getTotalValue, and a failed buy aborts the whole call.
- Wallet.TradeDay: states cash, holdings and prices only, for the same reason as SimulateDay; Wallet.BuyEach and Wallet.PriceEach state the rest.
- Prototype keys: the wallet's maps are plain JavaScript objects, so a ticker or trade id named like an Object.prototype property ("constructor", "toString", "__proto__") reads an inherited value in `src/index.ts` (lines 34-36, 91, 291, 341, 366-369, 396-397) before anything is stored under it. The model's maps start empty, so such keys behave like any other key.
- Date range: a JavaScript Date holds only instants within 8.64e15 ms of the epoch. Outside it daysBefore yields NaN, so the trend's range filter keeps nothing, todayDateNoTime keys the day "NaN-NaN-NaN", and `toISOString` in updateTodayBalance (`src/index.ts:433`) throws after the trade has already been applied. The model's timestamps are unbounded integers, so none of these cases arises.
- Wallet.ReplayBuyAndHold: the exact failure condition is stated for a non-negative seed only.
- Wallet.WalletSimulator.GetTrendBalanceSnapshotsBuyAndHold: the exact failure condition is stated for a non-negative creation balance only.
- Wallet.WalletSimulator.GetTotalValue: requires the wallet invariant (Valid: tickers listed once, every holding priced), which every wallet reachable through the constructor and the trade methods keeps; the throw on an unknown price therefore does not arise in the model.
- Wallet.WalletSimulator.GetDonutAssetInformation: the same requirement as GetTotalValue.
- Snapshot shape: `src/index.ts:432-436` stores the date as an ISO string and the prices as a plain object. `src/utils/general.ts` reads them as a `Date` and a `Map`. The model uses one record of an `int` timestamp, a `real` value and a `map` of prices.
- Dates and strings: ISO date strings, `toISOString` and the `creationAt` field are not modelled. The day key `year-month-day` is a record of three integers, and a movement's notional is a number rather than its string.
- `backDays` and the `now` date are integers (days and milliseconds); a fractional `backDays` is not modelled.
- addFee, removeFee, objToArrayKeys, toDate and cloneObj are imported by `src/index.ts` (lines 2-10), but their source is not part of this model:
  - addFee and removeFee are modelled as adding or removing `fee` percent of the cost, with an absent fee counted as 0.
  - objToArrayKeys (used by getAllOwnedAssets) is taken to be `Object.keys`.
  - toDate is taken to parse the ISO date a snapshot stores back to the same instant.
  - cloneObj is taken to make an independent copy, so a clone is a value in the model.
- Aliasing:
  - `fillTimestreamGapsWithLastRecord` pushes the sentinel onto its caller's array.
  - The trades setter keeps the caller's array as the log.
  - Snapshots share the caller's price object.
  - The model works on values, so none of these is captured.
- The constructor's reflective override loop is modelled as an optional record of the three overridable fields, each taken only when truthy; other override keys are not modelled.
- exportToJson, importFromJsonString, clone, reverseParsingRealTrades, UUID trade ids, the exchange connectivity layer (`src/utils/cctx-wrapper.ts`, `src/utils/cctx-extensions/`) and `mockDate` are not part of this model: they are serialisation, network I/O or test scaffolding.
- Exceptions carry no message text; each failure is one of the error values in `Models.WalletError`.
- The donut test at `src/__test__/donut-info.test.ts:14-18` expects a "USDT" entry first, worth 1000, while `src/index.ts:180` pushes the cash last under the ticker "$" (worth 1000 in that test). The model follows the source: Ledger.Donut ends with "$".
- The profit test at `src/__test__/details/profit-calc.test.ts` expects 200 and 250. The formula of calculateProfitsMap gives 301 and 251 for those orders (Profits.ExampleProfits). That test calls an `addProfits` helper, which is not part of this model.

## Findings

| source | as written | input that shows it | evidently intended | confidence | as-written member | corrected member |
|---|---|---|---|---|---|---|
| src/index.ts:354-358 | the setter makes the given list the log, then replays each trade through addTrade, which pushes onto that same list | setting the trades of a fresh wallet to one affordable trade with a non-zero price and timestamp leaves that trade in the log twice | the log holds each replayed trade once | not executed | Wallet.WalletSimulator.SetTradesAsWritten | Wallet.WalletSimulator.ReplayTrades |
