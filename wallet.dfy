/** The wallet ledger (class WalletSimulator in src/index.ts): cash, holdings,
    prices, cost bases, the trade log and one valuation snapshot per UTC day,
    all updated in place by the trades recorded. */
module Wallet {
  import opened Wrappers
  import opened Models
  import opened General
  import opened Dates
  import opened Ledger
  import opened Timestream
  import opened Profits
  import opened BuyAndHold
  import opened KeyOrder

  /** The fields the constructor's `overrides` object may set; each is
      applied only when it is truthy. */
  datatype Overrides = Overrides(
    allowNegativeBalance: Option<bool>,
    allowNegativeHeld: Option<bool>,
    balanceAtWalletCreation: Option<real>)

  /** isPriceDefined: a price is known and is not 0. */
  predicate PriceDefined(prices: map<string, real>, ticker: string)
  {
    ticker in prices && prices[ticker] != 0.0
  }

  /** getPriceIfDefined: the price when it is defined, otherwise undefined. */
  function PriceIfDefined(prices: map<string, real>, ticker: string): (r: Option<real>)
    ensures r.Some? <==> PriceDefined(prices, ticker)
    ensures r.Some? ==> r.value == prices[ticker]
  {
    if PriceDefined(prices, ticker) then Some(prices[ticker]) else None
  }

  /** updatePrice leaves everything alone exactly when the price is defined
      and equal to the new one. */
  predicate SamePrice(prices: map<string, real>, ticker: string, price: real)
  {
    PriceDefined(prices, ticker) && price == prices[ticker]
  }

  /** The day snapshots after updateTodayBalance(ms): the snapshot of the
      day of the resolved instant is replaced by one taken now. */
  function Recorded(snapshots: map<CivilDate, Snapshot>, ms: Option<int>, now: int, value: real, prices: map<string, real>): map<CivilDate, Snapshot>
  {
    var date := TimestampOr(ms, now);
    snapshots[DayKey(date) := Snapshot(date, value, prices)]
  }

  /** A snapshot stored again under the same day replaces the first. */
  lemma Overwritten(m: map<CivilDate, Snapshot>, k: CivilDate, a: Snapshot, b: Snapshot)
    ensures m[k := a][k := b] == m[k := b]
  {
  }

  function Max(a: real, b: real): real
  {
    if a >= b then a else b
  }

  /** Every snapshot is stored under the day of its own date. */
  ghost predicate KeyedByDay(snapshots: map<CivilDate, Snapshot>)
  {
    forall k :: k in snapshots ==> DayKey(snapshots[k].date) == k
  }

  /** In a table keyed by day, a snapshot is stored exactly when it sits
      under the day of its date. */
  lemma StoredByDay(snapshots: map<CivilDate, Snapshot>, s: Snapshot)
    requires KeyedByDay(snapshots)
    ensures s in snapshots.Values <==> DayKey(s.date) in snapshots && snapshots[DayKey(s.date)] == s
  {
    if s in snapshots.Values {
      var k :| k in snapshots.Keys && snapshots[k] == s;
      assert DayKey(s.date) == k;
    }
  }

  /** The stored snapshots dated from `pastDate` to `today`, oldest first:
      what sortedDaySnapshotsOnRange returns. Dates are distinct because no
      two snapshots share a day. */
  ghost function OnRange(snapshots: map<CivilDate, Snapshot>, pastDate: int, today: int): (r: seq<Snapshot>)
    requires KeyedByDay(snapshots)
    ensures Ascending(r)
    ensures forall s :: s in r <==> s in snapshots.Values && pastDate <= s.date <= today
    decreases |snapshots|
  {
    if snapshots.Keys == {} then []
    else
      var k :| k in snapshots.Keys;
      var rest := OnRange(snapshots - {k}, pastDate, today);
      var s := snapshots[k];
      OnRangeStep(snapshots, k, pastDate, today, rest);
      if pastDate <= s.date <= today then InsertByDate(rest, s) else rest
  }

  /** Adding the snapshot of one more day to the range of the others. */
  lemma OnRangeStep(snapshots: map<CivilDate, Snapshot>, k: CivilDate, pastDate: int, today: int, rest: seq<Snapshot>)
    requires KeyedByDay(snapshots) && k in snapshots
    requires Ascending(rest)
    requires forall s :: s in rest <==> s in (snapshots - {k}).Values && pastDate <= s.date <= today
    ensures var s := snapshots[k];
            var r := if pastDate <= s.date <= today then InsertByDate(rest, s) else rest;
            && Ascending(r)
            && forall x :: x in r <==> x in snapshots.Values && pastDate <= x.date <= today
  {
    var s := snapshots[k];
    var others := snapshots - {k};
    assert KeyedByDay(others);
    forall x
      ensures x in snapshots.Values <==> x in others.Values || x == s
    {
      StoredByDay(snapshots, x);
      StoredByDay(others, x);
    }
    if pastDate <= s.date <= today {
      forall x | x in rest
        ensures x.date != s.date
      {
        StoredByDay(others, x);
      }
      InsertByDateAscending(rest, s);
      forall x
        ensures x in InsertByDate(rest, s) <==> x in rest || x == s
      {
        assert x in InsertByDate(rest, s) <==> x in multiset(InsertByDate(rest, s));
      }
    }
  }

  /** No two days hold snapshots of the same date. */
  predicate DatedUniquely(snapshots: map<CivilDate, Snapshot>)
  {
    forall k1, k2 :: k1 in snapshots && k2 in snapshots && snapshots[k1].date == snapshots[k2].date ==> k1 == k2
  }

  /** A table keyed by day never holds two snapshots of one date. */
  lemma KeyedDatedUniquely(snapshots: map<CivilDate, Snapshot>)
    requires KeyedByDay(snapshots)
    ensures DatedUniquely(snapshots)
  {
  }

  /** The forEach of sortedDaySnapshotsOnRange: the snapshots dated from
      `pastDate` to `today`, in the order the keys are visited, which is
      left open. No two of them share a date. */
  method CollectOnRange(snapshots: map<CivilDate, Snapshot>, pastDate: int, today: int) returns (collected: seq<Snapshot>)
    requires DatedUniquely(snapshots)
    ensures DistinctDates(collected)
    ensures forall s :: s in collected <==> s in snapshots.Values && pastDate <= s.date <= today
  {
    collected := [];
    var keys := snapshots.Keys;
    while keys != {}
      invariant keys <= snapshots.Keys
      invariant DistinctDates(collected)
      invariant forall k :: k in snapshots && k !in keys && pastDate <= snapshots[k].date <= today ==> snapshots[k] in collected
      invariant forall s :: s in collected ==> s in snapshots.Values && pastDate <= s.date <= today
      invariant forall s, k :: s in collected && k in keys ==> snapshots[k].date != s.date
      decreases |keys|
    {
      var key :| key in keys;
      var value := snapshots[key];
      if pastDate <= value.date && value.date <= today {
        collected := collected + [value];
      }
      keys := keys - {key};
    }
    forall s | s in snapshots.Values && pastDate <= s.date <= today
      ensures s in collected
    {
      var k :| k in snapshots && snapshots[k] == s;
    }
  }

  /** `getSafeNull(now, new Date())`: a given Date is always truthy, so the
      clock is read only when none is given. */
  function NowOr(now: Option<int>, clock: int): (r: int)
    ensures now.Some? ==> r == now.value
    ensures now.None? ==> r == clock
  {
    if now.Some? then now.value else clock
  }

  /** The trend series of a wallet: every stored snapshot from `backDays`
      days before `nowDate` up to one day before it appears, every point is
      dated before `nowDate`, consecutive points are at most one day apart,
      and there are no points when no snapshot is in that range. */
  lemma TrendShape(snapshots: map<CivilDate, Snapshot>, backDays: int, nowDate: int, prices: map<string, real>)
    requires KeyedByDay(snapshots)
    ensures var days := OnRange(snapshots, DaysBefore(nowDate, backDays), DaysBefore(nowDate, 1));
            var r := FilledWithLast(days, Snapshot(nowDate, -1.0, prices));
            && (forall s :: s in snapshots.Values && DaysBefore(nowDate, backDays) <= s.date <= DaysBefore(nowDate, 1) ==> s in r)
            && (forall x :: x in r ==> x.date < nowDate)
            && (forall k :: 0 <= k < |r| - 1 ==> DaysBetween(r[k].date, r[k + 1].date) <= 1)
            && (r == [] <==> days == [])
  {
    var days := OnRange(snapshots, DaysBefore(nowDate, backDays), DaysBefore(nowDate, 1));
    var last := Snapshot(nowDate, -1.0, prices);
    FilledWithLastShape(days, last);
    if days != [] {
      assert days[0] in FilledWithLast(days, last);
    }
  }

  /** Object.keys of a price table: every ticker once. JavaScript lists
      them as KeyOrder.OwnKeys does (array indexes first, ascending, then
      insertion order); here the order is left open. */
  method ObjectKeys(m: map<string, real>) returns (keys: seq<string>)
    ensures Distinct(keys)
    ensures forall x :: x in keys <==> x in m
  {
    keys := [];
    var left := m.Keys;
    while left != {}
      invariant left <= m.Keys
      invariant Distinct(keys)
      invariant forall x :: x in keys <==> x in m && x !in left
      decreases |left|
    {
      var x :| x in left;
      keys := keys + [x];
      left := left - {x};
    }
  }

  /** The trade options updateAssetsOnWallet records for an asset: a buy of
      one slice at the day's price, dated at the day, with no fee and no id. */
  function SliceBuy(value: Snapshot, sliceForEveryAsset: real, buyNowAsset: string): TradeOptions
    requires buyNowAsset in value.prices
  {
    var price := value.prices[buyNowAsset];
    TradeOptions(buyNowAsset, Some(price), SliceQuantity(sliceForEveryAsset, price), Buy, Some(value.date), None, None)
  }

  /** A buy of one slice at a non-zero price costs exactly the slice, fee
      included, and adds exactly the slice to the cost basis. */
  lemma SliceCost(price: real, slice: real, t: Trade)
    requires price != 0.0 && t.price == price && t.quantity == SliceQuantity(slice, price) && t.fee == None
    ensures Notional(t) == slice
    ensures AddFee(Notional(t), FeeRate(t)) == slice
  {
    assert Notional(t) == slice;
  }

  /** The instant a slice buy is dated at: the day's, or the clock's when
      the day's is 0. */
  function SliceInstant(value: Snapshot, now: int): int
  {
    TimestampOr(Some(value.date), now)
  }

  /** The trade addTrade stores for a slice buy of `asset` at the day's
      price: the resolved instant, no fee and no id. */
  function SliceTrade(value: Snapshot, slice: real, asset: string, now: int): Trade
    requires asset in value.prices
  {
    var price := value.prices[asset];
    Trade(asset, price, SliceQuantity(slice, price), Buy, SliceInstant(value, now), None, None)
  }

  /** The fields of a wallet that its trades change, as one value. */
  datatype Books = Books(
    balance: real,
    holdings: map<string, real>,
    prices: map<string, real>,
    tickers: seq<string>,
    costBasis: map<string, real>,
    trades: seq<Trade>,
    daySnapshots: map<CivilDate, Snapshot>)
  {
    /** Every listed ticker is held and priced, so the books can be valued. */
    predicate Valued()
    {
      Priced(tickers, holdings, prices)
    }
  }

  /** The books after a buy of one slice of an asset they neither hold nor
      price, at the day's non-zero price: the slice is paid, slice/price of
      the asset is held, priced and listed last, its cost basis is the
      slice, its trade is logged, and the day of the slice instant stores
      the books as they now stand. */
  function SliceBought(b: Books, value: Snapshot, slice: real, asset: string, now: int): (r: Books)
    requires b.Valued() && asset in value.prices
    ensures r.Valued()
  {
    var price := value.prices[asset];
    var balance := b.balance - slice;
    var holdings := b.holdings[asset := SliceQuantity(slice, price)];
    var prices := b.prices[asset := price];
    var tickers := b.tickers + [asset];
    var at := SliceInstant(value, now);
    Books(balance, holdings, prices, tickers, b.costBasis[asset := slice],
          b.trades + [SliceTrade(value, slice, asset, now)],
          b.daySnapshots[DayKey(at) := Snapshot(at, Valuation(balance, tickers, holdings, prices), prices)])
  }

  /** The books after slice buys of the first `n` assets, one after the
      other. */
  function SliceRun(b: Books, value: Snapshot, slice: real, assets: seq<string>, n: nat, now: int): (r: Books)
    requires b.Valued() && n <= |assets| && forall j :: 0 <= j < |assets| ==> assets[j] in value.prices
    ensures r.Valued()
  {
    if n == 0 then b else SliceBought(SliceRun(b, value, slice, assets, n - 1, now), value, slice, assets[n - 1], now)
  }

  /** updateAssetsOnWallet, applied to one asset: an asset the day does not
      price is an error; otherwise the wallet records a buy of one slice of
      it at the day's price. At a non-zero price that buy fails exactly
      when the wallet's cash is short of the slice, and otherwise pays the
      slice and adds the quantity it bought. */
  method UpdateAssetsOnWallet(value: Snapshot, buyHoldWallet: WalletSimulator, sliceForEveryAsset: real,
                              buyNowAsset: string, now: int) returns (err: Option<WalletError>)
    requires buyHoldWallet.Valid()
    modifies buyHoldWallet
    ensures buyHoldWallet.Valid()
    ensures buyNowAsset !in value.prices ==> err == Some(MissingHistoricalPrice(buyNowAsset))
    ensures err.Some? ==> && buyHoldWallet.balance == old(buyHoldWallet.balance)
                          && buyHoldWallet.holdings == old(buyHoldWallet.holdings)
                          && buyHoldWallet.tickers == old(buyHoldWallet.tickers)
                          && buyHoldWallet.prices == old(buyHoldWallet.prices)
                          && buyHoldWallet.costBasis == old(buyHoldWallet.costBasis)
                          && buyHoldWallet.daySnapshots == old(buyHoldWallet.daySnapshots)
                          && buyHoldWallet.trades == old(buyHoldWallet.trades)
    ensures buyNowAsset in value.prices && value.prices[buyNowAsset] == 0.0 && !PriceDefined(old(buyHoldWallet.prices), buyNowAsset) ==>
              err == Some(UnresolvablePrice(buyNowAsset))
    ensures buyNowAsset in value.prices && value.prices[buyNowAsset] != 0.0 ==>
              var price := value.prices[buyNowAsset];
              && (err.Some? <==> !old(buyHoldWallet.allowNegativeBalance) && old(buyHoldWallet.balance) < sliceForEveryAsset)
              && (err.None? ==>
                    && buyHoldWallet.balance == old(buyHoldWallet.balance) - sliceForEveryAsset
                    && buyHoldWallet.holdings == old(buyHoldWallet.holdings)[buyNowAsset :=
                         AmountOr0(old(buyHoldWallet.holdings), buyNowAsset) + SliceQuantity(sliceForEveryAsset, price)]
                    && buyHoldWallet.prices == old(buyHoldWallet.prices)[buyNowAsset := price]
                    && buyHoldWallet.tickers == ListedAfter(old(buyHoldWallet.tickers), old(buyHoldWallet.holdings), buyNowAsset))
    ensures buyNowAsset in value.prices && buyNowAsset !in old(buyHoldWallet.prices) && buyNowAsset !in old(buyHoldWallet.holdings)
            && !old(buyHoldWallet.allowNegativeBalance) ==>
              var price := value.prices[buyNowAsset];
              && (err.None? <==> price != 0.0 && old(buyHoldWallet.balance) >= sliceForEveryAsset)
              && (err.None? ==>
                    && buyHoldWallet.balance == old(buyHoldWallet.balance) - sliceForEveryAsset
                    && buyHoldWallet.holdings == old(buyHoldWallet.holdings)[buyNowAsset := SliceQuantity(sliceForEveryAsset, price)]
                    && buyHoldWallet.prices == old(buyHoldWallet.prices)[buyNowAsset := price]
                    && buyHoldWallet.tickers == old(buyHoldWallet.tickers) + [buyNowAsset])
    ensures err.None? ==>
              && buyNowAsset in value.prices
              && var resolved := TradeOptionToTrade(SliceBuy(value, sliceForEveryAsset, buyNowAsset),
                                                    PriceIfDefined(old(buyHoldWallet.prices), buyNowAsset), now);
                 resolved.Ok? && buyHoldWallet.Traded(resolved.value, now)
    ensures err.None? && buyNowAsset in value.prices && value.prices[buyNowAsset] != 0.0 ==>
              buyHoldWallet.Traded(SliceTrade(value, sliceForEveryAsset, buyNowAsset, now), now)
    ensures buyHoldWallet.balanceAtWalletCreation == old(buyHoldWallet.balanceAtWalletCreation)
    ensures buyHoldWallet.allowNegativeBalance == old(buyHoldWallet.allowNegativeBalance)
    ensures buyHoldWallet.allowNegativeHeld == old(buyHoldWallet.allowNegativeHeld)
  {
    if buyNowAsset !in value.prices {
      return Some(MissingHistoricalPrice(buyNowAsset));
    }
    var assetHistoricalPrice := value.prices[buyNowAsset];
    if assetHistoricalPrice != 0.0 {
      err := BuyPricedSlice(value, buyHoldWallet, sliceForEveryAsset, buyNowAsset, now);
    } else {
      var order := TradeOptions(buyNowAsset, Some(assetHistoricalPrice), SliceQuantity(sliceForEveryAsset, assetHistoricalPrice),
                                Buy, Some(value.date), None, None);
      assert order == SliceBuy(value, sliceForEveryAsset, buyNowAsset);
      err := buyHoldWallet.AddTrade(order, now);
    }
  }

  /** The buy updateAssetsOnWallet sends for an asset the day prices
      non-zero: it resolves to the slice trade, which costs exactly the
      slice, so it goes through exactly when the cash covers the slice. */
  method BuyPricedSlice(value: Snapshot, buyHoldWallet: WalletSimulator, sliceForEveryAsset: real, buyNowAsset: string, now: int)
    returns (err: Option<WalletError>)
    requires buyHoldWallet.Valid() && buyNowAsset in value.prices && value.prices[buyNowAsset] != 0.0
    modifies buyHoldWallet
    ensures buyHoldWallet.Valid()
    ensures TradeOptionToTrade(SliceBuy(value, sliceForEveryAsset, buyNowAsset), PriceIfDefined(old(buyHoldWallet.prices), buyNowAsset), now)
            == Ok(SliceTrade(value, sliceForEveryAsset, buyNowAsset, now))
    ensures err.Some? <==> !old(buyHoldWallet.allowNegativeBalance) && old(buyHoldWallet.balance) < sliceForEveryAsset
    ensures err.Some? ==> && buyHoldWallet.balance == old(buyHoldWallet.balance)
                          && buyHoldWallet.holdings == old(buyHoldWallet.holdings)
                          && buyHoldWallet.tickers == old(buyHoldWallet.tickers)
                          && buyHoldWallet.prices == old(buyHoldWallet.prices)
                          && buyHoldWallet.costBasis == old(buyHoldWallet.costBasis)
                          && buyHoldWallet.daySnapshots == old(buyHoldWallet.daySnapshots)
                          && buyHoldWallet.trades == old(buyHoldWallet.trades)
    ensures err.None? ==> buyHoldWallet.Traded(SliceTrade(value, sliceForEveryAsset, buyNowAsset, now), now)
    ensures err.None? ==>
              var price := value.prices[buyNowAsset];
              && buyHoldWallet.balance == old(buyHoldWallet.balance) - sliceForEveryAsset
              && buyHoldWallet.holdings == old(buyHoldWallet.holdings)[buyNowAsset :=
                   AmountOr0(old(buyHoldWallet.holdings), buyNowAsset) + SliceQuantity(sliceForEveryAsset, price)]
              && buyHoldWallet.prices == old(buyHoldWallet.prices)[buyNowAsset := price]
              && buyHoldWallet.tickers == ListedAfter(old(buyHoldWallet.tickers), old(buyHoldWallet.holdings), buyNowAsset)
    ensures buyHoldWallet.balanceAtWalletCreation == old(buyHoldWallet.balanceAtWalletCreation)
    ensures buyHoldWallet.allowNegativeBalance == old(buyHoldWallet.allowNegativeBalance)
    ensures buyHoldWallet.allowNegativeHeld == old(buyHoldWallet.allowNegativeHeld)
  {
    var assetHistoricalPrice := value.prices[buyNowAsset];
    var order := TradeOptions(buyNowAsset, Some(assetHistoricalPrice), SliceQuantity(sliceForEveryAsset, assetHistoricalPrice),
                              Buy, Some(value.date), None, None);
    assert order == SliceBuy(value, sliceForEveryAsset, buyNowAsset);
    ghost var resolved := TradeOptionToTrade(order, PriceIfDefined(buyHoldWallet.prices, buyNowAsset), now);
    assert resolved == Ok(SliceTrade(value, sliceForEveryAsset, buyNowAsset, now));
    SliceCost(assetHistoricalPrice, sliceForEveryAsset, resolved.value);
    err := buyHoldWallet.AddTrade(order, now);
  }

  /** updatePricesOnWallet, applied to one asset: an asset the day does not
      price is an error; otherwise the wallet takes the day's price for it,
      at the clock's instant. */
  method UpdatePricesOnWallet(value: Snapshot, buyHoldWallet: WalletSimulator, knownAsset: string, now: int)
    returns (err: Option<WalletError>)
    requires buyHoldWallet.Valid()
    modifies buyHoldWallet
    ensures buyHoldWallet.Valid()
    ensures err.Some? <==> knownAsset !in value.prices
    ensures err.Some? ==> err.value == MissingHistoricalPrice(knownAsset) && unchanged(buyHoldWallet)
    ensures err.None? ==> buyHoldWallet.BooksNow() == PriceSet(old(buyHoldWallet.BooksNow()), value, knownAsset, now)
    ensures err.None? ==>
              && buyHoldWallet.prices == old(buyHoldWallet.prices)[knownAsset := value.prices[knownAsset]]
              && buyHoldWallet.daySnapshots ==
                   if SamePrice(old(buyHoldWallet.prices), knownAsset, value.prices[knownAsset]) then old(buyHoldWallet.daySnapshots)
                   else Recorded(old(buyHoldWallet.daySnapshots), None, now,
                                 Valuation(buyHoldWallet.balance, buyHoldWallet.tickers, buyHoldWallet.holdings, buyHoldWallet.prices),
                                 buyHoldWallet.prices)
    ensures buyHoldWallet.balance == old(buyHoldWallet.balance) && buyHoldWallet.holdings == old(buyHoldWallet.holdings)
    ensures buyHoldWallet.tickers == old(buyHoldWallet.tickers) && buyHoldWallet.costBasis == old(buyHoldWallet.costBasis)
    ensures buyHoldWallet.trades == old(buyHoldWallet.trades)
    ensures buyHoldWallet.balanceAtWalletCreation == old(buyHoldWallet.balanceAtWalletCreation)
    ensures buyHoldWallet.allowNegativeBalance == old(buyHoldWallet.allowNegativeBalance)
    ensures buyHoldWallet.allowNegativeHeld == old(buyHoldWallet.allowNegativeHeld)
  {
    if knownAsset !in value.prices {
      return Some(MissingHistoricalPrice(knownAsset));
    }
    var assetHistoricalPrice := value.prices[knownAsset];
    buyHoldWallet.UpdatePrice(knownAsset, assetHistoricalPrice, None, now);
    err := None;
  }

  /** `start` with one slice of each of the first `n` assets added, at the
      day's prices, one asset at a time. */
  function WithSlices(start: map<string, real>, value: Snapshot, assets: seq<string>, n: nat, slice: real): map<string, real>
    requires n <= |assets| && forall j :: 0 <= j < |assets| ==> assets[j] in value.prices
  {
    if n == 0 then start
    else WithSlices(start, value, assets, n - 1, slice)[assets[n - 1] := SliceQuantity(slice, value.prices[assets[n - 1]])]
  }

  /** `start` with the day's price of each of the first `n` assets set, one
      asset at a time. */
  function WithPrices(start: map<string, real>, value: Snapshot, assets: seq<string>, n: nat): map<string, real>
    requires n <= |assets| && forall j :: 0 <= j < |assets| ==> assets[j] in value.prices
  {
    if n == 0 then start
    else WithPrices(start, value, assets, n - 1)[assets[n - 1] := value.prices[assets[n - 1]]]
  }

  /** WithSlices keeps what `start` holds, except that each of the first `n`
      assets is held at one slice's quantity. */
  lemma {:induction false} WithSlicesHolds(start: map<string, real>, value: Snapshot, assets: seq<string>, n: nat, slice: real)
    requires n <= |assets| && forall j :: 0 <= j < |assets| ==> assets[j] in value.prices
    ensures forall x :: x in WithSlices(start, value, assets, n, slice) <==> x in start || x in assets[..n]
    ensures forall x :: x in WithSlices(start, value, assets, n, slice) ==>
              WithSlices(start, value, assets, n, slice)[x] ==
                if x in assets[..n] then SliceQuantity(slice, value.prices[x]) else start[x]
  {
    if n > 0 {
      WithSlicesHolds(start, value, assets, n - 1, slice);
      assert assets[..n] == assets[..n - 1] + [assets[n - 1]];
    }
  }

  /** WithPrices keeps the prices of `start`, except that each of the first
      `n` assets takes the day's price. */
  lemma {:induction false} WithPricesHolds(start: map<string, real>, value: Snapshot, assets: seq<string>, n: nat)
    requires n <= |assets| && forall j :: 0 <= j < |assets| ==> assets[j] in value.prices
    ensures forall x :: x in WithPrices(start, value, assets, n) <==> x in start || x in assets[..n]
    ensures forall x :: x in WithPrices(start, value, assets, n) ==>
              WithPrices(start, value, assets, n)[x] == if x in assets[..n] then value.prices[x] else start[x]
  {
    if n > 0 {
      WithPricesHolds(start, value, assets, n - 1);
      assert assets[..n] == assets[..n - 1] + [assets[n - 1]];
    }
  }

  /** The `j`-th buy of a run started with `balance` in cash goes through:
      its asset is given a non-zero price and the cash left after `j` slices
      still covers one more. */
  predicate SliceAffordable(value: Snapshot, assets: seq<string>, j: int, balance: real, slice: real)
    requires 0 <= j < |assets| && assets[j] in value.prices
  {
    value.prices[assets[j]] != 0.0 && balance - Slices(slice, j) >= slice
  }

  /** `updateAssetsOnWallet` on an asset the wallet neither holds nor
      prices, in a wallet that cannot go negative: it buys one slice exactly
      when the asset is given a non-zero price and the cash covers the slice. */
  method BuyNewAsset(value: Snapshot, buyHoldWallet: WalletSimulator, sliceForEveryAsset: real,
                     buyNowAsset: string, now: int) returns (err: Option<WalletError>)
    requires buyHoldWallet.Valid() && !buyHoldWallet.allowNegativeBalance
    requires buyNowAsset in value.prices && buyNowAsset !in buyHoldWallet.holdings && buyNowAsset !in buyHoldWallet.prices
    modifies buyHoldWallet
    ensures buyHoldWallet.Valid() && !buyHoldWallet.allowNegativeBalance
    ensures var price := value.prices[buyNowAsset];
            && (err.None? <==> price != 0.0 && old(buyHoldWallet.balance) >= sliceForEveryAsset)
            && (err.None? ==>
                  && buyHoldWallet.balance == old(buyHoldWallet.balance) - sliceForEveryAsset
                  && buyHoldWallet.holdings == old(buyHoldWallet.holdings)[buyNowAsset := SliceQuantity(sliceForEveryAsset, price)]
                  && buyHoldWallet.prices == old(buyHoldWallet.prices)[buyNowAsset := price])
    ensures err.None? ==> buyHoldWallet.BooksNow() == SliceBought(old(buyHoldWallet.BooksNow()), value, sliceForEveryAsset, buyNowAsset, now)
    ensures err.Some? ==> buyHoldWallet.BooksNow() == old(buyHoldWallet.BooksNow())
    ensures buyHoldWallet.balanceAtWalletCreation == old(buyHoldWallet.balanceAtWalletCreation)
    ensures buyHoldWallet.allowNegativeHeld == old(buyHoldWallet.allowNegativeHeld)
  {
    err := UpdateAssetsOnWallet(value, buyHoldWallet, sliceForEveryAsset, buyNowAsset, now);
    if err.None? {
      var trade := SliceTrade(value, sliceForEveryAsset, buyNowAsset, now);
      SliceCost(value.prices[buyNowAsset], sliceForEveryAsset, trade);
      assert buyNowAsset !in old(buyHoldWallet.costBasis);
    }
  }

  /** A run of slice buys pays one slice per buy, holds each asset bought
      at the slice's quantity and prices it at the day's price. */
  lemma {:induction false} SliceRunFields(b: Books, value: Snapshot, slice: real, assets: seq<string>, n: nat, now: int)
    requires b.Valued() && n <= |assets| && forall j :: 0 <= j < |assets| ==> assets[j] in value.prices
    ensures SliceRun(b, value, slice, assets, n, now).balance == b.balance - Slices(slice, n)
    ensures SliceRun(b, value, slice, assets, n, now).holdings == WithSlices(b.holdings, value, assets, n, slice)
    ensures SliceRun(b, value, slice, assets, n, now).prices == WithPrices(b.prices, value, assets, n)
  {
    if n > 0 {
      SliceRunFields(b, value, slice, assets, n - 1, now);
    }
  }

  /** A run whose first `i` buys are affordable, and whose next one is too,
      has its first `i + 1` buys affordable. */
  lemma AffordableExtend(value: Snapshot, assets: seq<string>, i: nat, balance: real, slice: real)
    requires i < |assets| && forall j :: 0 <= j < |assets| ==> assets[j] in value.prices
    requires forall j :: 0 <= j < i ==> SliceAffordable(value, assets, j, balance, slice)
    requires SliceAffordable(value, assets, i, balance, slice)
    ensures forall j :: 0 <= j < i + 1 ==> SliceAffordable(value, assets, j, balance, slice)
  {
  }

  /** The `i`-th buy of `toBuyNowAssets.forEach(updateAssetsOnWallet(...))`,
      after `i` buys that went through: it goes through exactly when it is
      affordable, and then the wallet is one slice buy further on its run;
      otherwise the wallet is as it was. */
  method BuyStep(value: Snapshot, buyHoldWallet: WalletSimulator, toBuyNowAssets: seq<string>, i: nat,
                 sliceForEveryAsset: real, now: int, ghost balance0: real, ghost books0: Books)
    returns (err: Option<WalletError>)
    requires buyHoldWallet.Valid() && !buyHoldWallet.allowNegativeBalance
    requires i < |toBuyNowAssets| && forall j :: 0 <= j < |toBuyNowAssets| ==> toBuyNowAssets[j] in value.prices
    requires Distinct(toBuyNowAssets)
    requires forall j :: i <= j < |toBuyNowAssets| ==>
               toBuyNowAssets[j] !in buyHoldWallet.holdings && toBuyNowAssets[j] !in buyHoldWallet.prices
    requires books0.Valued() && books0.balance == balance0
    requires buyHoldWallet.BooksNow() == SliceRun(books0, value, sliceForEveryAsset, toBuyNowAssets, i, now)
    modifies buyHoldWallet
    ensures buyHoldWallet.Valid() && !buyHoldWallet.allowNegativeBalance
    ensures err.None? <==> SliceAffordable(value, toBuyNowAssets, i, balance0, sliceForEveryAsset)
    ensures err.None? ==>
              && buyHoldWallet.BooksNow() == SliceRun(books0, value, sliceForEveryAsset, toBuyNowAssets, i + 1, now)
              && forall j :: i + 1 <= j < |toBuyNowAssets| ==>
                   toBuyNowAssets[j] !in buyHoldWallet.holdings && toBuyNowAssets[j] !in buyHoldWallet.prices
    ensures err.Some? ==> buyHoldWallet.BooksNow() == old(buyHoldWallet.BooksNow())
    ensures buyHoldWallet.balanceAtWalletCreation == old(buyHoldWallet.balanceAtWalletCreation)
    ensures buyHoldWallet.allowNegativeHeld == old(buyHoldWallet.allowNegativeHeld)
  {
    SliceRunFields(books0, value, sliceForEveryAsset, toBuyNowAssets, i, now);
    var buyNowAsset := toBuyNowAssets[i];
    err := BuyNewAsset(value, buyHoldWallet, sliceForEveryAsset, buyNowAsset, now);
  }

  /** The loop of `toBuyNowAssets.forEach(updateAssetsOnWallet(...))`:
      `done` buys go through, each affordable, and the wallet is SliceRun of
      them; the run stops at the first buy that is not affordable. */
  method BuyRun(value: Snapshot, buyHoldWallet: WalletSimulator, toBuyNowAssets: seq<string>,
                sliceForEveryAsset: real, now: int) returns (err: Option<WalletError>, ghost done: nat)
    requires buyHoldWallet.Valid() && !buyHoldWallet.allowNegativeBalance
    requires Distinct(toBuyNowAssets)
    requires forall j :: 0 <= j < |toBuyNowAssets| ==> toBuyNowAssets[j] in value.prices
    requires forall j :: 0 <= j < |toBuyNowAssets| ==>
               toBuyNowAssets[j] !in buyHoldWallet.holdings && toBuyNowAssets[j] !in buyHoldWallet.prices
    modifies buyHoldWallet
    ensures buyHoldWallet.Valid()
    ensures done <= |toBuyNowAssets| && (err.None? <==> done == |toBuyNowAssets|)
    ensures forall j :: 0 <= j < done ==> SliceAffordable(value, toBuyNowAssets, j, old(buyHoldWallet.balance), sliceForEveryAsset)
    ensures err.Some? ==> !SliceAffordable(value, toBuyNowAssets, done, old(buyHoldWallet.balance), sliceForEveryAsset)
    ensures buyHoldWallet.BooksNow() == SliceRun(old(buyHoldWallet.BooksNow()), value, sliceForEveryAsset, toBuyNowAssets, done, now)
    ensures buyHoldWallet.balanceAtWalletCreation == old(buyHoldWallet.balanceAtWalletCreation)
    ensures buyHoldWallet.allowNegativeBalance == old(buyHoldWallet.allowNegativeBalance)
    ensures buyHoldWallet.allowNegativeHeld == old(buyHoldWallet.allowNegativeHeld)
  {
    ghost var balance0 := buyHoldWallet.balance;
    ghost var books0 := buyHoldWallet.BooksNow();
    err := None;
    var i := 0;
    while i < |toBuyNowAssets| && err.None?
      invariant 0 <= i <= |toBuyNowAssets|
      invariant buyHoldWallet.Valid() && !buyHoldWallet.allowNegativeBalance
      invariant buyHoldWallet.balanceAtWalletCreation == old(buyHoldWallet.balanceAtWalletCreation)
      invariant buyHoldWallet.allowNegativeHeld == old(buyHoldWallet.allowNegativeHeld)
      invariant forall j :: i <= j < |toBuyNowAssets| ==>
                  toBuyNowAssets[j] !in buyHoldWallet.holdings && toBuyNowAssets[j] !in buyHoldWallet.prices
      invariant forall j :: 0 <= j < i ==> SliceAffordable(value, toBuyNowAssets, j, balance0, sliceForEveryAsset)
      invariant err.Some? ==> i < |toBuyNowAssets| && !SliceAffordable(value, toBuyNowAssets, i, balance0, sliceForEveryAsset)
      invariant buyHoldWallet.BooksNow() == SliceRun(books0, value, sliceForEveryAsset, toBuyNowAssets, i, now)
      decreases |toBuyNowAssets| - i, if err.None? then 1 else 0
    {
      err := BuyStep(value, buyHoldWallet, toBuyNowAssets, i, sliceForEveryAsset, now, balance0, books0);
      if err.None? {
        AffordableExtend(value, toBuyNowAssets, i, balance0, sliceForEveryAsset);
        i := i + 1;
      }
    }
    done := i;
  }

  /** `toBuyNowAssets.forEach(updateAssetsOnWallet(...))`: buys one slice of
      each new asset in turn, and the first buy that throws ends the run.
      `done` counts the buys that went through: each of them was given a
      non-zero price with the cash left covering a slice, the next one (if
      any) was not, and the run goes through exactly when all of them did.
      Either way the wallet is SliceRun of those buys: it has paid one
      slice per buy done, holds each asset bought at the slice's quantity,
      prices and lists it, has a cost basis of one slice for it, has logged
      its trade, and stores under the day of the slice instant the wallet
      as it stands after the last buy. */
  method BuyEach(value: Snapshot, buyHoldWallet: WalletSimulator, toBuyNowAssets: seq<string>,
                 sliceForEveryAsset: real, now: int) returns (err: Option<WalletError>, ghost done: nat)
    requires buyHoldWallet.Valid() && !buyHoldWallet.allowNegativeBalance
    requires Distinct(toBuyNowAssets)
    requires forall x :: x in toBuyNowAssets ==> x in value.prices && x !in buyHoldWallet.holdings && x !in buyHoldWallet.prices
    modifies buyHoldWallet
    ensures buyHoldWallet.Valid()
    ensures done <= |toBuyNowAssets|
    ensures forall j :: 0 <= j < done ==> SliceAffordable(value, toBuyNowAssets, j, old(buyHoldWallet.balance), sliceForEveryAsset)
    ensures err.None? <==> done == |toBuyNowAssets|
    ensures err.Some? ==> !SliceAffordable(value, toBuyNowAssets, done, old(buyHoldWallet.balance), sliceForEveryAsset)
    ensures err.None? <==> forall j :: 0 <= j < |toBuyNowAssets| ==>
              SliceAffordable(value, toBuyNowAssets, j, old(buyHoldWallet.balance), sliceForEveryAsset)
    ensures buyHoldWallet.BooksNow() == SliceRun(old(buyHoldWallet.BooksNow()), value, sliceForEveryAsset, toBuyNowAssets, done, now)
    ensures buyHoldWallet.balance == old(buyHoldWallet.balance) - Slices(sliceForEveryAsset, done)
    ensures buyHoldWallet.holdings == WithSlices(old(buyHoldWallet.holdings), value, toBuyNowAssets, done, sliceForEveryAsset)
    ensures buyHoldWallet.prices == WithPrices(old(buyHoldWallet.prices), value, toBuyNowAssets, done)
    ensures buyHoldWallet.balanceAtWalletCreation == old(buyHoldWallet.balanceAtWalletCreation)
    ensures buyHoldWallet.allowNegativeBalance == old(buyHoldWallet.allowNegativeBalance)
    ensures buyHoldWallet.allowNegativeHeld == old(buyHoldWallet.allowNegativeHeld)
  {
    ghost var books0 := buyHoldWallet.BooksNow();
    err, done := BuyRun(value, buyHoldWallet, toBuyNowAssets, sliceForEveryAsset, now);
    SliceRunFields(books0, value, sliceForEveryAsset, toBuyNowAssets, done, now);
  }

  /** The books after updatePrice gives `asset` the day's price at the
      clock's instant: unchanged when that price is already defined and
      equal; otherwise the price is stored and the clock's day stores the
      books as they now stand. */
  function PriceSet(b: Books, value: Snapshot, asset: string, now: int): (r: Books)
    requires b.Valued() && asset in value.prices
    ensures r.Valued()
  {
    var price := value.prices[asset];
    if SamePrice(b.prices, asset, price) then b
    else
      var prices := b.prices[asset := price];
      b.(prices := prices,
         daySnapshots := Recorded(b.daySnapshots, None, now, Valuation(b.balance, b.tickers, b.holdings, prices), prices))
  }

  /** The books after the first `n` assets take the day's price, one after
      the other. */
  function PriceRun(b: Books, value: Snapshot, assets: seq<string>, n: nat, now: int): (r: Books)
    requires b.Valued() && n <= |assets| && forall j :: 0 <= j < |assets| ==> assets[j] in value.prices
    ensures r.Valued()
  {
    if n == 0 then b else PriceSet(PriceRun(b, value, assets, n - 1, now), value, assets[n - 1], now)
  }

  /** Setting prices changes only the prices and the day snapshots; the
      prices become the day's for each asset set. */
  lemma {:induction false} PriceRunFields(b: Books, value: Snapshot, assets: seq<string>, n: nat, now: int)
    requires b.Valued() && n <= |assets| && forall j :: 0 <= j < |assets| ==> assets[j] in value.prices
    ensures var r := PriceRun(b, value, assets, n, now);
            && r.prices == WithPrices(b.prices, value, assets, n)
            && r.balance == b.balance && r.holdings == b.holdings && r.tickers == b.tickers
            && r.costBasis == b.costBasis && r.trades == b.trades
  {
    if n > 0 {
      PriceRunFields(b, value, assets, n - 1, now);
      var prev := PriceRun(b, value, assets, n - 1, now);
      var a := assets[n - 1];
      if SamePrice(prev.prices, a, value.prices[a]) {
        assert prev.prices[a := value.prices[a]] == prev.prices;
      }
    }
  }

  /** `allKnownAssetPrices.forEach(updatePricesOnWallet(...))` over assets
      the day prices: the wallet is PriceRun of them, so every one takes the
      day's price, the clock's day is written again whenever a price
      changes, and cash, holdings, listing, cost bases and the log stay as
      they were. */
  method PriceEach(value: Snapshot, buyHoldWallet: WalletSimulator, allKnownAssetPrices: seq<string>, now: int)
    requires buyHoldWallet.Valid()
    requires forall x :: x in allKnownAssetPrices ==> x in value.prices
    modifies buyHoldWallet
    ensures buyHoldWallet.Valid()
    ensures forall j :: 0 <= j < |allKnownAssetPrices| ==> allKnownAssetPrices[j] in value.prices
    ensures buyHoldWallet.BooksNow() == PriceRun(old(buyHoldWallet.BooksNow()), value, allKnownAssetPrices, |allKnownAssetPrices|, now)
    ensures buyHoldWallet.prices == WithPrices(old(buyHoldWallet.prices), value, allKnownAssetPrices, |allKnownAssetPrices|)
    ensures buyHoldWallet.balance == old(buyHoldWallet.balance) && buyHoldWallet.holdings == old(buyHoldWallet.holdings)
    ensures buyHoldWallet.tickers == old(buyHoldWallet.tickers)
    ensures buyHoldWallet.costBasis == old(buyHoldWallet.costBasis) && buyHoldWallet.trades == old(buyHoldWallet.trades)
    ensures buyHoldWallet.balanceAtWalletCreation == old(buyHoldWallet.balanceAtWalletCreation)
    ensures buyHoldWallet.allowNegativeBalance == old(buyHoldWallet.allowNegativeBalance)
    ensures buyHoldWallet.allowNegativeHeld == old(buyHoldWallet.allowNegativeHeld)
  {
    ghost var books0 := buyHoldWallet.BooksNow();
    var i := 0;
    while i < |allKnownAssetPrices|
      invariant 0 <= i <= |allKnownAssetPrices|
      invariant buyHoldWallet.Valid()
      invariant buyHoldWallet.BooksNow() == PriceRun(books0, value, allKnownAssetPrices, i, now)
      invariant buyHoldWallet.balanceAtWalletCreation == old(buyHoldWallet.balanceAtWalletCreation)
      invariant buyHoldWallet.allowNegativeBalance == old(buyHoldWallet.allowNegativeBalance)
      invariant buyHoldWallet.allowNegativeHeld == old(buyHoldWallet.allowNegativeHeld)
    {
      var err := UpdatePricesOnWallet(value, buyHoldWallet, allKnownAssetPrices[i], now);
      i := i + 1;
    }
    PriceRunFields(books0, value, allKnownAssetPrices, i, now);
  }

  /** A run of buys goes through only when every asset is priced
      non-zero; with a slice of at least 0, it goes through exactly when, in
      addition, the cash covers all the slices. */
  lemma AffordableRun(value: Snapshot, assets: seq<string>, balance: real, slice: real)
    requires forall j :: 0 <= j < |assets| ==> assets[j] in value.prices
    ensures (forall j :: 0 <= j < |assets| ==> SliceAffordable(value, assets, j, balance, slice)) ==>
              forall x :: x in assets ==> value.prices[x] != 0.0
    ensures slice >= 0.0 ==>
              ((forall j :: 0 <= j < |assets| ==> SliceAffordable(value, assets, j, balance, slice)) <==>
                 && (forall x :: x in assets ==> value.prices[x] != 0.0)
                 && (|assets| == 0 || balance >= Slices(slice, |assets|)))
  {
    var n := |assets|;
    if forall j :: 0 <= j < n ==> SliceAffordable(value, assets, j, balance, slice) {
      forall x | x in assets
        ensures value.prices[x] != 0.0
      {
        var j :| 0 <= j < n && assets[j] == x;
        assert SliceAffordable(value, assets, j, balance, slice);
      }
    }
    if slice >= 0.0 {
      forall j | 0 <= j < n
        ensures SliceAffordable(value, assets, j, balance, slice) <==>
                  value.prices[assets[j]] != 0.0 && balance >= Slices(slice, j + 1)
        ensures balance >= Slices(slice, n) ==> balance >= Slices(slice, j + 1)
      {
        SlicesMonotone(slice, j + 1, n);
      }
      if n > 0 && forall j :: 0 <= j < n ==> SliceAffordable(value, assets, j, balance, slice) {
        assert SliceAffordable(value, assets, n - 1, balance, slice);
      }
    }
  }

  /** Buying one slice of each of the assets a day selects, one after the
      other, adds exactly what that day buys. */
  lemma BoughtIsRun(value: Snapshot, toBuy: seq<string>, holdings: map<string, real>, assets: seq<string>, slice: real)
    requires forall x :: x in assets <==> x in value.prices && x in toBuy && x != "" && x !in holdings
    ensures forall j :: 0 <= j < |assets| ==> assets[j] in value.prices
    ensures WithSlices(holdings, value, assets, |assets|, slice) == holdings + Bought(value, toBuy, holdings, slice)
  {
    var run := WithSlices(holdings, value, assets, |assets|, slice);
    assert assets[..|assets|] == assets;
    WithSlicesHolds(holdings, value, assets, |assets|, slice);
    forall x
      ensures x in run <==> x in holdings + Bought(value, toBuy, holdings, slice)
      ensures x in run ==> run[x] == (holdings + Bought(value, toBuy, holdings, slice))[x]
    {
    }
  }

  /** A day buys as many assets as it selects, each selected once. */
  lemma BoughtCount(value: Snapshot, toBuy: seq<string>, holdings: map<string, real>, assets: seq<string>, slice: real)
    requires Distinct(assets)
    requires forall x :: x in assets <==> x in value.prices && x in toBuy && x != "" && x !in holdings
    ensures |Bought(value, toBuy, holdings, slice)| == |assets|
  {
    assert Bought(value, toBuy, holdings, slice).Keys == set x | x in assets;
    DistinctCard(assets);
  }

  /** Setting the prices of the assets bought, then of every asset the day
      prices, leaves the day's prices over the ones known before. */
  lemma PricesRun(value: Snapshot, prices: map<string, real>, assets: seq<string>, keys: seq<string>)
    requires forall x :: x in assets ==> x in value.prices
    requires forall x :: x in keys <==> x in value.prices
    ensures forall j :: 0 <= j < |assets| ==> assets[j] in value.prices
    ensures forall j :: 0 <= j < |keys| ==> keys[j] in value.prices
    ensures WithPrices(WithPrices(prices, value, assets, |assets|), value, keys, |keys|) == prices + value.prices
  {
    assert assets[..|assets|] == assets;
    assert keys[..|keys|] == keys;
    var first := WithPrices(prices, value, assets, |assets|);
    WithPricesHolds(prices, value, assets, |assets|);
    WithPricesHolds(first, value, keys, |keys|);
  }

  /** One day of the benchmark, on values: buying one slice of each asset
      of `assets` (the day's tickers to buy and not yet held) and then
      setting every price of the day is what `NextDay` describes, and the
      buys go through on the conditions `NextDay` leaves to its caller. */
  lemma DayPlan(value: Snapshot, toBuy: seq<string>, before: HoldState, assets: seq<string>, keys: seq<string>, slice: real)
    requires Distinct(assets)
    requires forall x :: x in assets <==> x in value.prices && x in toBuy && x != "" && x !in before.holdings
    requires forall x :: x in keys <==> x in value.prices
    ensures forall j :: 0 <= j < |assets| ==> assets[j] in value.prices
    ensures forall j :: 0 <= j < |keys| ==> keys[j] in value.prices
    ensures var bought := Bought(value, toBuy, before.holdings, slice);
            && (forall x :: x in bought <==> x in assets)
            && ((forall j :: 0 <= j < |assets| ==> SliceAffordable(value, assets, j, before.cash, slice)) ==>
                  forall x :: x in bought ==> value.prices[x] != 0.0)
            && (slice >= 0.0 ==>
                  ((forall j :: 0 <= j < |assets| ==> SliceAffordable(value, assets, j, before.cash, slice)) <==>
                     && (forall x :: x in bought ==> value.prices[x] != 0.0)
                     && (|bought| == 0 || before.cash >= Slices(slice, |bought|))))
    ensures var after := NextDay(before, value, toBuy, slice);
            && after.cash == before.cash - Slices(slice, |assets|)
            && after.holdings == WithSlices(before.holdings, value, assets, |assets|, slice)
            && after.prices == WithPrices(WithPrices(before.prices, value, assets, |assets|), value, keys, |keys|)
  {
    BoughtIsRun(value, toBuy, before.holdings, assets, slice);
    BoughtCount(value, toBuy, before.holdings, assets, slice);
    AffordableRun(value, assets, before.cash, slice);
    PricesRun(value, before.prices, assets, keys);
  }

  /** The two forEach calls of one benchmark day: a slice buy of each new
      asset, then the day's price for every asset it prices. The buys go
      through exactly when each is affordable; the cash then has paid a
      slice per asset bought, the holdings hold each at the slice's
      quantity, and the prices are the day's for every asset bought or
      priced. */
  method TradeDay(value: Snapshot, buyHoldWallet: WalletSimulator, toBuyNowAssets: seq<string>,
                  allKnownAssetPrices: seq<string>, sliceForEveryAsset: real, now: int)
    returns (err: Option<WalletError>)
    requires buyHoldWallet.Valid() && !buyHoldWallet.allowNegativeBalance
    requires Distinct(toBuyNowAssets)
    requires forall x :: x in toBuyNowAssets ==> x in value.prices && x !in buyHoldWallet.holdings && x !in buyHoldWallet.prices
    requires forall j :: 0 <= j < |allKnownAssetPrices| ==> allKnownAssetPrices[j] in value.prices
    modifies buyHoldWallet
    ensures buyHoldWallet.Valid()
    ensures buyHoldWallet.balanceAtWalletCreation == old(buyHoldWallet.balanceAtWalletCreation)
    ensures buyHoldWallet.allowNegativeBalance == old(buyHoldWallet.allowNegativeBalance)
    ensures buyHoldWallet.allowNegativeHeld == old(buyHoldWallet.allowNegativeHeld)
    ensures err.None? <==> forall j :: 0 <= j < |toBuyNowAssets| ==>
              SliceAffordable(value, toBuyNowAssets, j, old(buyHoldWallet.balance), sliceForEveryAsset)
    ensures err.None? ==>
              && buyHoldWallet.balance == old(buyHoldWallet.balance) - Slices(sliceForEveryAsset, |toBuyNowAssets|)
              && buyHoldWallet.holdings == WithSlices(old(buyHoldWallet.holdings), value, toBuyNowAssets, |toBuyNowAssets|, sliceForEveryAsset)
              && buyHoldWallet.prices == WithPrices(WithPrices(old(buyHoldWallet.prices), value, toBuyNowAssets, |toBuyNowAssets|),
                                                    value, allKnownAssetPrices, |allKnownAssetPrices|)
  {
    ghost var done;
    err, done := BuyEach(value, buyHoldWallet, toBuyNowAssets, sliceForEveryAsset, now);
    if err.None? {
      PriceEach(value, buyHoldWallet, allKnownAssetPrices, now);
    }
  }

  /** One day of getTrendBalanceSnapshotsBuyAndHold on the parallel wallet:
      the assets to buy that the day prices and that are not held yet are
      held from now on and bought for one slice each, every asset the day
      prices takes the day's price, and the day's point is the parallel
      wallet's total value. A failing buy ends the whole run with its
      error. */
  method SimulateDay(value: Snapshot, buyHoldWallet: WalletSimulator, allAssetsToBuy: seq<string>,
                     allAssetsToHold: seq<string>, sliceForEveryAsset: real, now: int)
    returns (hold: seq<string>, point: Result<Snapshot, WalletError>)
    requires buyHoldWallet.Valid() && !buyHoldWallet.allowNegativeBalance
    requires forall x :: x in allAssetsToHold <==> x in buyHoldWallet.holdings
    requires forall x :: x in allAssetsToBuy && x != "" && x in buyHoldWallet.prices ==> x in buyHoldWallet.holdings
    modifies buyHoldWallet
    ensures buyHoldWallet.Valid()
    ensures buyHoldWallet.balanceAtWalletCreation == old(buyHoldWallet.balanceAtWalletCreation)
    ensures buyHoldWallet.allowNegativeBalance == old(buyHoldWallet.allowNegativeBalance)
    ensures buyHoldWallet.allowNegativeHeld == old(buyHoldWallet.allowNegativeHeld)
    ensures var bought := Bought(value, allAssetsToBuy, old(buyHoldWallet.holdings), sliceForEveryAsset);
            && (point.Ok? ==> forall x :: x in bought ==> value.prices[x] != 0.0)
            && (sliceForEveryAsset >= 0.0 ==>
                  (point.Ok? <==> && (forall x :: x in bought ==> value.prices[x] != 0.0)
                                  && (|bought| == 0 || old(buyHoldWallet.balance) >= Slices(sliceForEveryAsset, |bought|))))
    ensures point.Ok? ==>
              var after := NextDay(HoldState(old(buyHoldWallet.balance), old(buyHoldWallet.holdings), old(buyHoldWallet.prices)),
                                   value, allAssetsToBuy, sliceForEveryAsset);
              && HoldState(buyHoldWallet.balance, buyHoldWallet.holdings, buyHoldWallet.prices) == after
              && point.value == Snapshot(value.date, HoldValue(after), value.prices)
              && (forall x :: x in hold <==> x in buyHoldWallet.holdings)
  {
    ghost var before := HoldState(buyHoldWallet.balance, buyHoldWallet.holdings, buyHoldWallet.prices);
    var allKnownAssetPrices := ObjectKeys(value.prices);
    var toBuyNowAssets := OnlyNotBought(allKnownAssetPrices, allAssetsToBuy, allAssetsToHold);
    SubsequenceDistinct(toBuyNowAssets, allKnownAssetPrices);
    hold := allAssetsToHold + toBuyNowAssets;
    DayPlan(value, allAssetsToBuy, before, toBuyNowAssets, allKnownAssetPrices, sliceForEveryAsset);
    ghost var after := NextDay(before, value, allAssetsToBuy, sliceForEveryAsset);
    var err := TradeDay(value, buyHoldWallet, toBuyNowAssets, allKnownAssetPrices, sliceForEveryAsset, now);
    if err.Some? {
      point := Err(err.value);
      return;
    }
    assert buyHoldWallet.balance == after.cash && buyHoldWallet.holdings == after.holdings;
    assert buyHoldWallet.prices == after.prices;
    var total := buyHoldWallet.GetTotalValue();
    SumPositionsIsSumHeld(buyHoldWallet.tickers, buyHoldWallet.holdings, buyHoldWallet.prices);
    point := Ok(Snapshot(value.date, total, value.prices));
    assert HoldState(buyHoldWallet.balance, buyHoldWallet.holdings, buyHoldWallet.prices) == after;
  }

  /** The forEach of getTrendBalanceSnapshotsBuyAndHold: a fresh wallet
      seeded with `totBuyHoldBalance`, cut into one slice per asset to buy
      plus one for cash, replays the days in order (SimulateDay). It fails
      exactly when an asset's first price is 0 (with a seed of at least 0);
      otherwise its points are those of the reference benchmark. */
  method ReplayBuyAndHold(sortedResults: seq<Snapshot>, allAssetsToBuy: seq<string>, totBuyHoldBalance: real, now: int)
    returns (r: Result<seq<Snapshot>, WalletError>)
    ensures var slice := SliceFor(totBuyHoldBalance, allAssetsToBuy);
            r.Ok? ==> && FirstPricesNonzero(sortedResults, allAssetsToBuy)
                      && r.value == BuyHoldPoints(sortedResults, allAssetsToBuy, totBuyHoldBalance, slice)
    ensures totBuyHoldBalance >= 0.0 ==> (r.Ok? <==> FirstPricesNonzero(sortedResults, allAssetsToBuy))
  {
    var allAssetsToHold: seq<string> := [];
    var result: seq<Snapshot> := [];
    var sliceForEveryAsset := SliceFor(totBuyHoldBalance, allAssetsToBuy);
    var buyHoldWallet := new WalletSimulator(totBuyHoldBalance, Overrides(None, None, None));
    var i := 0;
    while i < |sortedResults|
      invariant 0 <= i <= |sortedResults|
      invariant buyHoldWallet.Valid() && !buyHoldWallet.allowNegativeBalance
      invariant HoldState(buyHoldWallet.balance, buyHoldWallet.holdings, buyHoldWallet.prices)
                == BuyHoldAfter(sortedResults[..i], allAssetsToBuy, totBuyHoldBalance, sliceForEveryAsset)
      invariant forall x :: x in allAssetsToHold <==> x in buyHoldWallet.holdings
      invariant forall x :: x in allAssetsToBuy && x != "" && x in buyHoldWallet.prices ==> x in buyHoldWallet.holdings
      invariant result == BuyHoldPoints(sortedResults[..i], allAssetsToBuy, totBuyHoldBalance, sliceForEveryAsset)
      invariant FirstPricesNonzero(sortedResults[..i], allAssetsToBuy)
    {
      var value := sortedResults[i];
      BuyHoldDay(sortedResults, allAssetsToBuy, totBuyHoldBalance, sliceForEveryAsset, i);
      ghost var after := BuyHoldAfter(sortedResults[..i + 1], allAssetsToBuy, totBuyHoldBalance, sliceForEveryAsset);
      var hold, point := SimulateDay(value, buyHoldWallet, allAssetsToBuy, allAssetsToHold, sliceForEveryAsset, now);
      if point.Err? {
        assert totBuyHoldBalance >= 0.0 ==> !FirstPricesNonzero(sortedResults[..i + 1], allAssetsToBuy);
        if FirstPricesNonzero(sortedResults, allAssetsToBuy) {
          FirstPricesPrefix(sortedResults, allAssetsToBuy, i + 1);
        }
        return Err(point.error);
      }
      assert HoldState(buyHoldWallet.balance, buyHoldWallet.holdings, buyHoldWallet.prices) == after;
      assert point.value == Snapshot(value.date, HoldValue(after), value.prices);
      assert FirstPricesNonzero(sortedResults[..i + 1], allAssetsToBuy);
      allAssetsToHold := hold;
      result := result + [point.value];
      i := i + 1;
    }
    assert sortedResults[..i] == sortedResults;
    r := Ok(result);
  }

  /** A stored trade handed back to addTrade as options, as the trades
      setter does: every field is present. */
  function AsOptions(t: Trade): TradeOptions
  {
    TradeOptions(t.ticker, Some(t.price), t.quantity, t.move, Some(t.createdTimestamp), t.fee, t.id)
  }

  /** `r` is what addTrade may store for the stored trade `t`: the same
      ticker, quantity, side, fee and id, and the same price and timestamp
      wherever those are truthy (a 0 falls back to the known price or the
      clock). */
  predicate ResolvedFrom(r: Trade, t: Trade)
  {
    && r.ticker == t.ticker && r.quantity == t.quantity && r.move == t.move
    && r.fee == t.fee && r.id == t.id
    && (t.price != 0.0 ==> r.price == t.price)
    && (t.createdTimestamp != 0 ==> r.createdTimestamp == t.createdTimestamp)
  }

  /** Resolving a stored trade again keeps it: the result is resolved from
      it, and is the trade itself when its price and timestamp are both
      non-zero; it fails only for a zero price with no known price. */
  lemma AsOptionsRoundTrip(t: Trade, priceOfThisAssetToday: Option<real>, now: int)
    ensures var r := TradeOptionToTrade(AsOptions(t), priceOfThisAssetToday, now);
            && (r.Err? <==> t.price == 0.0 && priceOfThisAssetToday.None?)
            && (r.Ok? ==> ResolvedFrom(r.value, t))
            && (t.price != 0.0 && t.createdTimestamp != 0 ==> r == Ok(t))
  {
  }

  /** The map of getDonutAssetInformation over the keys `owned`, given the
      total value, then the cash as "$". */
  method DonutOf(balance: real, owned: seq<string>, held: map<string, real>, priced: map<string, real>, totalValue: real)
    returns (assetsInfo: seq<DonutAssetInfo>)
    requires Priced(owned, held, priced) && totalValue == Valuation(balance, owned, held, priced)
    ensures assetsInfo == Donut(balance, owned, held, priced)
  {
    assetsInfo := seq(|owned|, i requires 0 <= i < |owned| && owned[i] in held && owned[i] in priced =>
      var value := held[owned[i]] * priced[owned[i]];
      DonutAssetInfo(owned[i], value, Percentage(value, totalValue)));
    assetsInfo := assetsInfo + [DonutAssetInfo("$", balance, Percentage(balance, totalValue))];
    assert forall i :: 0 <= i < |assetsInfo| ==> assetsInfo[i] == Donut(balance, owned, held, priced)[i];
  }

  class WalletSimulator {
    var balance: real
    var holdings: map<string, real>
    /** The keys of `holdings` in the order they were added; Object.keys
        lists them as OwnKeys(tickers), array indexes first. */
    var tickers: seq<string>
    var prices: map<string, real>
    var costBasis: map<string, real>
    var trades: seq<Trade>
    var daySnapshots: map<CivilDate, Snapshot>
    var balanceAtWalletCreation: real
    var allowNegativeBalance: bool
    var allowNegativeHeld: bool

    /** Every holding is listed once and priced, has a cost basis, and every
        snapshot is stored under the day of its own date. */
    /** The fields the trades change, as one value. */
    ghost function BooksNow(): Books
      reads this
    {
      Books(balance, holdings, prices, tickers, costBasis, trades, daySnapshots)
    }

    ghost predicate Valid()
      reads this
    {
      && Distinct(tickers)
      && (forall t :: t in holdings <==> t in tickers)
      && Priced(tickers, holdings, prices)
      && (forall t {:trigger t in costBasis} :: t in costBasis <==> t in holdings)
      && (forall k :: k in daySnapshots ==> DayKey(daySnapshots[k].date) == k)
    }

    /** A wallet holding `balance` in cash and nothing else; the creation
        balance is the starting balance unless overridden. */
    constructor(balance: real, overrides: Overrides)
      ensures Valid()
      ensures this.balance == balance && holdings == map[] && tickers == [] && prices == map[]
      ensures costBasis == map[] && trades == [] && daySnapshots == map[]
      ensures balanceAtWalletCreation == if overrides.balanceAtWalletCreation.Some? && overrides.balanceAtWalletCreation.value != 0.0
                                         then overrides.balanceAtWalletCreation.value else balance
      ensures allowNegativeBalance == (overrides.allowNegativeBalance == Some(true))
      ensures allowNegativeHeld == (overrides.allowNegativeHeld == Some(true))
    {
      this.balance := balance;
      holdings := map[];
      tickers := [];
      prices := map[];
      costBasis := map[];
      trades := [];
      daySnapshots := map[];
      balanceAtWalletCreation := balance;
      allowNegativeBalance := false;
      allowNegativeHeld := false;
      if overrides.allowNegativeBalance == Some(true) {
        allowNegativeBalance := true;
      }
      if overrides.allowNegativeHeld == Some(true) {
        allowNegativeHeld := true;
      }
      if overrides.balanceAtWalletCreation.Some? && overrides.balanceAtWalletCreation.value != 0.0 {
        balanceAtWalletCreation := overrides.balanceAtWalletCreation.value;
      }
    }

    /** getPositionQuantity: the holding, 0 for a ticker never traded. */
    function GetPositionQuantity(ticker: string): (r: real)
      reads this
      ensures ticker in holdings ==> r == holdings[ticker]
      ensures ticker !in holdings ==> r == 0.0
    {
      AmountOr0(holdings, ticker)
    }

    /** getPrice: the stored price, which may be 0; an unknown ticker is an
        error. */
    function GetPrice(ticker: string): (r: Result<real, WalletError>)
      reads this
      ensures r.Err? <==> ticker !in prices
      ensures r.Err? ==> r.error == UnknownPrice(ticker)
      ensures r.Ok? ==> r.value == prices[ticker]
    {
      if ticker in prices then Ok(prices[ticker]) else Err(UnknownPrice(ticker))
    }

    /** getPositionAverageCost: the cost basis spread over the quantity
        held, or 0 when nothing is held. */
    function GetPositionAverageCost(ticker: string): (r: real)
      reads this
      requires Valid()
      ensures GetPositionQuantity(ticker) == 0.0 ==> r == 0.0
      ensures GetPositionQuantity(ticker) != 0.0 ==> r * holdings[ticker] == costBasis[ticker]
    {
      var quantity := GetPositionQuantity(ticker);
      if quantity == 0.0 then 0.0 else costBasis[ticker] / quantity
    }

    /** getEstimatedLiquidationPrice: 0 when nothing is held, otherwise the
        average cost; so it always equals the average cost. */
    function GetEstimatedLiquidationPrice(ticker: string): (r: real)
      reads this
      requires Valid()
      ensures r == GetPositionAverageCost(ticker)
    {
      var quantity := GetPositionQuantity(ticker);
      if quantity == 0.0 then 0.0 else GetPositionAverageCost(ticker)
    }

    /** getEstimatedUnrealizedProfitLoss: what selling the whole holding at
        the current price would gain over its cost basis, 0 when nothing is
        held. */
    function GetEstimatedUnrealizedProfitLoss(ticker: string): (r: real)
      reads this
      requires Valid()
      ensures GetPositionQuantity(ticker) == 0.0 ==> r == 0.0
      ensures GetPositionQuantity(ticker) != 0.0 ==> r == holdings[ticker] * prices[ticker] - costBasis[ticker]
    {
      var quantity := GetPositionQuantity(ticker);
      if quantity == 0.0 then 0.0
      else
        var costBasisForTicker := GetPositionAverageCost(ticker);
        var price := prices[ticker];
        assert costBasisForTicker * quantity == costBasis[ticker];
        (price - costBasisForTicker) * quantity
    }

    /** getPositionValue: the holding (0 when none) times the price; an
        unknown price is an error. */
    function GetPositionValue(ticker: string): (r: Result<real, WalletError>)
      reads this
      ensures r.Err? <==> ticker !in prices
      ensures r.Err? ==> r.error == UnknownPrice(ticker)
      ensures r.Ok? ==> r.value == GetPositionQuantity(ticker) * prices[ticker]
    {
      match GetPrice(ticker)
      case Err(e) => Err(e)
      case Ok(price) => Ok(AmountOr0(holdings, ticker) * price)
    }

    /** getTotalValue: the cash plus the value of every holding, visited in
        the order Object.keys lists them. */
    method GetTotalValue() returns (totalValue: real)
      requires Valid()
      ensures totalValue == Valuation(balance, tickers, holdings, prices)
    {
      OwnKeysPermutes(tickers);
      SumPositionsReordered(tickers, OwnKeys(tickers), holdings, prices);
      totalValue := ValueOver(OwnKeys(tickers));
    }

    /** The loop of getTotalValue over the keys `owned`. */
    method ValueOver(owned: seq<string>) returns (totalValue: real)
      requires Priced(owned, holdings, prices)
      ensures totalValue == Valuation(balance, owned, holdings, prices)
    {
      var held, priced := holdings, prices;
      assert owned[0..] == owned;
      totalValue := balance;
      var i := 0;
      while i < |owned|
        invariant 0 <= i <= |owned|
        invariant Priced(owned[i..], held, priced)
        invariant totalValue + SumPositions(owned[i..], held, priced) == Valuation(balance, owned, held, priced)
      {
        var ticker := owned[i];
        var positionValue := GetPositionValue(ticker);
        SumPositionsStep(owned, i, held, priced);
        assert positionValue.value == held[ticker] * priced[ticker];
        totalValue := totalValue + positionValue.value;
        i := i + 1;
      }
    }

    /** getDonutAssetInformation: one slice per holding, in the order
        Object.keys lists them (array-index tickers first, in ascending
        numeric order, then the others in the order first traded), then the
        cash as "$". */
    method GetDonutAssetInformation() returns (assetsInfo: seq<DonutAssetInfo>)
      requires Valid()
      ensures Priced(OwnKeys(tickers), holdings, prices)
      ensures assetsInfo == Donut(balance, OwnKeys(tickers), holdings, prices)
    {
      var totalValue := GetTotalValue();
      OwnKeysPermutes(tickers);
      SumPositionsReordered(tickers, OwnKeys(tickers), holdings, prices);
      assetsInfo := DonutOf(balance, OwnKeys(tickers), holdings, prices, totalValue);
    }

    /** plMadeByOrders: the given orders, or the wallet's own trades when
        none are given (an array is always truthy, so only an absent list
        falls back), each shown as an order movement: its own fields, its
        notional, and the profit calculateProfitsMap stored under its key,
        which is that of the first order with the key. With distinct keys a
        buy shows no profit and a sell shows the profit of its recent buys
        unless that profit is 0 or NaN. */
    method PlMadeByOrders(orders: Option<seq<Trade>>) returns (movements: seq<OrderMovementInfo>)
      ensures var allOrders := orders.GetOr(trades);
              && |movements| == |allOrders|
              && forall i :: 0 <= i < |allOrders| ==>
                   && movements[i].date == allOrders[i].createdTimestamp
                   && movements[i].orderId == allOrders[i].id
                   && movements[i].side == allOrders[i].move
                   && movements[i].ticker == allOrders[i].ticker
                   && movements[i].fee == allOrders[i].fee
                   && movements[i].priceAt == allOrders[i].price
                   && movements[i].quantity == allOrders[i].quantity
                   && movements[i].notional == allOrders[i].quantity * allOrders[i].price
      ensures var allOrders := orders.GetOr(trades);
              forall i :: 0 <= i < |allOrders| ==>
                movements[i].profit == GetSafeNull(ProfitAt(allOrders, FirstWithKey(allOrders, i)), Undefined)
    {
      var allOrders := orders.GetOr(trades);
      var profitsMap := CalculateProfitsMap(allOrders);
      movements := seq(|allOrders|, i requires 0 <= i < |allOrders| => Movement(allOrders[i], profitsMap));
      MovementsShowFirst(allOrders, movements);
    }

    /** getAllOwnedAssets: every ticker ever traded, once each, in the order
        Object.keys lists them (array-index tickers first, in ascending
        numeric order). */
    function GetAllOwnedAssets(): (r: seq<string>)
      reads this
      requires Valid()
      ensures Distinct(r)
      ensures forall t :: t in r <==> t in holdings
      ensures forall i, j :: 0 <= i < j < |r| && IsArrayIndex(r[j]) ==>
                IsArrayIndex(r[i]) && IndexValue(r[i]) <= IndexValue(r[j])
      ensures KeysWhere(r, false) == KeysWhere(tickers, false)
    {
      OwnKeysPermutes(tickers);
      DistinctReordered(tickers, OwnKeys(tickers));
      assert forall t :: t in OwnKeys(tickers) <==> t in multiset(OwnKeys(tickers));
      OwnKeysIndexesFirst(tickers);
      OwnKeysOthersInOrder(tickers);
      OwnKeys(tickers)
    }

    /** sortedDaySnapshotsOnRange: the stored snapshots dated from
        `pastDate` to `today`, collected in key order and then sorted by
        date. The key order is left open; the result does not depend on it
        because no two snapshots share a date. */
    method SortedDaySnapshotsOnRange(pastDate: int, today: int) returns (result: seq<Snapshot>)
      requires Valid()
      ensures KeyedByDay(daySnapshots)
      ensures result == OnRange(daySnapshots, pastDate, today)
    {
      KeyedDatedUniquely(daySnapshots);
      var collected := CollectOnRange(daySnapshots, pastDate, today);
      SortByDateAscending(collected);
      result := SortByDate(collected);
      forall s
        ensures s in result <==> s in collected
      {
        assert s in result <==> s in multiset(result);
      }
      AscendingUnique(result, OnRange(daySnapshots, pastDate, today));
    }

    /** getTrendBalanceSnapshots: the snapshots from `backDays` days before
        now up to one day before now, with every gap of more than a day
        filled by copies of the earlier snapshot, up to the day before now.
        TrendShape states what this series looks like. */
    method GetTrendBalanceSnapshots(backDays: int, now: Option<int>, clock: int) returns (r: seq<Snapshot>)
      requires Valid()
      ensures KeyedByDay(daySnapshots)
      ensures var nowDate := NowOr(now, clock);
              r == FilledWithLast(OnRange(daySnapshots, DaysBefore(nowDate, backDays), DaysBefore(nowDate, 1)),
                                  Snapshot(nowDate, -1.0, prices))
    {
      var nowDate := NowOr(now, clock);
      var today := DaysBefore(nowDate, 1);
      var pastDate := DaysBefore(nowDate, backDays);
      var result := SortedDaySnapshotsOnRange(pastDate, today);
      r := FillTimestreamGapsWithLastRecord(result, Snapshot(nowDate, -1.0, prices));
    }

    /** getTrendBalanceSnapshotsBuyAndHold: replays the snapshots of the same
        range on a fresh wallet seeded with the creation balance, cut into
        one slice per owned asset plus one for cash; each asset is bought for
        one slice on the first day that prices it, and each day's point is
        that wallet's value. The run fails exactly when an asset's first
        price is 0 (with a seed of at least 0); otherwise its points are
        those of the reference benchmark, gaps filled. */
    method GetTrendBalanceSnapshotsBuyAndHold(backDays: int, now: Option<int>, clock: int) returns (r: Result<seq<Snapshot>, WalletError>)
      requires Valid()
      ensures KeyedByDay(daySnapshots)
      ensures var nowDate := NowOr(now, clock);
              var days := OnRange(daySnapshots, DaysBefore(nowDate, backDays), DaysBefore(nowDate, 1));
              var owned := GetAllOwnedAssets();
              var slice := SliceFor(balanceAtWalletCreation, owned);
              && (r.Ok? ==> && FirstPricesNonzero(days, owned)
                            && r.value == FilledWithLast(BuyHoldPoints(days, owned, balanceAtWalletCreation, slice),
                                                         Snapshot(nowDate, -1.0, prices)))
              && (balanceAtWalletCreation >= 0.0 ==> (r.Ok? <==> FirstPricesNonzero(days, owned)))
    {
      var allAssetsToBuy := GetAllOwnedAssets();
      var nowDate := NowOr(now, clock);
      var today := DaysBefore(nowDate, 1);
      var pastDate := DaysBefore(nowDate, backDays);
      var sortedResults := SortedDaySnapshotsOnRange(pastDate, today);
      var points := ReplayBuyAndHold(sortedResults, allAssetsToBuy, balanceAtWalletCreation, clock);
      if points.Err? {
        return Err(points.error);
      }
      var filled := FillTimestreamGapsWithLastRecord(points.value, Snapshot(nowDate, -1.0, prices));
      r := Ok(filled);
    }

    /** updateTodayBalance: stores the snapshot of the day of `updateDateMs`
        (the clock when it is absent or 0), replacing that day's earlier
        one. */
    method UpdateTodayBalance(updateDateMs: Option<int>, now: int)
      requires Valid()
      modifies this
      ensures Valid()
      ensures daySnapshots == Recorded(old(daySnapshots), updateDateMs, now, Valuation(balance, tickers, holdings, prices), prices)
      ensures balance == old(balance) && holdings == old(holdings) && tickers == old(tickers) && prices == old(prices)
      ensures costBasis == old(costBasis) && trades == old(trades)
      ensures balanceAtWalletCreation == old(balanceAtWalletCreation)
      ensures allowNegativeBalance == old(allowNegativeBalance) && allowNegativeHeld == old(allowNegativeHeld)
    {
      var dateMs := TimestampOr(updateDateMs, now);
      var todayKey := DayKey(dateMs);
      var value := GetTotalValue();
      daySnapshots := daySnapshots[todayKey := Snapshot(dateMs, value, prices)];
    }

    /** updatePrice: a price equal to the defined one changes nothing;
        any other price is stored and the day's snapshot rewritten. */
    method UpdatePrice(ticker: string, price: real, nowTimestamp: Option<int>, now: int)
      requires Valid()
      modifies this
      ensures Valid()
      ensures SamePrice(old(prices), ticker, price) ==> prices == old(prices) && daySnapshots == old(daySnapshots)
      ensures !SamePrice(old(prices), ticker, price) ==>
                && prices == old(prices)[ticker := price]
                && daySnapshots == Recorded(old(daySnapshots), nowTimestamp, now, Valuation(balance, tickers, holdings, prices), prices)
      ensures balance == old(balance) && holdings == old(holdings) && tickers == old(tickers)
      ensures costBasis == old(costBasis) && trades == old(trades)
      ensures balanceAtWalletCreation == old(balanceAtWalletCreation)
      ensures allowNegativeBalance == old(allowNegativeBalance) && allowNegativeHeld == old(allowNegativeHeld)
    {
      if !PriceDefined(prices, ticker) || price != prices[ticker] {
        prices := prices[ticker := price];
        UpdateTodayBalance(nowTimestamp, now);
      }
    }

    /** updateCostBasis: adds `tradeCost` to the ticker's cost basis (0 when
        it has none). */
    method UpdateCostBasis(trade: Trade, tradeCost: real)
      modifies this
      ensures costBasis == old(costBasis)[trade.ticker := AmountOr0(old(costBasis), trade.ticker) + tradeCost]
      ensures balance == old(balance) && holdings == old(holdings) && tickers == old(tickers) && prices == old(prices)
      ensures trades == old(trades) && daySnapshots == old(daySnapshots)
      ensures balanceAtWalletCreation == old(balanceAtWalletCreation)
      ensures allowNegativeBalance == old(allowNegativeBalance) && allowNegativeHeld == old(allowNegativeHeld)
    {
      var currentCostForTicker := AmountOr0(costBasis, trade.ticker);
      costBasis := costBasis[trade.ticker := currentCostForTicker + tradeCost];
    }

    /** buy: unless overdrafts are allowed, a buy costing more than the cash
        (fee included) fails and changes nothing. Otherwise the price is
        updated at the trade's instant, the cost with its fee is paid, the
        quantity is added and the fee-free cost joins the cost basis. */
    method Buy(trade: Trade, now: int) returns (err: Option<WalletError>)
      requires Valid()
      modifies this
      ensures Valid()
      ensures var completeCost := AddFee(Notional(trade), FeeRate(trade));
              err.Some? <==> !old(allowNegativeBalance) && old(balance) < completeCost
      ensures err.Some? ==> err.value == InsufficientFunds(trade.ticker, trade.quantity, trade.price)
      ensures err.Some? ==> && balance == old(balance) && holdings == old(holdings) && tickers == old(tickers)
                            && prices == old(prices) && costBasis == old(costBasis) && daySnapshots == old(daySnapshots)
      ensures err.None? ==>
                && balance == old(balance) - AddFee(Notional(trade), FeeRate(trade))
                && holdings == old(holdings)[trade.ticker := AmountOr0(old(holdings), trade.ticker) + trade.quantity]
                && tickers == ListedAfter(old(tickers), old(holdings), trade.ticker)
                && costBasis == old(costBasis)[trade.ticker := AmountOr0(old(costBasis), trade.ticker) + Notional(trade)]
                && prices == old(prices)[trade.ticker := trade.price]
                && daySnapshots == if SamePrice(old(prices), trade.ticker, trade.price) then old(daySnapshots)
                                   else Recorded(old(daySnapshots), Some(trade.createdTimestamp), now,
                                                 Valuation(old(balance), old(tickers), old(holdings), prices), prices)
      ensures trades == old(trades) && balanceAtWalletCreation == old(balanceAtWalletCreation)
      ensures allowNegativeBalance == old(allowNegativeBalance) && allowNegativeHeld == old(allowNegativeHeld)
    {
      var completeCostNoFees := Notional(trade);
      var completeCost := AddFee(Notional(trade), FeeRate(trade));
      if !allowNegativeBalance && balance < completeCost {
        return Some(InsufficientFunds(trade.ticker, trade.quantity, trade.price));
      }
      UpdatePrice(trade.ticker, trade.price, Some(trade.createdTimestamp), now);
      ApplyBuy(trade, completeCost, completeCostNoFees);
      err := None;
    }

    /** The rest of buy once the price is in: pays `completeCost`, adds the
        quantity (listing a new ticker last) and adds `completeCostNoFees`
        to the cost basis. */
    method ApplyBuy(trade: Trade, completeCost: real, completeCostNoFees: real)
      requires Valid() && trade.ticker in prices
      modifies this
      ensures Valid()
      ensures balance == old(balance) - completeCost
      ensures holdings == old(holdings)[trade.ticker := AmountOr0(old(holdings), trade.ticker) + trade.quantity]
      ensures tickers == ListedAfter(old(tickers), old(holdings), trade.ticker)
      ensures costBasis == old(costBasis)[trade.ticker := AmountOr0(old(costBasis), trade.ticker) + completeCostNoFees]
      ensures prices == old(prices) && daySnapshots == old(daySnapshots) && trades == old(trades)
      ensures balanceAtWalletCreation == old(balanceAtWalletCreation)
      ensures allowNegativeBalance == old(allowNegativeBalance) && allowNegativeHeld == old(allowNegativeHeld)
    {
      balance := balance - completeCost;
      var currentQuantity := GetPositionQuantity(trade.ticker);
      ListedAfterValid(tickers, holdings, prices, trade.ticker, currentQuantity + trade.quantity);
      if trade.ticker !in holdings {
        tickers := tickers + [trade.ticker];
      }
      holdings := holdings[trade.ticker := currentQuantity + trade.quantity];
      UpdateCostBasis(trade, completeCostNoFees);
    }

    /** sell: unless oversells are allowed, selling more than is held fails
        and changes nothing. Otherwise the price is updated at the clock's
        instant, the proceeds less the fee are credited, the holding drops
        to what is left (never below 0), and the cost basis drops by the
        unit price. */
    method Sell(trade: Trade, now: int) returns (err: Option<WalletError>)
      requires Valid()
      modifies this
      ensures Valid()
      ensures err.Some? <==> !old(allowNegativeHeld) && AmountOr0(old(holdings), trade.ticker) < trade.quantity
      ensures err.Some? ==> err.value == InsufficientHoldings(trade.ticker, trade.quantity, AmountOr0(old(holdings), trade.ticker))
      ensures err.Some? ==> && balance == old(balance) && holdings == old(holdings) && tickers == old(tickers)
                            && prices == old(prices) && costBasis == old(costBasis) && daySnapshots == old(daySnapshots)
      ensures err.None? ==>
                && balance == old(balance) + RemoveFee(Notional(trade), FeeRate(trade))
                && holdings == old(holdings)[trade.ticker := Max(0.0, AmountOr0(old(holdings), trade.ticker) - trade.quantity)]
                && tickers == ListedAfter(old(tickers), old(holdings), trade.ticker)
                && costBasis == old(costBasis)[trade.ticker := AmountOr0(old(costBasis), trade.ticker) + -trade.price]
                && prices == old(prices)[trade.ticker := trade.price]
                && daySnapshots == if SamePrice(old(prices), trade.ticker, trade.price) then old(daySnapshots)
                                   else Recorded(old(daySnapshots), None, now,
                                                 Valuation(old(balance), old(tickers), old(holdings), prices), prices)
      ensures trades == old(trades) && balanceAtWalletCreation == old(balanceAtWalletCreation)
      ensures allowNegativeBalance == old(allowNegativeBalance) && allowNegativeHeld == old(allowNegativeHeld)
    {
      var ownedAssetQuantity := GetPositionQuantity(trade.ticker);
      if !allowNegativeHeld && ownedAssetQuantity < trade.quantity {
        return Some(InsufficientHoldings(trade.ticker, trade.quantity, ownedAssetQuantity));
      }
      ghost var oldCostBasis := costBasis;
      UpdatePrice(trade.ticker, trade.price, None, now);
      var tradeCost := Notional(trade);
      balance := balance + RemoveFee(tradeCost, FeeRate(trade));
      ListedAfterValid(tickers, holdings, prices, trade.ticker, Max(0.0, ownedAssetQuantity - trade.quantity));
      if trade.ticker !in holdings {
        tickers := tickers + [trade.ticker];
      }
      holdings := holdings[trade.ticker := Max(0.0, ownedAssetQuantity - trade.quantity)];
      assert costBasis == oldCostBasis;
      UpdateCostBasis(trade, -trade.price);
      assert costBasis == oldCostBasis[trade.ticker := AmountOr0(oldCostBasis, trade.ticker) + -trade.price];
      err := None;
    }

    /** The wallet after `trade` was applied and logged: the trade is
        appended to the log and its price stored; a buy pays the cost and
        its fee, adds the quantity and adds the fee-free cost to the cost
        basis; a sell collects the proceeds less the fee, leaves what is
        left of the holding (never below 0) and takes the unit price off
        the cost basis. The snapshot of the trade's day is taken last; a
        sell that changed the price has also stored one for the clock's
        day just before. */
    twostate predicate Traded(trade: Trade, now: int)
      reads this
    {
      var t := trade.ticker;
      && Priced(tickers, holdings, prices)
      && trades == old(trades) + [trade]
      && prices == old(prices)[t := trade.price]
      && tickers == ListedAfter(old(tickers), old(holdings), t)
      && (trade.move.Buy? ==>
            && balance == old(balance) - AddFee(Notional(trade), FeeRate(trade))
            && holdings == old(holdings)[t := AmountOr0(old(holdings), t) + trade.quantity]
            && costBasis == old(costBasis)[t := AmountOr0(old(costBasis), t) + Notional(trade)]
            && daySnapshots == old(daySnapshots)[DayKey(trade.createdTimestamp) :=
                 Snapshot(trade.createdTimestamp, Valuation(balance, tickers, holdings, prices), prices)])
      && (trade.move.Sell? ==>
            && balance == old(balance) + RemoveFee(Notional(trade), FeeRate(trade))
            && holdings == old(holdings)[t := Max(0.0, AmountOr0(old(holdings), t) - trade.quantity)]
            && costBasis == old(costBasis)[t := AmountOr0(old(costBasis), t) + -trade.price]
            && Priced(old(tickers), old(holdings), prices)
            && daySnapshots == (if SamePrice(old(prices), t, trade.price) then old(daySnapshots)
                                else Recorded(old(daySnapshots), None, now,
                                              Valuation(old(balance), old(tickers), old(holdings), prices), prices))
                               [DayKey(trade.createdTimestamp) :=
                                 Snapshot(trade.createdTimestamp, Valuation(balance, tickers, holdings, prices), prices)])
    }

    /** addTrade: resolves the options (a missing price falls back to the
        defined price, a missing timestamp to the clock), applies the buy or
        sell, logs the trade and rewrites the snapshot of the trade's day. A
        failure at any step leaves the wallet as it was. */
    method AddTrade(incTrade: TradeOptions, now: int) returns (err: Option<WalletError>)
      requires Valid()
      modifies this
      ensures Valid()
      ensures var resolved := TradeOptionToTrade(incTrade, PriceIfDefined(old(prices), incTrade.ticker), now);
              && (resolved.Err? ==> err == Some(resolved.error))
              && (resolved.Ok? && resolved.value.move.Buy? ==>
                    (err.Some? <==> !old(allowNegativeBalance) && old(balance) < AddFee(Notional(resolved.value), FeeRate(resolved.value))))
              && (resolved.Ok? && resolved.value.move.Sell? ==>
                    (err.Some? <==> !old(allowNegativeHeld) && AmountOr0(old(holdings), incTrade.ticker) < incTrade.quantity))
      ensures err.Some? ==> && balance == old(balance) && holdings == old(holdings) && tickers == old(tickers)
                            && prices == old(prices) && costBasis == old(costBasis) && daySnapshots == old(daySnapshots)
                            && trades == old(trades)
      ensures err.None? ==>
                var resolved := TradeOptionToTrade(incTrade, PriceIfDefined(old(prices), incTrade.ticker), now);
                resolved.Ok? && Traded(resolved.value, now)
      ensures balanceAtWalletCreation == old(balanceAtWalletCreation)
      ensures allowNegativeBalance == old(allowNegativeBalance) && allowNegativeHeld == old(allowNegativeHeld)
    {
      var resolved := TradeOptionToTrade(incTrade, PriceIfDefined(prices, incTrade.ticker), now);
      if resolved.Err? {
        return Some(resolved.error);
      }
      var trade := resolved.value;
      assert TimestampOr(incTrade.createdTimestamp, now) == trade.createdTimestamp;
      assert TimestampOr(Some(trade.createdTimestamp), now) == trade.createdTimestamp;
      if trade.move.Buy? {
        err := Buy(trade, now);
        if err.Some? {
          return;
        }
        Overwritten(old(daySnapshots), DayKey(trade.createdTimestamp), Snapshot(trade.createdTimestamp,
          Valuation(old(balance), old(tickers), old(holdings), prices), prices),
          Snapshot(trade.createdTimestamp, Valuation(balance, tickers, holdings, prices), prices));
      } else {
        err := Sell(trade, now);
        if err.Some? {
          return;
        }
      }
      ghost var traded := daySnapshots;
      trades := trades + [trade];
      UpdateTodayBalance(incTrade.createdTimestamp, now);
      assert daySnapshots == traded[DayKey(trade.createdTimestamp) :=
        Snapshot(trade.createdTimestamp, Valuation(balance, tickers, holdings, prices), prices)];
      assert Traded(trade, now);
    }

    /** addTrade on a stored trade: on success the log grows by one trade
        resolved from it, on failure it stays as it was. */
    method AddStored(t: Trade, now: int) returns (err: Option<WalletError>)
      requires Valid()
      modifies this
      ensures Valid()
      ensures err.None? ==> |trades| == |old(trades)| + 1 && trades[..|old(trades)|] == old(trades)
                            && ResolvedFrom(trades[|old(trades)|], t)
      ensures err.Some? ==> trades == old(trades)
      ensures balanceAtWalletCreation == old(balanceAtWalletCreation)
      ensures allowNegativeBalance == old(allowNegativeBalance) && allowNegativeHeld == old(allowNegativeHeld)
    {
      ghost var resolved := TradeOptionToTrade(AsOptions(t), PriceIfDefined(prices, t.ticker), now);
      AsOptionsRoundTrip(t, PriceIfDefined(prices, t.ticker), now);
      err := AddTrade(AsOptions(t), now);
      if err.None? {
        assert resolved.Ok? && trades == old(trades) + [resolved.value];
      }
    }

    /** addTrade on each trade of `value` in turn, stopping at the first
        that throws. Each one that goes through appends what it resolved to
        to the log. */
    method AddEach(value: seq<Trade>, now: int) returns (err: Option<WalletError>)
      requires Valid()
      modifies this
      ensures Valid()
      ensures |old(trades)| <= |trades| <= |old(trades)| + |value|
      ensures trades[..|old(trades)|] == old(trades)
      ensures forall i :: 0 <= i < |trades| - |old(trades)| ==> ResolvedFrom(trades[|old(trades)| + i], value[i])
      ensures err.None? <==> |trades| == |old(trades)| + |value|
      ensures balanceAtWalletCreation == old(balanceAtWalletCreation)
      ensures allowNegativeBalance == old(allowNegativeBalance) && allowNegativeHeld == old(allowNegativeHeld)
    {
      ghost var log0 := trades;
      err := None;
      var i := 0;
      while i < |value| && err.None?
        invariant 0 <= i <= |value|
        invariant Valid()
        invariant |trades| == |log0| + i
        invariant trades[..|log0|] == log0
        invariant forall j :: 0 <= j < i ==> ResolvedFrom(trades[|log0| + j], value[j])
        invariant err.Some? ==> i < |value|
        invariant balanceAtWalletCreation == old(balanceAtWalletCreation)
        invariant allowNegativeBalance == old(allowNegativeBalance) && allowNegativeHeld == old(allowNegativeHeld)
        decreases |value| - i, if err.None? then 1 else 0
      {
        err := AddStored(value[i], now);
        if err.None? {
          i := i + 1;
        }
      }
    }

    /** The trades setter as written: the new list becomes the log, and the
        replay of its trades appends to that same list, so a replay that
        goes through leaves every trade in the log twice. */
    method SetTradesAsWritten(value: seq<Trade>, now: int) returns (err: Option<WalletError>)
      requires Valid()
      modifies this
      ensures Valid()
      ensures err.None? ==> |trades| == 2 * |value| && trades[..|value|] == value
      ensures err.None? && (forall t :: t in value ==> t.price != 0.0 && t.createdTimestamp != 0) ==>
                trades == value + value
    {
      trades := value;
      err := AddEach(value, now);
      if err.None? && forall t :: t in value ==> t.price != 0.0 && t.createdTimestamp != 0 {
        assert trades == trades[..|value|] + trades[|value|..];
        assert trades[|value|..] == value;
      }
    }

    /** The trades setter as evidently intended: the log starts empty and
        holds exactly the replayed trades, each once, in order. */
    method ReplayTrades(value: seq<Trade>, now: int) returns (err: Option<WalletError>)
      requires Valid()
      modifies this
      ensures Valid()
      ensures err.None? ==> |trades| == |value| && forall i :: 0 <= i < |value| ==> ResolvedFrom(trades[i], value[i])
      ensures err.Some? ==> |trades| < |value|
      ensures err.None? && (forall t :: t in value ==> t.price != 0.0 && t.createdTimestamp != 0) ==>
                trades == value
    {
      trades := [];
      err := AddEach(value, now);
    }
  }
}
