/** The buy-and-hold benchmark of getTrendBalanceSnapshotsBuyAndHold in
    src/index.ts, stated as a reference: the parallel wallet after each day
    of the price history, computed without Object.keys order. */
module BuyAndHold {
  import opened Models
  import opened General
  import opened Ledger

  /** `slice / price`: the quantity one slice buys at a price. JavaScript
      gives an infinite quantity for a zero price; the model gives 0, which
      is never used (a first price of 0 makes the buy fail). */
  function SliceQuantity(slice: real, price: real): (r: real)
    ensures price != 0.0 ==> r * price == slice
  {
    if price == 0.0 then 0.0 else slice / price
  }

  /** The parallel wallet: its cash, what it holds and the prices it knows. */
  datatype HoldState = HoldState(cash: real, holdings: map<string, real>, prices: map<string, real>)

  /** Some day of the history prices `x`. */
  predicate Seen(days: seq<Snapshot>, x: string)
  {
    exists i :: 0 <= i < |days| && x in days[i].prices
  }

  /** A ticker is seen in a history exactly when it is seen before its last
      day or on it. */
  lemma SeenStep(days: seq<Snapshot>, x: string)
    requires days != []
    ensures Seen(days, x) <==> Seen(days[..|days| - 1], x) || x in days[|days| - 1].prices
  {
    var before := days[..|days| - 1];
    if Seen(days, x) && !(x in days[|days| - 1].prices) {
      var i :| 0 <= i < |days| && x in days[i].prices;
      assert before[i] == days[i];
    }
    if Seen(before, x) {
      var i :| 0 <= i < |before| && x in before[i].prices;
      assert days[i] == before[i];
    }
  }

  /** The first day that prices `x`. */
  function FirstSeen(days: seq<Snapshot>, x: string): (i: nat)
    requires Seen(days, x)
    ensures i < |days| && x in days[i].prices
    ensures forall j :: 0 <= j < i ==> x !in days[j].prices
  {
    SeenStep(days, x);
    var before := days[..|days| - 1];
    if Seen(before, x) then
      var i := FirstSeen(before, x);
      assert forall j :: 0 <= j < i ==> before[j] == days[j];
      assert before[i] == days[i];
      i
    else
      assert forall j :: 0 <= j < |days| - 1 ==> x !in before[j].prices;
      |days| - 1
  }

  /** What the parallel wallet is after the days of `days`: it holds each
      ticker of `toBuy` (never the empty one) that some day priced, the
      quantity one slice bought at the first price it was seen at; it paid
      one slice per holding out of `seed`; it knows a price for every
      ticker seen, the last day's prices winning. */
  ghost predicate Summarizes(r: HoldState, days: seq<Snapshot>, toBuy: seq<string>, seed: real, slice: real)
  {
    && (forall x :: x in r.holdings <==> x in toBuy && x != "" && Seen(days, x))
    && (forall x :: x in r.holdings ==> r.holdings[x] == SliceQuantity(slice, days[FirstSeen(days, x)].prices[x]))
    && r.cash == seed - Slices(slice, |r.holdings|)
    && (forall x :: x in r.prices <==> Seen(days, x))
    && (days != [] ==> forall x :: x in days[|days| - 1].prices ==> r.prices[x] == days[|days| - 1].prices[x])
  }

  /** What one day buys: one slice of each ticker of `toBuy` the day prices
      that is not held yet, never the empty ticker. */
  function Bought(day: Snapshot, toBuy: seq<string>, holdings: map<string, real>, slice: real): map<string, real>
  {
    map x | x in day.prices && x in toBuy && x != "" && x !in holdings :: SliceQuantity(slice, day.prices[x])
  }

  /** The parallel wallet after one more day: it buys, for one slice each,
      the tickers of `toBuy` the day prices that it does not hold yet (never
      the empty ticker), then takes the day's prices. */
  function NextDay(before: HoldState, day: Snapshot, toBuy: seq<string>, slice: real): HoldState
  {
    var bought := Bought(day, toBuy, before.holdings, slice);
    HoldState(before.cash - Slices(slice, |bought|), before.holdings + bought, before.prices + day.prices)
  }

  /** The parallel wallet after the days of `days`, starting from `seed` in
      cash and nothing else. */
  function BuyHoldAfter(days: seq<Snapshot>, toBuy: seq<string>, seed: real, slice: real): HoldState
    decreases |days|
  {
    if days == [] then HoldState(seed, map[], map[])
    else NextDay(BuyHoldAfter(days[..|days| - 1], toBuy, seed, slice), days[|days| - 1], toBuy, slice)
  }

  /** The parallel wallet after any history is what Summarizes describes. */
  lemma {:induction false} BuyHoldSummary(days: seq<Snapshot>, toBuy: seq<string>, seed: real, slice: real)
    ensures Summarizes(BuyHoldAfter(days, toBuy, seed, slice), days, toBuy, seed, slice)
    decreases |days|
  {
    if days != [] {
      var before := BuyHoldAfter(days[..|days| - 1], toBuy, seed, slice);
      BuyHoldSummary(days[..|days| - 1], toBuy, seed, slice);
      BuyHoldStep(days, toBuy, seed, slice, before);
    }
  }

  /** One more day keeps the summary true. */
  lemma BuyHoldStep(days: seq<Snapshot>, toBuy: seq<string>, seed: real, slice: real, before: HoldState)
    requires days != [] && Summarizes(before, days[..|days| - 1], toBuy, seed, slice)
    ensures Summarizes(NextDay(before, days[|days| - 1], toBuy, slice), days, toBuy, seed, slice)
  {
    var after := NextDay(before, days[|days| - 1], toBuy, slice);
    StepHoldings(days, toBuy, slice, before);
    StepPrices(days, toBuy, slice, before);
    StepCash(before, days[|days| - 1], toBuy, seed, slice);
    assert Summarizes(after, days, toBuy, seed, slice);
  }

  /** One more day holds what it bought besides what was held, each at
      the quantity its first price bought. */
  lemma StepHoldings(days: seq<Snapshot>, toBuy: seq<string>, slice: real, before: HoldState)
    requires days != []
    requires forall x :: x in before.holdings <==> x in toBuy && x != "" && Seen(days[..|days| - 1], x)
    requires forall x :: x in before.holdings ==>
               before.holdings[x] == SliceQuantity(slice, days[..|days| - 1][FirstSeen(days[..|days| - 1], x)].prices[x])
    ensures var after := NextDay(before, days[|days| - 1], toBuy, slice);
            && (forall x :: x in after.holdings <==> x in toBuy && x != "" && Seen(days, x))
            && (forall x :: x in after.holdings ==> after.holdings[x] == SliceQuantity(slice, days[FirstSeen(days, x)].prices[x]))
  {
    var prefix, day := days[..|days| - 1], days[|days| - 1];
    var after := NextDay(before, day, toBuy, slice);
    var bought := Bought(day, toBuy, before.holdings, slice);
    assert after.holdings == before.holdings + bought;
    forall x
      ensures x in after.holdings <==> x in toBuy && x != "" && Seen(days, x)
    {
      SeenStep(days, x);
    }
    forall x | x in after.holdings
      ensures after.holdings[x] == SliceQuantity(slice, days[FirstSeen(days, x)].prices[x])
    {
      SeenStep(days, x);
      if x in before.holdings {
        assert prefix[FirstSeen(prefix, x)] == days[FirstSeen(days, x)];
      } else {
        assert FirstSeen(days, x) == |days| - 1;
      }
    }
  }

  /** One more day knows the prices known before and that day's, the
      day's winning. */
  lemma StepPrices(days: seq<Snapshot>, toBuy: seq<string>, slice: real, before: HoldState)
    requires days != []
    requires forall x :: x in before.prices <==> Seen(days[..|days| - 1], x)
    ensures var after := NextDay(before, days[|days| - 1], toBuy, slice);
            && (forall x :: x in after.prices <==> Seen(days, x))
            && (forall x :: x in days[|days| - 1].prices ==> after.prices[x] == days[|days| - 1].prices[x])
  {
    forall x
      ensures x in NextDay(before, days[|days| - 1], toBuy, slice).prices <==> Seen(days, x)
    {
      SeenStep(days, x);
    }
  }

  /** One more day pays one slice per ticker it buys. */
  lemma StepCash(before: HoldState, day: Snapshot, toBuy: seq<string>, seed: real, slice: real)
    requires before.cash == seed - Slices(slice, |before.holdings|)
    ensures var after := NextDay(before, day, toBuy, slice);
            after.cash == seed - Slices(slice, |after.holdings|)
  {
    var bought := Bought(day, toBuy, before.holdings, slice);
    var after := NextDay(before, day, toBuy, slice);
    assert after.holdings.Keys == before.holdings.Keys + bought.Keys;
    assert before.holdings.Keys !! bought.Keys;
    assert |after.holdings| == |before.holdings| + |bought|;
    SlicesAdd(slice, |before.holdings|, |bought|);
    assert after.cash == before.cash - Slices(slice, |bought|);
  }

  /** `totBuyHoldBalance / (allAssetsToBuy.length + 1)`: the seed cut into
      one slice per asset to buy and one more for cash. */
  function SliceFor(seed: real, toBuy: seq<string>): real
  {
    seed / (|toBuy| + 1) as real
  }

  /** What `n` slices cost, paid one slice at a time. */
  function Slices(slice: real, n: nat): real
  {
    if n == 0 then 0.0 else Slices(slice, n - 1) + slice
  }

  /** Paying `a` slices and then `b` more is paying `a + b` slices. */
  lemma {:induction false} SlicesAdd(slice: real, a: nat, b: nat)
    ensures Slices(slice, a) + Slices(slice, b) == Slices(slice, a + b)
    decreases b
  {
    if b != 0 {
      SlicesAdd(slice, a, b - 1);
    }
  }

  /** `n` slices cost the slice times `n`. */
  lemma {:induction false} SlicesProduct(slice: real, n: nat)
    ensures Slices(slice, n) == slice * n as real
  {
    if n != 0 {
      SlicesProduct(slice, n - 1);
    }
  }

  /** The first day that prices a ticker no earlier day prices is that day. */
  lemma FirstSeenIs(days: seq<Snapshot>, x: string, i: int)
    requires 0 <= i < |days| && x in days[i].prices && !Seen(days[..i], x)
    ensures Seen(days, x) && FirstSeen(days, x) == i
  {
    assert Seen(days, x);
  }

  /** What getTotalValue reports for the parallel wallet: its cash plus
      every holding at its price. */
  ghost function HoldValue(s: HoldState): real
  {
    s.cash + SumHeld(s.holdings, s.prices)
  }

  /** The benchmark's points before gaps are filled: one per day of the
      history, with the day's date and prices and the value of the parallel
      wallet after that day. */
  ghost function BuyHoldPoints(days: seq<Snapshot>, toBuy: seq<string>, seed: real, slice: real): (r: seq<Snapshot>)
    ensures |r| == |days|
    decreases |days|
  {
    if days == [] then []
    else
      BuyHoldPoints(days[..|days| - 1], toBuy, seed, slice)
      + [Snapshot(days[|days| - 1].date, HoldValue(BuyHoldAfter(days, toBuy, seed, slice)), days[|days| - 1].prices)]
  }

  /** Point `i` carries day `i`'s date and prices and the value of the
      parallel wallet after the first `i + 1` days. */
  lemma {:induction false} BuyHoldPointsAt(days: seq<Snapshot>, toBuy: seq<string>, seed: real, slice: real, i: int)
    requires 0 <= i < |days|
    ensures BuyHoldPoints(days, toBuy, seed, slice)[i]
            == Snapshot(days[i].date, HoldValue(BuyHoldAfter(days[..i + 1], toBuy, seed, slice)), days[i].prices)
    decreases |days|
  {
    var prefix := days[..|days| - 1];
    var before := BuyHoldPoints(prefix, toBuy, seed, slice);
    var last := Snapshot(days[|days| - 1].date, HoldValue(BuyHoldAfter(days, toBuy, seed, slice)), days[|days| - 1].prices);
    assert BuyHoldPoints(days, toBuy, seed, slice) == before + [last];
    if i == |days| - 1 {
      assert days[..i + 1] == days;
    } else {
      BuyHoldPointsAt(prefix, toBuy, seed, slice, i);
      assert prefix[..i + 1] == days[..i + 1];
      assert (before + [last])[i] == before[i];
    }
  }

  /** A set inside another is no larger. */
  lemma {:induction false} SubsetCard(a: set<string>, b: set<string>)
    requires a <= b
    ensures |a| <= |b|
    decreases |a|
  {
    if a != {} {
      var x :| x in a;
      SubsetCard(a - {x}, b - {x});
    }
  }

  /** A list has at least as many entries as distinct values. */
  lemma {:induction false} SetOfSeqCard(s: seq<string>)
    ensures |set x | x in s| <= |s|
  {
    if s != [] {
      SetOfSeqCard(s[1..]);
      assert (set x | x in s) == (set x | x in s[1..]) + {s[0]};
    }
  }

  /** The parallel wallet never holds more tickers than there are to buy. */
  lemma HeldAtMost(days: seq<Snapshot>, toBuy: seq<string>, seed: real, slice: real)
    ensures |BuyHoldAfter(days, toBuy, seed, slice).holdings| <= |toBuy|
  {
    var held := BuyHoldAfter(days, toBuy, seed, slice).holdings;
    BuyHoldSummary(days, toBuy, seed, slice);
    SubsetCard(held.Keys, set x | x in toBuy);
    SetOfSeqCard(toBuy);
  }

  /** With a seed of at least 0, `k` of its slices cost no more than the
      seed, for any `k` up to the number of assets to buy. */
  lemma SlicesAfford(seed: real, toBuy: seq<string>, k: nat)
    requires seed >= 0.0 && k <= |toBuy|
    ensures SliceFor(seed, toBuy) >= 0.0
    ensures Slices(SliceFor(seed, toBuy), k) <= seed
  {
    var slice := SliceFor(seed, toBuy);
    assert slice * (|toBuy| + 1) as real == seed;
    SlicesProduct(slice, |toBuy| + 1);
    SlicesMonotone(slice, k, |toBuy| + 1);
  }

  /** With a slice of at least 0, more slices cost at least as much. */
  lemma {:induction false} SlicesMonotone(slice: real, a: nat, b: nat)
    requires slice >= 0.0 && a <= b
    ensures Slices(slice, a) <= Slices(slice, b)
    decreases b
  {
    if a < b {
      SlicesMonotone(slice, a, b - 1);
    }
  }

  /** The sum of the holdings when each is worth the same `slice`. */
  lemma {:induction false} SumHeldEqual(holdings: map<string, real>, prices: map<string, real>, slice: real)
    requires forall x :: x in holdings ==> Worth(holdings, prices, x) == slice
    ensures SumHeld(holdings, prices) == Slices(slice, |holdings|)
    decreases |holdings|
  {
    if holdings != map[] {
      var x :| x in holdings;
      var rest := holdings - {x};
      SumHeldRemove(holdings, prices, x);
      forall y | y in rest
        ensures Worth(rest, prices, y) == slice
      {
        WorthSame(rest, holdings, prices, y);
      }
      SumHeldEqual(rest, prices, slice);
      assert |holdings| == |rest| + 1;
    }
  }

  /** A benchmark whose held tickers are still priced as when they were
      bought is worth exactly its seed: each holding gives back its slice. */
  lemma BuyHoldFlat(days: seq<Snapshot>, toBuy: seq<string>, seed: real, slice: real)
    requires var s := BuyHoldAfter(days, toBuy, seed, slice);
             forall x :: x in s.holdings && Seen(days, x) ==> x in s.prices && s.prices[x] == days[FirstSeen(days, x)].prices[x] != 0.0
    ensures HoldValue(BuyHoldAfter(days, toBuy, seed, slice)) == seed
  {
    BuyHoldSummary(days, toBuy, seed, slice);
    SummaryFlat(BuyHoldAfter(days, toBuy, seed, slice), days, toBuy, seed, slice);
  }

  /** The step of BuyHoldFlat on any state that summarizes the days. */
  lemma SummaryFlat(s: HoldState, days: seq<Snapshot>, toBuy: seq<string>, seed: real, slice: real)
    requires Summarizes(s, days, toBuy, seed, slice)
    requires forall x :: x in s.holdings && Seen(days, x) ==> x in s.prices && s.prices[x] == days[FirstSeen(days, x)].prices[x] != 0.0
    ensures HoldValue(s) == seed
  {
    forall x | x in s.holdings
      ensures Worth(s.holdings, s.prices, x) == slice
    {
      assert Seen(days, x);
      WorthOfSlice(s.holdings, s.prices, x, slice, days[FirstSeen(days, x)].prices[x]);
    }
    SumHeldEqual(s.holdings, s.prices, slice);
  }

  /** A holding bought with one slice at the price it still has is worth
      that slice. */
  lemma WorthOfSlice(holdings: map<string, real>, prices: map<string, real>, x: string, slice: real, p: real)
    requires x in holdings && x in prices && p != 0.0
    requires holdings[x] == SliceQuantity(slice, p) && prices[x] == p
    ensures Worth(holdings, prices, x) == slice
  {
    assert SliceQuantity(slice, p) * p == slice;
  }

  /** A list without repeats has as many distinct values as entries. */
  lemma {:induction false} DistinctCard(s: seq<string>)
    requires Distinct(s)
    ensures |set x | x in s| == |s|
  {
    if s != [] {
      assert Distinct(s[1..]);
      DistinctCard(s[1..]);
      assert (set x | x in s) == (set x | x in s[1..]) + {s[0]};
      assert s[0] !in s[1..];
    }
  }

  /** Every entry of a subsequence is an entry of the whole list. */
  lemma {:induction false} SubsequenceIn(a: seq<string>, b: seq<string>)
    requires IsSubsequence(a, b)
    ensures forall x :: x in a ==> x in b
    decreases |b|
  {
    if a != [] && b != [] {
      if a[0] == b[0] {
        SubsequenceIn(a[1..], b[1..]);
        assert a == [a[0]] + a[1..];
      } else {
        SubsequenceIn(a, b[1..]);
      }
    }
  }

  /** A subsequence of a list without repeats has none either. */
  lemma {:induction false} SubsequenceDistinct(a: seq<string>, b: seq<string>)
    requires IsSubsequence(a, b) && Distinct(b)
    ensures Distinct(a)
    decreases |b|
  {
    if a != [] && b != [] {
      assert Distinct(b[1..]);
      if a[0] == b[0] {
        SubsequenceDistinct(a[1..], b[1..]);
        SubsequenceIn(a[1..], b[1..]);
        assert b[0] !in b[1..];
        assert forall j :: 0 < j < |a| ==> a[j] in a[1..];
      } else {
        SubsequenceDistinct(a, b[1..]);
      }
    }
  }

  /** Every asset to buy is given a non-zero price on the first day that
      prices it. */
  ghost predicate FirstPricesNonzero(days: seq<Snapshot>, toBuy: seq<string>)
  {
    forall i, x :: 0 <= i < |days| && x in days[i].prices && x in toBuy && x != "" && !Seen(days[..i], x)
                   ==> days[i].prices[x] != 0.0
  }

  /** FirstPricesNonzero grows one day at a time: it holds of the days up to
      `i` exactly when it holds of those before and the assets first priced
      on day `i` are given a non-zero price. */
  lemma FirstPricesStep(days: seq<Snapshot>, toBuy: seq<string>, i: int)
    requires 0 <= i < |days|
    ensures FirstPricesNonzero(days[..i + 1], toBuy) <==>
              && FirstPricesNonzero(days[..i], toBuy)
              && forall x :: x in days[i].prices && x in toBuy && x != "" && !Seen(days[..i], x) ==> days[i].prices[x] != 0.0
  {
    var longer := days[..i + 1];
    assert longer[..i] == days[..i];
    forall j | 0 <= j < i
      ensures longer[..j] == days[..i][..j] && longer[j] == days[..i][j]
    {
    }
  }

  /** FirstPricesNonzero of the whole list holds of every prefix. */
  lemma FirstPricesPrefix(days: seq<Snapshot>, toBuy: seq<string>, n: int)
    requires 0 <= n <= |days| && FirstPricesNonzero(days, toBuy)
    ensures FirstPricesNonzero(days[..n], toBuy)
  {
    forall j | 0 <= j < n
      ensures days[..n][..j] == days[..j] && days[..n][j] == days[j]
    {
    }
  }

  /** Day `i` of a history, as the benchmark loop meets it: the parallel
      wallet after it is NextDay of the wallet before it, the points gain
      that day's point, the first prices stay non-zero exactly when those
      of the tickers bought that day are, and with slices cut from a seed of
      at least 0 the cash always covers that day's buys. */
  lemma BuyHoldDay(days: seq<Snapshot>, toBuy: seq<string>, seed: real, slice: real, i: int)
    requires 0 <= i < |days|
    ensures var before := BuyHoldAfter(days[..i], toBuy, seed, slice);
            var after := BuyHoldAfter(days[..i + 1], toBuy, seed, slice);
            var bought := Bought(days[i], toBuy, before.holdings, slice);
            && after == NextDay(before, days[i], toBuy, slice)
            && BuyHoldPoints(days[..i + 1], toBuy, seed, slice)
               == BuyHoldPoints(days[..i], toBuy, seed, slice) + [Snapshot(days[i].date, HoldValue(after), days[i].prices)]
            && (FirstPricesNonzero(days[..i + 1], toBuy) <==>
                  FirstPricesNonzero(days[..i], toBuy) && forall x :: x in bought ==> days[i].prices[x] != 0.0)
            && (seed >= 0.0 && slice == SliceFor(seed, toBuy) ==>
                  slice >= 0.0 && (|bought| == 0 || before.cash >= Slices(slice, |bought|)))
  {
    var prefix := days[..i + 1];
    assert prefix[..i] == days[..i];
    assert prefix[|prefix| - 1] == days[i];
    var before := BuyHoldAfter(days[..i], toBuy, seed, slice);
    var after := BuyHoldAfter(prefix, toBuy, seed, slice);
    var bought := Bought(days[i], toBuy, before.holdings, slice);
    BuyHoldSummary(days[..i], toBuy, seed, slice);
    FirstPricesStep(days, toBuy, i);
    forall x
      ensures x in bought <==> x in days[i].prices && x in toBuy && x != "" && !Seen(days[..i], x)
    {
    }
    if seed >= 0.0 && slice == SliceFor(seed, toBuy) {
      StepCash(before, days[i], toBuy, seed, slice);
      HeldAtMost(prefix, toBuy, seed, slice);
      SlicesAfford(seed, toBuy, |after.holdings|);
      assert after.holdings.Keys == before.holdings.Keys + bought.Keys;
      assert before.holdings.Keys !! bought.Keys;
      assert |after.holdings| == |before.holdings| + |bought|;
      SlicesAdd(slice, |before.holdings|, |bought|);
    }
  }
}
