/** The arithmetic the wallet's queries do over its maps (getTotalValue,
    getPositionValue and getDonutAssetInformation in src/index.ts), and the
    ordering of snapshots by date that sortedDaySnapshotsOnRange produces. */
module Ledger {
  import opened Wrappers
  import opened Models
  import opened General

  /** `getSafeNull(m[key], 0)`: the stored amount, or 0 when there is none. */
  function AmountOr0(m: map<string, real>, key: string): (r: real)
    ensures GetSafeNull(if key in m then Num(m[key]) else Undefined, Num(0.0)) == Num(r)
  {
    if key in m then m[key] else 0.0
  }

  /** No ticker is listed twice. */
  predicate Distinct(tickers: seq<string>)
  {
    forall i, j :: 0 <= i < j < |tickers| ==> tickers[i] != tickers[j]
  }

  /** Every listed ticker has a holding and a price. */
  predicate Priced(tickers: seq<string>, holdings: map<string, real>, prices: map<string, real>)
  {
    forall t :: t in tickers ==> t in holdings && t in prices
  }

  /** The sum of `holdings[t] * prices[t]` over the tickers listed. */
  function SumPositions(tickers: seq<string>, holdings: map<string, real>, prices: map<string, real>): real
    requires Priced(tickers, holdings, prices)
  {
    if tickers == [] then 0.0
    else holdings[tickers[0]] * prices[tickers[0]] + SumPositions(tickers[1..], holdings, prices)
  }

  /** The sum over a suffix is its first position plus the sum over the
      rest. */
  lemma SumPositionsStep(tickers: seq<string>, i: int, holdings: map<string, real>, prices: map<string, real>)
    requires 0 <= i < |tickers| && Priced(tickers[i..], holdings, prices)
    ensures Priced(tickers[i + 1..], holdings, prices)
    ensures tickers[i] in holdings && tickers[i] in prices
    ensures SumPositions(tickers[i..], holdings, prices)
            == holdings[tickers[i]] * prices[tickers[i]] + SumPositions(tickers[i + 1..], holdings, prices)
  {
    assert tickers[i..][0] == tickers[i];
    assert tickers[i..][1..] == tickers[i + 1..];
  }

  /** What getTotalValue adds up: the cash and every position at its price. */
  function Valuation(balance: real, tickers: seq<string>, holdings: map<string, real>, prices: map<string, real>): real
    requires Priced(tickers, holdings, prices)
  {
    balance + SumPositions(tickers, holdings, prices)
  }

  /** A holding of a ticker that is not listed does not count. */
  lemma {:induction false} SumPositionsOther(tickers: seq<string>, holdings: map<string, real>, prices: map<string, real>,
                                             t: string, x: real, p: real)
    requires Priced(tickers, holdings, prices) && t !in tickers
    ensures Priced(tickers, holdings[t := x], prices[t := p])
    ensures SumPositions(tickers, holdings[t := x], prices[t := p]) == SumPositions(tickers, holdings, prices)
  {
    if tickers != [] {
      SumPositionsOther(tickers[1..], holdings, prices, t, x, p);
    }
  }

  /** Changing one listed ticker's holding or price changes the sum by the
      change in that position's value, and by nothing else. */
  lemma {:induction false} SumPositionsUpdate(tickers: seq<string>, holdings: map<string, real>, prices: map<string, real>,
                                              t: string, x: real, p: real)
    requires Priced(tickers, holdings, prices) && Distinct(tickers) && t in tickers
    ensures Priced(tickers, holdings[t := x], prices[t := p])
    ensures SumPositions(tickers, holdings[t := x], prices[t := p])
            == SumPositions(tickers, holdings, prices) + x * p - holdings[t] * prices[t]
  {
    assert Distinct(tickers[1..]);
    if tickers[0] == t {
      assert t !in tickers[1..];
      SumPositionsOther(tickers[1..], holdings, prices, t, x, p);
    } else {
      SumPositionsUpdate(tickers[1..], holdings, prices, t, x, p);
    }
  }

  /** A newly listed ticker adds its position's value. */
  lemma {:induction false} SumPositionsAppend(tickers: seq<string>, holdings: map<string, real>, prices: map<string, real>,
                                              t: string, x: real, p: real)
    requires Priced(tickers, holdings, prices) && t !in tickers
    ensures Priced(tickers + [t], holdings[t := x], prices[t := p])
    ensures SumPositions(tickers + [t], holdings[t := x], prices[t := p]) == SumPositions(tickers, holdings, prices) + x * p
  {
    if tickers == [] {
      assert [t][1..] == [];
    } else {
      assert (tickers + [t])[1..] == tickers[1..] + [t];
      SumPositionsAppend(tickers[1..], holdings, prices, t, x, p);
    }
  }

  /** The value of the holding of `t` at its price, 0 when it is unpriced. */
  function Worth(holdings: map<string, real>, prices: map<string, real>, t: string): real
    requires t in holdings
  {
    holdings[t] * AmountOr0(prices, t)
  }

  /** A holding's worth depends only on its own quantity and price. */
  lemma WorthSame(a: map<string, real>, b: map<string, real>, prices: map<string, real>, t: string)
    requires t in a && t in b && a[t] == b[t]
    ensures Worth(a, prices, t) == Worth(b, prices, t)
  {
  }

  /** The value of every holding at its price (0 for an unpriced one),
      added up in no particular order: the order-free counterpart of
      SumPositions. */
  ghost function SumHeld(holdings: map<string, real>, prices: map<string, real>): real
    decreases |holdings|
  {
    if holdings == map[] then 0.0
    else
      var t :| t in holdings;
      Worth(holdings, prices, t) + SumHeld(holdings - {t}, prices)
  }

  /** Any holding can be taken out of SumHeld first. */
  lemma {:induction false} SumHeldRemove(holdings: map<string, real>, prices: map<string, real>, t: string)
    requires t in holdings
    ensures SumHeld(holdings, prices) == Worth(holdings, prices, t) + SumHeld(holdings - {t}, prices)
    decreases |holdings|
  {
    var u :| u in holdings && SumHeld(holdings, prices) == Worth(holdings, prices, u) + SumHeld(holdings - {u}, prices);
    if u != t {
      var withoutU, withoutT := holdings - {u}, holdings - {t};
      SumHeldRemove(withoutU, prices, t);
      SumHeldRemove(withoutT, prices, u);
      assert withoutU - {t} == withoutT - {u};
      WorthSame(withoutU, holdings, prices, t);
      WorthSame(withoutT, holdings, prices, u);
    }
  }

  /** The sum over the listed tickers only looks at their own holdings. */
  lemma {:induction false} SumPositionsAgree(tickers: seq<string>, holdings: map<string, real>, other: map<string, real>,
                                             prices: map<string, real>)
    requires Priced(tickers, holdings, prices) && Priced(tickers, other, prices)
    requires forall t :: t in tickers ==> holdings[t] == other[t]
    ensures SumPositions(tickers, holdings, prices) == SumPositions(tickers, other, prices)
  {
    if tickers != [] {
      SumPositionsAgree(tickers[1..], holdings, other, prices);
    }
  }

  /** Listing every holding once, in any order, sums to SumHeld: the
      order Object.keys gives the holdings does not change the total. */
  lemma {:induction false} SumPositionsIsSumHeld(tickers: seq<string>, holdings: map<string, real>, prices: map<string, real>)
    requires Distinct(tickers) && Priced(tickers, holdings, prices)
    requires forall u :: u in holdings <==> u in tickers
    ensures SumPositions(tickers, holdings, prices) == SumHeld(holdings, prices)
  {
    if tickers == [] {
      assert holdings == map[];
    } else {
      var t := tickers[0];
      var rest := holdings - {t};
      DropFirstListed(tickers, holdings, prices);
      SumPositionsHead(tickers, holdings, prices);
      SumPositionsAgree(tickers[1..], holdings, rest, prices);
      SumPositionsIsSumHeld(tickers[1..], rest, prices);
      SumHeldRemove(holdings, prices, t);
    }
  }

  /** Taking the first listed ticker out of the holdings leaves the rest of
      the list listing the rest of the holdings. */
  lemma DropFirstListed(tickers: seq<string>, holdings: map<string, real>, prices: map<string, real>)
    requires tickers != [] && Distinct(tickers) && Priced(tickers, holdings, prices)
    requires forall u :: u in holdings <==> u in tickers
    ensures Distinct(tickers[1..]) && Priced(tickers[1..], holdings - {tickers[0]}, prices)
    ensures forall u :: u in holdings - {tickers[0]} <==> u in tickers[1..]
    ensures Worth(holdings, prices, tickers[0]) == holdings[tickers[0]] * prices[tickers[0]]
  {
    assert tickers == [tickers[0]] + tickers[1..];
    assert tickers[0] !in tickers[1..];
  }

  /** The sum over a list is its first position plus the sum over the rest. */
  lemma SumPositionsHead(tickers: seq<string>, holdings: map<string, real>, prices: map<string, real>)
    requires tickers != [] && Priced(tickers, holdings, prices)
    ensures Priced(tickers[1..], holdings, prices)
    ensures SumPositions(tickers, holdings, prices)
            == holdings[tickers[0]] * prices[tickers[0]] + SumPositions(tickers[1..], holdings, prices)
  {
  }

  /** The tickers after a trade of `t`: a ticker traded for the first time
      is listed last. */
  function ListedAfter(tickers: seq<string>, holdings: map<string, real>, t: string): seq<string>
  {
    if t in holdings then tickers else tickers + [t]
  }

  /** Trading a ticker keeps every holding listed once and priced, given
      that the ticker is priced. */
  lemma ListedAfterValid(tickers: seq<string>, holdings: map<string, real>, prices: map<string, real>, t: string, x: real)
    requires Distinct(tickers) && (forall u :: u in holdings <==> u in tickers)
    requires Priced(tickers, holdings, prices) && t in prices
    ensures Distinct(ListedAfter(tickers, holdings, t))
    ensures forall u :: u in holdings[t := x] <==> u in ListedAfter(tickers, holdings, t)
    ensures Priced(ListedAfter(tickers, holdings, t), holdings[t := x], prices)
  {
  }

  /** Moving the holding of `t` by `d`, to `x`, at its current price moves
      the sum of the positions by `d` times that price, whether or not `t`
      was listed. */
  lemma PositionsAfterTrade(tickers: seq<string>, holdings: map<string, real>, prices: map<string, real>,
                            t: string, x: real, d: real)
    requires Priced(tickers, holdings, prices) && Distinct(tickers)
    requires forall u :: u in holdings <==> u in tickers
    requires t in prices && x == AmountOr0(holdings, t) + d
    ensures Priced(ListedAfter(tickers, holdings, t), holdings[t := x], prices)
    ensures SumPositions(ListedAfter(tickers, holdings, t), holdings[t := x], prices)
            == SumPositions(tickers, holdings, prices) + prices[t] * d
  {
    if t in holdings {
      assert ListedAfter(tickers, holdings, t) == tickers;
      HeldAfterTrade(tickers, holdings, prices, t, x, d);
    } else {
      assert ListedAfter(tickers, holdings, t) == tickers + [t];
      assert x == d;
      NewAfterTrade(tickers, holdings, prices, t, x);
    }
  }

  lemma HeldAfterTrade(tickers: seq<string>, holdings: map<string, real>, prices: map<string, real>,
                       t: string, x: real, d: real)
    requires Priced(tickers, holdings, prices) && Distinct(tickers)
    requires t in tickers && t in holdings && t in prices && x == holdings[t] + d
    ensures Priced(tickers, holdings[t := x], prices)
    ensures SumPositions(tickers, holdings[t := x], prices)
            == SumPositions(tickers, holdings, prices) + prices[t] * d
  {
    var p := prices[t];
    assert prices[t := p] == prices;
    SumPositionsUpdate(tickers, holdings, prices, t, x, p);
    assert (holdings[t] + d) * p == holdings[t] * p + p * d;
  }

  lemma NewAfterTrade(tickers: seq<string>, holdings: map<string, real>, prices: map<string, real>,
                      t: string, x: real)
    requires Priced(tickers, holdings, prices)
    requires t !in tickers && t in prices
    ensures Priced(tickers + [t], holdings[t := x], prices)
    ensures SumPositions(tickers + [t], holdings[t := x], prices)
            == SumPositions(tickers, holdings, prices) + prices[t] * x
  {
    var p := prices[t];
    assert prices[t := p] == prices;
    SumPositionsAppend(tickers, holdings, prices, t, x, p);
    assert x * p == p * x;
  }

  /** A buy at the ticker's current price lowers the total value by exactly
      the fee: the cash paid for the position comes back as the position. */
  lemma BuyAtMarketCostsFee(balance: real, tickers: seq<string>, holdings: map<string, real>, prices: map<string, real>,
                            t: string, q: real, fee: real)
    requires Priced(tickers, holdings, prices) && Distinct(tickers)
    requires forall u :: u in holdings <==> u in tickers
    requires t in prices
    ensures Valuation(balance - AddFee(prices[t] * q, fee), ListedAfter(tickers, holdings, t), holdings[t := AmountOr0(holdings, t) + q], prices)
            == Valuation(balance, tickers, holdings, prices) - prices[t] * q * fee / 100.0
  {
    ValuationAfterTrade(balance - AddFee(prices[t] * q, fee), balance, tickers, holdings, prices, t, AmountOr0(holdings, t) + q, q, prices[t] * q);
  }

  /** A sell of no more than is held, at the ticker's current price, lowers
      the total value by exactly the fee. */
  lemma SellAtMarketCostsFee(balance: real, tickers: seq<string>, holdings: map<string, real>, prices: map<string, real>,
                             t: string, q: real, fee: real)
    requires Priced(tickers, holdings, prices) && Distinct(tickers)
    requires forall u :: u in holdings <==> u in tickers
    requires t in prices
    requires 0.0 <= q <= AmountOr0(holdings, t)
    ensures Priced(ListedAfter(tickers, holdings, t), holdings[t := AmountOr0(holdings, t) - q], prices)
    ensures Valuation(balance + RemoveFee(prices[t] * q, fee), ListedAfter(tickers, holdings, t), holdings[t := AmountOr0(holdings, t) - q], prices)
            == Valuation(balance, tickers, holdings, prices) - prices[t] * q * fee / 100.0
  {
    SellIsNegativeBuy(balance, prices[t], q, fee);
    assert holdings[t := AmountOr0(holdings, t) + -q] == holdings[t := AmountOr0(holdings, t) - q];
    ValuationAfterTrade(balance - AddFee(prices[t] * -q, -fee), balance, tickers, holdings, prices, t,
                        AmountOr0(holdings, t) + -q, -q, prices[t] * -q);
    BuyAtMarketCostsFee(balance, tickers, holdings, prices, t, -q, -fee);
  }

  /** The cash a sell of `q` brings in at a fee is the cash a buy of `-q`
      at the opposite fee takes out, and the two fees are worth the same. */
  lemma SellIsNegativeBuy(balance: real, p: real, q: real, fee: real)
    ensures balance - AddFee(p * -q, -fee) == balance + RemoveFee(p * q, fee)
    ensures p * -q * -fee / 100.0 == p * q * fee / 100.0
  {
    assert p * -q == -(p * q);
  }

  /** PositionsAfterTrade, with the cash before and after the trade: the
      value moves by the change in cash plus the change in the position. */
  lemma ValuationAfterTrade(cash: real, balance: real, tickers: seq<string>, holdings: map<string, real>,
                            prices: map<string, real>, t: string, x: real, d: real, delta: real)
    requires Priced(tickers, holdings, prices) && Distinct(tickers)
    requires forall u :: u in holdings <==> u in tickers
    requires t in prices && x == AmountOr0(holdings, t) + d && delta == prices[t] * d
    ensures Priced(ListedAfter(tickers, holdings, t), holdings[t := x], prices)
    ensures Valuation(cash, ListedAfter(tickers, holdings, t), holdings[t := x], prices)
            == Valuation(balance, tickers, holdings, prices) + (cash - balance) + delta
  {
    PositionsAfterTrade(tickers, holdings, prices, t, x, d);
  }

  /** A new price for a held ticker moves the total value by the holding
      times the price change. */
  lemma RepricingMovesValue(balance: real, tickers: seq<string>, holdings: map<string, real>, prices: map<string, real>,
                            t: string, p: real)
    requires Priced(tickers, holdings, prices) && Distinct(tickers)
    requires t in tickers
    ensures Priced(tickers, holdings, prices[t := p])
    ensures Valuation(balance, tickers, holdings, prices[t := p])
            == Valuation(balance, tickers, holdings, prices) + holdings[t] * (p - prices[t])
  {
    assert holdings[t := holdings[t]] == holdings;
    SumPositionsUpdate(tickers, holdings, prices, t, holdings[t], p);
  }

  /** `(value / totalValue) * 100`, absent where JavaScript would give NaN or
      an infinity (a total value of 0). */
  function Percentage(value: real, totalValue: real): (r: Option<real>)
    ensures r.Some? <==> totalValue != 0.0
    ensures r.Some? ==> r.value * totalValue == value * 100.0
  {
    if totalValue == 0.0 then None else Some((value / totalValue) * 100.0)
  }

  /** The donut breakdown: one slice per listed ticker, in order, then the
      cash under the ticker "$". */
  function Donut(balance: real, tickers: seq<string>, holdings: map<string, real>, prices: map<string, real>): (r: seq<DonutAssetInfo>)
    requires Priced(tickers, holdings, prices)
    ensures |r| == |tickers| + 1
    ensures forall i :: 0 <= i < |tickers| ==> r[i].ticker == tickers[i] && r[i].value == holdings[tickers[i]] * prices[tickers[i]]
    ensures r[|tickers|].ticker == "$" && r[|tickers|].value == balance
    ensures forall i :: 0 <= i < |r| ==> r[i].percentage == Percentage(r[i].value, Valuation(balance, tickers, holdings, prices))
  {
    var totalValue := Valuation(balance, tickers, holdings, prices);
    seq(|tickers|, i requires 0 <= i < |tickers| =>
      var value := holdings[tickers[i]] * prices[tickers[i]];
      DonutAssetInfo(tickers[i], value, Percentage(value, totalValue)))
    + [DonutAssetInfo("$", balance, Percentage(balance, totalValue))]
  }

  function SumValues(r: seq<DonutAssetInfo>): real
  {
    if r == [] then 0.0 else r[0].value + SumValues(r[1..])
  }

  function SumPercentages(r: seq<DonutAssetInfo>): real
    requires forall i :: 0 <= i < |r| ==> r[i].percentage.Some?
  {
    if r == [] then 0.0 else r[0].percentage.value + SumPercentages(r[1..])
  }

  lemma {:induction false} SumValuesAppend(r: seq<DonutAssetInfo>, x: DonutAssetInfo)
    ensures SumValues(r + [x]) == SumValues(r) + x.value
  {
    if r != [] {
      assert (r + [x])[1..] == r[1..] + [x];
      SumValuesAppend(r[1..], x);
    }
  }

  lemma {:induction false} SlicesSum(tickers: seq<string>, holdings: map<string, real>, prices: map<string, real>,
                                     r: seq<DonutAssetInfo>)
    requires Priced(tickers, holdings, prices)
    requires |r| == |tickers|
    requires forall i :: 0 <= i < |tickers| ==> r[i].value == holdings[tickers[i]] * prices[tickers[i]]
    ensures SumValues(r) == SumPositions(tickers, holdings, prices)
  {
    if tickers != [] {
      SlicesSum(tickers[1..], holdings, prices, r[1..]);
    }
  }

  lemma {:induction false} PercentagesScale(r: seq<DonutAssetInfo>, totalValue: real)
    requires totalValue != 0.0
    requires forall i :: 0 <= i < |r| ==> r[i].percentage == Percentage(r[i].value, totalValue)
    requires forall i :: 0 <= i < |r| ==> r[i].percentage.Some?
    ensures SumPercentages(r) * totalValue == SumValues(r) * 100.0
  {
    if r != [] {
      PercentagesScale(r[1..], totalValue);
      assert r[0].percentage.value * totalValue == r[0].value * 100.0;
    }
  }

  /** The slices add up to the total value, and when that is not 0 their
      percentages add up to 100. */
  lemma DonutAddsUp(balance: real, tickers: seq<string>, holdings: map<string, real>, prices: map<string, real>)
    requires Priced(tickers, holdings, prices)
    ensures SumValues(Donut(balance, tickers, holdings, prices)) == Valuation(balance, tickers, holdings, prices)
    ensures Valuation(balance, tickers, holdings, prices) != 0.0 ==>
              SumPercentages(Donut(balance, tickers, holdings, prices)) == 100.0
  {
    var r := Donut(balance, tickers, holdings, prices);
    var total := Valuation(balance, tickers, holdings, prices);
    assert r == r[..|tickers|] + [r[|tickers|]];
    SlicesSum(tickers, holdings, prices, r[..|tickers|]);
    SumValuesAppend(r[..|tickers|], r[|tickers|]);
    assert SumValues(r) == total;
    if total != 0.0 {
      PercentagesScale(r, total);
      assert (SumPercentages(r) - 100.0) * total == 0.0;
      CancelNonzero(SumPercentages(r) - 100.0, total);
    }
  }

  /** A product with a non-zero factor is 0 only when the other factor is. */
  lemma CancelNonzero(a: real, t: real)
    requires t != 0.0 && a * t == 0.0
    ensures a == 0.0
  {
  }

  /** Snapshots in strictly increasing order of date. */
  predicate Ascending(r: seq<Snapshot>)
  {
    forall i, j :: 0 <= i < j < |r| ==> r[i].date < r[j].date
  }

  /** Puts `s` after every snapshot of `r` dated before it. */
  function InsertByDate(r: seq<Snapshot>, s: Snapshot): (q: seq<Snapshot>)
    ensures multiset(q) == multiset(r) + multiset{s}
  {
    if r == [] then [s]
    else if s.date < r[0].date then [s] + r
    else
      assert r == [r[0]] + r[1..];
      [r[0]] + InsertByDate(r[1..], s)
  }

  /** Inserting a snapshot whose date is not yet there keeps the list
      ascending. */
  lemma {:induction false} InsertByDateAscending(r: seq<Snapshot>, s: Snapshot)
    requires Ascending(r)
    requires forall x :: x in r ==> x.date != s.date
    ensures Ascending(InsertByDate(r, s))
  {
    if r != [] && s.date >= r[0].date {
      InsertByDateAscending(r[1..], s);
      var q := InsertByDate(r, s);
      var t := InsertByDate(r[1..], s);
      assert q == [r[0]] + t;
      forall x | x in t ensures r[0].date < x.date {
        assert x in multiset(t);
        if x != s {
          assert x in r[1..];
        }
      }
    }
  }

  /** No two snapshots of the list share a date. */
  predicate DistinctDates(r: seq<Snapshot>)
  {
    forall i, j :: 0 <= i < j < |r| ==> r[i].date != r[j].date
  }

  /** `sort((a, b) => a.date - b.date)`: the same snapshots, put in order of
      date one at a time. */
  function SortByDate(r: seq<Snapshot>): (q: seq<Snapshot>)
    ensures multiset(q) == multiset(r)
    decreases |r|
  {
    if r == [] then []
    else
      assert r == r[..|r| - 1] + [r[|r| - 1]];
      InsertByDate(SortByDate(r[..|r| - 1]), r[|r| - 1])
  }

  /** When no two snapshots share a date, sorting puts them in strictly
      increasing order of date. */
  lemma {:induction false} SortByDateAscending(r: seq<Snapshot>)
    requires DistinctDates(r)
    ensures Ascending(SortByDate(r))
    decreases |r|
  {
    if r != [] {
      var init := r[..|r| - 1];
      var last := r[|r| - 1];
      var sorted := SortByDate(init);
      assert DistinctDates(init);
      SortByDateAscending(init);
      forall x | x in sorted
        ensures x.date != last.date
      {
        assert x in multiset(init);
        var i :| 0 <= i < |init| && init[i] == x;
        assert r[i] == x;
      }
      InsertByDateAscending(sorted, last);
    }
  }

  /** The head of an ascending list is dated no later than any of its
      elements, and is the only element dated that early. */
  lemma AscendingHead(a: seq<Snapshot>, x: Snapshot)
    requires Ascending(a) && x in a
    ensures a[0].date <= x.date
    ensures x.date <= a[0].date ==> x == a[0]
  {
    var i :| 0 <= i < |a| && a[i] == x;
  }

  /** Two ascending lists of the same snapshots are the same list: the
      order by date leaves no choice. */
  lemma {:induction false} AscendingUnique(a: seq<Snapshot>, b: seq<Snapshot>)
    requires Ascending(a) && Ascending(b)
    requires forall x :: x in a <==> x in b
    ensures a == b
  {
    assert a == [] <==> b == [] by {
      if a != [] {
        assert a[0] in b;
      }
      if b != [] {
        assert b[0] in a;
      }
    }
    if a != [] {
      AscendingHead(a, b[0]);
      AscendingHead(b, a[0]);
      forall x ensures x in a[1..] <==> x in b[1..] {
        if x in a[1..] {
          assert x in b && x != b[0];
        }
        if x in b[1..] {
          assert x in a && x != a[0];
        }
      }
      AscendingUnique(a[1..], b[1..]);
      assert a == [a[0]] + a[1..] && b == [b[0]] + b[1..];
    }
  }
}
