/** The realized profit of each sell order (calculateProfitsMap in
    src/index.ts): a sell is matched against the average price of the buys
    of its ticker just before it. */
module Profits {
  import opened Wrappers
  import opened Models
  import opened General

  /** How many earlier buys a sell is averaged over at most. */
  const WindowSize: nat := 5

  predicate IsBuyOf(t: Trade, ticker: string)
  {
    t.move == Buy && t.ticker == ticker
  }

  predicate IsSellOf(t: Trade, ticker: string)
  {
    t.move == Sell && t.ticker == ticker
  }

  /** The property name an order's profit is stored under: JavaScript turns
      the id into a string, so an absent id becomes "undefined". */
  function KeyOf(id: Option<string>): string
  {
    match id
    case Some(s) => s
    case None => "undefined"
  }

  /** The buys collected for a sell, walking back from index `j`: buys of
      `ticker`, most recent first, at most `room` of them, and none from
      before an earlier sell of `ticker`. */
  function BuyWindow(orders: seq<Trade>, ticker: string, j: int, room: nat): (w: seq<Trade>)
    requires -1 <= j < |orders|
    ensures |w| <= room
    ensures forall t :: t in w ==> IsBuyOf(t, ticker) && t in orders[..j + 1]
    decreases j + 1
  {
    if j < 0 || room == 0 then []
    else if IsBuyOf(orders[j], ticker) then [orders[j]] + BuyWindow(orders, ticker, j - 1, room - 1)
    else if IsSellOf(orders[j], ticker) then []
    else BuyWindow(orders, ticker, j - 1, room)
  }

  /** The buys of `ticker` among orders[lo..hi], most recent first. */
  function RecentBuys(orders: seq<Trade>, ticker: string, lo: int, hi: int): seq<Trade>
    requires 0 <= lo && hi <= |orders|
    decreases hi - lo
  {
    if hi <= lo then []
    else (if IsBuyOf(orders[hi - 1], ticker) then [orders[hi - 1]] else []) + RecentBuys(orders, ticker, lo, hi - 1)
  }

  /** The index of the last sell of `ticker` before index `hi`, or -1. */
  function LastSellBefore(orders: seq<Trade>, ticker: string, hi: int): (r: int)
    requires 0 <= hi <= |orders|
    ensures -1 <= r < hi
    ensures r >= 0 ==> IsSellOf(orders[r], ticker)
    ensures forall k :: r < k < hi ==> !IsSellOf(orders[k], ticker)
  {
    if hi == 0 then -1
    else if IsSellOf(orders[hi - 1], ticker) then hi - 1
    else LastSellBefore(orders, ticker, hi - 1)
  }

  /** The first `n` elements of `s`, or all of them when there are fewer. */
  function Take<T>(s: seq<T>, n: nat): seq<T>
  {
    if |s| <= n then s else s[..n]
  }

  lemma TakeCons<T>(x: T, s: seq<T>, n: nat)
    requires n > 0
    ensures Take([x] + s, n) == [x] + Take(s, n - 1)
  {
    if |s| > n - 1 {
      assert ([x] + s)[..n] == [x] + s[..n - 1];
    }
  }

  /** The buys walked back to from index `j` are the `room` most recent buys
      of the ticker since its last sell before them. */
  lemma {:induction false} BuyWindowIsRecentBuys(orders: seq<Trade>, ticker: string, j: int, room: nat)
    requires -1 <= j < |orders|
    ensures BuyWindow(orders, ticker, j, room)
            == Take(RecentBuys(orders, ticker, LastSellBefore(orders, ticker, j + 1) + 1, j + 1), room)
    decreases j + 1
  {
    if j >= 0 && room > 0 && !IsSellOf(orders[j], ticker) {
      BuyWindowIsRecentBuys(orders, ticker, j - 1, if IsBuyOf(orders[j], ticker) then room - 1 else room);
      WalkBackStep(orders, ticker, j, room);
    } else {
      WalkBackEnd(orders, ticker, j, room);
    }
  }

  /** The walk back stops with nothing more: before the first order, with no
      room left, or at a sell of the ticker. */
  lemma WalkBackEnd(orders: seq<Trade>, ticker: string, j: int, room: nat)
    requires -1 <= j < |orders|
    requires j < 0 || room == 0 || IsSellOf(orders[j], ticker)
    ensures BuyWindow(orders, ticker, j, room)
            == Take(RecentBuys(orders, ticker, LastSellBefore(orders, ticker, j + 1) + 1, j + 1), room)
  {
    var lo := LastSellBefore(orders, ticker, j + 1) + 1;
    if j < 0 {
      assert RecentBuys(orders, ticker, lo, j + 1) == [];
    } else if room == 0 {
      assert Take(RecentBuys(orders, ticker, lo, j + 1), 0) == [];
    } else {
      assert lo == j + 1;
      assert RecentBuys(orders, ticker, lo, j + 1) == [];
    }
  }

  /** One step of the walk back past an order that is not a sell of the ticker. */
  lemma WalkBackStep(orders: seq<Trade>, ticker: string, j: int, room: nat)
    requires 0 <= j < |orders| && room > 0 && !IsSellOf(orders[j], ticker)
    requires var left := if IsBuyOf(orders[j], ticker) then room - 1 else room;
             BuyWindow(orders, ticker, j - 1, left)
             == Take(RecentBuys(orders, ticker, LastSellBefore(orders, ticker, j) + 1, j), left)
    ensures BuyWindow(orders, ticker, j, room)
            == Take(RecentBuys(orders, ticker, LastSellBefore(orders, ticker, j + 1) + 1, j + 1), room)
  {
    var lo := LastSellBefore(orders, ticker, j + 1) + 1;
    assert LastSellBefore(orders, ticker, j) + 1 == lo;
    var rest := RecentBuys(orders, ticker, lo, j);
    RecentBuysUnfold(orders, ticker, lo, j + 1);
    if IsBuyOf(orders[j], ticker) {
      TakeCons(orders[j], rest, room);
    }
  }

  /** The buys of orders[lo..hi] are the last one, if a buy, then the others. */
  lemma RecentBuysUnfold(orders: seq<Trade>, ticker: string, lo: int, hi: int)
    requires 0 <= lo < hi <= |orders|
    ensures IsBuyOf(orders[hi - 1], ticker) ==>
              RecentBuys(orders, ticker, lo, hi) == [orders[hi - 1]] + RecentBuys(orders, ticker, lo, hi - 1)
    ensures !IsBuyOf(orders[hi - 1], ticker) ==>
              RecentBuys(orders, ticker, lo, hi) == RecentBuys(orders, ticker, lo, hi - 1)
  {
    assert [] + RecentBuys(orders, ticker, lo, hi - 1) == RecentBuys(orders, ticker, lo, hi - 1);
  }

  /** Total quantity of a list of buys. */
  function SumQuantity(w: seq<Trade>): real
  {
    if w == [] then 0.0 else SumQuantity(w[..|w| - 1]) + w[|w| - 1].quantity
  }

  /** Total spent on a list of buys (quantity times price, fees aside). */
  function SumCost(w: seq<Trade>): real
  {
    if w == [] then 0.0 else SumCost(w[..|w| - 1]) + w[|w| - 1].quantity * w[|w| - 1].price
  }

  /** `a / b` in JavaScript, where a zero `b` is +0 (a running total that
      starts at 0): the quotient, NaN for 0 / 0, or an infinity with the
      sign of `a`. */
  function Divide(a: real, b: real): JsValue
  {
    if b != 0.0 then Num(a / b) else if a == 0.0 then NaN else Infinity(a < 0.0)
  }

  /** `x * y` for a number `x`: an infinity times 0 is NaN, and a negative
      `y` turns an infinity's sign. */
  function Times(x: JsValue, y: real): JsValue
  {
    match x
    case Num(n) => Num(n * y)
    case Infinity(negative) => if y == 0.0 then NaN else Infinity(negative != (y < 0.0))
    case _ => NaN
  }

  /** `x - y` for a finite `x`. */
  function Minus(x: real, y: JsValue): JsValue
  {
    match y
    case Num(n) => Num(x - n)
    case Infinity(negative) => Infinity(!negative)
    case _ => NaN
  }

  /** `x + fee`, where an absent fee is `undefined` and makes the sum NaN. */
  function Plus(x: JsValue, fee: Option<real>): JsValue
  {
    match fee
    case None => NaN
    case Some(f) =>
      match x
      case Num(n) => Num(n + f)
      case Infinity(_) => x
      case _ => NaN
  }

  /** The profit of a sell against the buys `w` it is matched with: the
      notional minus the average buy price times the quantity sold, plus the
      fee. With no buys the average is 0. Buys whose quantities add up to 0
      give an average of cost / 0: NaN when the cost is 0 too, otherwise an
      infinity that makes the profit an infinity of the opposite sign to
      cost times quantity sold (NaN when nothing is sold). An absent fee
      makes every profit NaN. */
  function SellProfit(order: Trade, w: seq<Trade>): (r: JsValue)
    ensures r.Num? <==> order.fee.Some? && (w == [] || SumQuantity(w) != 0.0)
    ensures r.Num? && w == [] ==> r.n == order.quantity * order.price + order.fee.value
    ensures r.Num? && w != [] ==>
              r.n == order.quantity * (order.price - SumCost(w) / SumQuantity(w)) + order.fee.value
    ensures r.Infinity? <==>
              order.fee.Some? && w != [] && SumQuantity(w) == 0.0 && SumCost(w) != 0.0 && order.quantity != 0.0
    ensures r.Infinity? ==> (r.negative <==> SumCost(w) * order.quantity > 0.0)
    ensures !r.Num? && !r.Infinity? ==> r == NaN
  {
    var costBasis := if w == [] then Num(0.0) else Divide(SumCost(w), SumQuantity(w));
    Plus(Minus(order.quantity * order.price, Times(costBasis, order.quantity)), order.fee)
  }

  /** What calculateProfitsMap stores for the order at index `i`: nothing
      (undefined) for a buy, the sell's profit for a sell. */
  function ProfitAt(orders: seq<Trade>, i: int): JsValue
    requires 0 <= i < |orders|
  {
    if orders[i].move == Buy then Undefined
    else SellProfit(orders[i], BuyWindow(orders, orders[i].ticker, i - 1, WindowSize))
  }

  /** The map once the orders from index `i` to the end were visited, last
      to first: each order writes its profit under its key, so an earlier
      order overwrites a later one with the same key. */
  function ProfitsFrom(orders: seq<Trade>, i: int): map<string, JsValue>
    requires 0 <= i <= |orders|
    decreases |orders| - i
  {
    if i == |orders| then map[]
    else ProfitsFrom(orders, i + 1)[KeyOf(orders[i].id) := ProfitAt(orders, i)]
  }

  /** The map holds exactly the keys of the orders from index `lo` on. */
  lemma {:induction false} ProfitsFromKeys(orders: seq<Trade>, lo: int)
    requires 0 <= lo <= |orders|
    ensures ProfitsFrom(orders, lo).Keys == set i | lo <= i < |orders| :: KeyOf(orders[i].id)
    decreases |orders| - lo
  {
    if lo < |orders| {
      ProfitsFromKeys(orders, lo + 1);
      var later := set i | lo + 1 <= i < |orders| :: KeyOf(orders[i].id);
      var all := set i | lo <= i < |orders| :: KeyOf(orders[i].id);
      assert all == later + {KeyOf(orders[lo].id)} by {
        forall k | k in all ensures k in later + {KeyOf(orders[lo].id)} {
          var i :| lo <= i < |orders| && KeyOf(orders[i].id) == k;
          if i > lo {
            assert k in later;
          }
        }
      }
    }
  }

  /** Under each key the map holds the entry of the first order, from index
      `lo` on, that has that key. */
  lemma {:induction false} ProfitsFromFirst(orders: seq<Trade>, lo: int, i: int)
    requires 0 <= lo <= i < |orders|
    requires forall h :: lo <= h < i ==> KeyOf(orders[h].id) != KeyOf(orders[i].id)
    ensures KeyOf(orders[i].id) in ProfitsFrom(orders, lo)
    ensures ProfitsFrom(orders, lo)[KeyOf(orders[i].id)] == ProfitAt(orders, i)
    decreases i - lo
  {
    if lo < i {
      ProfitsFromFirst(orders, lo + 1, i);
    }
  }

  /** The profit of an order depends only on the orders up to it: trades
      recorded later never change it. */
  lemma {:induction false} BuyWindowPrefix(orders: seq<Trade>, more: seq<Trade>, ticker: string, j: int, room: nat)
    requires -1 <= j < |orders|
    ensures BuyWindow(orders + more, ticker, j, room) == BuyWindow(orders, ticker, j, room)
    decreases j + 1
  {
    if j >= 0 && room > 0 {
      assert (orders + more)[j] == orders[j];
      BuyWindowPrefix(orders, more, ticker, j - 1, if IsBuyOf(orders[j], ticker) then room - 1 else room);
    }
  }

  lemma ProfitAtPrefix(orders: seq<Trade>, more: seq<Trade>, i: int)
    requires 0 <= i < |orders|
    ensures ProfitAt(orders + more, i) == ProfitAt(orders, i)
  {
    assert (orders + more)[i] == orders[i];
    BuyWindowPrefix(orders, more, orders[i].ticker, i - 1, WindowSize);
  }

  /** When no two orders share a key, every order finds its own entry in
      the map. */
  lemma ProfitsOfDistinctKeys(orders: seq<Trade>, i: int)
    requires 0 <= i < |orders|
    requires forall h, k :: 0 <= h < k < |orders| ==> KeyOf(orders[h].id) != KeyOf(orders[k].id)
    ensures KeyOf(orders[i].id) in ProfitsFrom(orders, 0)
    ensures ProfitsFrom(orders, 0)[KeyOf(orders[i].id)] == ProfitAt(orders, i)
  {
    ProfitsFromFirst(orders, 0, i);
  }

  /** getSafeNull(profitsMap[id], undefined): the entry when it is truthy,
      so a profit of 0, NaN or no entry at all shows as undefined. */
  function ShownProfit(profits: map<string, JsValue>, key: string): (r: JsValue)
    ensures Truthy(r) <==> key in profits && Truthy(profits[key])
    ensures Truthy(r) ==> r == profits[key]
    ensures !Truthy(r) ==> r == Undefined
  {
    GetSafeNull(if key in profits then profits[key] else Undefined, Undefined)
  }

  /** A trade as an order movement: its notional is quantity times price and
      its profit is what the profits map shows under its key. */
  function Movement(order: Trade, profits: map<string, JsValue>): OrderMovementInfo
  {
    OrderMovementInfo(order.createdTimestamp, order.fee, order.quantity * order.price, order.id,
                      ShownProfit(profits, KeyOf(order.id)), order.move, order.ticker, order.price, order.quantity)
  }

  /** The index of the first order that has the same key as order `i`. */
  function FirstWithKey(orders: seq<Trade>, i: int): (r: int)
    requires 0 <= i < |orders|
    ensures 0 <= r <= i && KeyOf(orders[r].id) == KeyOf(orders[i].id)
    ensures forall h :: 0 <= h < r ==> KeyOf(orders[h].id) != KeyOf(orders[i].id)
  {
    FirstKeyFrom(orders, i, 0)
  }

  function FirstKeyFrom(orders: seq<Trade>, i: int, lo: int): (r: int)
    requires 0 <= lo <= i < |orders|
    requires forall h :: 0 <= h < lo ==> KeyOf(orders[h].id) != KeyOf(orders[i].id)
    ensures lo <= r <= i && KeyOf(orders[r].id) == KeyOf(orders[i].id)
    ensures forall h :: 0 <= h < r ==> KeyOf(orders[h].id) != KeyOf(orders[i].id)
    decreases i - lo
  {
    if KeyOf(orders[lo].id) == KeyOf(orders[i].id) then lo else FirstKeyFrom(orders, i, lo + 1)
  }

  /** Every order shows what the first order with its key stored, because
      the backward scan writes that one last: orders that share a key (all
      those without an id share "undefined") show the same profit, and a
      buy stores undefined. */
  lemma MovementProfit(orders: seq<Trade>, i: int)
    requires 0 <= i < |orders|
    ensures Movement(orders[i], ProfitsFrom(orders, 0)).profit
            == GetSafeNull(ProfitAt(orders, FirstWithKey(orders, i)), Undefined)
  {
    ProfitsFromFirst(orders, 0, FirstWithKey(orders, i));
  }

  /** MovementProfit for every movement of a list built by Movement. */
  lemma MovementsShowFirst(orders: seq<Trade>, movements: seq<OrderMovementInfo>)
    requires |movements| == |orders|
    requires forall i :: 0 <= i < |orders| ==> movements[i] == Movement(orders[i], ProfitsFrom(orders, 0))
    ensures forall i :: 0 <= i < |orders| ==>
              movements[i].profit == GetSafeNull(ProfitAt(orders, FirstWithKey(orders, i)), Undefined)
  {
    forall i | 0 <= i < |orders| {
      MovementProfit(orders, i);
    }
  }

  /** With distinct keys every order is the first with its key, so a buy
      shows no profit and a sell shows its own profit when that is truthy
      (not 0 and not NaN). */
  lemma DistinctKeysProfit(orders: seq<Trade>, i: int)
    requires 0 <= i < |orders|
    requires forall h, k :: 0 <= h < k < |orders| ==> KeyOf(orders[h].id) != KeyOf(orders[k].id)
    ensures orders[i].move == Buy ==> GetSafeNull(ProfitAt(orders, FirstWithKey(orders, i)), Undefined) == Undefined
    ensures var p := SellProfit(orders[i], BuyWindow(orders, orders[i].ticker, i - 1, WindowSize));
            orders[i].move == Sell ==>
              GetSafeNull(ProfitAt(orders, FirstWithKey(orders, i)), Undefined) == if Truthy(p) then p else Undefined
  {
  }

  /** calculateProfitsMap: walks the orders from the last to the first; for
      each sell it collects the buys to average over, sums them, and stores
      the profit under the order's key. */
  method CalculateProfitsMap(orders: seq<Trade>) returns (ordersWithProfits: map<string, JsValue>)
    ensures ordersWithProfits == ProfitsFrom(orders, 0)
  {
    ordersWithProfits := map[];
    var i := |orders| - 1;
    while i >= 0
      invariant -1 <= i < |orders|
      invariant ordersWithProfits == ProfitsFrom(orders, i + 1)
    {
      var order := orders[i];
      var profit := Undefined;
      if order.move == Sell {
        var buyOrders := CollectBuyOrders(orders, i);
        var volume, cost := SumBuyOrders(buyOrders);
        var costBasis := Num(0.0);
        if |buyOrders| > 0 {
          costBasis := Divide(cost, volume);
        }
        var notional := order.quantity * order.price;
        assert costBasis == if buyOrders == [] then Num(0.0) else Divide(SumCost(buyOrders), SumQuantity(buyOrders));
        profit := Plus(Minus(notional, Times(costBasis, order.quantity)), order.fee);
        assert profit == SellProfit(order, buyOrders);
      }
      assert profit == ProfitAt(orders, i);
      ordersWithProfits := ordersWithProfits[KeyOf(order.id) := profit];
      i := i - 1;
    }
  }

  /** The inner walk of calculateProfitsMap for the sell at index `i`: back
      from the order before it, collects buys of its ticker until five are
      found or a sell of the ticker is met. */
  method CollectBuyOrders(orders: seq<Trade>, i: int) returns (buyOrders: seq<Trade>)
    requires 0 <= i < |orders|
    ensures buyOrders == BuyWindow(orders, orders[i].ticker, i - 1, WindowSize)
  {
    var symbol := orders[i].ticker;
    buyOrders := [];
    var j := i - 1;
    while j >= 0
      invariant -1 <= j < i
      invariant |buyOrders| < WindowSize
      invariant buyOrders + BuyWindow(orders, symbol, j, WindowSize - |buyOrders|)
                == BuyWindow(orders, symbol, i - 1, WindowSize)
    {
      var oldOrder := orders[j];
      ghost var room := WindowSize - |buyOrders|;
      BuyWindowUnfold(orders, symbol, j, room);
      if oldOrder.move == Buy && oldOrder.ticker == symbol {
        Regroup(buyOrders, oldOrder, BuyWindow(orders, symbol, j - 1, room - 1));
        buyOrders := buyOrders + [oldOrder];
        if |buyOrders| == WindowSize {
          assert buyOrders + [] == buyOrders;
          break;
        }
      } else if oldOrder.move == Sell && oldOrder.ticker == symbol {
        assert buyOrders + [] == buyOrders;
        break;
      }
      j := j - 1;
    }
    assert buyOrders + [] == buyOrders;
  }

  /** One step of the walk back: a buy of the ticker is taken, a sell of it
      ends the walk, anything else is skipped. */
  lemma BuyWindowUnfold(orders: seq<Trade>, ticker: string, j: int, room: nat)
    requires 0 <= j < |orders| && room > 0
    ensures BuyWindow(orders, ticker, j, room)
            == if IsBuyOf(orders[j], ticker) then [orders[j]] + BuyWindow(orders, ticker, j - 1, room - 1)
               else if IsSellOf(orders[j], ticker) then []
               else BuyWindow(orders, ticker, j - 1, room)
    ensures BuyWindow(orders, ticker, j, 0) == []
  {
  }

  lemma Regroup(w: seq<Trade>, x: Trade, rest: seq<Trade>)
    ensures w + ([x] + rest) == (w + [x]) + rest
  {
  }

  /** The running totals of calculateProfitsMap over the collected buys. */
  method SumBuyOrders(buyOrders: seq<Trade>) returns (volume: real, cost: real)
    ensures volume == SumQuantity(buyOrders) && cost == SumCost(buyOrders)
  {
    volume, cost := 0.0, 0.0;
    var k := 0;
    while k < |buyOrders|
      invariant 0 <= k <= |buyOrders|
      invariant volume == SumQuantity(buyOrders[..k]) && cost == SumCost(buyOrders[..k])
    {
      assert buyOrders[..k + 1][..k] == buyOrders[..k];
      volume := volume + buyOrders[k].quantity;
      cost := cost + buyOrders[k].quantity * buyOrders[k].price;
      k := k + 1;
    }
    assert buyOrders[..k] == buyOrders;
  }

  /** The orders of the profit example in the repository's tests: two AAPL
      buys and a sell, then a GOOG buy and a sell, each with a fee of 1. */
  function ExampleOrders(): seq<Trade>
  {
    [ Trade("AAPL", 100.0, 10.0, Buy, 1, Some(1.0), Some("1")),
      Trade("AAPL", 110.0, 10.0, Buy, 2, Some(1.0), Some("2")),
      Trade("AAPL", 120.0, 20.0, Sell, 3, Some(1.0), Some("3")),
      Trade("GOOG", 200.0, 5.0, Buy, 4, Some(1.0), Some("4")),
      Trade("GOOG", 250.0, 5.0, Sell, 5, Some(1.0), Some("5")) ]
  }

  /** On that example the AAPL sell made 20 * (120 - 105) + 1 and the GOOG
      sell 5 * (250 - 200) + 1; the buys have no profit. */
  lemma ExampleProfits()
    ensures var m := ProfitsFrom(ExampleOrders(), 0);
            m.Keys == {"1", "2", "3", "4", "5"}
            && m["1"] == Undefined && m["2"] == Undefined && m["4"] == Undefined
            && m["3"] == Num(301.0) && m["5"] == Num(251.0)
  {
    var o := ExampleOrders();
    assert BuyWindow(o, "AAPL", 1, WindowSize) == [o[1], o[0]];
    assert BuyWindow(o, "GOOG", 3, WindowSize) == [o[3]];
    assert [o[1], o[0]][..1] == [o[1]];
    assert [o[1]][..0] == [];
    assert [o[3]][..0] == [];
    assert SumQuantity([o[1]]) == 10.0;
    assert SumCost([o[1]]) == 1100.0;
    assert SumQuantity([o[1], o[0]]) == 20.0;
    assert SumCost([o[1], o[0]]) == 2100.0;
    assert SumQuantity([o[3]]) == 5.0;
    assert SumCost([o[3]]) == 1000.0;
  }
}
