/** The helpers of src/utils/general.ts that the wallet depends on. */
module General {
  import opened Wrappers
  import opened Models

  /** JavaScript truthiness. */
  predicate Truthy(v: JsValue)
  {
    match v
    case Undefined => false
    case Null => false
    case NaN => false
    case Infinity(_) => true
    case Bool(b) => b
    case Num(n) => n != 0.0
    case Str(s) => s != ""
  }

  /** getSafeNull: the value itself when it is truthy, otherwise the fallback;
      so 0, false and "" fall back just like undefined. */
  function GetSafeNull(obj: JsValue, fallback: JsValue): (r: JsValue)
    ensures Truthy(obj) ==> r == obj
    ensures !Truthy(obj) ==> r == fallback
  {
    if Truthy(obj) then obj else fallback
  }

  /** getSafeOrThrow: fails only on undefined and null, otherwise hands its
      input back (0 and false included). */
  function GetSafeOrThrow(value: JsValue, msg: string): (r: Result<JsValue, string>)
    ensures r.Err? <==> value == Undefined || value == Null
    ensures r.Ok? ==> r.value == value
    ensures r.Err? ==> r.error == msg
  {
    if value == Undefined || value == Null then Err(msg) else Ok(value)
  }

  /** An optional number as JavaScript sees it. */
  function NumOf(o: Option<real>): JsValue
  {
    match o
    case None => Undefined
    case Some(x) => Num(x)
  }

  /** `getSafeNull(ms, now)` on an optional timestamp: absent and 0 both
      mean "now". */
  function TimestampOr(ms: Option<int>, now: int): (r: int)
    ensures GetSafeNull(NumOf(if ms.Some? then Some(ms.value as real) else None), Num(now as real)) == Num(r as real)
  {
    if ms.Some? && ms.value != 0 then ms.value else now
  }

  /** tradeOptionToTrade: resolves the price (the given one when truthy,
      otherwise the asset's last known price, otherwise an error) and the
      timestamp (the given one when truthy, otherwise the clock), and copies
      every other field. */
  function TradeOptionToTrade(incTrade: TradeOptions, priceOfThisAssetToday: Option<real>, now: int): (r: Result<Trade, WalletError>)
    ensures r.Err? <==> !Truthy(NumOf(incTrade.price)) && priceOfThisAssetToday.None?
    ensures r.Err? ==> r.error == UnresolvablePrice(incTrade.ticker)
    ensures r.Ok? ==> r.value.price == (if incTrade.price.Some? && incTrade.price.value != 0.0
                                        then incTrade.price.value else priceOfThisAssetToday.value)
    ensures r.Ok? ==> r.value.createdTimestamp == (if incTrade.createdTimestamp.Some? && incTrade.createdTimestamp.value != 0
                                                  then incTrade.createdTimestamp.value else now)
    ensures r.Ok? ==> && r.value.ticker == incTrade.ticker
                      && r.value.quantity == incTrade.quantity
                      && r.value.move == incTrade.move
                      && r.value.fee == incTrade.fee
                      && r.value.id == incTrade.id
  {
    var ts := TimestampOr(incTrade.createdTimestamp, now);
    var priceNew := GetSafeOrThrow(GetSafeNull(NumOf(incTrade.price), NumOf(priceOfThisAssetToday)),
                                   "cannot create new trade without knowing the price of " + incTrade.ticker);
    match priceNew
    case Ok(Num(p)) =>
      Ok(Trade(incTrade.ticker, p, incTrade.quantity, incTrade.move, ts, incTrade.fee, incTrade.id))
    case _ => Err(UnresolvablePrice(incTrade.ticker))
  }

  /** The cost of a buy with its fee percentage added. */
  function AddFee(cost: real, feePercent: real): real
  {
    cost + cost * feePercent / 100.0
  }

  /** The proceeds of a sell with its fee percentage taken off. */
  function RemoveFee(cost: real, feePercent: real): real
  {
    cost - cost * feePercent / 100.0
  }

  /** `b.find(x => a === x)`: the element when present, otherwise undefined. */
  function Find(b: seq<string>, a: string): JsValue
  {
    if a in b then Str(a) else Undefined
  }

  /** fromAinBnotInC: `a` is found (truthily) in `b` and not found
      (truthily) in `c`. */
  predicate FromAinBnotInC(b: seq<string>, c: seq<string>, a: string)
  {
    Truthy(Find(b, a)) && !Truthy(Find(c, a))
  }

  /** `a` appears in `b` in order, possibly with gaps. */
  predicate IsSubsequence<T(==)>(a: seq<T>, b: seq<T>)
    decreases |b|
  {
    if a == [] then true
    else if b == [] then false
    else if a[0] == b[0] then IsSubsequence(a[1..], b[1..])
    else IsSubsequence(a, b[1..])
  }

  /** onlyNotBought: the known assets that are to be bought and are not yet
      held, in the order of `allKnownAssetPrices`. Because `find` answers
      with the element itself, the empty ticker is never found truthily and
      so is never selected. */
  function OnlyNotBought(allKnownAssetPrices: seq<string>, allAssetsToBuy: seq<string>, allAssetsToHold: seq<string>): (r: seq<string>)
    ensures IsSubsequence(r, allKnownAssetPrices)
    ensures forall x :: x in r <==> x in allKnownAssetPrices && x in allAssetsToBuy && x !in allAssetsToHold && x != ""
    ensures forall x :: multiset(r)[x] == if x in allAssetsToBuy && x !in allAssetsToHold && x != ""
                                           then multiset(allKnownAssetPrices)[x] else 0
  {
    if allKnownAssetPrices == [] then []
    else
      var a := allKnownAssetPrices[0];
      var rest := OnlyNotBought(allKnownAssetPrices[1..], allAssetsToBuy, allAssetsToHold);
      assert allKnownAssetPrices == [a] + allKnownAssetPrices[1..];
      if FromAinBnotInC(allAssetsToBuy, allAssetsToHold, a) then [a] + rest else rest
  }
}
