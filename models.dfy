/** The records the wallet works with (src/models/Trade.ts and
    src/models/ExtractWalletInformation.ts). */
module Models {
  import opened Wrappers

  datatype TradeMove = Buy | Sell

  /** The JavaScript values the wallet passes around untyped. `NaN` is what
      arithmetic on `undefined` or 0 / 0 produces, and `Infinity` a non-zero
      number divided by 0 (`negative` for -Infinity). */
  datatype JsValue = Undefined | Null | NaN | Infinity(negative: bool) | Bool(b: bool) | Num(n: real) | Str(s: string)

  /** A stored trade. `fee` (a percentage) and `id` stay absent when the
      options they were resolved from left them out. */
  datatype Trade = Trade(
    ticker: string,
    price: real,
    quantity: real,
    move: TradeMove,
    createdTimestamp: int,
    fee: Option<real>,
    id: Option<string>)

  /** What a caller passes to record a trade: price, timestamp, fee and id
      may be left out. */
  datatype TradeOptions = TradeOptions(
    ticker: string,
    price: Option<real>,
    quantity: real,
    move: TradeMove,
    createdTimestamp: Option<int>,
    fee: Option<real>,
    id: Option<string>)

  /** One day's valuation: the instant of the last mutation that day, the
      total value then, and a copy of the price table then. */
  datatype Snapshot = Snapshot(date: int, value: real, prices: map<string, real>)

  /** One slice of the asset breakdown; the percentage is absent where
      JavaScript would produce NaN or an infinity (a total value of 0). */
  datatype DonutAssetInfo = DonutAssetInfo(ticker: string, value: real, percentage: Option<real>)

  /** A trade as shown in the order history, with its realized profit:
      a truthy profit as computed, otherwise `undefined`. */
  datatype OrderMovementInfo = OrderMovementInfo(
    date: int,
    fee: Option<real>,
    notional: real,
    orderId: Option<string>,
    profit: JsValue,
    side: TradeMove,
    ticker: string,
    priceAt: real,
    quantity: real)

  /** The errors the wallet throws. */
  datatype WalletError =
    | InsufficientFunds(ticker: string, quantity: real, price: real)
    | InsufficientHoldings(ticker: string, quantity: real, owned: real)
    | UnknownPrice(ticker: string)
    | UnresolvablePrice(ticker: string)
    | MissingHistoricalPrice(ticker: string)

  /** What a trade is worth before fees: its price times its quantity. */
  function Notional(t: Trade): real
  {
    t.price * t.quantity
  }

  /** The fee percentage of a trade; an absent fee charges nothing. */
  function FeeRate(t: Trade): real
  {
    t.fee.GetOr(0.0)
  }
}
