/// The records of the ICBIT trading API as the client decodes them: orders,
/// positions, instruments, trades and the packet envelope, with the few
/// computed properties they carry. Floating-point fields are not modelled.
module IcbitTypes {
  import opened Common

  /// A C# `ulong`.
  type ulong = x: int | 0 <= x < TWO_64

  /// PacketContent: what a private packet carries.
  datatype PacketContent =
    | UserOrder | UserBalance | UserTrades | UserInfo | Orderbook | Status | Ticker | Instruments

  /// OpType.
  datatype OpType = Private | Subscribe | Unsubscribe | Chat

  /// OrderStatus. A C# enum holds any int, and JSON decoding yields one for
  /// a number no member names; `Unnamed` stands for those.
  datatype OrderStatus =
    | New | PartiallyFilled | Filled | DoneForToday | Canceled | Rejected
    | Unnamed(value: int)

  /// The integer value of a status, as declared (New = 0 ... Rejected = 5).
  function StatusValue(s: OrderStatus): int
  {
    match s
    case New => 0
    case PartiallyFilled => 1
    case Filled => 2
    case DoneForToday => 3
    case Canceled => 4
    case Rejected => 5
    case Unnamed(v) => v
  }

  /// The status an integer decodes to.
  function StatusOf(v: int): (s: OrderStatus)
  {
    if v == 0 then New
    else if v == 1 then PartiallyFilled
    else if v == 2 then Filled
    else if v == 3 then DoneForToday
    else if v == 4 then Canceled
    else if v == 5 then Rejected
    else Unnamed(v)
  }

  /// A status as decoding produces it: `Unnamed` only off the named values.
  predicate WellFormedStatus(s: OrderStatus)
  {
    s.Unnamed? ==> !(0 <= s.value <= 5)
  }

  /// Statuses and their values are in one-to-one correspondence.
  lemma StatusValueRoundTrip(s: OrderStatus, v: int)
    ensures WellFormedStatus(StatusOf(v)) && StatusValue(StatusOf(v)) == v
    ensures WellFormedStatus(s) ==> StatusOf(StatusValue(s)) == s
  {
  }

  /// MarketType.Currency and MarketType.Futures.
  const CURRENCY: int := 0
  const FUTURES: int := 1

  /// Fill.
  datatype Fill = Fill(ts: int, price: int, qty: int, tid: ulong, pos: int, posQuoted: int)

  /// Order.
  datatype Order = Order(
    oid: int,
    date: int,
    dir: int,
    kind: int,
    price: int,
    qty: int,
    execQty: int,
    status: OrderStatus,
    info: int,
    token: ulong,
    ticker: string,
    currency: string,
    market: int,
    fills: seq<Fill>)
  {
    /// Order.Buy: whether the order's direction is 1 (buy).
    predicate Buy()
    {
      if dir == 1 then true else false
    }
  }

  /// The `buy` field CreateOrder writes: 1 to buy, 0 to sell.
  function BuyFlag(buy: bool): (d: int)
  {
    if buy then 1 else 0
  }

  /// An order whose direction is the flag CreateOrder wrote for it reads
  /// back as a buy exactly when it was placed as one; any other direction
  /// than 1 reads as a sell.
  lemma BuyRoundTrip(o: Order, buy: bool)
    ensures o.dir == BuyFlag(buy) ==> o.Buy() == buy
    ensures o.Buy() <==> o.dir == BuyFlag(true)
  {
  }

  /// Position (its floating-point fields mm, vm, w and r are not modelled).
  datatype Position = Position(
    name: string,
    ticker: string,
    curid: nat,
    kind: int,
    qty: int,
    price: int,
    inverted: int)

  /// The legacy futures contracts, priced with the fixed multiplier.
  const LEGACY_TICKERS: set<string> :=
    {"BUM3", "BUU3", "ESM3", "BUJ3", "BUH3", "BUZ2", "GDG3", "CLG3", "BUK3", "GDJ3", "CLJ3"}

  /// The multiplier GetPriceMultiplier chooses: 1.0 / 100000000, the
  /// instrument's own `r`, or 1.
  datatype PriceMultiplier = PerSatoshi | ContractRatio | One

  /// Instrument (its floating-point fields r and w are not modelled; the
  /// multiplier names r instead of yielding its value).
  datatype Instrument = Instrument(
    kind: string,
    marketId: int,
    ticker: string,
    name: string,
    desc: string,
    curid: nat,
    imBuy: int,
    imSell: int,
    priceMin: int,
    priceMax: int,
    inverted: nat,
    fee: int,
    clrFee: int,
    session: ulong)
  {
    /// IsFuturesNewStyle: anything that is not a futures market, and every
    /// futures contract but the eleven legacy tickers.
    predicate IsFuturesNewStyle()
    {
      if marketId != FUTURES then true
      else if ticker == "BUM3" || ticker == "BUU3" || ticker == "ESM3" || ticker == "BUJ3"
           || ticker == "BUH3" || ticker == "BUZ2" || ticker == "GDG3" || ticker == "CLG3"
           || ticker == "BUK3" || ticker == "GDJ3" || ticker == "CLJ3" then false
      else true
    }

    /// GetPriceMultiplier, by the branch it takes.
    function GetPriceMultiplier(): (m: PriceMultiplier)
    {
      if marketId == CURRENCY then PerSatoshi
      else if marketId == FUTURES then
        if IsFuturesNewStyle() then ContractRatio else PerSatoshi
      else One
    }
  }

  /// New style means: not futures, or not one of the legacy tickers.
  lemma NewStyleIsNotLegacy(i: Instrument)
    ensures i.IsFuturesNewStyle() <==> i.marketId != FUTURES || i.ticker !in LEGACY_TICKERS
  {
  }

  /// The fixed multiplier is chosen for currencies and legacy futures, the
  /// contract's own ratio for every other futures contract, and 1 for any
  /// other market id.
  lemma MultiplierChoice(i: Instrument)
    ensures i.GetPriceMultiplier() == PerSatoshi
      <==> i.marketId == CURRENCY || (i.marketId == FUTURES && i.ticker in LEGACY_TICKERS)
    ensures i.GetPriceMultiplier() == ContractRatio
      <==> i.marketId == FUTURES && i.ticker !in LEGACY_TICKERS
    ensures i.GetPriceMultiplier() == One <==> i.marketId != CURRENCY && i.marketId != FUTURES
  {
    NewStyleIsNotLegacy(i);
  }

  /// Trade.
  datatype Trade = Trade(
    buy: int,
    market: int,
    price: int,
    qty: int,
    sid: ulong,
    ticker: string,
    tid: ulong,
    ts: int)

  /// Packet as decoded from an onJson text. Lists are null when the text
  /// lacks them, hence the options; the orderbook and user info are not
  /// read by the client and are not modelled.
  datatype Packet = Packet(
    op: OpType,
    channel: string,
    origin: string,
    update: bool,
    content: PacketContent,
    userBalance: Option<seq<Position>>,
    userOrder: Option<seq<Order>>,
    instruments: Option<seq<Instrument>>,
    userTrades: Option<seq<Trade>>)
}
