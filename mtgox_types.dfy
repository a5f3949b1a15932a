/// The records of the MtGox streaming API: order-book depth changes, trades,
/// tickers, and the packet that carries one of them in a single shared
/// slot. What is modelled is the tick arithmetic of the timestamps, the
/// typed access to the shared slot, and the layout of the texts ToString
/// gives; number and date formatting is culture-dependent and is a
/// parameter (a Formatter).
module MtgoxTypes {
  import opened Common
  import Helper

  /// A C# `long`.
  type long = x: int | -TWO_63 <= x < TWO_63

  // ---------------------------------------------------------------------------
  // Enumerations

  /// OrderDirection: ask (sell) and bid (buy).
  datatype OrderDirection = Ask | Bid

  /// The declared values: ask = 1, bid = 2.
  function DirectionValue(d: OrderDirection): int
  {
    match d
    case Ask => 1
    case Bid => 2
  }

  /// The name an OrderDirection prints as.
  function DirectionName(d: OrderDirection): string
  {
    match d
    case Ask => "ask"
    case Bid => "bid"
  }

  /// The MtGox Boolean: N and False are both 0, Y and True both 1, so each
  /// pair is one value under two names.
  datatype Boolean = N | Y

  const FALSE: Boolean := N
  const TRUE: Boolean := Y

  function BooleanValue(b: Boolean): int
  {
    match b
    case N => 0
    case Y => 1
  }

  /// Direction and Boolean values are one to one with their names, and
  /// False and True are N and Y.
  lemma EnumValues(d1: OrderDirection, d2: OrderDirection, b1: Boolean, b2: Boolean)
    ensures DirectionValue(d1) == DirectionValue(d2) <==> d1 == d2
    ensures DirectionValue(d1) in {1, 2}
    ensures BooleanValue(b1) == BooleanValue(b2) <==> b1 == b2
    ensures BooleanValue(FALSE) == BooleanValue(N) == 0 && BooleanValue(TRUE) == BooleanValue(Y) == 1
  {
  }

  /// Currency.
  datatype Currency =
    | USD | GBP | EUR | AUD | PLN | CAD | CNY | SEK | JPY | CHF | DKK | HKD | NZD | RUB | THB | SGD
    | BTC

  /// The name a Currency prints as.
  function CurrencyName(c: Currency): string
  {
    match c
    case USD => "USD" case GBP => "GBP" case EUR => "EUR" case AUD => "AUD"
    case PLN => "PLN" case CAD => "CAD" case CNY => "CNY" case SEK => "SEK"
    case JPY => "JPY" case CHF => "CHF" case DKK => "DKK" case HKD => "HKD"
    case NZD => "NZD" case RUB => "RUB" case THB => "THB" case SGD => "SGD"
    case BTC => "BTC"
  }

  /// PacketContent: which record a private packet carries.
  datatype PacketContent = DepthContent | TradeContent | TickerContent | OldTickerContent

  /// OpType. A C# enum holds any int; `OtherOp` stands for a value no member
  /// names, which is what reaches the default of Packet.ToString.
  datatype OpType = Private | Subscribe | Unsubscribe | Remark | OtherOp(value: int)

  // ---------------------------------------------------------------------------
  // Formatting

  /// The standard numeric formats used: "N3", "N5" and "N8".
  datatype NumberFormat = N3 | N5 | N8

  /// The culture-dependent formatters: a decimal in a numeric format, and a
  /// DateTime (given by its ticks) in "yyyyMMdd_hhmmss.ffffff".
  datatype Formatter = Formatter(number: (Helper.Decimal, NumberFormat) -> string, date: int -> string)

  /// Prices print with three decimals in yen and five in every other
  /// currency.
  function PriceFormat(c: Currency): (f: NumberFormat)
    ensures f == N3 <==> c == JPY
    ensures f != N8
  {
    if c != JPY then N5 else N3
  }

  // ---------------------------------------------------------------------------
  // Timestamps

  /// `new DateTime(1970, 1, 1).Ticks`.
  const ERA_1970: int := 621355968000000000

  /// `DateTime.MaxValue.Ticks`; DateTime arithmetic throws outside
  /// 0 .. MAX_TICKS.
  const MAX_TICKS: int := 3155378975999999999

  /// `x << n` on a long: the low 64 bits of x * 2^n.
  function ShiftLeft(x: long, n: nat): long
  {
    Wrap64(x * Pow2(n))
  }

  /// Microseconds to ticks as UtcWhen computes it:
  /// `ts = us << 1; ts += ts << 2` in unchecked long arithmetic.
  function MicrosToTicks(us: long): long
  {
    var ts := ShiftLeft(us, 1);
    Wrap64(ts + ShiftLeft(ts, 2))
  }

  /// The shifts multiply by ten, modulo 2^64.
  lemma MicrosToTicksTimesTen(us: long)
    ensures MicrosToTicks(us) == Wrap64(10 * us)
  {
    assert Pow2(1) == 2 && Pow2(2) == 4;
    var ts := Wrap64(us * 2);
    var k1 := (us * 2 - ts) / TWO_64;
    assert us * 2 == ts + k1 * TWO_64;
    var t4 := Wrap64(ts * 4);
    var k2 := (ts * 4 - t4) / TWO_64;
    assert ts * 4 == t4 + k2 * TWO_64;
    assert 10 * us == (ts + t4) + (5 * k1 + k2) * TWO_64;
    Wrap64Congruent(10 * us, ts + t4);
  }

  /// `Era1970 + TimeSpan.FromTicks(ts)`: the ticks of the resulting
  /// DateTime, or the ArgumentOutOfRangeException the addition throws.
  function AddToEra(ts: long): (r: Result<int>)
    ensures r.Ok? <==> 0 <= ERA_1970 + ts <= MAX_TICKS
    ensures r.Ok? ==> r.value - ERA_1970 == ts
    ensures r.Err? ==> r.error == ArgumentOutOfRange
  {
    if 0 <= ERA_1970 + ts <= MAX_TICKS then Ok(ERA_1970 + ts) else Err(ArgumentOutOfRange)
  }

  /// UtcWhen on a microsecond timestamp.
  function UtcWhenOf(us: long): Result<int>
  {
    AddToEra(MicrosToTicks(us))
  }

  /// For every timestamp whose tenfold fits a long, UtcWhen is 1970-01-01
  /// plus that many ticks when the result is a valid DateTime, and throws
  /// ArgumentOutOfRangeException otherwise.
  lemma UtcWhenExact(us: long)
    requires -TWO_63 <= 10 * us < TWO_63
    ensures UtcWhenOf(us).Ok? <==> -ERA_1970 <= 10 * us <= MAX_TICKS - ERA_1970
    ensures UtcWhenOf(us).Ok? ==> UtcWhenOf(us).value == ERA_1970 + 10 * us
    ensures UtcWhenOf(us).Err? ==> UtcWhenOf(us).error == ArgumentOutOfRange
  {
    MicrosToTicksTimesTen(us);
    Wrap64Id(10 * us);
  }

  /// Later timestamps give later times, within the DateTime range.
  lemma UtcWhenMonotone(a: long, b: long)
    requires -TWO_63 <= 10 * a && 10 * b < TWO_63 && a <= b
    requires UtcWhenOf(a).Ok? && UtcWhenOf(b).Ok?
    ensures UtcWhenOf(a).value + 10 * (b - a) == UtcWhenOf(b).value
  {
    UtcWhenExact(a);
    UtcWhenExact(b);
  }

  // ---------------------------------------------------------------------------
  // Records

  /// Depth: one change to the order book.
  datatype Depth = Depth(
    kind: int,
    typeStr: OrderDirection,
    volume: Helper.Decimal,
    volumeInt: long,
    price: Helper.Decimal,
    priceInt: long,
    item: Currency,
    currency: Currency,
    now: long,
    totalVolumeInt: int)
  {
    /// Depth.UtcWhen: `now` (microseconds) as ticks since 1970.
    function UtcWhen(): (r: Result<int>)
      ensures r.Ok? ==> 0 <= r.value <= MAX_TICKS
    {
      UtcWhenOf(now)
    }

    /// Depth.ToString, which throws when UtcWhen does.
    function ToText(f: Formatter): (r: Result<string>)
      ensures r.Err? <==> UtcWhen().Err?
    {
      match UtcWhen()
      case Err(e) => Err(e)
      case Ok(t) =>
        Ok("Depth={ price=" + f.number(price, PriceFormat(currency)) + " " + CurrencyName(currency)
           + ", \tvol=" + f.number(volume, N8) + ", \tdir=" + DirectionName(typeStr)
           + ", \twhen=" + f.date(t) + " }")
    }
  }

  /// OldTicker.
  datatype OldTicker = OldTicker(
    high: Helper.Decimal,
    low: Helper.Decimal,
    avg: Helper.Decimal,
    vwap: Helper.Decimal,
    vol: Helper.Decimal,
    lastAll: Helper.Decimal,
    lastLocal: Helper.Decimal,
    last: Helper.Decimal,
    buy: Helper.Decimal,
    sell: Helper.Decimal)
  {
    /// OldTicker.ToString: the bid first, right after the opening text, and
    /// the volume (eight decimals) last, right before the closing brace.
    function ToText(f: Formatter): (r: string)
      ensures var head, bid := "OldTicker={ bid=", f.number(buy, N5);
        |r| >= |head| + |bid| + 2 && r[..|head|] == head && r[|head|..|head| + |bid|] == bid
      ensures var v := f.number(vol, N8);
        |r| >= |v| + 2 && r[|r| - 2..] == " }" && r[|r| - 2 - |v|..|r| - 2] == v
    {
      var head, bid, v := "OldTicker={ bid=", f.number(buy, N5), f.number(vol, N8);
      var mid := ", \task=" + f.number(sell, N5)
        + ", \tlo=" + f.number(low, N5) + ", \thi=" + f.number(high, N5)
        + ", \tlast=" + f.number(last, N5) + ", \tvol=";
      FramedText(head, bid, mid, v, " }");
      head + bid + mid + v + " }"
    }
  }

  /// A text made of an opening, a first value, a middle, a last value and
  /// a closing shows the first value right after the opening and the last
  /// value right before the closing.
  lemma FramedText(head: string, first: string, mid: string, last: string, close: string)
    ensures var r := head + first + mid + last + close;
      |r| >= |head| + |first| + |close| && r[..|head|] == head && r[|head|..|head| + |first|] == first
      && r[|r| - |close|..] == close && r[|r| - |close| - |last|..|r| - |close|] == last
  {
    var r := head + first + mid + last + close;
    assert r == head + (first + mid + last + close);
    assert r == (head + first + mid) + last + close;
  }

  /// TickerValue; `display` is null when the text lacks it.
  datatype TickerValue = TickerValue(value: Helper.Decimal, valueInt: long, display: Option<string>, currency: Currency)

  /// How Ticker.ToString shows one of its values: "*" for a missing value,
  /// its display text otherwise (a null display prints as nothing).
  function Shown(v: Option<TickerValue>): (s: string)
    ensures v.None? ==> s == "*"
    ensures v.Some? && v.value.display.Some? ==> s == v.value.display.value
  {
    match v
    case None => "*"
    case Some(tv) => if tv.display.Some? then tv.display.value else ""
  }

  /// Ticker: every value may be missing.
  datatype Ticker = Ticker(
    high: Option<TickerValue>,
    low: Option<TickerValue>,
    avg: Option<TickerValue>,
    vwap: Option<TickerValue>,
    vol: Option<TickerValue>,
    lastLocal: Option<TickerValue>,
    last: Option<TickerValue>,
    lastOrig: Option<TickerValue>,
    lastAll: Option<TickerValue>,
    buy: Option<TickerValue>,
    sell: Option<TickerValue>)
  {
    /// Ticker.ToString: bid, ask, low, high, last and volume, each shown
    /// through Shown.
    function ToText(): string
    {
      "Ticker={ bid=" + Shown(buy) + ", \task=" + Shown(sell) + ", \tlo=" + Shown(low)
      + ", \thi=" + Shown(high) + ", \tlast=" + Shown(last) + ", \tvol=" + Shown(vol) + " }"
    }
  }

  /// A prefix of a text stays a prefix of it after anything is appended.
  lemma PrefixKept(p: string, s: string, t: string)
    requires |p| <= |s| && s[..|p|] == p
    ensures |p| <= |s + t| && (s + t)[..|p|] == p
  {
    assert (s + t)[..|p|] == s[..|p|];
  }

  /// The text of a ticker opens with its bid, right after "Ticker={ bid=",
  /// and closes with its volume, right before " }".
  lemma TickerTextEnds(t: Ticker)
    ensures var r, head := t.ToText(), "Ticker={ bid=";
      |r| >= |head| + |Shown(t.buy)| + 2 && r[..|head|] == head
      && r[|head|..|head| + |Shown(t.buy)|] == Shown(t.buy)
    ensures var r := t.ToText();
      |r| >= |Shown(t.vol)| + 2 && r[|r| - 2..] == " }" && r[|r| - 2 - |Shown(t.vol)|..|r| - 2] == Shown(t.vol)
  {
    var r, head := t.ToText(), "Ticker={ bid=";
    var p := head + Shown(t.buy);
    var s1 := p + ", \task=";
    var s2 := s1 + Shown(t.sell);
    var s3 := s2 + ", \tlo=";
    var s4 := s3 + Shown(t.low);
    var s5 := s4 + ", \thi=";
    var s6 := s5 + Shown(t.high);
    var s7 := s6 + ", \tlast=";
    var s8 := s7 + Shown(t.last);
    var s9 := s8 + ", \tvol=";
    var s10 := s9 + Shown(t.vol);
    assert r == s10 + " }";
    PrefixKept(p, p, ", \task=");
    PrefixKept(p, s1, Shown(t.sell));
    PrefixKept(p, s2, ", \tlo=");
    PrefixKept(p, s3, Shown(t.low));
    PrefixKept(p, s4, ", \thi=");
    PrefixKept(p, s5, Shown(t.high));
    PrefixKept(p, s6, ", \tlast=");
    PrefixKept(p, s7, Shown(t.last));
    PrefixKept(p, s8, ", \tvol=");
    PrefixKept(p, s9, Shown(t.vol));
    PrefixKept(p, s10, " }");
    assert r[..|head|] == p[..|head|];
  }

  /// A ticker with no values prints a star in each of its six places.
  lemma TickerAllMissing(t: Ticker)
    requires t.buy.None? && t.sell.None? && t.low.None? && t.high.None? && t.last.None? && t.vol.None?
    ensures t.ToText() == "Ticker={ bid=*, \task=*, \tlo=*, \thi=*, \tlast=*, \tvol=* }"
  {
    assert "Ticker={ bid=" + "*" + ", \task=" + "*" == "Ticker={ bid=*, \task=*";
    assert "Ticker={ bid=*, \task=*" + ", \tlo=" + "*" + ", \thi=" + "*" == "Ticker={ bid=*, \task=*, \tlo=*, \thi=*";
    assert "Ticker={ bid=*, \task=*, \tlo=*, \thi=*" + ", \tlast=" + "*" + ", \tvol=" + "*" + " }"
      == "Ticker={ bid=*, \task=*, \tlo=*, \thi=*, \tlast=*, \tvol=* }";
  }

  /// Only the six printed values matter: avg, vwap, last_local, last_orig
  /// and last_all never change the text, and neither does anything but the
  /// display of a present value.
  lemma TickerTextDependsOnShown(t1: Ticker, t2: Ticker)
    requires Shown(t1.buy) == Shown(t2.buy) && Shown(t1.sell) == Shown(t2.sell)
    requires Shown(t1.low) == Shown(t2.low) && Shown(t1.high) == Shown(t2.high)
    requires Shown(t1.last) == Shown(t2.last) && Shown(t1.vol) == Shown(t2.vol)
    ensures t1.ToText() == t2.ToText()
  {
  }

  /// Trade.
  datatype Trade = Trade(
    tid: long,
    kind: Option<string>,
    date: int,
    amount: Helper.Decimal,
    amountInt: long,
    price: Helper.Decimal,
    priceInt: long,
    item: Currency,
    priceCurrency: Currency,
    tradeType: OrderDirection,
    primary: Boolean,
    properties: Option<string>)
  {
    /// Trade.UtcWhen: the trade id, a microsecond timestamp, as ticks since
    /// 1970.
    function UtcWhen(): (r: Result<int>)
      ensures r.Ok? ==> 0 <= r.value <= MAX_TICKS
    {
      UtcWhenOf(tid)
    }

    /// Trade.ToString, which throws when UtcWhen does.
    function ToText(f: Formatter): (r: Result<string>)
      ensures r.Err? <==> UtcWhen().Err?
    {
      match UtcWhen()
      case Err(e) => Err(e)
      case Ok(t) =>
        Ok("Trade={ price=" + f.number(price, PriceFormat(priceCurrency)) + " " + CurrencyName(priceCurrency)
           + ", \tvol=" + f.number(amount, N8) + ", \tdir=" + DirectionName(tradeType)
           + ", \twhen=" + f.date(t) + " }")
    }
  }

  /// Depth and Trade date themselves the same way: a depth change and a
  /// trade with the same microsecond stamp happen at the same tick.
  lemma SameClock(d: Depth, t: Trade)
    requires d.now == t.tid
    ensures d.UtcWhen() == t.UtcWhen()
  {
  }

  // ---------------------------------------------------------------------------
  // Packet

  /// The shared `_priv` slot: null, or the last record stored through one
  /// of the four typed properties.
  datatype Payload =
    | NoPayload
    | HoldsDepth(depth: Depth)
    | HoldsTrade(trade: Trade)
    | HoldsTicker(ticker: Ticker)
    | HoldsOldTicker(oldTicker: OldTicker)

  /// `_priv as Depth`.
  function DepthOf(p: Payload): (r: Option<Depth>)
    ensures r.Some? <==> p.HoldsDepth?
  {
    if p.HoldsDepth? then Some(p.depth) else None
  }

  /// `_priv as Trade`.
  function TradeOf(p: Payload): (r: Option<Trade>)
    ensures r.Some? <==> p.HoldsTrade?
  {
    if p.HoldsTrade? then Some(p.trade) else None
  }

  /// `_priv as Ticker`.
  function TickerOf(p: Payload): (r: Option<Ticker>)
    ensures r.Some? <==> p.HoldsTicker?
  {
    if p.HoldsTicker? then Some(p.ticker) else None
  }

  /// `_priv as OldTicker`.
  function OldTickerOf(p: Payload): (r: Option<OldTicker>)
    ensures r.Some? <==> p.HoldsOldTicker?
  {
    if p.HoldsOldTicker? then Some(p.oldTicker) else None
  }

  function OneIf(b: bool): nat
  {
    if b then 1 else 0
  }

  /// At most one typed view of the slot is non-null, and all four are null
  /// exactly when the slot is.
  lemma OneView(p: Payload)
    ensures OneIf(DepthOf(p).Some?) + OneIf(TradeOf(p).Some?)
            + OneIf(TickerOf(p).Some?) + OneIf(OldTickerOf(p).Some?) <= 1
    ensures p == NoPayload
      <==> DepthOf(p).None? && TradeOf(p).None? && TickerOf(p).None? && OldTickerOf(p).None?
  {
  }

  /// `_priv.ToString()`: a NullReferenceException on an empty slot.
  function PayloadText(f: Formatter, p: Payload): (r: Result<string>)
    ensures p == NoPayload ==> r == Err(NullReference)
  {
    match p
    case NoPayload => Err(NullReference)
    case HoldsDepth(d) => d.ToText(f)
    case HoldsTrade(t) => t.ToText(f)
    case HoldsTicker(t) => Ok(t.ToText())
    case HoldsOldTicker(t) => Ok(t.ToText(f))
  }

  /// A null string as String.Format prints it.
  function OrEmpty(s: Option<string>): string
  {
    if s.Some? then s.value else ""
  }

  /// bool.ToString().
  function BoolText(b: bool): string
  {
    if b then "True" else "False"
  }

  /// The start of a remark's text, up to its closing bracket.
  function RemarkHead(message: Option<string>): string
  {
    "Packet={ remark=[" + OrEmpty(message) + "]"
  }

  /// Packet.ToString on the packet's fields.
  function PacketText(f: Formatter, op: OpType, channel: Option<string>, message: Option<string>,
                      success: Option<Boolean>, priv: Payload): Result<string>
  {
    match op
    case Remark =>
      if success.Some? then
        Ok(RemarkHead(message) + ", \tsuccess=" + BoolText(success.value == TRUE) + " }")
      else
        Ok(RemarkHead(message) + " }")
    case Subscribe => Ok("Packet={ subscribe=[" + OrEmpty(channel) + "] }")
    case Unsubscribe => Ok("Packet={ unsubscribe=[" + OrEmpty(channel) + "] }")
    case Private =>
      (match PayloadText(f, priv)
       case Err(e) => Err(e)
       case Ok(s) => Ok("Packet={ " + s + " }"))
    case OtherOp(_) => Ok("<unknown>")
  }

  /// Only a private packet can throw: on an empty slot or a record whose
  /// own text throws; every other operation prints.
  lemma PacketTextErrors(f: Formatter, op: OpType, channel: Option<string>, message: Option<string>,
                         success: Option<Boolean>, priv: Payload)
    ensures PacketText(f, op, channel, message, success, priv).Err?
      <==> op == Private && PayloadText(f, priv).Err?
    ensures op == Private && priv == NoPayload
      ==> PacketText(f, op, channel, message, success, priv) == Err(NullReference)
    ensures op.OtherOp? ==> PacketText(f, op, channel, message, success, priv) == Ok("<unknown>")
  {
  }

  /// Unsubscribe prints as subscribe with "un" in front of the word.
  lemma UnsubscribeText(f: Formatter, channel: Option<string>, message: Option<string>,
                        success: Option<Boolean>, priv: Payload)
    ensures var s := PacketText(f, Subscribe, channel, message, success, priv).value;
      PacketText(f, Unsubscribe, channel, message, success, priv)
        == Ok(s[..9] + "un" + s[9..])
  {
    InsertUn(OrEmpty(channel));
  }

  /// The same on the text of the channel.
  lemma InsertUn(c: string)
    ensures var s := "Packet={ subscribe=[" + c + "] }";
      "Packet={ unsubscribe=[" + c + "] }" == s[..9] + "un" + s[9..]
  {
    var p, w, t := "Packet={ ", "subscribe=[", "] }";
    assert "Packet={ subscribe=[" == p + w;
    assert "Packet={ unsubscribe=[" == p + "un" + w;
    var s := p + w + c + t;
    assert s[..9] == p;
    assert s[9..] == w + c + t;
  }

  /// A remark carries its success flag exactly when one is present; the
  /// flag reads True only for Y (True).
  lemma RemarkText(f: Formatter, channel: Option<string>, message: Option<string>, b: Boolean, priv: Payload)
    ensures var plain := PacketText(f, Remark, channel, message, None, priv).value;
      PacketText(f, Remark, channel, message, Some(b), priv)
        == Ok(plain[..|plain| - 2] + ", \tsuccess=" + (if b == Y then "True" else "False") + " }")
  {
    var head := RemarkHead(message);
    var plain := head + " }";
    assert plain[..|plain| - 2] == head;
  }

  /// A private packet prints as its record's own text.
  lemma PrivateText(f: Formatter, channel: Option<string>, message: Option<string>,
                    success: Option<Boolean>, priv: Payload)
    requires PayloadText(f, priv).Ok?
    ensures PacketText(f, Private, channel, message, success, priv)
            == Ok("Packet={ " + PayloadText(f, priv).value + " }")
  {
  }

  /// Packet: the fields JSON decoding fills in, and the shared slot behind
  /// the depth, trade, ticker and oldticker properties.
  class Packet {
    var op: OpType
    var channel: Option<string>
    var message: Option<string>
    var success: Option<Boolean>
    var origin: Option<string>
    var content: PacketContent
    var priv: Payload

    /// A new packet: enums at their zero values, references null.
    constructor ()
      ensures op == Private && content == DepthContent
      ensures channel == None && message == None && success == None && origin == None
      ensures priv == NoPayload
    {
      op := Private;
      channel := None;
      message := None;
      success := None;
      origin := None;
      content := DepthContent;
      priv := NoPayload;
    }

    /// The depth property's getter.
    function GetDepth(): (r: Option<Depth>)
      reads this
      ensures r.Some? <==> priv.HoldsDepth?
    {
      DepthOf(priv)
    }

    /// The trade property's getter.
    function GetTrade(): (r: Option<Trade>)
      reads this
      ensures r.Some? <==> priv.HoldsTrade?
    {
      TradeOf(priv)
    }

    /// The ticker property's getter.
    function GetTicker(): (r: Option<Ticker>)
      reads this
      ensures r.Some? <==> priv.HoldsTicker?
    {
      TickerOf(priv)
    }

    /// The oldticker property's getter.
    function GetOldTicker(): (r: Option<OldTicker>)
      reads this
      ensures r.Some? <==> priv.HoldsOldTicker?
    {
      OldTickerOf(priv)
    }

    /// The depth property's setter: the slot now holds `d` (or null), so
    /// depth reads it back and the other three properties read null.
    method SetDepth(d: Option<Depth>)
      modifies this
      ensures priv == (if d.Some? then HoldsDepth(d.value) else NoPayload)
      ensures GetDepth() == d && GetTrade() == None && GetTicker() == None && GetOldTicker() == None
      ensures op == old(op) && channel == old(channel) && message == old(message)
      ensures success == old(success) && origin == old(origin) && content == old(content)
    {
      priv := if d.Some? then HoldsDepth(d.value) else NoPayload;
    }

    /// The trade property's setter.
    method SetTrade(t: Option<Trade>)
      modifies this
      ensures priv == (if t.Some? then HoldsTrade(t.value) else NoPayload)
      ensures GetTrade() == t && GetDepth() == None && GetTicker() == None && GetOldTicker() == None
      ensures op == old(op) && channel == old(channel) && message == old(message)
      ensures success == old(success) && origin == old(origin) && content == old(content)
    {
      priv := if t.Some? then HoldsTrade(t.value) else NoPayload;
    }

    /// The ticker property's setter.
    method SetTicker(t: Option<Ticker>)
      modifies this
      ensures priv == (if t.Some? then HoldsTicker(t.value) else NoPayload)
      ensures GetTicker() == t && GetDepth() == None && GetTrade() == None && GetOldTicker() == None
      ensures op == old(op) && channel == old(channel) && message == old(message)
      ensures success == old(success) && origin == old(origin) && content == old(content)
    {
      priv := if t.Some? then HoldsTicker(t.value) else NoPayload;
    }

    /// The oldticker property's setter.
    method SetOldTicker(t: Option<OldTicker>)
      modifies this
      ensures priv == (if t.Some? then HoldsOldTicker(t.value) else NoPayload)
      ensures GetOldTicker() == t && GetDepth() == None && GetTrade() == None && GetTicker() == None
      ensures op == old(op) && channel == old(channel) && message == old(message)
      ensures success == old(success) && origin == old(origin) && content == old(content)
    {
      priv := if t.Some? then HoldsOldTicker(t.value) else NoPayload;
    }

    /// Packet.ToString.
    function ToText(f: Formatter): (r: Result<string>)
      reads this
      ensures r.Err? <==> op == Private && PayloadText(f, priv).Err?
    {
      PacketTextErrors(f, op, channel, message, success, priv);
      PacketText(f, op, channel, message, success, priv)
    }
  }
}
