/** Feed envelopes and standard events: the fields the mappers in this model read and set. */
module MarketEvents {
  import opened Words

  /** What a transport attaches to a raw message; enumerations are their stored numbers. */
  datatype MessageEnvelope = MessageEnvelope(
    schemaVersion: u16, payloadKind: u16, payloadEncoding: u8, protocol: u8, compression: u8,
    sourceId: u32, venueId: u32, connectionId: u32, feedId: u32, instrumentId: u32,
    captureSeq: u64, eventSeq: u64, exchangeSeq: u64, sourceTsNs: u64, recvTsNs: u64, publishTsNs: u64,
    payloadSize: u32, flags: u32)

  datatype EventKind = UnknownEvent | TradeEvent | QuoteEvent | BookOrderEvent | BookTradeEvent | TradingPhaseEvent

  datatype EventHeader = EventHeader(
    kind: EventKind, flags: u32, sourceId: u32, venueId: u32, feedId: u32, connectionId: u32, instrumentId: u32,
    tradingDay: u32, captureSeq: u64, eventSeq: u64, exchangeSeq: u64, exchangeTsNs: u64, recvTsNs: u64, sendTsNs: u64)

  function EmptyHeader(kind: EventKind): EventHeader {
    EventHeader(kind, 0, 0, 0, 0, 0, 0, 0, 0, 0, 0, 0, 0, 0)
  }

  function HeaderFromEnvelope(m: MessageEnvelope, kind: EventKind): EventHeader {
    EmptyHeader(kind).(flags := m.flags, sourceId := m.sourceId, venueId := m.venueId, feedId := m.feedId,
                       connectionId := m.connectionId, instrumentId := m.instrumentId, captureSeq := m.captureSeq,
                       eventSeq := m.eventSeq, exchangeSeq := m.exchangeSeq, exchangeTsNs := m.sourceTsNs,
                       recvTsNs := m.recvTsNs, sendTsNs := m.publishTsNs)
  }

  datatype Side = UnknownSide | Buy | Sell
  datatype Aggressor = UnknownAggressor | BuyAggressor | SellAggressor

  datatype Trade = Trade(header: EventHeader, price: i64, quantity: i64, tradeId: u64, aggressor: Aggressor)

  datatype Quote = Quote(header: EventHeader, bidPrice: i64, bidQuantity: i64, askPrice: i64, askQuantity: i64)

  datatype TradingPhase =
    | UnknownPhase | Startup | OpeningCall | Continuous | Break | Suspended | ClosingCall | Closed | EndOfTrading
    | AfterHours | VolatilityInterruption | FixedPriceCall

  datatype OrderAction = NoAction | Add | Delete | Cancel
  datatype OrderType = NoOrderType | Limit | Market
  datatype PriceInstruction = NoInstruction | ExplicitLimit | UnpricedMarket | OwnBest
  datatype TimeInForce = NoTimeInForce | Day
  datatype RemainderPolicy = NoRemainderPolicy | Rest

  datatype BookOrder = BookOrder(
    header: EventHeader, orderId: u64, originalOrderId: u64, partitionId: u64, orderSeq: u64, priorityId: u64,
    price: i64, quantity: i64, remainingQuantity: i64, side: Side, action: OrderAction, orderType: OrderType,
    priceInstruction: PriceInstruction, timeInForce: TimeInForce, remainderPolicy: RemainderPolicy)

  function EmptyBookOrder(header: EventHeader): BookOrder {
    BookOrder(header, 0, 0, 0, 0, 0, 0, 0, 0, UnknownSide, NoAction, NoOrderType, NoInstruction, NoTimeInForce,
              NoRemainderPolicy)
  }

  datatype BookTrade = BookTrade(
    header: EventHeader, tradeId: u64, tradeSeq: u64, partitionId: u64, sellOrderId: u64, buyOrderId: u64,
    restingOrderId: u64, price: i64, quantity: i64, aggressor: Aggressor)

  datatype PhaseUpdate = PhaseUpdate(header: EventHeader, phase: TradingPhase)

  /** One published event, of whichever kind. */
  datatype StandardEvent = OrderOf(order: BookOrder) | TradeOf(trade: BookTrade) | PhaseOf(update: PhaseUpdate)
  {
    function Header(): EventHeader {
      match this
      case OrderOf(o) => o.header
      case TradeOf(t) => t.header
      case PhaseOf(p) => p.header
    }

    /** The same event from another source. */
    function From(sourceId: u32): StandardEvent {
      match this
      case OrderOf(o) => OrderOf(o.(header := o.header.(sourceId := sourceId)))
      case TradeOf(t) => TradeOf(t.(header := t.header.(sourceId := sourceId)))
      case PhaseOf(p) => PhaseOf(p.(header := p.header.(sourceId := sourceId)))
    }

    /** The same event numbered by the exchange's sequence instead of the feed's. */
    function Renumbered(): StandardEvent {
      match this
      case OrderOf(o) => OrderOf(o.(header := o.header.(eventSeq := o.header.exchangeSeq)))
      case TradeOf(t) => TradeOf(t.(header := t.header.(eventSeq := t.header.exchangeSeq)))
      case PhaseOf(p) => PhaseOf(p.(header := p.header.(eventSeq := p.header.exchangeSeq)))
    }
  }
}
