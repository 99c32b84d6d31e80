/** The Shanghai and Shenzhen rules shared by every provider: from a neutral view of a row to a standard
    event, or to the reason there is none. */
module ExchangeRules {
  import opened Words
  import opened Wrappers
  import opened MarketEvents

  datatype MapStatus = Mapped | MappedDiagnostic | Ignored | Invalid | Unsupported

  datatype MapResult = MapResult(status: MapStatus, lossless: bool)
  {
    predicate Ok() {
      status == Mapped || status == MappedDiagnostic
    }
  }

  /** A result, and the event it produced exactly when it is ok. */
  datatype Mapping<T> = Mapping(result: MapResult, event: Option<T>)

  function Refuse<T>(status: MapStatus): Mapping<T> {
    Mapping(MapResult(status, false), None)
  }

  datatype EventContext = EventContext(sourceId: u32, venueId: u32, feedId: u32, instrumentId: u32, tradingDay: u32)

  datatype OrderKind = UnknownOrder | AddLimit | AddMarket | AddOwnBest | DeleteOrder | PhaseChange

  datatype OrderView = OrderView(
    exchangeTsNs: u64, eventSeq: u64, exchangeSeq: u64, partitionId: u64, orderId: u64, originalOrderId: u64,
    price: i64, quantity: i64, side: Side, kind: OrderKind, phase: TradingPhase)

  datatype TransactionKind = UnknownTransaction | TradeTransaction | CancelTransaction

  datatype TransactionView = TransactionView(
    exchangeTsNs: u64, eventSeq: u64, exchangeSeq: u64, partitionId: u64, tradeId: u64, bidOrderId: u64,
    askOrderId: u64, price: i64, quantity: i64, aggressor: Aggressor, neutralTrade: bool, kind: TransactionKind)

  function FillHeader(c: EventContext, kind: EventKind, exchangeTsNs: u64, eventSeq: u64,
                      exchangeSeq: u64): EventHeader {
    EmptyHeader(kind).(sourceId := c.sourceId, venueId := c.venueId, feedId := c.feedId, instrumentId := c.instrumentId,
                       tradingDay := c.tradingDay, eventSeq := eventSeq, exchangeSeq := exchangeSeq,
                       exchangeTsNs := exchangeTsNs)
  }

  const CONTINUOUS_TRADING_NS: u64 := 34_200_000_000_000  // 09:30

  /** The order fields both exchanges fill the same way. */
  function BaseOrder(c: EventContext, v: OrderView): BookOrder {
    EmptyBookOrder(FillHeader(c, BookOrderEvent, v.exchangeTsNs, v.eventSeq, v.exchangeSeq)).(
      orderId := v.orderId, originalOrderId := v.originalOrderId, partitionId := v.partitionId,
      orderSeq := v.exchangeSeq, priorityId := v.orderId, price := v.price, quantity := v.quantity,
      remainingQuantity := v.quantity, side := v.side, timeInForce := Day)
  }

  predicate BadOrder(v: OrderView) {
    v.orderId == 0 || v.side == UnknownSide || v.quantity < 0 || v.price < 0
  }

  function SseOrder(c: EventContext, v: OrderView): (m: Mapping<BookOrder>)
    ensures m.result.Ok() <==> m.event.Some?
  {
    if v.kind == PhaseChange then Refuse(Ignored)
    else if BadOrder(v) then Refuse(Invalid)
    else
      var order := BaseOrder(c, v).(orderType := Limit, priceInstruction := ExplicitLimit);
      match v.kind
      case AddLimit => Mapping(MapResult(MappedDiagnostic, false), Some(order.(action := Add)))
      case DeleteOrder => Mapping(MapResult(MappedDiagnostic, false), Some(order.(action := Delete)))
      case _ => Refuse(Unsupported)
  }

  function SsePhase(c: EventContext, v: OrderView): (m: Mapping<PhaseUpdate>)
    ensures m.result.Ok() <==> m.event.Some?
    ensures m.event.Some? ==> m.event.value.phase != UnknownPhase
  {
    if v.kind != PhaseChange || v.phase == UnknownPhase then Refuse(Invalid)
    else Mapping(MapResult(Mapped, true),
                 Some(PhaseUpdate(FillHeader(c, TradingPhaseEvent, v.exchangeTsNs, v.eventSeq, v.exchangeSeq),
                                  v.phase)))
  }

  function CanceledOrder(v: TransactionView): u64 {
    if v.askOrderId != 0 then v.askOrderId else v.bidOrderId
  }

  /** A cancel names the sell order if there is one, else the buy order. */
  function CancelEvent(c: EventContext, v: TransactionView, success: MapResult): (m: Mapping<BookOrder>)
    requires success.Ok()
    ensures m.result.Ok() <==> m.event.Some?
  {
    if v.kind != CancelTransaction || v.quantity <= 0 || CanceledOrder(v) == 0 then Refuse(Invalid)
    else Mapping(success,
                 Some(EmptyBookOrder(FillHeader(c, BookOrderEvent, v.exchangeTsNs, v.eventSeq, v.exchangeSeq)).(
                                 orderId := CanceledOrder(v), partitionId := v.partitionId, orderSeq := v.exchangeSeq,
                                 quantity := v.quantity, action := Cancel)))
  }

  function SseCancel(c: EventContext, v: TransactionView): (m: Mapping<BookOrder>)
    ensures m.result.Ok() <==> m.event.Some?
  {
    CancelEvent(c, v, MapResult(MappedDiagnostic, false))
  }

  predicate BadTrade(v: TransactionView) {
    v.kind != TradeTransaction || v.tradeId == 0 || v.quantity <= 0 || v.price < 0
  }

  function BaseTrade(c: EventContext, v: TransactionView): BookTrade {
    BookTrade(FillHeader(c, BookTradeEvent, v.exchangeTsNs, v.eventSeq, v.exchangeSeq), v.tradeId, v.tradeId,
              v.partitionId,
              0, 0, 0, v.price, v.quantity, v.aggressor)
  }

  /** Before 09:30, and for neutral trades, both orders are named; in continuous trading only the resting one. */
  function SseTrade(c: EventContext, v: TransactionView): (m: Mapping<BookTrade>)
    ensures m.result.Ok() <==> m.event.Some?
  {
    if BadTrade(v) then Refuse(Invalid)
    else
      var trade := BaseTrade(c, v);
      var ok := MapResult(MappedDiagnostic, false);
      if v.exchangeTsNs < CONTINUOUS_TRADING_NS || v.neutralTrade then
        Mapping(ok, Some(trade.(sellOrderId := v.askOrderId, buyOrderId := v.bidOrderId,
                                aggressor := if v.neutralTrade then UnknownAggressor else v.aggressor)))
      else match v.aggressor
        case BuyAggressor => Mapping(ok, Some(trade.(restingOrderId := v.askOrderId)))
        case SellAggressor => Mapping(ok, Some(trade.(restingOrderId := v.bidOrderId)))
        case UnknownAggressor => Refuse(Unsupported)
  }

  function SzseOrder(c: EventContext, v: OrderView): (m: Mapping<BookOrder>)
    ensures m.result.Ok() <==> m.event.Some?
  {
    if BadOrder(v) then Refuse(Invalid)
    else
      var order, ok := BaseOrder(c, v).(action := Add), MapResult(Mapped, true);
      match v.kind
      case AddLimit => Mapping(ok, Some(order.(orderType := Limit, priceInstruction := ExplicitLimit)))
      case AddMarket => Mapping(ok, Some(order.(orderType := Market, priceInstruction := UnpricedMarket)))
      case AddOwnBest =>
        Mapping(ok, Some(order.(orderType := Market, priceInstruction := OwnBest, remainderPolicy := Rest)))
      case _ => Refuse(Unsupported)
  }

  function SzseCancel(c: EventContext, v: TransactionView): (m: Mapping<BookOrder>)
    ensures m.result.Ok() <==> m.event.Some?
  {
    CancelEvent(c, v, MapResult(Mapped, true))
  }

  /** The later of two named orders is the one that traded against the book. */
  function InferredAggressor(bidOrderId: u64, askOrderId: u64): Aggressor {
    if bidOrderId > askOrderId then BuyAggressor else SellAggressor
  }

  function SzseTrade(c: EventContext, v: TransactionView): (m: Mapping<BookTrade>)
    ensures m.result.Ok() <==> m.event.Some?
  {
    if BadTrade(v) then Refuse(Invalid)
    else
      var aggressor := if v.aggressor == UnknownAggressor && v.bidOrderId != 0 && v.askOrderId != 0
                       then InferredAggressor(v.bidOrderId, v.askOrderId) else v.aggressor;
      Mapping(MapResult(Mapped, true),
              Some(BaseTrade(c, v).(sellOrderId := v.askOrderId, buyOrderId := v.bidOrderId, aggressor := aggressor)))
  }

  // ---------------------------------------------------------------------------------------------
  // What each event carries

  /** A header that names the context's source and instrument and nothing else but these three. */
  predicate HeaderCarries(h: EventHeader, kind: EventKind, c: EventContext, exchangeTsNs: u64, eventSeq: u64,
                          exchangeSeq: u64) {
    && h.kind == kind && h.sourceId == c.sourceId && h.venueId == c.venueId && h.feedId == c.feedId
    && h.instrumentId == c.instrumentId && h.tradingDay == c.tradingDay
    && h.exchangeTsNs == exchangeTsNs && h.eventSeq == eventSeq && h.exchangeSeq == exchangeSeq
    && h.flags == 0 && h.connectionId == 0 && h.captureSeq == h.recvTsNs == h.sendTsNs == 0
  }

  /** An order good for the day with this id (also its priority), price, quantity (all of it remaining) and side. */
  predicate OrderCarries(o: BookOrder, orderId: u64, original: u64, partition: u64, sequence: u64, price: i64,
                         quantity: i64, side: Side) {
    && o.orderId == o.priorityId == orderId && o.originalOrderId == original
    && o.partitionId == partition && o.orderSeq == sequence
    && o.price == price && o.quantity == o.remainingQuantity == quantity && o.side == side && o.timeInForce == Day
  }

  predicate IsLimit(o: BookOrder) {
    o.orderType == Limit && o.priceInstruction == ExplicitLimit && o.remainderPolicy == NoRemainderPolicy
  }

  predicate IsMarket(o: BookOrder) {
    o.orderType == Market && o.priceInstruction == UnpricedMarket && o.remainderPolicy == NoRemainderPolicy
  }

  predicate IsOwnBest(o: BookOrder) {
    o.orderType == Market && o.priceInstruction == OwnBest && o.remainderPolicy == Rest
  }

  /** A cancel of `quantity` of one order, and nothing else about it. */
  predicate CancelCarries(o: BookOrder, orderId: u64, partition: u64, sequence: u64, quantity: i64) {
    && o.action == Cancel && o.orderId == orderId && o.partitionId == partition && o.orderSeq == sequence
    && o.quantity == quantity && o.remainingQuantity == o.price == 0 && o.originalOrderId == o.priorityId == 0
    && o.side == UnknownSide && o.orderType == NoOrderType && o.priceInstruction == NoInstruction
    && o.timeInForce == NoTimeInForce && o.remainderPolicy == NoRemainderPolicy
  }

  /** A trade with its orders: the buyer's, the seller's, or the one that rested. */
  predicate TradeCarries(t: BookTrade, tradeId: u64, partition: u64, price: i64, quantity: i64, buyOrderId: u64,
                         sellOrderId: u64, restingOrderId: u64, aggressor: Aggressor) {
    && t.tradeId == t.tradeSeq == tradeId && t.partitionId == partition && t.price == price && t.quantity == quantity
    && t.buyOrderId == buyOrderId && t.sellOrderId == sellOrderId && t.restingOrderId == restingOrderId
    && t.aggressor == aggressor
  }

  /** Shanghai orders, row by row: a phase row is ignored, an order without an id or a side or with a negative
      number is invalid, one neither added nor deleted is unsupported, and any other is that limit order. */
  lemma SseOrderContents(c: EventContext, v: OrderView)
    ensures var m := SseOrder(c, v);
            && m.result == (if v.kind == PhaseChange then MapResult(Ignored, false)
                            else if v.orderId == 0 || v.side == UnknownSide || v.quantity < 0 || v.price < 0
                            then MapResult(Invalid, false)
                            else if v.kind == AddLimit || v.kind == DeleteOrder then MapResult(MappedDiagnostic, false)
                            else MapResult(Unsupported, false))
            && (m.event.Some? ==>
                  var o := m.event.value;
                  && HeaderCarries(o.header, BookOrderEvent, c, v.exchangeTsNs, v.eventSeq, v.exchangeSeq)
                  && OrderCarries(o, v.orderId, v.originalOrderId, v.partitionId, v.exchangeSeq, v.price, v.quantity,
                                  v.side)
                  && IsLimit(o) && o.action == (if v.kind == AddLimit then Add else Delete))
  {
  }

  /** Shenzhen orders: the same checks, and three kinds of order. */
  lemma SzseOrderContents(c: EventContext, v: OrderView)
    ensures var m := SzseOrder(c, v);
            && m.result == (if v.orderId == 0 || v.side == UnknownSide || v.quantity < 0 || v.price < 0
                            then MapResult(Invalid, false)
                            else if v.kind == AddLimit || v.kind == AddMarket || v.kind == AddOwnBest
                            then MapResult(Mapped, true)
                            else MapResult(Unsupported, false))
            && (m.event.Some? ==>
                  var o := m.event.value;
                  && HeaderCarries(o.header, BookOrderEvent, c, v.exchangeTsNs, v.eventSeq, v.exchangeSeq)
                  && OrderCarries(o, v.orderId, v.originalOrderId, v.partitionId, v.exchangeSeq, v.price, v.quantity,
                                  v.side)
                  && o.action == Add
                  && (v.kind == AddLimit ==> IsLimit(o)) && (v.kind == AddMarket ==> IsMarket(o))
                  && (v.kind == AddOwnBest ==> IsOwnBest(o)))
  {
  }

  lemma PhaseContents(c: EventContext, v: OrderView)
    ensures var m := SsePhase(c, v);
            && m.result == (if v.kind == PhaseChange && v.phase != UnknownPhase then MapResult(Mapped, true)
                            else MapResult(Invalid, false))
            && (m.event.Some? ==>
                  && m.event.value.phase == v.phase
                  && HeaderCarries(m.event.value.header, TradingPhaseEvent, c, v.exchangeTsNs, v.eventSeq,
                                   v.exchangeSeq))
  {
  }

  /** Cancels in both cities: of the sell order if it is named, else of the buy order. */
  lemma CancelContents(c: EventContext, v: TransactionView)
    ensures var m, n := SseCancel(c, v), SzseCancel(c, v);
            var ok := v.kind == CancelTransaction && v.quantity > 0 && (v.bidOrderId != 0 || v.askOrderId != 0);
            && m.result == (if ok then MapResult(MappedDiagnostic, false) else MapResult(Invalid, false))
            && n.result == (if ok then MapResult(Mapped, true) else MapResult(Invalid, false))
            && m.event == n.event
            && (m.event.Some? ==>
                  && HeaderCarries(m.event.value.header, BookOrderEvent, c, v.exchangeTsNs, v.eventSeq, v.exchangeSeq)
                  && CancelCarries(m.event.value, if v.askOrderId != 0 then v.askOrderId else v.bidOrderId,
                                   v.partitionId, v.exchangeSeq, v.quantity))
  {
  }

  /** Shanghai trades: before 09:30, or started by neither side, both orders are named in their own fields; later
      only the one that rested, the seller's when the buyer was active and the buyer's when the seller was. */
  lemma SseTradeContents(c: EventContext, v: TransactionView)
    ensures var m := SseTrade(c, v);
            var bad := v.kind != TradeTransaction || v.tradeId == 0 || v.quantity <= 0 || v.price < 0;
            var auction := v.exchangeTsNs < 34_200_000_000_000 || v.neutralTrade;
            && m.result == (if bad then MapResult(Invalid, false)
                            else if !auction && v.aggressor == UnknownAggressor then MapResult(Unsupported, false)
                            else MapResult(MappedDiagnostic, false))
            && (m.event.Some? ==>
                  var t := m.event.value;
                  && HeaderCarries(t.header, BookTradeEvent, c, v.exchangeTsNs, v.eventSeq, v.exchangeSeq)
                  && (if auction
                      then TradeCarries(t, v.tradeId, v.partitionId, v.price, v.quantity, v.bidOrderId, v.askOrderId, 0,
                                        if v.neutralTrade then UnknownAggressor else v.aggressor)
                      else TradeCarries(t, v.tradeId, v.partitionId, v.price, v.quantity, 0, 0,
                                        if v.aggressor == BuyAggressor then v.askOrderId else v.bidOrderId,
                                        v.aggressor)))
  {
  }

  /** Shenzhen trades: both orders in their own fields; an unmarked trade between two named orders was started by
      the buyer if his is the later one, else by the seller. */
  lemma SzseTradeContents(c: EventContext, v: TransactionView)
    ensures var m := SzseTrade(c, v);
            && m.result == (if v.kind != TradeTransaction || v.tradeId == 0 || v.quantity <= 0 || v.price < 0
                            then MapResult(Invalid, false) else MapResult(Mapped, true))
            && (m.event.Some? ==>
                  var t := m.event.value;
                  && HeaderCarries(t.header, BookTradeEvent, c, v.exchangeTsNs, v.eventSeq, v.exchangeSeq)
                  && TradeCarries(t, v.tradeId, v.partitionId, v.price, v.quantity, v.bidOrderId, v.askOrderId, 0,
                                  if v.aggressor != UnknownAggressor || v.bidOrderId == 0 || v.askOrderId == 0
                                  then v.aggressor
                                  else if v.bidOrderId > v.askOrderId then BuyAggressor else SellAggressor))
  {
  }

  // ---------------------------------------------------------------------------------------------
  // What the rules promise, whatever the provider

  /** Call auction, or a trade neither side started. */
  predicate TwoSided(v: TransactionView) {
    v.exchangeTsNs < CONTINUOUS_TRADING_NS || v.neutralTrade
  }

  /** The orders a consumer must reduce by the trade's quantity. */
  function OrdersReduced(t: BookTrade): set<u64> {
    {t.sellOrderId, t.buyOrderId, t.restingOrderId} - {0}
  }

  /** A Shanghai trade reduces both its orders in an auction, and afterwards only the passive one; it is refused
      exactly when it is malformed, or continuous with no side to call active. */
  lemma SseTradeReducesOrders(c: EventContext, v: TransactionView)
    ensures var m := SseTrade(c, v);
            && (m.event.None? <==> BadTrade(v) || (!TwoSided(v) && v.aggressor == UnknownAggressor))
            && (m.event.Some? ==>
                  var t := m.event.value;
                  && OrdersReduced(t) == (if TwoSided(v) then {v.bidOrderId, v.askOrderId}
                                          else if v.aggressor == BuyAggressor then {v.askOrderId}
                                          else {v.bidOrderId}) - {0}
                  && t.aggressor == (if v.neutralTrade then UnknownAggressor else v.aggressor)
                  && t.price == v.price && t.quantity == v.quantity && t.header.exchangeSeq == v.exchangeSeq
                  && t.header.exchangeTsNs == v.exchangeTsNs)
  {
  }

  function MirrorAggressor(a: Aggressor): Aggressor {
    match a
    case BuyAggressor => SellAggressor
    case SellAggressor => BuyAggressor
    case UnknownAggressor => UnknownAggressor
  }

  /** The same transaction seen from the other side of the book. */
  function Mirror(v: TransactionView): TransactionView {
    v.(bidOrderId := v.askOrderId, askOrderId := v.bidOrderId, aggressor := MirrorAggressor(v.aggressor))
  }

  function MirrorTrade(m: Mapping<BookTrade>): Mapping<BookTrade> {
    Mapping(m.result, match m.event
                      case Some(t) => Some(t.(sellOrderId := t.buyOrderId, buyOrderId := t.sellOrderId,
                                              aggressor := MirrorAggressor(t.aggressor)))
                      case None => None)
  }

  /** Shanghai trades treat buyers and sellers alike. */
  lemma SseTradeIsSymmetric(c: EventContext, v: TransactionView)
    ensures SseTrade(c, Mirror(v)) == MirrorTrade(SseTrade(c, v))
  {
  }

  /** Shenzhen trades do too, except that an unmarked trade of two equal order ids is always called a sale. */
  lemma SzseTradeIsSymmetricIff(c: EventContext, v: TransactionView)
    ensures SzseTrade(c, Mirror(v)) == MirrorTrade(SzseTrade(c, v))
            <==> BadTrade(v) || v.aggressor != UnknownAggressor || v.bidOrderId != v.askOrderId || v.bidOrderId == 0
  {
  }

  /** In Shenzhen the active side of an unmarked trade is the later of its two orders, the sale if they are one, and
      unknown if one is missing; a marked side stands. */
  lemma SzseTradeActiveSide(c: EventContext, v: TransactionView)
    requires SzseTrade(c, v).event.Some?
    ensures var t := SzseTrade(c, v).event.value;
            && t.buyOrderId == v.bidOrderId && t.sellOrderId == v.askOrderId && t.restingOrderId == 0
            && (v.aggressor != UnknownAggressor ==> t.aggressor == v.aggressor)
            && (v.aggressor == UnknownAggressor && v.bidOrderId > v.askOrderId > 0 ==> t.aggressor == BuyAggressor)
            && (v.aggressor == UnknownAggressor && v.askOrderId > v.bidOrderId > 0 ==> t.aggressor == SellAggressor)
            && (v.aggressor == UnknownAggressor && v.askOrderId == v.bidOrderId > 0 ==> t.aggressor == SellAggressor)
            && (v.aggressor == UnknownAggressor && (v.bidOrderId == 0 || v.askOrderId == 0)
                ==> t.aggressor == UnknownAggressor)
  {
  }

  /** A cancel names one of its row's orders, never 0, and the buy order only if there is no sell order; from the
      other side it names the same one exactly when it had no choice (or there is nothing to name). */
  lemma CancelNamesOrder(c: EventContext, v: TransactionView)
    ensures var m := SzseCancel(c, v);
            && m.event == SseCancel(c, v).event
            && (m.event.Some? <==> (v.kind == CancelTransaction && v.quantity > 0
                                    && (v.bidOrderId != 0 || v.askOrderId != 0)))
            && (m.event.Some? ==>
                  var o := m.event.value;
                  && o.action == Cancel && o.quantity == v.quantity && o.orderId in {v.bidOrderId, v.askOrderId} - {0}
                  && (v.askOrderId != 0 ==> o.orderId == v.askOrderId))
    ensures CanceledOrder(Mirror(v)) == CanceledOrder(v)
            <==> v.bidOrderId == 0 || v.askOrderId == 0 || v.bidOrderId == v.askOrderId
  {
  }
}
