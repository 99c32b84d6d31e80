/** What each vendor's event of an exchange fact carries, in terms of the fact alone. */
module FactContents {
  import opened Words
  import opened Wrappers
  import opened MarketEvents
  import opened ExchangeRules
  import opened MapperOutputs
  import opened ProviderIndependence
  import Tonglian = TonglianMapper
  import Csmar = CsmarMapper

  /** A header of the fact's moment and place in its channel, numbered by the feed as given. */
  predicate HeaderOfFact(h: EventHeader, kind: EventKind, c: MappingContext, s: Stamp, eventSeq: u64,
                         exchangeSeq: u64) {
    HeaderCarries(h, kind, EventContext(c.sourceId, c.venueId, c.feedId, c.instrumentId, c.tradingDay),
                  LocalMs(s.unixTimeMs) * 1_000_000, eventSeq, exchangeSeq)
  }

  predicate IsOfKind(o: BookOrder, kind: SzseKind) {
    match kind
    case LimitOrder => IsLimit(o)
    case MarketOrder => IsMarket(o)
    case OwnBestOrder => IsOwnBest(o)
  }

  /** Tonglian numbers a transaction without an exchange sequence by its own id for it. */
  function TransactionSequence(s: Stamp, x: VendorFields): u64 {
    if s.sequence == 0 then x.transactionId else s.sequence
  }

  // ---------------------------------------------------------------------------------------------
  // Orders

  /** An order through Tonglian carries the fact's price, quantity, side, id, channel and sequence: added, or deleted
      in Shanghai; a limit order in Shanghai and of its own kind in Shenzhen. */
  lemma TonglianOrders(c: MappingContext, f: Fact, x: VendorFields)
    requires (f.SseAdd? || f.SseDelete? || f.SzseAdd?) && TonglianMaps(f, x)
    ensures var m, s := ViaTonglian(c, f, x), f.stamp;
            && m.result == (if f.SzseAdd? then MapResult(Mapped, true) else MapResult(MappedDiagnostic, false))
            && m.event.value.OrderOf?
            && var o := m.event.value.order;
               && HeaderOfFact(o.header, BookOrderEvent, c, s, x.rowSeq, s.sequence)
               && OrderCarries(o, if f.SzseAdd? then x.exchangeOrderId else f.orderId, x.originalOrderId, s.channel,
                               s.sequence, f.price, f.quantity, f.side)
               && o.action == (if f.SseDelete? then Delete else Add)
               && (if f.SzseAdd? then IsOfKind(o, f.kind) else IsLimit(o))
  {
    HhmmssmmmReadsBack(LocalMs(f.stamp.unixTimeMs));
    hide Tonglian.HhmmssmmmToNs, Hhmmssmmm, LocalMs, Csmar.ShanghaiPhase;
  }

  /** An add through CSMAR does too; in Shenzhen its sequence is its id. */
  lemma CsmarOrders(c: MappingContext, f: Fact)
    requires (f.SseAdd? || f.SzseAdd?) && CsmarMaps(f)
    ensures var m, s := ViaCsmar(c, f), f.stamp;
            && m.result == (if f.SzseAdd? then MapResult(Mapped, true) else MapResult(MappedDiagnostic, false))
            && m.event.value.OrderOf?
            && var o := m.event.value.order;
               && HeaderOfFact(o.header, BookOrderEvent, c, s, s.sequence, s.sequence)
               && OrderCarries(o, if f.SzseAdd? then s.sequence else f.orderId, 0, s.channel, s.sequence, f.price,
                               f.quantity, f.side)
               && o.action == Add && (if f.SzseAdd? then IsOfKind(o, f.kind) else IsLimit(o))
  {
    ExchangeTimeIsLocal(f.stamp.unixTimeMs);
    hide Csmar.ExchangeTimeNs, LocalMs, Csmar.ShanghaiPhase;
  }

  /** A Shenzhen cancel through either, and a Shanghai delete through CSMAR, cancels the fact's order by the fact's
      quantity. */
  lemma TonglianCancels(c: MappingContext, f: Fact, x: VendorFields)
    requires f.SzseCanceled? && TonglianMaps(f, x)
    ensures var m, s := ViaTonglian(c, f, x), f.stamp;
            && m.result == MapResult(Mapped, true) && m.event.value.OrderOf?
            && HeaderOfFact(m.event.value.order.header, BookOrderEvent, c, s, x.rowSeq, TransactionSequence(s, x))
            && CancelCarries(m.event.value.order, f.orderId, s.channel, TransactionSequence(s, x), f.quantity)
  {
    HhmmssmmmReadsBack(LocalMs(f.stamp.unixTimeMs));
    hide Tonglian.HhmmssmmmToNs, Hhmmssmmm, LocalMs, Csmar.ShanghaiPhase;
  }

  lemma CsmarCancels(c: MappingContext, f: Fact)
    requires (f.SzseCanceled? || f.SseDelete?) && CsmarMaps(f)
    ensures var m, s := ViaCsmar(c, f), f.stamp;
            && m.result == (if f.SzseCanceled? then MapResult(Mapped, true) else MapResult(MappedDiagnostic, false))
            && m.event.value.OrderOf?
            && HeaderOfFact(m.event.value.order.header, BookOrderEvent, c, s, s.sequence, s.sequence)
            && CancelCarries(m.event.value.order, f.orderId, s.channel, s.sequence, f.quantity)
  {
    ExchangeTimeIsLocal(f.stamp.unixTimeMs);
    hide Csmar.ExchangeTimeNs, LocalMs, Csmar.ShanghaiPhase;
  }

  // ---------------------------------------------------------------------------------------------
  // Trades

  /** What a Shanghai trade names: before 09:30 or when it is marked as started by neither, the buyer's and the
      seller's order in their own fields; later only the order that rested. */
  predicate SseTradeOf(t: BookTrade, f: Fact, tradeId: u64, neutral: bool, marked: Aggressor)
    requires f.SseTraded?
  {
    if LocalMs(f.stamp.unixTimeMs) < 34_200_000 || neutral
    then TradeCarries(t, tradeId, f.stamp.channel, f.price, f.quantity, f.buyOrderId, f.sellOrderId, 0,
                      if neutral then UnknownAggressor else marked)
    else TradeCarries(t, tradeId, f.stamp.channel, f.price, f.quantity, 0, 0,
                      if marked == BuyAggressor then f.sellOrderId else f.buyOrderId, marked)
  }

  /** What a Shenzhen trade names: the buyer's and the seller's order in their own fields, and the marked side, or
      else the later of two orders. */
  predicate SzseTradeOf(t: BookTrade, f: Fact, tradeId: u64, marked: Aggressor)
    requires f.SzseTraded?
  {
    TradeCarries(t, tradeId, f.stamp.channel, f.price, f.quantity, f.buyOrderId, f.sellOrderId, 0,
                 if marked != UnknownAggressor || f.buyOrderId == 0 || f.sellOrderId == 0 then marked
                 else if f.buyOrderId > f.sellOrderId then BuyAggressor else SellAggressor)
  }

  function MarkOf(bsFlag: char): Aggressor {
    if bsFlag == 'B' then BuyAggressor else if bsFlag == 'S' then SellAggressor else UnknownAggressor
  }

  lemma TonglianTrades(c: MappingContext, f: Fact, x: VendorFields)
    requires (f.SseTraded? || f.SzseTraded?) && TonglianMaps(f, x)
    ensures var m, s := ViaTonglian(c, f, x), f.stamp;
            && m.result == (if f.SzseTraded? then MapResult(Mapped, true) else MapResult(MappedDiagnostic, false))
            && m.event.value.TradeOf?
            && var t := m.event.value.trade;
               && HeaderOfFact(t.header, BookTradeEvent, c, s, x.rowSeq, TransactionSequence(s, x))
               && (if f.SzseTraded? then SzseTradeOf(t, f, x.transactionId, MarkOf(x.bsFlag))
                   else SseTradeOf(t, f, x.transactionId, x.bsFlag == 'N', MarkOf(x.bsFlag)))
  {
    HhmmssmmmReadsBack(LocalMs(f.stamp.unixTimeMs));
    hide Tonglian.HhmmssmmmToNs, Hhmmssmmm, LocalMs, Csmar.ShanghaiPhase;
  }

  lemma CsmarTrades(c: MappingContext, f: Fact)
    requires (f.SseTraded? || f.SzseTraded?) && CsmarMaps(f)
    ensures var m, s := ViaCsmar(c, f), f.stamp;
            && m.result == (if f.SzseTraded? then MapResult(Mapped, true) else MapResult(MappedDiagnostic, false))
            && m.event.value.TradeOf?
            && var t := m.event.value.trade;
               && HeaderOfFact(t.header, BookTradeEvent, c, s, s.sequence, s.sequence)
               && (if f.SzseTraded? then SzseTradeOf(t, f, s.sequence, UnknownAggressor)
                   else SseTradeOf(t, f, s.sequence, f.flag == UnknownAggressor, f.flag))
  {
    ExchangeTimeIsLocal(f.stamp.unixTimeMs);
    hide Csmar.ExchangeTimeNs, LocalMs, Csmar.ShanghaiPhase;
  }

  // ---------------------------------------------------------------------------------------------
  // Phases and refusals

  lemma Phases(c: MappingContext, f: Fact, x: VendorFields)
    requires f.SseStatus?
    ensures var m, s := ViaTonglian(c, f, x), f.stamp;
            m.event.Some? ==>
              && m.result == MapResult(Mapped, true) && m.event.value.PhaseOf?
              && m.event.value.update.phase == Csmar.ShanghaiPhase(f.code) != UnknownPhase
              && HeaderOfFact(m.event.value.update.header, TradingPhaseEvent, c, s, x.rowSeq, s.sequence)
    ensures var m, s := ViaCsmar(c, f), f.stamp;
            m.event.Some? ==>
              && m.result == MapResult(Mapped, true) && m.event.value.PhaseOf?
              && m.event.value.update.phase == Csmar.ShanghaiPhase(f.code) != UnknownPhase
              && HeaderOfFact(m.event.value.update.header, TradingPhaseEvent, c, s, s.sequence, s.sequence)
  {
    HhmmssmmmReadsBack(LocalMs(f.stamp.unixTimeMs));
    ExchangeTimeIsLocal(f.stamp.unixTimeMs);
    hide Csmar.ExchangeTimeNs, Tonglian.HhmmssmmmToNs, Hhmmssmmm, LocalMs, Csmar.ShanghaiPhase;
  }

  /** A fact that is not published is called invalid; only a Shanghai trade after 09:30 that is good but for its
      side is unsupported instead, and only through Tonglian. */
  lemma TonglianRefusals(c: MappingContext, f: Fact, x: VendorFields)
    requires !TonglianMaps(f, x)
    ensures ViaTonglian(c, f, x).result
         == MapResult(if f.SseTraded? && x.transactionId != 0 && f.quantity > 0 && f.price >= 0
                      then MapStatus.Unsupported else Invalid, false)
  {
    HhmmssmmmReadsBack(LocalMs(f.stamp.unixTimeMs));
    hide Tonglian.HhmmssmmmToNs, Hhmmssmmm, LocalMs, Csmar.ShanghaiPhase;
  }

  lemma CsmarRefusals(c: MappingContext, f: Fact)
    requires !CsmarMaps(f)
    ensures ViaCsmar(c, f).result == MapResult(Invalid, false)
  {
    hide Csmar.ExchangeTimeNs, Csmar.ShanghaiPhase;
  }
}
