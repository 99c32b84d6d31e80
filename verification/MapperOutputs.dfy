/** What the stock mappers are configured with and write into, whichever provider's rows they read. */
module MapperOutputs {
  import opened Words
  import opened Wrappers
  import opened MarketEvents
  import opened ExchangeRules

  datatype Market = UnknownMarket | Shanghai | Shenzhen

  datatype MappingContext = MappingContext(
    sourceId: u32, venueId: u32, feedId: u32, instrumentId: u32, tradingDay: u32, market: Market)
  {
    function Events(): EventContext {
      EventContext(sourceId, venueId, feedId, instrumentId, tradingDay)
    }
  }

  datatype OrderOutput = OrderOutput(eventKind: EventKind, order: BookOrder, phaseUpdate: PhaseUpdate)
  {
    function Published(): Option<StandardEvent> {
      match eventKind
      case BookOrderEvent => Some(OrderOf(order))
      case TradingPhaseEvent => Some(PhaseOf(phaseUpdate))
      case _ => None
    }
  }

  datatype TransactionOutput = TransactionOutput(eventKind: EventKind, order: BookOrder, trade: BookTrade)
  {
    function Published(): Option<StandardEvent> {
      match eventKind
      case BookOrderEvent => Some(OrderOf(order))
      case BookTradeEvent => Some(TradeOf(trade))
      case _ => None
    }
  }

  function Standardize<T>(m: Mapping<T>, wrap: T -> StandardEvent): (s: Mapping<StandardEvent>)
    requires m.result.Ok() <==> m.event.Some?
    ensures s.result == m.result && (s.result.Ok() <==> s.event.Some?)
    ensures m.event.Some? ==> s.event == Some(wrap(m.event.value))
  {
    Mapping(m.result, match m.event case Some(e) => Some(wrap(e)) case None => None)
  }
}
