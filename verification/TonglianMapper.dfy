/** Tonglian rows: one order stream and one transaction stream per channel, both behind one gate. */
module TonglianMapper {
  import opened Words
  import opened Wrappers
  import opened MarketEvents
  import opened ExchangeRules
  import opened MapperOutputs
  import opened PublishedStream
  import Gates = SequenceGates

  datatype OrderRow = OrderRow(
    timeHhmmssmmm: u32, rowSeq: u64, orderId: u64, exchangeOrderId: u64, orderKind: char, functionCode: char,
    price: i64, quantity: i64, channel: u64, originalOrderId: u64, bizIndex: u64, phase: TradingPhase)

  datatype TransactionRow = TransactionRow(
    timeHhmmssmmm: u32, rowSeq: u64, transactionId: u64, functionCode: char, orderKind: char, bsFlag: char, price: i64,
    quantity: i64, askOrderId: u64, bidOrderId: u64, channel: u64, bizIndex: u64)

  /** Local time of day written as HHMMSSmmm, in nanoseconds. No step leaves 64 bits. */
  function HhmmssmmmToNs(value: u32): u64 {
    var milliseconds := value % 1000;
    var seconds := value / 1000 % 100;
    var minutes := value / 1000 / 100 % 100;
    var hours := value / 1000 / 100 / 100;
    (((hours * 60 + minutes) * 60 + seconds) * 1000 + milliseconds) * 1_000_000
  }

  function MapSide(functionCode: char): Side {
    if functionCode == 'B' then Buy else if functionCode == 'S' then Sell else UnknownSide
  }

  function MapAggressor(bsFlag: char): Aggressor {
    if bsFlag == 'B' then BuyAggressor else if bsFlag == 'S' then SellAggressor else UnknownAggressor
  }

  function OrderKindOf(market: Market, orderKind: char): OrderKind {
    match market
    case Shanghai => if orderKind == 'A' then AddLimit else if orderKind == 'D' then DeleteOrder
                     else if orderKind == 'S' then PhaseChange else UnknownOrder
    case Shenzhen => if orderKind == '0' then AddLimit else if orderKind == '1' then AddMarket
                     else if orderKind == 'U' then AddOwnBest else UnknownOrder
    case UnknownMarket => UnknownOrder
  }

  function MapOrderRow(c: MappingContext, row: OrderRow): (m: Mapping<BookOrder>)
    ensures m.result.Ok() <==> m.event.Some?
  {
    var view := OrderView(HhmmssmmmToNs(row.timeHhmmssmmm), row.rowSeq, row.bizIndex, row.channel, row.exchangeOrderId,
                          row.originalOrderId, row.price, row.quantity, MapSide(row.functionCode),
                          OrderKindOf(c.market, row.orderKind), row.phase);
    match c.market
    case Shanghai => SseOrder(c.Events(), view)
    case Shenzhen => SzseOrder(c.Events(), view)
    case UnknownMarket => Refuse(MapStatus.Unsupported)
  }

  function MapStatusRow(c: MappingContext, row: OrderRow): (m: Mapping<PhaseUpdate>)
    ensures m.result.Ok() <==> m.event.Some?
    ensures m.event.Some? ==> m.event.value.phase != UnknownPhase
  {
    if c.market != Shanghai || row.orderKind != 'S' then Refuse(MapStatus.Unsupported)
    else SsePhase(c.Events(), OrderView(HhmmssmmmToNs(row.timeHhmmssmmm), row.rowSeq, row.bizIndex, row.channel,
                                        0, 0, 0, 0, UnknownSide, PhaseChange, row.phase))
  }

  function TransactionKindOf(functionCode: char): TransactionKind {
    if functionCode == 'C' then CancelTransaction
    else if functionCode == '0' || functionCode == '\0' then TradeTransaction
    else UnknownTransaction
  }

  function ViewOfTransaction(row: TransactionRow): TransactionView {
    TransactionView(HhmmssmmmToNs(row.timeHhmmssmmm), row.rowSeq,
                    if row.bizIndex != 0 then row.bizIndex else row.transactionId, row.channel, row.transactionId,
                    row.bidOrderId, row.askOrderId, row.price, row.quantity,
                    MapAggressor(row.bsFlag), row.bsFlag == 'N', TransactionKindOf(row.functionCode))
  }

  /** What an order-stream row means, continuity apart. */
  function OrderMapping(c: MappingContext, row: OrderRow): (m: Mapping<StandardEvent>)
    ensures m.result.Ok() <==> m.event.Some?
  {
    if row.orderKind == 'S' then Standardize(MapStatusRow(c, row), u => PhaseOf(u))
    else Standardize(MapOrderRow(c, row), o => OrderOf(o))
  }

  /** What a transaction-stream row means, continuity apart: trades and cancels travel together. */
  function TransactionMapping(c: MappingContext, row: TransactionRow): (m: Mapping<StandardEvent>)
    ensures m.result.Ok() <==> m.event.Some?
  {
    var view := ViewOfTransaction(row);
    match c.market
    case Shanghai => if view.kind == CancelTransaction then Standardize(SseCancel(c.Events(), view), o => OrderOf(o))
                     else Standardize(SseTrade(c.Events(), view), t => TradeOf(t))
    case Shenzhen => if view.kind == CancelTransaction then Standardize(SzseCancel(c.Events(), view), o => OrderOf(o))
                     else Standardize(SzseTrade(c.Events(), view), t => TradeOf(t))
    case UnknownMarket => Refuse(MapStatus.Unsupported)
  }

  /** The vendor's one-letter codes. */
  lemma Codes(code: char)
    ensures (MapSide(code) == Buy <==> code == 'B') && (MapSide(code) == Sell <==> code == 'S')
    ensures (MapAggressor(code) == BuyAggressor <==> code == 'B')
            && (MapAggressor(code) == SellAggressor <==> code == 'S')
    ensures (TransactionKindOf(code) == CancelTransaction <==> code == 'C')
            && (TransactionKindOf(code) == TradeTransaction <==> code == '0' || code as int == 0)
    ensures forall market, kind :: OrderKindOf(market, code) == kind && kind != UnknownOrder <==>
              (market, code, kind) in {(Shanghai, 'A', AddLimit), (Shanghai, 'D', DeleteOrder),
                                       (Shanghai, 'S', PhaseChange), (Shenzhen, '0', AddLimit),
                                       (Shenzhen, '1', AddMarket), (Shenzhen, 'U', AddOwnBest)}
  {
  }

  /** An order row is published as what its own fields say: Shanghai orders, Shenzhen orders and status rows. The
      order id is the exchange's, not the vendor's. */
  lemma OrderRowContents(c: MappingContext, row: OrderRow)
    ensures OrderMapping(c, row).event.Some? ==>
              var e := OrderMapping(c, row).event.value;
              && e.Header().eventSeq == row.rowSeq && e.Header().exchangeSeq == row.bizIndex
              && e.Header().exchangeTsNs == HhmmssmmmToNs(row.timeHhmmssmmm)
              && (e.PhaseOf? <==> row.orderKind == 'S') && (e.PhaseOf? ==> e.update.phase == row.phase)
              && (e.OrderOf? <==> row.orderKind != 'S')
              && (e.OrderOf? ==>
                    OrderCarries(e.order, row.exchangeOrderId, row.originalOrderId, row.channel, row.bizIndex,
                                 row.price, row.quantity, if row.functionCode == 'B' then Buy else Sell))
  {
    hide HhmmssmmmToNs;
  }

  /** A transaction row without an exchange sequence takes its transaction id for it. */
  lemma TransactionRowContents(c: MappingContext, row: TransactionRow)
    ensures TransactionMapping(c, row).event.Some? ==>
              var e := TransactionMapping(c, row).event.value;
              && e.Header().eventSeq == row.rowSeq
              && e.Header().exchangeSeq == (if row.bizIndex == 0 then row.transactionId else row.bizIndex)
              && e.Header().exchangeTsNs == HhmmssmmmToNs(row.timeHhmmssmmm)
              && (e.OrderOf? <==> row.functionCode == 'C') && (e.TradeOf? <==> row.functionCode in {'0', '\0'})
              && (e.TradeOf? ==> e.trade.tradeId == row.transactionId && e.trade.partitionId == row.channel
                                 && e.trade.price == row.price && e.trade.quantity == row.quantity
                                 && (e.trade.buyOrderId == row.bidOrderId || e.trade.buyOrderId == 0)
                                 && (e.trade.sellOrderId == row.askOrderId || e.trade.sellOrderId == 0))
  {
    hide HhmmssmmmToNs;
  }

  // ---------------------------------------------------------------------------------------------
  // The object

  class TonglianMapper {
    const context: MappingContext
    const gate: Gates.SequenceGate

    constructor (context: MappingContext)
      ensures this.context == context && gate.View() == Gates.NewGate(Gates.Contiguous) && fresh(gate)
    {
      this.context := context;
      gate := new Gates.SequenceGate(Gates.Contiguous);
    }

    method BeginRecovery()
      modifies gate
      ensures gate.View() == old(gate.View()).(state := Gates.Recovering)
    {
      gate.BeginRecovery();
    }

    method CompleteRecovery(channel: u64, sequence: u64) returns (ok: bool)
      modifies gate
      ensures ok <==> old(gate.View()).MayComplete(channel, sequence)
      ensures gate.View() == old(gate.View()).AfterComplete(channel, sequence)
    {
      ok := gate.CompleteRecovery(channel, sequence);
    }

    /** Continuity is checked exactly once per row, and the row is published exactly when the gate accepted it
        and the rules mapped it; the output's kind says the same. */
    method MapOrder(row: OrderRow, before: OrderOutput) returns (outcome: MapOutcome, out: OrderOutput)
      modifies gate
      ensures gate.View() == old(gate.View()).AfterLive(row.channel, row.bizIndex)
      ensures outcome.continuity.event == old(gate.View()).LiveAnswer(row.channel, row.bizIndex)
      ensures outcome.mapping == if outcome.continuity.event == Gates.Accepted then OrderMapping(context, row).result
                                 else MapResult(MapStatus.Ignored, false)
      ensures outcome.Publishable() <==> out.eventKind != UnknownEvent
      ensures out.Published() == if outcome.Publishable() then OrderMapping(context, row).event else None
    {
      out := before.(eventKind := UnknownEvent);
      var continuity := gate.Observe(row.channel, row.bizIndex);
      if continuity.event != Gates.Accepted {
        return MapOutcome(MapResult(MapStatus.Ignored, false), continuity), out;
      }
      if row.orderKind == 'S' {
        var mapped := MapStatusRow(context, row);
        if mapped.result.Ok() {
          out := out.(eventKind := TradingPhaseEvent, phaseUpdate := mapped.event.value);
        }
        return MapOutcome(mapped.result, continuity), out;
      }
      var mapped := MapOrderRow(context, row);
      if mapped.result.Ok() {
        out := out.(eventKind := BookOrderEvent, order := mapped.event.value);
      }
      return MapOutcome(mapped.result, continuity), out;
    }

    method MapTransaction(row: TransactionRow, before: TransactionOutput)
      returns (outcome: MapOutcome, out: TransactionOutput)
      modifies gate
      ensures gate.View() == old(gate.View()).AfterLive(row.channel, row.bizIndex)
      ensures outcome.continuity.event == old(gate.View()).LiveAnswer(row.channel, row.bizIndex)
      ensures outcome.mapping == if outcome.continuity.event == Gates.Accepted
              then TransactionMapping(context, row).result
                                 else MapResult(MapStatus.Ignored, false)
      ensures outcome.Publishable() <==> out.eventKind != UnknownEvent
      ensures out.Published() == if outcome.Publishable() then TransactionMapping(context, row).event else None
    {
      out := before.(eventKind := UnknownEvent);
      var continuity := gate.Observe(row.channel, row.bizIndex);
      if continuity.event != Gates.Accepted {
        return MapOutcome(MapResult(MapStatus.Ignored, false), continuity), out;
      }
      var mapped;
      mapped, out := MapTransactionRow(row, out);
      return MapOutcome(mapped, continuity), out;
    }

    /** With a market configured, the output's kind says whether the row mapped; with none, the row is refused and
        the output keeps whatever kind it came with. */
    method MapTransactionRow(row: TransactionRow, before: TransactionOutput)
      returns (result: MapResult, out: TransactionOutput)
      ensures result == TransactionMapping(context, row).result
      ensures context.market == UnknownMarket ==> !result.Ok() && out == before
      ensures context.market != UnknownMarket ==> (result.Ok() <==> out.eventKind != UnknownEvent)
      ensures context.market != UnknownMarket ==>
                out.Published() == if result.Ok() then TransactionMapping(context, row).event else None
      ensures !result.Ok() ==> out.order == before.order && out.trade == before.trade
    {
      out := before;
      var view := ViewOfTransaction(row);
      if context.market == UnknownMarket {
        return MapResult(MapStatus.Unsupported, false), out;
      }
      if view.kind == CancelTransaction {
        var mapped := if context.market == Shanghai then SseCancel(context.Events(), view)
                      else SzseCancel(context.Events(), view);
        out := if mapped.result.Ok() then out.(eventKind := BookOrderEvent, order := mapped.event.value)
               else out.(eventKind := UnknownEvent);
        return mapped.result, out;
      }
      var mapped := if context.market == Shanghai then SseTrade(context.Events(), view)
                    else SzseTrade(context.Events(), view);
      out := if mapped.result.Ok() then out.(eventKind := BookTradeEvent, trade := mapped.event.value)
             else out.(eventKind := UnknownEvent);
      return mapped.result, out;
    }
  }

  // ---------------------------------------------------------------------------------------------
  // As steps of a published stream

  datatype Use =
    | OrderUse(order: OrderRow)
    | TransactionUse(transaction: TransactionRow)
    | BeginUse
    | CompleteUse(channel: u64, sequence: u64)

  function StepOf(c: MappingContext, u: Use): Step {
    match u
    case OrderUse(row) => Row(row.channel, row.bizIndex, OrderMapping(c, row).event)
    case TransactionUse(row) => Row(row.channel, row.bizIndex, TransactionMapping(c, row).event)
    case BeginUse => Control(Gates.BeginRecovery)
    case CompleteUse(channel, sequence) => Control(Gates.CompleteRecovery(channel, sequence))
  }

  function StepsOf(c: MappingContext, uses: seq<Use>): (steps: seq<Step>)
    ensures |steps| == |uses|
  {
    seq(|uses|, i requires 0 <= i < |uses| => StepOf(c, uses[i]))
  }

  /** A use moves the gate as the mapper's method does: a row by its channel and exchange index, a completed recovery
      by the channel and sequence given. */
  lemma StepMovesGate(c: MappingContext, u: Use, g: Gates.Gate)
    ensures Gates.After(g, CallOf(StepOf(c, u)))
         == match u
            case OrderUse(row) => g.AfterLive(row.channel, row.bizIndex)
            case TransactionUse(row) => g.AfterLive(row.channel, row.bizIndex)
            case BeginUse => g.(state := Gates.Recovering)
            case CompleteUse(channel, sequence) => g.AfterComplete(channel, sequence)
  {
    hide OrderMapping, TransactionMapping;
  }

  lemma StepIsSound(c: MappingContext, u: Use)
    ensures Sound(StepOf(c, u))
  {
  }

  /** Every run of a Tonglian mapper publishes events whose exchange sequences strictly increase, each the
      sequence of a row its gate accepted, and whose phase updates a tracker applies one by one. */
  lemma RunPublishesInOrder(c: MappingContext, uses: seq<Use>)
    ensures var steps, g := StepsOf(c, uses), Gates.NewGate(Gates.Contiguous);
            && Streams(0, Gates.Run(g, Calls(steps)).lastAccepted, AcceptedSequences(g, steps),
                       SequencesOf(Published(g, steps)))
            && TrackedToTheEnd(PhaseUpdates(Published(g, steps)))
  {
    var steps, g := StepsOf(c, uses), Gates.NewGate(Gates.Contiguous);
    forall i | 0 <= i < |uses| ensures Sound(StepOf(c, uses[i])) {
      StepIsSound(c, uses[i]);
    }
    PublishedAscends(g, steps);
    TrackerAppliesEveryPublishedPhase(g, steps);
  }
}
