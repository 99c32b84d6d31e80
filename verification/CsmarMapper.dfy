/** CSMAR rows: separate tables per exchange and per stream, behind one gate that tolerates sparse sequences. */
module CsmarMapper {
  import opened Words
  import opened Wrappers
  import opened MarketEvents
  import opened ExchangeRules
  import opened MapperOutputs
  import opened PublishedStream
  import Gates = SequenceGates

  datatype ShanghaiOrderRow = ShanghaiOrderRow(
    unixTimeMs: u64, recordId: u64, setId: u64, orderId: u64, price: i64, balance: i64, orderType: char,
    orderCode: string)

  datatype ShanghaiTransactionRow = ShanghaiTransactionRow(
    unixTimeMs: u64, recordId: u64, tradeChannel: u64, buyOrderId: u64, sellOrderId: u64, price: i64, quantity: i64,
    buySellFlag: char)

  datatype ShenzhenOrderRow = ShenzhenOrderRow(
    unixTimeMs: u64, recordId: u64, setId: u64, price: i64, quantity: i64, orderType: char, orderCode: char)

  datatype ShenzhenTransactionRow = ShenzhenTransactionRow(
    unixTimeMs: u64, recordId: u64, setId: u64, buyOrderId: u64, sellOrderId: u64, price: i64, quantity: i64,
    tradeType: char)

  const DAY_MS := 86_400_000
  const SHANGHAI_OFFSET_MS := 28_800_000

  /** Exchange-local time of day, in nanoseconds, of a UTC instant; reduced first so that nothing overflows. */
  function ExchangeTimeNs(unixTimeMs: u64): u64 {
    var ms: int := unixTimeMs;
    (ms % DAY_MS + SHANGHAI_OFFSET_MS) % DAY_MS * 1_000_000
  }

  function ShanghaiSide(code: string): Side {
    if code == "B" then Buy else if code == "S" then Sell else UnknownSide
  }

  function ShanghaiAggressor(flag: char): Aggressor {
    if flag == 'B' then BuyAggressor else if flag == 'S' then SellAggressor else UnknownAggressor
  }

  function ShanghaiPhase(code: string): TradingPhase {
    if code in ["ADD", "START", "PRETR"] then Startup
    else if code in ["OCALL", "OOBB", "OPOBB"] then OpeningCall
    else if code == "TRADE" then Continuous
    else if code in ["BETW", "BREAK"] then Break
    else if code in ["SUSP", "HALT", "NOTRD"] then Suspended
    else if code == "CCALL" then ClosingCall
    else if code == "CLOSE" then Closed
    else if code == "ENDTR" then EndOfTrading
    else if code == "POSTR" then AfterHours
    else if code in ["VOLA", "ICALL", "IOBB", "IPOBB"] then VolatilityInterruption
    else if code == "FCALL" then FixedPriceCall
    else UnknownPhase
  }

  function ShenzhenSide(code: char): Side {
    if code == '1' then Buy else if code == '2' then Sell else UnknownSide
  }

  function ShenzhenOrderKind(orderType: char): OrderKind {
    if orderType == '1' then AddMarket else if orderType == '2' then AddLimit
    else if orderType == 'U' then AddOwnBest else UnknownOrder
  }

  // ---------------------------------------------------------------------------------------------
  // What a row means, continuity apart

  function ShanghaiOrderMapping(c: MappingContext, row: ShanghaiOrderRow): (m: Mapping<StandardEvent>)
    ensures m.result.Ok() <==> m.event.Some?
    ensures m.event.Some? ==> !m.event.value.TradeOf?
  {
    if c.market != Shanghai || row.unixTimeMs == 0 then Refuse(Invalid)
    else
      var at := ExchangeTimeNs(row.unixTimeMs);
      if row.orderType == 'S' then
        Standardize(SsePhase(c.Events(), OrderView(at, row.recordId, row.recordId, row.setId, 0, 0, 0, 0, UnknownSide,
                                                   PhaseChange, ShanghaiPhase(row.orderCode))), u => PhaseOf(u))
      else if row.orderType == 'D' then
        var side := ShanghaiSide(row.orderCode);
        Standardize(SseCancel(c.Events(), TransactionView(at, row.recordId, row.recordId, row.setId, 0,
                                                          if side == Buy then row.orderId else 0,
                                                          if side == Sell then row.orderId else 0, 0, row.balance,
                                                          UnknownAggressor, false, CancelTransaction)), o => OrderOf(o))
      else
        Standardize(SseOrder(c.Events(), OrderView(at, row.recordId, row.recordId, row.setId, row.orderId, 0, row.price,
                                                   row.balance, ShanghaiSide(row.orderCode),
                                                   if row.orderType == 'A' then AddLimit else UnknownOrder,
                                                   UnknownPhase)), o => OrderOf(o))
  }

  predicate KnownFlag(flag: char) {
    flag == 'B' || flag == 'S' || flag == 'N'
  }

  function ShanghaiTransactionMapping(c: MappingContext, row: ShanghaiTransactionRow): (m: Mapping<StandardEvent>)
    ensures m.result.Ok() <==> m.event.Some?
    ensures m.event.Some? ==> m.event.value.TradeOf?
  {
    if c.market != Shanghai || row.unixTimeMs == 0 || row.recordId == 0 || row.quantity <= 0 || row.price <= 0
       || !KnownFlag(row.buySellFlag) || (row.buyOrderId == 0 && row.sellOrderId == 0) then Refuse(Invalid)
    else
      var aggressor := ShanghaiAggressor(row.buySellFlag);
      Standardize(SseTrade(c.Events(), TransactionView(ExchangeTimeNs(row.unixTimeMs), row.recordId, row.recordId,
                                                       row.tradeChannel, row.recordId, row.buyOrderId, row.sellOrderId,
                                                       row.price, row.quantity, aggressor,
                                                       aggressor == UnknownAggressor,
                                                       TradeTransaction)), t => TradeOf(t))
  }

  function ShenzhenOrderMapping(c: MappingContext, row: ShenzhenOrderRow): (m: Mapping<StandardEvent>)
    ensures m.result.Ok() <==> m.event.Some?
    ensures m.event.Some? ==> !m.event.value.TradeOf?
  {
    if c.market != Shenzhen || row.unixTimeMs == 0 then Refuse(Invalid)
    else Standardize(SzseOrder(c.Events(), OrderView(ExchangeTimeNs(row.unixTimeMs), row.recordId, row.recordId,
                                                     row.setId, row.recordId, 0, row.price, row.quantity,
                                                     ShenzhenSide(row.orderCode), ShenzhenOrderKind(row.orderType),
                                                     UnknownPhase)), o => OrderOf(o))
  }

  function ShenzhenTransactionMapping(c: MappingContext, row: ShenzhenTransactionRow): (m: Mapping<StandardEvent>)
    ensures m.result.Ok() <==> m.event.Some?
    ensures m.event.Some? ==> !m.event.value.PhaseOf?
  {
    if c.market != Shenzhen || row.unixTimeMs == 0 || row.recordId == 0 || row.quantity <= 0 then Refuse(Invalid)
    else
      var isTrade, isCancel := row.tradeType == 'F', row.tradeType == '4';
      var exactlyOneOrder := (row.buyOrderId == 0) != (row.sellOrderId == 0);
      if (!isTrade && !isCancel)
         || (isTrade && (row.price <= 0 || row.buyOrderId == 0 || row.sellOrderId == 0))
         || (isCancel && !exactlyOneOrder) then Refuse(Invalid)
      else
        var view := TransactionView(ExchangeTimeNs(row.unixTimeMs), row.recordId, row.recordId, row.setId,
                                    if isTrade then row.recordId else 0, row.buyOrderId, row.sellOrderId, row.price,
                                    row.quantity, UnknownAggressor, false,
                                    if isTrade then TradeTransaction else CancelTransaction);
        if isTrade then Standardize(SzseTrade(c.Events(), view), t => TradeOf(t))
        else Standardize(SzseCancel(c.Events(), view), o => OrderOf(o))
  }

  // ---------------------------------------------------------------------------------------------
  // Which rows map

  /** The vendor's codes. */
  lemma Codes(code: char, text: string)
    ensures (ShanghaiSide(text) == Buy <==> text == "B") && (ShanghaiSide(text) == Sell <==> text == "S")
    ensures (ShanghaiAggressor(code) == BuyAggressor <==> code == 'B')
            && (ShanghaiAggressor(code) == SellAggressor <==> code == 'S')
    ensures (ShenzhenSide(code) == Buy <==> code == '1') && (ShenzhenSide(code) == Sell <==> code == '2')
    ensures (ShenzhenOrderKind(code) == AddMarket <==> code == '1')
            && (ShenzhenOrderKind(code) == AddLimit <==> code == '2')
            && (ShenzhenOrderKind(code) == AddOwnBest <==> code == 'U')
            && ShenzhenOrderKind(code) in {AddMarket, AddLimit, AddOwnBest, UnknownOrder}
  {
  }

  /** The 21 status codes, each with its phase; every other text is unknown. */
  lemma PhaseCodes(code: string)
    ensures ShanghaiPhase(code) == Startup <==> code in {"ADD", "START", "PRETR"}
    ensures ShanghaiPhase(code) == OpeningCall <==> code in {"OCALL", "OOBB", "OPOBB"}
    ensures ShanghaiPhase(code) == Continuous <==> code in {"TRADE"}
    ensures ShanghaiPhase(code) == Break <==> code in {"BETW", "BREAK"}
    ensures ShanghaiPhase(code) == Suspended <==> code in {"SUSP", "HALT", "NOTRD"}
    ensures ShanghaiPhase(code) == ClosingCall <==> code in {"CCALL"}
    ensures ShanghaiPhase(code) == Closed <==> code in {"CLOSE"}
    ensures ShanghaiPhase(code) == EndOfTrading <==> code in {"ENDTR"}
    ensures ShanghaiPhase(code) == AfterHours <==> code in {"POSTR"}
    ensures ShanghaiPhase(code) == VolatilityInterruption <==> code in {"VOLA", "ICALL", "IOBB", "IPOBB"}
    ensures ShanghaiPhase(code) == FixedPriceCall <==> code in {"FCALL"}
    ensures ShanghaiPhase(code) == UnknownPhase
       <==> code !in {"ADD", "START", "PRETR", "OCALL", "OOBB", "OPOBB", "TRADE", "BETW", "BREAK", "SUSP", "HALT",
                      "NOTRD", "CCALL", "CLOSE", "ENDTR", "POSTR", "VOLA", "ICALL", "IOBB", "IPOBB", "FCALL"}
  {
  }

  /** A Shanghai order row maps when it has a time and: a status row a known code; a delete an order, a side and a
      balance; an add an order, a side and no negative number. Any other type with such fields is unsupported. */
  lemma ShanghaiOrderIff(c: MappingContext, row: ShanghaiOrderRow)
    ensures var m := ShanghaiOrderMapping(c, row);
            var sided := row.orderCode == "B" || row.orderCode == "S";
            var good := row.orderId != 0 && sided && row.balance >= 0 && row.price >= 0;
            m.result == if c.market != Shanghai || row.unixTimeMs == 0 then MapResult(Invalid, false)
                        else if row.orderType == 'S' then
                          (if ShanghaiPhase(row.orderCode) != UnknownPhase then MapResult(Mapped, true)
                           else MapResult(Invalid, false))
                        else if row.orderType == 'D' then
                          (if row.orderId != 0 && sided && row.balance > 0 then MapResult(MappedDiagnostic, false)
                           else MapResult(Invalid, false))
                        else if !good then MapResult(Invalid, false)
                        else if row.orderType == 'A' then MapResult(MappedDiagnostic, false)
                        else MapResult(MapStatus.Unsupported, false)
  {
    hide ExchangeTimeNs, ShanghaiPhase;
    Codes(row.orderType, row.orderCode);
  }

  lemma ShanghaiTransactionIff(c: MappingContext, row: ShanghaiTransactionRow)
    ensures ShanghaiTransactionMapping(c, row).result
         == if c.market == Shanghai && row.unixTimeMs != 0 && row.recordId != 0 && row.quantity > 0 && row.price > 0
               && row.buySellFlag in {'B', 'S', 'N'} && (row.buyOrderId != 0 || row.sellOrderId != 0)
            then MapResult(MappedDiagnostic, false) else MapResult(Invalid, false)
  {
    hide ExchangeTimeNs;
  }

  lemma ShenzhenOrderIff(c: MappingContext, row: ShenzhenOrderRow)
    ensures var good := row.recordId != 0 && row.orderCode in {'1', '2'} && row.quantity >= 0 && row.price >= 0;
            ShenzhenOrderMapping(c, row).result
            == if c.market != Shenzhen || row.unixTimeMs == 0 || !good then MapResult(Invalid, false)
               else if row.orderType in {'1', '2', 'U'} then MapResult(Mapped, true)
               else MapResult(MapStatus.Unsupported, false)
  {
    hide ExchangeTimeNs;
    Codes(row.orderType, "");
    Codes(row.orderCode, "");
  }

  /** A Shenzhen trade needs a price and both orders, a cancel exactly one of them. */
  lemma ShenzhenTransactionIff(c: MappingContext, row: ShenzhenTransactionRow)
    ensures ShenzhenTransactionMapping(c, row).result
         == if c.market == Shenzhen && row.unixTimeMs != 0 && row.recordId != 0 && row.quantity > 0
               && ((row.tradeType == 'F' && row.price > 0 && row.buyOrderId != 0 && row.sellOrderId != 0)
                   || (row.tradeType == '4' && (row.buyOrderId == 0 <==> row.sellOrderId != 0)))
            then MapResult(Mapped, true) else MapResult(Invalid, false)
  {
    hide ExchangeTimeNs;
  }

  // ---------------------------------------------------------------------------------------------
  // The object

  class CsmarMapper {
    const context: MappingContext
    const gate: Gates.SequenceGate

    constructor (context: MappingContext)
      ensures this.context == context && gate.View() == Gates.NewGate(Gates.Monotonic) && fresh(gate)
    {
      this.context := context;
      gate := new Gates.SequenceGate(Gates.Monotonic);
    }

    method EstablishBaseline(partition: u64, sequence: u64) returns (ok: bool)
      modifies gate
      ensures ok <==> old(gate.View()).MayComplete(partition, sequence)
      ensures gate.View() == old(gate.View()).AfterComplete(partition, sequence)
    {
      ok := gate.CompleteRecovery(partition, sequence);
    }

    method FinishOrder(continuity: Gates.Observation, m: Mapping<StandardEvent>, before: OrderOutput)
      returns (outcome: MapOutcome, out: OrderOutput)
      requires m.result.Ok() <==> m.event.Some?
      requires m.event.Some? ==> !m.event.value.TradeOf?
      ensures outcome.continuity == continuity
      ensures outcome.mapping == if continuity.event == Gates.Accepted then m.result
              else MapResult(MapStatus.Ignored, false)
      ensures outcome.Publishable() <==> out.eventKind != UnknownEvent
      ensures out.Published() == if outcome.Publishable() then m.event else None
    {
      out := before.(eventKind := UnknownEvent);
      if continuity.event != Gates.Accepted {
        return MapOutcome(MapResult(MapStatus.Ignored, false), continuity), out;
      }
      match m.event {
        case Some(PhaseOf(u)) => out := out.(eventKind := TradingPhaseEvent, phaseUpdate := u);
        case Some(OrderOf(o)) => out := out.(eventKind := BookOrderEvent, order := o);
        case _ =>
      }
      return MapOutcome(m.result, continuity), out;
    }

    method FinishTransaction(continuity: Gates.Observation, m: Mapping<StandardEvent>, before: TransactionOutput)
      returns (outcome: MapOutcome, out: TransactionOutput)
      requires m.result.Ok() <==> m.event.Some?
      requires m.event.Some? ==> !m.event.value.PhaseOf?
      ensures outcome.continuity == continuity
      ensures outcome.mapping == if continuity.event == Gates.Accepted then m.result
              else MapResult(MapStatus.Ignored, false)
      ensures outcome.Publishable() <==> out.eventKind != UnknownEvent
      ensures out.Published() == if outcome.Publishable() then m.event else None
    {
      out := before.(eventKind := UnknownEvent);
      if continuity.event != Gates.Accepted {
        return MapOutcome(MapResult(MapStatus.Ignored, false), continuity), out;
      }
      match m.event {
        case Some(TradeOf(t)) => out := out.(eventKind := BookTradeEvent, trade := t);
        case Some(OrderOf(o)) => out := out.(eventKind := BookOrderEvent, order := o);
        case _ =>
      }
      return MapOutcome(m.result, continuity), out;
    }

    /** Continuity first and exactly once per row; then a row is published exactly when its fields map. */
    method MapShanghaiOrder(row: ShanghaiOrderRow, before: OrderOutput) returns (outcome: MapOutcome, out: OrderOutput)
      modifies gate
      ensures gate.View() == old(gate.View()).AfterLive(row.setId, row.recordId)
      ensures outcome.continuity.event == old(gate.View()).LiveAnswer(row.setId, row.recordId)
      ensures outcome.Publishable() <==> out.eventKind != UnknownEvent
      ensures outcome.mapping == if outcome.continuity.event == Gates.Accepted
              then ShanghaiOrderMapping(context, row).result
                                 else MapResult(MapStatus.Ignored, false)
      ensures out.Published() == if outcome.Publishable() then ShanghaiOrderMapping(context, row).event else None
    {
      var continuity := gate.Observe(row.setId, row.recordId);
      outcome, out := FinishOrder(continuity, ShanghaiOrderMapping(context, row), before);
    }

    method MapShanghaiTransaction(row: ShanghaiTransactionRow, before: TransactionOutput)
      returns (outcome: MapOutcome, out: TransactionOutput)
      modifies gate
      ensures gate.View() == old(gate.View()).AfterLive(row.tradeChannel, row.recordId)
      ensures outcome.continuity.event == old(gate.View()).LiveAnswer(row.tradeChannel, row.recordId)
      ensures outcome.Publishable() <==> out.eventKind != UnknownEvent
      ensures outcome.mapping == if outcome.continuity.event == Gates.Accepted
              then ShanghaiTransactionMapping(context, row).result
                                 else MapResult(MapStatus.Ignored, false)
      ensures out.Published() == if outcome.Publishable() then ShanghaiTransactionMapping(context, row).event else None
    {
      var continuity := gate.Observe(row.tradeChannel, row.recordId);
      outcome, out := FinishTransaction(continuity, ShanghaiTransactionMapping(context, row), before);
    }

    method MapShenzhenOrder(row: ShenzhenOrderRow, before: OrderOutput) returns (outcome: MapOutcome, out: OrderOutput)
      modifies gate
      ensures gate.View() == old(gate.View()).AfterLive(row.setId, row.recordId)
      ensures outcome.continuity.event == old(gate.View()).LiveAnswer(row.setId, row.recordId)
      ensures outcome.Publishable() <==> out.eventKind != UnknownEvent
      ensures outcome.mapping == if outcome.continuity.event == Gates.Accepted
              then ShenzhenOrderMapping(context, row).result
                                 else MapResult(MapStatus.Ignored, false)
      ensures out.Published() == if outcome.Publishable() then ShenzhenOrderMapping(context, row).event else None
    {
      var continuity := gate.Observe(row.setId, row.recordId);
      outcome, out := FinishOrder(continuity, ShenzhenOrderMapping(context, row), before);
    }

    method MapShenzhenTransaction(row: ShenzhenTransactionRow, before: TransactionOutput)
      returns (outcome: MapOutcome, out: TransactionOutput)
      modifies gate
      ensures gate.View() == old(gate.View()).AfterLive(row.setId, row.recordId)
      ensures outcome.continuity.event == old(gate.View()).LiveAnswer(row.setId, row.recordId)
      ensures outcome.Publishable() <==> out.eventKind != UnknownEvent
      ensures outcome.mapping == if outcome.continuity.event == Gates.Accepted
              then ShenzhenTransactionMapping(context, row).result
                                 else MapResult(MapStatus.Ignored, false)
      ensures out.Published() == if outcome.Publishable() then ShenzhenTransactionMapping(context, row).event else None
    {
      var continuity := gate.Observe(row.setId, row.recordId);
      outcome, out := FinishTransaction(continuity, ShenzhenTransactionMapping(context, row), before);
    }
  }

  // ---------------------------------------------------------------------------------------------
  // As steps of a published stream

  datatype Use =
    | ShanghaiOrderUse(shOrder: ShanghaiOrderRow)
    | ShanghaiTransactionUse(shTransaction: ShanghaiTransactionRow)
    | ShenzhenOrderUse(szOrder: ShenzhenOrderRow)
    | ShenzhenTransactionUse(szTransaction: ShenzhenTransactionRow)
    | BaselineUse(partition: u64, sequence: u64)

  function StepOf(c: MappingContext, u: Use): Step {
    match u
    case ShanghaiOrderUse(row) => Row(row.setId, row.recordId, ShanghaiOrderMapping(c, row).event)
    case ShanghaiTransactionUse(row) => Row(row.tradeChannel, row.recordId, ShanghaiTransactionMapping(c, row).event)
    case ShenzhenOrderUse(row) => Row(row.setId, row.recordId, ShenzhenOrderMapping(c, row).event)
    case ShenzhenTransactionUse(row) => Row(row.setId, row.recordId, ShenzhenTransactionMapping(c, row).event)
    case BaselineUse(partition, sequence) => Control(Gates.CompleteRecovery(partition, sequence))
  }

  function StepsOf(c: MappingContext, uses: seq<Use>): (steps: seq<Step>)
    ensures |steps| == |uses|
  {
    seq(|uses|, i requires 0 <= i < |uses| => StepOf(c, uses[i]))
  }

  /** A use moves the gate as the mapper's method does: a row by its set and record id, a baseline by the partition and
      sequence given. */
  lemma StepMovesGate(c: MappingContext, u: Use, g: Gates.Gate)
    ensures Gates.After(g, CallOf(StepOf(c, u)))
         == match u
            case ShanghaiOrderUse(row) => g.AfterLive(row.setId, row.recordId)
            case ShanghaiTransactionUse(row) => g.AfterLive(row.tradeChannel, row.recordId)
            case ShenzhenOrderUse(row) => g.AfterLive(row.setId, row.recordId)
            case ShenzhenTransactionUse(row) => g.AfterLive(row.setId, row.recordId)
            case BaselineUse(partition, sequence) => g.AfterComplete(partition, sequence)
  {
    hide ShanghaiOrderMapping, ShanghaiTransactionMapping, ShenzhenOrderMapping, ShenzhenTransactionMapping;
  }

  lemma StepIsSound(c: MappingContext, u: Use)
    ensures Sound(StepOf(c, u))
  {
    hide ShanghaiPhase, ExchangeTimeNs;
  }

  /** Every run of a CSMAR mapper publishes events whose exchange sequences strictly increase, each the sequence
      of a row its gate accepted, and whose phase updates a tracker applies one by one, ending at the last. */
  lemma RunPublishesInOrder(c: MappingContext, uses: seq<Use>)
    ensures var steps, g := StepsOf(c, uses), Gates.NewGate(Gates.Monotonic);
            && Streams(0, Gates.Run(g, Calls(steps)).lastAccepted, AcceptedSequences(g, steps),
                       SequencesOf(Published(g, steps)))
            && TrackedToTheEnd(PhaseUpdates(Published(g, steps)))
  {
    var steps, g := StepsOf(c, uses), Gates.NewGate(Gates.Monotonic);
    forall i | 0 <= i < |uses| ensures Sound(StepOf(c, uses[i])) {
      StepIsSound(c, uses[i]);
    }
    PublishedAscends(g, steps);
    TrackerAppliesEveryPublishedPhase(g, steps);
  }
}
