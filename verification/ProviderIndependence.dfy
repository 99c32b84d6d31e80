/** Two vendors' encodings of one exchange fact: when both mappers make the same standard event of it. */
module ProviderIndependence {
  import opened Words
  import opened Wrappers
  import opened MarketEvents
  import opened ExchangeRules
  import opened MapperOutputs
  import opened PublishedStream
  import Gates = SequenceGates
  import Tonglian = TonglianMapper
  import Csmar = CsmarMapper

  datatype SzseKind = LimitOrder | MarketOrder | OwnBestOrder

  /** When and where in its channel the exchange recorded a fact. */
  datatype Stamp = Stamp(unixTimeMs: u64, sequence: u64, channel: u64)

  /** What an exchange announces, before any vendor encodes it. In Shenzhen an order is named by its sequence
      number and a trade has no marked side. */
  datatype Fact =
    | SseAdd(stamp: Stamp, orderId: u64, price: i64, quantity: i64, side: Side)
    | SseDelete(stamp: Stamp, orderId: u64, price: i64, quantity: i64, side: Side)
    | SseStatus(stamp: Stamp, code: string)
    | SseTraded(stamp: Stamp, buyOrderId: u64, sellOrderId: u64, price: i64, quantity: i64, flag: Aggressor)
    | SzseAdd(stamp: Stamp, price: i64, quantity: i64, side: Side, kind: SzseKind)
    | SzseTraded(stamp: Stamp, buyOrderId: u64, sellOrderId: u64, price: i64, quantity: i64)
    | SzseCanceled(stamp: Stamp, orderId: u64, side: Side, quantity: i64)
  {
    function Market(): Market {
      if SseAdd? || SseDelete? || SseStatus? || SseTraded? then Shanghai else Shenzhen
    }
  }

  // ---------------------------------------------------------------------------------------------
  // Time of day: one vendor writes local HHMMSSmmm, the other UTC milliseconds

  /** Milliseconds since midnight in Shanghai, eight hours ahead of UTC. */
  function LocalMs(unixTimeMs: u64): nat {
    (unixTimeMs as int + 28_800_000) % Csmar.DAY_MS
  }

  /** A time of day as the decimal digits HHMMSSmmm. */
  function Hhmmssmmm(ms: nat): u32
    requires ms < Csmar.DAY_MS
  {
    var seconds, minutes, hours := ms / 1000 % 60, ms / 60_000 % 60, ms / 3_600_000;
    ((hours * 100 + minutes) * 100 + seconds) * 1000 + ms % 1000
  }

  lemma HhmmssmmmReadsBack(ms: nat)
    requires ms < Csmar.DAY_MS
    ensures Tonglian.HhmmssmmmToNs(Hhmmssmmm(ms)) == ms * 1_000_000
  {
    var total, milliseconds := ms / 1000, ms % 1000;
    var seconds, minutes, hours := total % 60, total / 60 % 60, total / 60 / 60;
    assert ms / 60_000 == total / 60 && ms / 3_600_000 == total / 60 / 60;
    var value: int := Hhmmssmmm(ms);
    var head := (hours * 100 + minutes) * 100 + seconds;
    assert value == head * 1000 + milliseconds;
    assert value % 1000 == milliseconds && value / 1000 == head;
    assert head % 100 == seconds && head / 100 == hours * 100 + minutes;
    assert head / 100 % 100 == minutes && head / 100 / 100 == hours;
    assert (hours * 60 + minutes) * 60 + seconds == total;
  }

  lemma ExchangeTimeIsLocal(unixTimeMs: u64)
    ensures Csmar.ExchangeTimeNs(unixTimeMs) == LocalMs(unixTimeMs) * 1_000_000
  {
    var ms: int := unixTimeMs;
    var days, rest := ms / Csmar.DAY_MS, ms % Csmar.DAY_MS;
    assert ms + 28_800_000 == days * Csmar.DAY_MS + (rest + 28_800_000);
  }

  /** Both vendors' clocks name the same nanosecond of the trading day, for every instant. */
  lemma ClocksAgree(unixTimeMs: u64)
    ensures Tonglian.HhmmssmmmToNs(Hhmmssmmm(LocalMs(unixTimeMs))) == Csmar.ExchangeTimeNs(unixTimeMs)
  {
    HhmmssmmmReadsBack(LocalMs(unixTimeMs));
    ExchangeTimeIsLocal(unixTimeMs);
  }

  // ---------------------------------------------------------------------------------------------
  // The two encodings

  function SideCode(side: Side): char {
    match side case Buy => 'B' case Sell => 'S' case UnknownSide => ' '
  }

  /** CSMAR's code; trades without an active side carry N. */
  function FlagCode(flag: Aggressor): char {
    match flag case BuyAggressor => 'B' case SellAggressor => 'S' case UnknownAggressor => 'N'
  }

  /** What only a Tonglian row carries: its number in the vendor's file, the vendor's names of a trade and, in
      Shenzhen, of an order, a replaced order, and the vendor's mark of a trade's active side. */
  datatype VendorFields = VendorFields(
    rowSeq: u64, transactionId: u64, exchangeOrderId: u64, originalOrderId: u64, bsFlag: char)

  function TonglianUse(f: Fact, x: VendorFields): Tonglian.Use {
    var s := f.stamp;
    var at := Hhmmssmmm(LocalMs(s.unixTimeMs));
    match f
    case SseAdd(_, id, price, quantity, side) => Tonglian.OrderUse(Tonglian.OrderRow(
      at, x.rowSeq, s.channel, id, 'A', SideCode(side), price, quantity, s.channel, x.originalOrderId, s.sequence,
      UnknownPhase))
    case SseDelete(_, id, price, quantity, side) => Tonglian.OrderUse(Tonglian.OrderRow(
      at, x.rowSeq, s.channel, id, 'D', SideCode(side), price, quantity, s.channel, x.originalOrderId, s.sequence,
      UnknownPhase))
    case SseStatus(_, code) => Tonglian.OrderUse(Tonglian.OrderRow(
      at, x.rowSeq, s.channel, 0, 'S', ' ', 0, 0, s.channel, x.originalOrderId, s.sequence, Csmar.ShanghaiPhase(code)))
    case SseTraded(_, buy, sell, price, quantity, _) => Tonglian.TransactionUse(Tonglian.TransactionRow(
      at, x.rowSeq, x.transactionId, '0', ' ', x.bsFlag, price, quantity, sell, buy, s.channel, s.sequence))
    case SzseAdd(_, price, quantity, side, kind) => Tonglian.OrderUse(Tonglian.OrderRow(
      at, x.rowSeq, s.channel, x.exchangeOrderId,
      (match kind case LimitOrder => '0' case MarketOrder => '1' case OwnBestOrder => 'U'),
      SideCode(side), price, quantity, s.channel, x.originalOrderId, s.sequence, UnknownPhase))
    case SzseTraded(_, buy, sell, price, quantity) => Tonglian.TransactionUse(Tonglian.TransactionRow(
      at, x.rowSeq, x.transactionId, '0', ' ', x.bsFlag, price, quantity, sell, buy, s.channel, s.sequence))
    case SzseCanceled(_, id, side, quantity) => Tonglian.TransactionUse(Tonglian.TransactionRow(
      at, x.rowSeq, x.transactionId, 'C', ' ', x.bsFlag, 0, quantity, if side == Sell then id else 0,
      if side == Buy then id else 0, s.channel, s.sequence))
  }

  function CsmarUse(f: Fact): Csmar.Use {
    var s := f.stamp;
    match f
    case SseAdd(_, id, price, quantity, side) => Csmar.ShanghaiOrderUse(Csmar.ShanghaiOrderRow(
      s.unixTimeMs, s.sequence, s.channel, id, price, quantity, 'A', [SideCode(side)]))
    case SseDelete(_, id, price, quantity, side) => Csmar.ShanghaiOrderUse(Csmar.ShanghaiOrderRow(
      s.unixTimeMs, s.sequence, s.channel, id, price, quantity, 'D', [SideCode(side)]))
    case SseStatus(_, code) => Csmar.ShanghaiOrderUse(Csmar.ShanghaiOrderRow(
      s.unixTimeMs, s.sequence, s.channel, 0, 0, 0, 'S', code))
    case SseTraded(_, buy, sell, price, quantity, flag) => Csmar.ShanghaiTransactionUse(Csmar.ShanghaiTransactionRow(
      s.unixTimeMs, s.sequence, s.channel, buy, sell, price, quantity, FlagCode(flag)))
    case SzseAdd(_, price, quantity, side, kind) => Csmar.ShenzhenOrderUse(Csmar.ShenzhenOrderRow(
      s.unixTimeMs, s.sequence, s.channel, price, quantity,
      (match kind case LimitOrder => '2' case MarketOrder => '1' case OwnBestOrder => 'U'),
      match side case Buy => '1' case Sell => '2' case UnknownSide => ' '))
    case SzseTraded(_, buy, sell, price, quantity) => Csmar.ShenzhenTransactionUse(Csmar.ShenzhenTransactionRow(
      s.unixTimeMs, s.sequence, s.channel, buy, sell, price, quantity, 'F'))
    case SzseCanceled(_, id, side, quantity) => Csmar.ShenzhenTransactionUse(Csmar.ShenzhenTransactionRow(
      s.unixTimeMs, s.sequence, s.channel, if side == Buy then id else 0,
      if side == Sell then id else 0, 0, quantity, '4'))
  }

  function ViaTonglian(c: MappingContext, f: Fact, x: VendorFields): Mapping<StandardEvent> {
    match TonglianUse(f, x)
    case OrderUse(row) => Tonglian.OrderMapping(c.(market := f.Market()), row)
    case TransactionUse(row) => Tonglian.TransactionMapping(c.(market := f.Market()), row)
    case _ => Refuse(MapStatus.Unsupported)
  }

  function ViaCsmar(c: MappingContext, f: Fact): Mapping<StandardEvent> {
    match CsmarUse(f)
    case ShanghaiOrderUse(row) => Csmar.ShanghaiOrderMapping(c.(market := f.Market()), row)
    case ShanghaiTransactionUse(row) => Csmar.ShanghaiTransactionMapping(c.(market := f.Market()), row)
    case ShenzhenOrderUse(row) => Csmar.ShenzhenOrderMapping(c.(market := f.Market()), row)
    case ShenzhenTransactionUse(row) => Csmar.ShenzhenTransactionMapping(c.(market := f.Market()), row)
    case _ => Refuse(MapStatus.Unsupported)
  }

  /** An event as the other source would name it; unless `exact`, also numbered by the exchange's sequence. */
  function Renamed(e: StandardEvent, other: u32, exact: bool): StandardEvent {
    if exact then e.From(other) else e.From(other).Renumbered()
  }

  function RenamedIfAny(e: Option<StandardEvent>, other: u32, exact: bool): Option<StandardEvent> {
    match e case Some(v) => Some(Renamed(v, other, exact)) case None => None
  }

  /** Same answer and the same event, up to source_id and, unless `exact`, event_seq. */
  predicate Agree(c: MappingContext, other: u32, f: Fact, x: VendorFields, exact: bool) {
    var a, b := ViaTonglian(c, f, x), ViaCsmar(c.(sourceId := other), f);
    a.result == b.result && b.event == RenamedIfAny(a.event, other, exact)
  }

  // ---------------------------------------------------------------------------------------------
  // Exactly when they agree

  predicate GoodOrder(id: u64, price: i64, quantity: i64, side: Side) {
    id != 0 && side != UnknownSide && quantity >= 0 && price >= 0
  }

  /** Shanghai's rule from 09:30 on: the row must say which side was active, or that neither was. */
  predicate SideTold(s: Stamp, x: VendorFields) {
    LocalMs(s.unixTimeMs) < 34_200_000 || x.bsFlag == 'B' || x.bsFlag == 'S' || x.bsFlag == 'N'
  }

  /** The rows the Tonglian mapper accepts. */
  predicate TonglianMaps(f: Fact, x: VendorFields) {
    match f
    case SseAdd(_, id, price, quantity, side) => GoodOrder(id, price, quantity, side)
    case SseDelete(_, id, price, quantity, side) => GoodOrder(id, price, quantity, side)
    case SseStatus(_, code) => Csmar.ShanghaiPhase(code) != UnknownPhase
    case SseTraded(_, _, _, price, quantity, _) =>
      x.transactionId != 0 && quantity > 0 && price >= 0 && SideTold(f.stamp, x)
    case SzseAdd(_, price, quantity, side, _) => GoodOrder(x.exchangeOrderId, price, quantity, side)
    case SzseTraded(_, _, _, price, quantity) => x.transactionId != 0 && quantity > 0 && price >= 0
    case SzseCanceled(_, id, side, quantity) => quantity > 0 && id != 0 && side != UnknownSide
  }

  /** The rows the CSMAR mapper accepts: also with a time, and trades with a price and their orders named. */
  predicate CsmarMaps(f: Fact) {
    var s := f.stamp;
    s.unixTimeMs != 0
    && match f
       case SseAdd(_, id, price, quantity, side) => GoodOrder(id, price, quantity, side)
       case SseDelete(_, id, _, quantity, side) => quantity > 0 && id != 0 && side != UnknownSide
       case SseStatus(_, code) => Csmar.ShanghaiPhase(code) != UnknownPhase
       case SseTraded(_, buy, sell, price, quantity, _) =>
         s.sequence != 0 && quantity > 0 && price > 0 && (buy != 0 || sell != 0)
       case SzseAdd(_, price, quantity, side, _) => GoodOrder(s.sequence, price, quantity, side)
       case SzseTraded(_, buy, sell, price, quantity) =>
         s.sequence != 0 && quantity > 0 && price > 0 && buy != 0 && sell != 0
       case SzseCanceled(_, id, side, quantity) => s.sequence != 0 && quantity > 0 && id != 0 && side != UnknownSide
  }

  /** The vendor's own fields say what the exchange's sequence says: the trade's and the Shenzhen order's name is
      the record's number, no order is replaced, and, for exact agreement, the row's number is too. The marked side
      is the exchange's in Shanghai, and in Shenzhen none or the one inferred. A Shanghai
      delete is a `Delete` through one and a `Cancel` through the other. */
  predicate VendorFollowsExchange(f: Fact, x: VendorFields, exact: bool) {
    var s := f.stamp;
    (exact ==> x.rowSeq == s.sequence)
    && match f
       case SseAdd(_, _, _, _, _) => x.originalOrderId == 0
       case SseDelete(_, _, _, _, _) => false
       case SseStatus(_, _) => true
       case SseTraded(_, _, _, _, _, flag) => x.transactionId == s.sequence && Tonglian.MapAggressor(x.bsFlag) == flag
       case SzseAdd(_, _, _, _, _) => x.exchangeOrderId == s.sequence && x.originalOrderId == 0
       case SzseTraded(_, buy, sell, _, _) =>
         x.transactionId == s.sequence
         && Tonglian.MapAggressor(x.bsFlag) in {UnknownAggressor, InferredAggressor(buy, sell)}
       case SzseCanceled(_, _, _, _) => true
  }

  /** A Shanghai trade good but for its side, which one provider calls unsupported and no other rule does. */
  predicate SideMissing(f: Fact, x: VendorFields) {
    f.SseTraded? && x.transactionId != 0 && f.quantity > 0 && f.price >= 0 && !SideTold(f.stamp, x)
  }

  /** Both accept the fact and the vendor's fields follow the exchange's, or both refuse it as invalid. */
  predicate SharedDomain(f: Fact, x: VendorFields, exact: bool) {
    if TonglianMaps(f, x) || CsmarMaps(f)
    then TonglianMaps(f, x) && CsmarMaps(f) && VendorFollowsExchange(f, x, exact)
    else !SideMissing(f, x)
  }

  /** The two acceptance rules are the mappers' own. */
  lemma WhatTonglianMaps(c: MappingContext, f: Fact, x: VendorFields)
    ensures ViaTonglian(c, f, x).event.Some? <==> TonglianMaps(f, x)
  {
    HhmmssmmmReadsBack(LocalMs(f.stamp.unixTimeMs));
    hide Tonglian.HhmmssmmmToNs, Hhmmssmmm, LocalMs, Csmar.ShanghaiPhase;
  }

  lemma WhatCsmarMaps(c: MappingContext, f: Fact)
    ensures ViaCsmar(c, f).event.Some? <==> CsmarMaps(f)
  {
    hide Csmar.ExchangeTimeNs, Csmar.ShanghaiPhase;
  }

  lemma SseOrdersAgreeIff(c: MappingContext, other: u32, f: Fact, x: VendorFields, exact: bool)
    requires f.SseAdd? || f.SseDelete? || f.SseStatus?
    ensures Agree(c, other, f, x, exact) <==> SharedDomain(f, x, exact)
  {
    ClocksAgree(f.stamp.unixTimeMs);
    hide Csmar.ExchangeTimeNs, Tonglian.HhmmssmmmToNs, Hhmmssmmm, LocalMs, Csmar.ShanghaiPhase;
  }

  lemma SseTradesAgreeIff(c: MappingContext, other: u32, f: Fact, x: VendorFields, exact: bool)
    requires f.SseTraded?
    ensures Agree(c, other, f, x, exact) <==> SharedDomain(f, x, exact)
  {
    ClocksAgree(f.stamp.unixTimeMs);
    HhmmssmmmReadsBack(LocalMs(f.stamp.unixTimeMs));
    hide Csmar.ExchangeTimeNs, Tonglian.HhmmssmmmToNs, Hhmmssmmm, LocalMs, Csmar.ShanghaiPhase;
  }

  lemma SzseAddsAgreeIff(c: MappingContext, other: u32, f: Fact, x: VendorFields, exact: bool)
    requires f.SzseAdd?
    ensures Agree(c, other, f, x, exact) <==> SharedDomain(f, x, exact)
  {
    ClocksAgree(f.stamp.unixTimeMs);
    hide Csmar.ExchangeTimeNs, Tonglian.HhmmssmmmToNs, Hhmmssmmm, LocalMs, Csmar.ShanghaiPhase;
  }

  lemma SzseCancelsAgreeIff(c: MappingContext, other: u32, f: Fact, x: VendorFields, exact: bool)
    requires f.SzseCanceled?
    ensures Agree(c, other, f, x, exact) <==> SharedDomain(f, x, exact)
  {
    ClocksAgree(f.stamp.unixTimeMs);
    hide Csmar.ExchangeTimeNs, Tonglian.HhmmssmmmToNs, Hhmmssmmm, LocalMs, Csmar.ShanghaiPhase;
  }

  lemma SzseTradesAgreeIff(c: MappingContext, other: u32, f: Fact, x: VendorFields, exact: bool)
    requires f.SzseTraded?
    ensures Agree(c, other, f, x, exact) <==> SharedDomain(f, x, exact)
  {
    ClocksAgree(f.stamp.unixTimeMs);
    hide Csmar.ExchangeTimeNs, Tonglian.HhmmssmmmToNs, Hhmmssmmm, LocalMs, Csmar.ShanghaiPhase;
  }

  /** For every fact and whatever the vendor put in its own fields: the two rows of it map to the same answer and
      event, source aside (and, unless `exact`, the feed's own numbering aside), exactly on the shared domain. */
  lemma AgreeIff(c: MappingContext, other: u32, f: Fact, x: VendorFields, exact: bool)
    ensures Agree(c, other, f, x, exact) <==> SharedDomain(f, x, exact)
  {
    hide Agree, SharedDomain;
    if f.SseAdd? || f.SseDelete? || f.SseStatus? {
      SseOrdersAgreeIff(c, other, f, x, exact);
    } else if f.SseTraded? {
      SseTradesAgreeIff(c, other, f, x, exact);
    } else if f.SzseTraded? {
      SzseTradesAgreeIff(c, other, f, x, exact);
    } else if f.SzseAdd? {
      SzseAddsAgreeIff(c, other, f, x, exact);
    } else {
      SzseCancelsAgreeIff(c, other, f, x, exact);
    }
  }

  /** A status row numbered 3 in the vendor's file and 112 by the exchange: the events differ, but only in the
      feed's own numbering. */
  lemma RowNumberShows(c: MappingContext, other: u32, unixTimeMs: u64)
    requires unixTimeMs != 0
    ensures var f, x := SseStatus(Stamp(unixTimeMs, 112, 3), "OCALL"), VendorFields(3, 0, 0, 0, ' ');
            && !Agree(c, other, f, x, true) && Agree(c, other, f, x, false)
            && ViaTonglian(c, f, x).event.Some? && ViaTonglian(c, f, x).event.value.Header().eventSeq == 3
            && ViaCsmar(c, f).event.Some? && ViaCsmar(c, f).event.value.Header().eventSeq == 112
  {
    var f, x := SseStatus(Stamp(unixTimeMs, 112, 3), "OCALL"), VendorFields(3, 0, 0, 0, ' ');
    AgreeIff(c, other, f, x, true);
    AgreeIff(c, other, f, x, false);
    assert Csmar.ShanghaiPhase("OCALL") == OpeningCall;
    hide Csmar.ExchangeTimeNs, Tonglian.HhmmssmmmToNs, Hhmmssmmm, Csmar.ShanghaiPhase, Agree;
  }

  /** A deleted Shanghai order: one vendor leads to `Delete`, the other to `Cancel`, of the same order at the same
      place in the stream. */
  lemma DeletesDiffer(c: MappingContext, f: Fact, x: VendorFields)
    requires f.SseDelete? && TonglianMaps(f, x) && CsmarMaps(f)
    ensures var a, b := ViaTonglian(c, f, x).event, ViaCsmar(c, f).event;
            && a.Some? && a.value.OrderOf? && a.value.order.action == Delete
            && b.Some? && b.value.OrderOf? && b.value.order.action == Cancel
            && a.value.order.orderId == b.value.order.orderId == f.orderId
            && a.value.order.header == b.value.order.header.(eventSeq := x.rowSeq)
  {
    ClocksAgree(f.stamp.unixTimeMs);
    hide Csmar.ExchangeTimeNs, Tonglian.HhmmssmmmToNs, Hhmmssmmm, LocalMs, Csmar.ShanghaiPhase;
  }

  // ---------------------------------------------------------------------------------------------
  // Whole streams

  /** Facts of one channel of one market, numbered from `base` + 1 without a hole. */
  predicate Unbroken(market: Market, channel: u64, base: u64, facts: seq<Fact>) {
    && channel != 0 && base + |facts| < TWO_TO_64
    && forall i :: 0 <= i < |facts| ==>
         facts[i].Market() == market && facts[i].stamp.channel == channel && facts[i].stamp.sequence == base + 1 + i
  }

  function TonglianSteps(c: MappingContext, facts: seq<Fact>, xs: seq<VendorFields>): (steps: seq<Step>)
    requires |xs| == |facts|
    ensures |steps| == |facts|
  {
    seq(|facts|, i requires 0 <= i < |facts| => Tonglian.StepOf(c, TonglianUse(facts[i], xs[i])))
  }

  function CsmarSteps(c: MappingContext, facts: seq<Fact>): (steps: seq<Step>)
    ensures |steps| == |facts|
  {
    seq(|facts|, i requires 0 <= i < |facts| => Csmar.StepOf(c, CsmarUse(facts[i])))
  }

  function RenamedAll(events: seq<StandardEvent>, other: u32, exact: bool): (s: seq<StandardEvent>)
    ensures |s| == |events|
  {
    seq(|events|, i requires 0 <= i < |events| => Renamed(events[i], other, exact))
  }

  /** A gate that has just been given its baseline, or accepted everything since. */
  predicate UpToDate(g: Gates.Gate, channel: u64, last: nat) {
    g.state == Gates.Healthy && g.partition == channel && g.lastAccepted == last
  }

  lemma NextIsAccepted(g: Gates.Gate, channel: u64, last: nat, call: Gates.Call)
    requires UpToDate(g, channel, last) && channel != 0 && last + 1 < TWO_TO_64
    requires call == Gates.Observe(channel, last + 1)
    ensures Gates.Accepts(g, call) && UpToDate(Gates.After(g, call), channel, last + 1)
  {
  }

  lemma RowsOfFact(c: MappingContext, f: Fact, x: VendorFields)
    requires c.market == f.Market()
    ensures Tonglian.StepOf(c, TonglianUse(f, x)) == Row(f.stamp.channel, f.stamp.sequence, ViaTonglian(c, f, x).event)
    ensures Csmar.StepOf(c, CsmarUse(f)) == Row(f.stamp.channel, f.stamp.sequence, ViaCsmar(c, f).event)
  {
    assert c.(market := f.Market()) == c;
    hide Tonglian.OrderMapping, Tonglian.TransactionMapping, Csmar.ShanghaiOrderMapping,
         Csmar.ShanghaiTransactionMapping;
    hide Csmar.ShenzhenOrderMapping, Csmar.ShenzhenTransactionMapping, Hhmmssmmm, Csmar.ShanghaiPhase;
  }

  /** The k-th rows of both runs carry the k-th sequence number after `base` and the same event, renamed. */
  predicate PairedRows(ours: Step, theirs: Step, channel: u64, sequence: nat, other: u32, exact: bool) {
    && ours.Row? && theirs.Row?
    && ours.partition == theirs.partition == channel && ours.sequence == theirs.sequence == sequence
    && theirs.event == RenamedIfAny(ours.event, other, exact)
  }

  predicate Paired(ours: seq<Step>, theirs: seq<Step>, channel: u64, base: nat, other: u32, exact: bool) {
    |ours| == |theirs|
    && forall i :: 0 <= i < |ours| ==> PairedRows(ours[i], theirs[i], channel, base + 1 + i, other, exact)
  }

  lemma RenamedSnoc(events: seq<StandardEvent>, e: StandardEvent, other: u32, exact: bool)
    ensures RenamedAll(events + [e], other, exact) == RenamedAll(events, other, exact) + [Renamed(e, other, exact)]
  {
  }

  lemma {:induction false} PairedRuns(ours: seq<Step>, theirs: seq<Step>, channel: u64, base: nat, other: u32,
                                      exact: bool, a: Gates.Gate, b: Gates.Gate)
    requires Paired(ours, theirs, channel, base, other, exact) && channel != 0 && base + |ours| < TWO_TO_64
    requires UpToDate(a, channel, base) && UpToDate(b, channel, base)
    ensures UpToDate(Gates.Run(a, Calls(ours)), channel, base + |ours|)
    ensures UpToDate(Gates.Run(b, Calls(theirs)), channel, base + |ours|)
    ensures RenamedAll(Published(a, ours), other, exact) == Published(b, theirs)
  {
    if ours != [] {
      hide UpToDate, Gates.Run, Gates.After, Gates.Accepts, Renamed;
      var n := |ours| - 1;
      assert PairedRows(ours[n], theirs[n], channel, base + 1 + n, other, exact);
      PairedRuns(ours[..n], theirs[..n], channel, base, other, exact, a, b);
      SnocCalls(a, ours);
      SnocCalls(b, theirs);
      NextIsAccepted(Gates.Run(a, Calls(ours[..n])), channel, base + n, CallOf(ours[n]));
      NextIsAccepted(Gates.Run(b, Calls(theirs[..n])), channel, base + n, CallOf(theirs[n]));
      if ours[n].event.Some? {
        RenamedSnoc(Published(a, ours[..n]), ours[n].event.value, other, exact);
      }
    } else {
      assert Calls(ours) == [] && Calls(theirs) == [];
    }
  }

  lemma FactsPair(c: MappingContext, other: u32, f: Fact, x: VendorFields, exact: bool)
    requires c.market == f.Market() && SharedDomain(f, x, exact)
    ensures PairedRows(Tonglian.StepOf(c, TonglianUse(f, x)), Csmar.StepOf(c.(sourceId := other), CsmarUse(f)),
                       f.stamp.channel, f.stamp.sequence, other, exact)
  {
    hide SharedDomain, ViaTonglian, ViaCsmar, Tonglian.StepOf, Csmar.StepOf, TonglianUse, CsmarUse, RenamedIfAny;
    RowsOfFact(c, f, x);
    RowsOfFact(c.(sourceId := other), f, x);
    AgreeIff(c, other, f, x, exact);
  }

  /** Fed the same unbroken facts from the same baseline, whatever the vendor puts in its own fields within the
      shared domain, the strict gate of one mapper and the lenient gate of the other accept every row, and the
      two published streams are equal, source aside (and, unless `exact`, the feed's own numbering aside). */
  lemma SameStream(c: MappingContext, other: u32, exact: bool, channel: u64, base: u64, facts: seq<Fact>,
                   xs: seq<VendorFields>, a: Gates.Gate, b: Gates.Gate)
    requires Unbroken(c.market, channel, base, facts) && |xs| == |facts|
    requires forall i :: 0 <= i < |facts| ==> SharedDomain(facts[i], xs[i], exact)
    requires UpToDate(a, channel, base) && UpToDate(b, channel, base)
    ensures var ours, theirs := TonglianSteps(c, facts, xs), CsmarSteps(c.(sourceId := other), facts);
            && UpToDate(Gates.Run(a, Calls(ours)), channel, base + |facts|)
            && UpToDate(Gates.Run(b, Calls(theirs)), channel, base + |facts|)
            && RenamedAll(Published(a, ours), other, exact) == Published(b, theirs)
  {
    hide SharedDomain, UpToDate, Gates.Run, Tonglian.StepOf, Csmar.StepOf, TonglianUse, CsmarUse, PairedRows, Published;
    hide Calls;
    var ours, theirs := TonglianSteps(c, facts, xs), CsmarSteps(c.(sourceId := other), facts);
    forall i | 0 <= i < |facts| ensures PairedRows(ours[i], theirs[i], channel, base + 1 + i, other, exact) {
      FactsPair(c, other, facts[i], xs[i], exact);
    }
    var start: int := base;
    PairedRuns(ours, theirs, channel, start, other, exact, a, b);
  }
}
