/** From Binance trade and book-ticker messages to standard events. */
module BinanceMappers {
  import opened Words
  import opened Wrappers
  import opened MarketEvents
  import opened JsonReader
  import opened JsonDocuments
  import opened FixedPoint

  datatype MappingContext = MappingContext(
    sourceId: u32, venueId: u32, instrumentId: u32, priceScale: int, quantityScale: int, providerSymbol: string)
  {
    /** An empty provider symbol accepts every symbol. */
    predicate AcceptsSymbol(symbol: string) {
      providerSymbol == "" || EqualIgnoringCase(symbol, providerSymbol)
    }
  }

  // ---------------------------------------------------------------------------------------------
  // Specification

  ghost function Fixed(text: string, scale: int): (r: Option<int>)
    ensures r.Some? ==> ParsesTo(text, scale, r.value)
    ensures r.None? <==> forall n :: !ParsesTo(text, scale, n)
  {
    if exists n :: ParsesTo(text, scale, n) then
      var n :| ParsesTo(text, scale, n);
      Some(n)
    else None
  }

  lemma FixedIs(text: string, scale: int, n: int)
    requires ParsesTo(text, scale, n)
    ensures Fixed(text, scale) == Some(n)
  {
    DenotesUnique(text, scale, Fixed(text, scale).value, n);
  }

  function MsToNs(ms: u64): Option<u64> {
    if ms * 1_000_000 <= MAX_U64 then Some(ms * 1_000_000) else None
  }

  ghost function TradeFrom(payload: string, context: MappingContext): Option<Trade> {
    match (ReadString(payload, "s"), ReadU64(payload, "t"), ReadString(payload, "p"), ReadString(payload, "q"),
           ReadU64(payload, "T"), ReadBool(payload, "m"))
    case (Some(symbol), Some(id), Some(priceText), Some(quantityText), Some(ms), Some(buyerIsMaker)) =>
      if !context.AcceptsSymbol(symbol) then None
      else (match (Fixed(priceText, context.priceScale), Fixed(quantityText, context.quantityScale), MsToNs(ms))
            case (Some(price), Some(quantity), Some(ns)) =>
              Some(Trade(EmptyHeader(TradeEvent).(sourceId := context.sourceId, venueId := context.venueId,
                                                  instrumentId := context.instrumentId, exchangeSeq := id,
                                                  exchangeTsNs := ns),
                         price, quantity, id, if buyerIsMaker then SellAggressor else BuyAggressor))
            case _ => None)
    case _ => None
  }

  ghost function QuoteFrom(payload: string, context: MappingContext): Option<Quote> {
    match (ReadString(payload, "s"), ReadU64(payload, "u"), ReadString(payload, "b"), ReadString(payload, "B"),
           ReadString(payload, "a"), ReadString(payload, "A"))
    case (Some(symbol), Some(id), Some(bp), Some(bq), Some(ap), Some(aq)) =>
      if !context.AcceptsSymbol(symbol) then None
      else (match (Fixed(bp, context.priceScale), Fixed(bq, context.quantityScale), Fixed(ap, context.priceScale),
                   Fixed(aq, context.quantityScale))
            case (Some(bidPrice), Some(bidQuantity), Some(askPrice), Some(askQuantity)) =>
              Some(Quote(EmptyHeader(QuoteEvent).(sourceId := context.sourceId, venueId := context.venueId,
                                                  instrumentId := context.instrumentId, exchangeSeq := id),
                         bidPrice, bidQuantity, askPrice, askQuantity))
            case _ => None)
    case _ => None
  }

  // ---------------------------------------------------------------------------------------------
  // The mappers

  method ParseFixed(text: string, scale: int) returns (ok: bool, n: i64)
    ensures ok <==> Fixed(text, scale).Some?
    ensures ok ==> Fixed(text, scale) == Some(n)
  {
    ok, n := ParseDecimalToFixed(text, scale, 0);
    if ok {
      FixedIs(text, scale, n);
    }
  }

  method MillisecondsToNanoseconds(ms: u64, before: u64) returns (ok: bool, ns: u64)
    ensures ok <==> MsToNs(ms).Some?
    ensures ns == if ok then MsToNs(ms).value else before
  {
    if ms > MAX_U64 / 1_000_000 {
      return false, before;
    }
    return true, ms * 1_000_000;
  }

  method MapTradeToTrade(payload: string, context: MappingContext, before: Trade) returns (ok: bool, out: Trade)
    ensures ok <==> TradeFrom(payload, context).Some?
    ensures out == if ok then TradeFrom(payload, context).value else before
  {
    out := before;
    var symbol, tradeId, priceText, quantityText, tradeTimeMs, buyerIsMaker;
    ok, symbol := ReadJsonString(payload, "s");
    if !ok { return; }
    ok, tradeId := ReadJsonU64(payload, "t");
    if !ok { return; }
    ok, priceText := ReadJsonString(payload, "p");
    if !ok { return; }
    ok, quantityText := ReadJsonString(payload, "q");
    if !ok { return; }
    ok, tradeTimeMs := ReadJsonU64(payload, "T");
    if !ok { return; }
    ok, buyerIsMaker := ReadJsonBool(payload, "m");
    if !ok { return; }
    if context.providerSymbol != "" {
      ok := AsciiEqualIgnoreCase(symbol, context.providerSymbol);
      if !ok { return; }
    }
    var price, quantity, sourceTsNs;
    ok, price := ParseFixed(priceText, context.priceScale);
    if !ok { return; }
    ok, quantity := ParseFixed(quantityText, context.quantityScale);
    if !ok { return; }
    ok, sourceTsNs := MillisecondsToNanoseconds(tradeTimeMs, 0);
    if !ok { return; }
    var header := EmptyHeader(TradeEvent).(sourceId := context.sourceId, venueId := context.venueId,
                                           instrumentId := context.instrumentId, exchangeSeq := tradeId,
                                           exchangeTsNs := sourceTsNs);
    out := Trade(header, price, quantity, tradeId, if buyerIsMaker then SellAggressor else BuyAggressor);
  }

  method MapTradeMessage(payload: string, envelope: MessageEnvelope, context: MappingContext, before: Trade)
    returns (ok: bool, out: Trade)
    ensures ok <==> TradeFrom(payload, context).Some?
    ensures !ok ==> out == before
    ensures ok ==> var t := TradeFrom(payload, context).value;
                   && out == t.(header := out.header)
                   && out.header == EventHeader(TradeEvent, envelope.flags, context.sourceId, context.venueId,
                                                envelope.feedId, envelope.connectionId, context.instrumentId, 0,
                                                envelope.captureSeq, envelope.eventSeq, t.header.exchangeSeq,
                                                t.header.exchangeTsNs, envelope.recvTsNs, envelope.publishTsNs)
  {
    ok, out := MapTradeToTrade(payload, context, before);
    if !ok { return; }
    var exchangeSeq, sourceTsNs := out.header.exchangeSeq, out.header.exchangeTsNs;
    out := out.(header := HeaderFromEnvelope(envelope, TradeEvent).(
                  sourceId := context.sourceId, venueId := context.venueId, instrumentId := context.instrumentId,
                  exchangeSeq := exchangeSeq, exchangeTsNs := sourceTsNs));
  }

  method MapBookTickerToQuote(payload: string, context: MappingContext, before: Quote) returns (ok: bool, out: Quote)
    ensures ok <==> QuoteFrom(payload, context).Some?
    ensures out == if ok then QuoteFrom(payload, context).value else before
  {
    out := before;
    var symbol, updateId, bidPriceText, bidQuantityText, askPriceText, askQuantityText;
    ok, symbol := ReadJsonString(payload, "s");
    if !ok { return; }
    ok, updateId := ReadJsonU64(payload, "u");
    if !ok { return; }
    ok, bidPriceText := ReadJsonString(payload, "b");
    if !ok { return; }
    ok, bidQuantityText := ReadJsonString(payload, "B");
    if !ok { return; }
    ok, askPriceText := ReadJsonString(payload, "a");
    if !ok { return; }
    ok, askQuantityText := ReadJsonString(payload, "A");
    if !ok { return; }
    if context.providerSymbol != "" {
      ok := AsciiEqualIgnoreCase(symbol, context.providerSymbol);
      if !ok { return; }
    }
    var bidPrice, bidQuantity, askPrice, askQuantity;
    ok, bidPrice := ParseFixed(bidPriceText, context.priceScale);
    if !ok { return; }
    ok, bidQuantity := ParseFixed(bidQuantityText, context.quantityScale);
    if !ok { return; }
    ok, askPrice := ParseFixed(askPriceText, context.priceScale);
    if !ok { return; }
    ok, askQuantity := ParseFixed(askQuantityText, context.quantityScale);
    if !ok { return; }
    var header := EmptyHeader(QuoteEvent).(sourceId := context.sourceId, venueId := context.venueId,
                                           instrumentId := context.instrumentId, exchangeSeq := updateId);
    out := Quote(header, bidPrice, bidQuantity, askPrice, askQuantity);
  }

  method MapBookTickerMessage(payload: string, envelope: MessageEnvelope, context: MappingContext, before: Quote)
    returns (ok: bool, out: Quote)
    ensures ok <==> QuoteFrom(payload, context).Some?
    ensures !ok ==> out == before
    ensures ok ==> var q := QuoteFrom(payload, context).value;
                   && out == q.(header := out.header)
                   && out.header == EventHeader(QuoteEvent, envelope.flags, context.sourceId, context.venueId,
                                                envelope.feedId, envelope.connectionId, context.instrumentId, 0,
                                                envelope.captureSeq, envelope.eventSeq, q.header.exchangeSeq,
                                                envelope.sourceTsNs, envelope.recvTsNs, envelope.publishTsNs)
  {
    ok, out := MapBookTickerToQuote(payload, context, before);
    if !ok { return; }
    var exchangeSeq := out.header.exchangeSeq;
    out := out.(header := HeaderFromEnvelope(envelope, QuoteEvent).(
                  sourceId := context.sourceId, venueId := context.venueId, instrumentId := context.instrumentId,
                  exchangeSeq := exchangeSeq));
  }

  // ---------------------------------------------------------------------------------------------
  // End to end

  datatype TradeFact = TradeFact(symbol: string, id: u64, price: i64, quantity: i64, timeMs: u64, buyerIsMaker: bool)

  datatype QuoteFact = QuoteFact(symbol: string, id: u64, bidPrice: i64, bidQuantity: i64, askPrice: i64,
                                 askQuantity: i64)

  /** The fields of a rendered trade, in no particular order. */
  function TradeFields(t: TradeFact, priceScale: nat, quantityScale: nat): seq<Field> {
    [Field("s", Text(t.symbol)), Field("t", Token(Numeral(t.id))), Field("p", Text(PrintDecimal(t.price, priceScale))),
     Field("q", Text(PrintDecimal(t.quantity, quantityScale))), Field("T", Token(Numeral(t.timeMs))),
     Field("m", Token(if t.buyerIsMaker then "true" else "false"))]
  }

  function QuoteFields(q: QuoteFact, priceScale: nat, quantityScale: nat): seq<Field> {
    [Field("s", Text(q.symbol)), Field("u", Token(Numeral(q.id))),
     Field("b", Text(PrintDecimal(q.bidPrice, priceScale))),
     Field("B", Text(PrintDecimal(q.bidQuantity, quantityScale))),
     Field("a", Text(PrintDecimal(q.askPrice, priceScale))),
     Field("A", Text(PrintDecimal(q.askQuantity, quantityScale)))]
  }

  /** No two fields, at any depth, share a key. */
  predicate DistinctKeys(fields: seq<Field>) {
    forall i, j :: 0 <= i < j < |fields| ==> fields[i].key != fields[j].key
  }

  /** Each of these fields is the first with its key in the document, which is otherwise as it likes: plain or
      inside wrappers, in any field order and whitespace, with any further fields, repeated or not. */
  predicate Carries(d: Document, wanted: seq<Field>) {
    WellFormedDocument(d)
    && forall i :: 0 <= i < |wanted| ==> First(Fields(d.root), wanted[i].key) == Some(wanted[i].value)
  }

  lemma {:induction false} FirstOfDistinct(fields: seq<Field>, f: Field)
    requires DistinctKeys(fields) && f in fields
    ensures First(fields, f.key) == Some(f.value)
  {
    if fields[0] != f {
      assert f in fields[1..];
      FirstOfDistinct(fields[1..], f);
    }
  }

  lemma ReadsField(d: Document, wanted: seq<Field>, i: nat)
    requires Carries(d, wanted) && i < |wanted| && !wanted[i].value.Object? && wanted[i].key != ""
    ensures FindValue(Print(d), wanted[i].key) == ScalarLookup(Some(wanted[i].value))
  {
    ScanFindsFirstField(d, wanted[i].key);
  }

  /** The configured symbol is empty, or the payload's is as long and differs from it, place by place, at most in
      being the same letter A to Z or a to z. */
  predicate SymbolMatches(symbol: string, provider: string) {
    || provider == ""
    || (&& |symbol| == |provider|
        && forall i :: 0 <= i < |symbol| ==>
             || symbol[i] == provider[i]
             || (65 <= symbol[i] as int <= 90 && provider[i] as int == symbol[i] as int + 32)
             || (65 <= provider[i] as int <= 90 && symbol[i] as int == provider[i] as int + 32))
  }

  lemma AcceptsWhatMatches(context: MappingContext, symbol: string)
    ensures context.AcceptsSymbol(symbol) <==> SymbolMatches(symbol, context.providerSymbol)
  {
    EqualIgnoringCaseIff(symbol, context.providerSymbol);
    hide EqualIgnoringCase;
  }

  /** A document that carries a rendered trade maps exactly when its symbol matches and its time in nanoseconds
      fits 64 bits; then to exactly its values: fixed-point price and quantity, both ids, the time, and the taker
      side as the opposite of the maker flag. */
  lemma TradeRoundTrip(t: TradeFact, context: MappingContext, d: Document)
    requires 0 <= context.priceScale <= MAX_SCALE && 0 <= context.quantityScale <= MAX_SCALE
    requires Carries(d, TradeFields(t, context.priceScale, context.quantityScale))
    ensures TradeFrom(Print(d), context)
         == if SymbolMatches(t.symbol, context.providerSymbol) && t.timeMs * 1_000_000 <= MAX_U64 then
              Some(Trade(EventHeader(TradeEvent, 0, context.sourceId, context.venueId, 0, 0, context.instrumentId, 0,
                                     0, 0, t.id, t.timeMs * 1_000_000, 0, 0),
                         t.price, t.quantity, t.id, if t.buyerIsMaker then SellAggressor else BuyAggressor))
            else None
  {
    hide FindValue, Print, Numeral, PrintDecimal, Decimal, Carries, ParsesTo, Fixed, MappingContext.AcceptsSymbol;
    hide SymbolMatches;
    var wanted := TradeFields(t, context.priceScale, context.quantityScale);
    AcceptsWhatMatches(context, t.symbol);
    ReadsField(d, wanted, 0);
    ReadsField(d, wanted, 1);
    ReadsField(d, wanted, 2);
    ReadsField(d, wanted, 3);
    ReadsField(d, wanted, 4);
    ReadsField(d, wanted, 5);
    NumeralReads(t.id);
    NumeralReads(t.timeMs);
    ParseInvertsPrint(t.price, context.priceScale);
    ParseInvertsPrint(t.quantity, context.quantityScale);
    FixedIs(PrintDecimal(t.price, context.priceScale), context.priceScale, t.price);
    FixedIs(PrintDecimal(t.quantity, context.quantityScale), context.quantityScale, t.quantity);
  }

  lemma QuoteRoundTrip(q: QuoteFact, context: MappingContext, d: Document)
    requires 0 <= context.priceScale <= MAX_SCALE && 0 <= context.quantityScale <= MAX_SCALE
    requires Carries(d, QuoteFields(q, context.priceScale, context.quantityScale))
    ensures QuoteFrom(Print(d), context)
         == if SymbolMatches(q.symbol, context.providerSymbol) then
              Some(Quote(EventHeader(QuoteEvent, 0, context.sourceId, context.venueId, 0, 0, context.instrumentId, 0,
                                     0, 0, q.id, 0, 0, 0),
                         q.bidPrice, q.bidQuantity, q.askPrice, q.askQuantity))
            else None
  {
    hide FindValue, Print, Numeral, PrintDecimal, Decimal, Carries, ParsesTo, Fixed, MappingContext.AcceptsSymbol;
    hide SymbolMatches;
    var wanted := QuoteFields(q, context.priceScale, context.quantityScale);
    AcceptsWhatMatches(context, q.symbol);
    ReadsField(d, wanted, 0);
    ReadsField(d, wanted, 1);
    ReadsField(d, wanted, 2);
    ReadsField(d, wanted, 3);
    ReadsField(d, wanted, 4);
    ReadsField(d, wanted, 5);
    NumeralReads(q.id);
    ParseInvertsPrint(q.bidPrice, context.priceScale);
    ParseInvertsPrint(q.bidQuantity, context.quantityScale);
    ParseInvertsPrint(q.askPrice, context.priceScale);
    ParseInvertsPrint(q.askQuantity, context.quantityScale);
    FixedIs(PrintDecimal(q.bidPrice, context.priceScale), context.priceScale, q.bidPrice);
    FixedIs(PrintDecimal(q.bidQuantity, context.quantityScale), context.quantityScale, q.bidQuantity);
    FixedIs(PrintDecimal(q.askPrice, context.priceScale), context.priceScale, q.askPrice);
    FixedIs(PrintDecimal(q.askQuantity, context.quantityScale), context.quantityScale, q.askQuantity);
  }

  // ---------------------------------------------------------------------------------------------
  // Which documents map at all

  /** The first field with the key is this string. */
  predicate HasText(d: Document, key: string, text: string) {
    First(Fields(d.root), key) == Some(Text(text))
  }

  /** The first field with the key is a number in 64 bits, written in decimal digits with or without quotes. */
  predicate HasNumber(d: Document, key: string, n: u64) {
    match First(Fields(d.root), key)
    case Some(Text(s)) => s != "" && AllDigits(s) && Decimal(s) == n
    case Some(Token(s)) => s != "" && AllDigits(s) && Decimal(s) == n
    case _ => false
  }

  predicate HasFlag(d: Document, key: string, flag: bool) {
    First(Fields(d.root), key) == Some(Token(if flag then "true" else "false"))
  }

  lemma ReadsOf(d: Document, key: string)
    requires WellFormedDocument(d) && key != ""
    ensures forall s :: ReadString(Print(d), key) == Some(s) <==> HasText(d, key, s)
    ensures forall n: u64 :: ReadU64(Print(d), key) == Some(n) <==> HasNumber(d, key, n)
    ensures forall b :: ReadBool(Print(d), key) == Some(b) <==> HasFlag(d, key, b)
  {
    ScanFindsFirstField(d, key);
    hide Print, FindValue, Fields, First, Decimal;
    CharacterCodes('{');
  }

  /** For every document, whatever it holds: it maps to a trade exactly when it has a matching symbol, an id, a
      price and a quantity that are decimals within int64 at the configured scales, a time that fits, and a maker
      flag, each as the first field with its key; and to the trade of just these. */
  lemma DocumentIsTradeIff(d: Document, context: MappingContext, trade: Trade)
    requires WellFormedDocument(d)
    ensures TradeFrom(Print(d), context) == Some(trade)
       <==> exists symbol, price, quantity, ms: u64, buyerIsMaker ::
              && HasText(d, "s", symbol) && SymbolMatches(symbol, context.providerSymbol)
              && HasNumber(d, "t", trade.tradeId) && HasText(d, "p", price) && HasText(d, "q", quantity)
              && HasNumber(d, "T", ms) && ms * 1_000_000 <= MAX_U64 && HasFlag(d, "m", buyerIsMaker)
              && ParsesTo(price, context.priceScale, trade.price)
              && ParsesTo(quantity, context.quantityScale, trade.quantity)
              && trade.header == EventHeader(TradeEvent, 0, context.sourceId, context.venueId, 0, 0,
                                             context.instrumentId, 0, 0, 0, trade.tradeId, ms * 1_000_000, 0, 0)
              && trade.aggressor == if buyerIsMaker then SellAggressor else BuyAggressor
  {
    hide HasText, HasNumber, HasFlag, Print, ReadString, ReadU64, ReadBool, SymbolMatches, ParsesTo;
    hide MappingContext.AcceptsSymbol;
    ReadsOf(d, "s"); ReadsOf(d, "t"); ReadsOf(d, "p"); ReadsOf(d, "q"); ReadsOf(d, "T"); ReadsOf(d, "m");
    forall symbol ensures context.AcceptsSymbol(symbol) <==> SymbolMatches(symbol, context.providerSymbol) {
      AcceptsWhatMatches(context, symbol);
    }
    forall text, scale, n | ParsesTo(text, scale, n) ensures Fixed(text, scale) == Some(n) {
      FixedIs(text, scale, n);
    }
  }

  /** The same for a quote. */
  lemma DocumentIsQuoteIff(d: Document, context: MappingContext, quote: Quote)
    requires WellFormedDocument(d)
    ensures QuoteFrom(Print(d), context) == Some(quote)
       <==> exists symbol, bp, bq, ap, aq ::
              && HasText(d, "s", symbol) && SymbolMatches(symbol, context.providerSymbol)
              && HasNumber(d, "u", quote.header.exchangeSeq)
              && HasText(d, "b", bp) && HasText(d, "B", bq) && HasText(d, "a", ap) && HasText(d, "A", aq)
              && ParsesTo(bp, context.priceScale, quote.bidPrice)
              && ParsesTo(bq, context.quantityScale, quote.bidQuantity)
              && ParsesTo(ap, context.priceScale, quote.askPrice)
              && ParsesTo(aq, context.quantityScale, quote.askQuantity)
              && quote.header == EventHeader(QuoteEvent, 0, context.sourceId, context.venueId, 0, 0,
                                             context.instrumentId, 0, 0, 0, quote.header.exchangeSeq, 0, 0, 0)
  {
    hide HasText, HasNumber, HasFlag, Print, ReadString, ReadU64, ReadBool, SymbolMatches, ParsesTo;
    hide MappingContext.AcceptsSymbol;
    ReadsOf(d, "s"); ReadsOf(d, "u"); ReadsOf(d, "b"); ReadsOf(d, "B"); ReadsOf(d, "a"); ReadsOf(d, "A");
    forall symbol ensures context.AcceptsSymbol(symbol) <==> SymbolMatches(symbol, context.providerSymbol) {
      AcceptsWhatMatches(context, symbol);
    }
    forall text, scale, n | ParsesTo(text, scale, n) ensures Fixed(text, scale) == Some(n) {
      FixedIs(text, scale, n);
    }
  }

  // ---------------------------------------------------------------------------------------------
  // Such documents exist: any order, plain or in a combined-stream wrapper

  /** A flat object with these scalar fields in this order. */
  function MembersOf(fields: seq<Field>): Members {
    if fields == [] then NoMembers else Member("", fields[0].key, "", "", fields[0].value, "", MembersOf(fields[1..]))
  }

  function Plainly(fields: seq<Field>): Document {
    Document("", Object(MembersOf(fields), ""), "")
  }

  /** {"stream":name,"data":{...}} */
  function Combined(stream: string, fields: seq<Field>): Document {
    Document("", Object(Member("", "stream", "", "", Text(stream), "",
                               Member("", "data", "", "", Object(MembersOf(fields), ""), "", NoMembers)), ""), "")
  }

  predicate ScalarFields(fields: seq<Field>) {
    forall i :: 0 <= i < |fields| ==> !fields[i].value.Object? && WellFormed(fields[i].value) && '"' !in fields[i].key
  }

  lemma {:induction false} MembersOfFields(fields: seq<Field>)
    requires ScalarFields(fields)
    ensures MemberFields(MembersOf(fields)) == fields && WellFormedMembers(MembersOf(fields))
  {
    if fields != [] {
      MembersOfFields(fields[1..]);
      assert fields == [fields[0]] + fields[1..];
    }
  }

  lemma DistinctWhenPermuted(fields: seq<Field>, wanted: seq<Field>)
    requires DistinctKeys(wanted) && multiset(fields) == multiset(wanted)
    ensures DistinctKeys(fields) && forall f :: f in fields <==> f in wanted
  {
    forall f ensures f in fields <==> f in wanted {
      assert f in multiset(fields) <==> f in multiset(wanted);
    }
    forall i, j | 0 <= i < j < |fields| ensures fields[i].key != fields[j].key {
      assert multiset(fields)[fields[i]] == multiset(wanted)[fields[i]];
      assert fields[i] in fields && fields[j] in fields;
      if fields[i].key == fields[j].key {
        var a :| 0 <= a < |wanted| && wanted[a] == fields[i];
        var b :| 0 <= b < |wanted| && wanted[b] == fields[j];
        assert a == b;
        TwiceCounted(fields, i, j);
        OnceCounted(wanted, a);
        assert false;
      }
    }
  }

  lemma TwiceCounted(fields: seq<Field>, i: nat, j: nat)
    requires i < j < |fields| && fields[i] == fields[j]
    ensures multiset(fields)[fields[i]] >= 2
  {
    assert fields == fields[..j] + fields[j..];
    assert fields[i] in fields[..j] && fields[j] in fields[j..] by {
      assert fields[..j][i] == fields[i] && fields[j..][0] == fields[j];
    }
    assert multiset(fields) == multiset(fields[..j]) + multiset(fields[j..]);
  }

  lemma OnceCounted(fields: seq<Field>, a: nat)
    requires DistinctKeys(fields) && a < |fields|
    ensures multiset(fields)[fields[a]] <= 1
  {
    assert fields == fields[..a] + [fields[a]] + fields[a + 1..];
    assert multiset(fields) == multiset(fields[..a]) + multiset([fields[a]]) + multiset(fields[a + 1..]);
    assert fields[a] !in fields[..a] && fields[a] !in fields[a + 1..];
  }

  predicate AvoidsWrapper(fields: seq<Field>) {
    forall i :: 0 <= i < |fields| ==> fields[i].key != "stream" && fields[i].key != "data"
  }

  lemma PlainCarries(fields: seq<Field>, wanted: seq<Field>)
    requires multiset(fields) == multiset(wanted) && ScalarFields(fields) && DistinctKeys(wanted)
    ensures Carries(Plainly(fields), wanted)
  {
    DistinctWhenPermuted(fields, wanted);
    MembersOfFields(fields);
    forall i | 0 <= i < |wanted| ensures First(fields, wanted[i].key) == Some(wanted[i].value) {
      assert wanted[i] in wanted;
      FirstOfDistinct(fields, wanted[i]);
    }
  }

  lemma CombinedFields(stream: string, fields: seq<Field>) returns (data: Json)
    requires ScalarFields(fields) && Clean(stream)
    ensures WellFormedDocument(Combined(stream, fields))
    ensures Fields(Combined(stream, fields).root) == [Field("stream", Text(stream)), Field("data", data)] + fields
  {
    MembersOfFields(fields);
    hide MembersOf, ScalarFields;
    data := Object(MembersOf(fields), "");
    var last := Member("", "data", "", "", data, "", NoMembers);
    var members := Member("", "stream", "", "", Text(stream), "", last);
    assert WellFormed(data);
    assert WellFormedMembers(last);
    assert WellFormedMembers(members);
    assert MemberFields(last) == [Field("data", data)] + fields;
    assert MemberFields(members) == [Field("stream", Text(stream))] + MemberFields(last);
  }

  lemma CombinedCarries(fields: seq<Field>, wanted: seq<Field>, stream: string)
    requires multiset(fields) == multiset(wanted) && ScalarFields(fields) && DistinctKeys(wanted) && Clean(stream)
    requires AvoidsWrapper(wanted)
    ensures Carries(Combined(stream, fields), wanted)
  {
    DistinctWhenPermuted(fields, wanted);
    var data := CombinedFields(stream, fields);
    var all := Fields(Combined(stream, fields).root);
    hide Fields, WellFormedDocument, First;
    forall i | 0 <= i < |wanted| ensures First(all, wanted[i].key) == Some(wanted[i].value) {
      assert wanted[i] in wanted && wanted[i] in fields;
      FirstOfDistinct(fields, wanted[i]);
      FirstPastWrapper(stream, data, fields, wanted[i].key);
    }
  }

  lemma FirstPastWrapper(stream: string, data: Json, fields: seq<Field>, key: string)
    requires key != "stream" && key != "data"
    ensures First([Field("stream", Text(stream)), Field("data", data)] + fields, key) == First(fields, key)
  {
    var all := [Field("stream", Text(stream)), Field("data", data)] + fields;
    assert all[1..] == [Field("data", data)] + fields && all[1..][1..] == fields;
  }

  lemma NumeralIsToken(n: nat)
    ensures WellFormed(Token(Numeral(n)))
  {
    NumeralReads(n);
  }

  lemma PrintIsClean(n: i64, scale: nat)
    ensures WellFormed(Text(PrintDecimal(n, scale)))
  {
    MagnitudeReads(if n < 0 then -(n as int) else n, scale);
  }

  lemma PermutedScalars(fields: seq<Field>, wanted: seq<Field>)
    requires multiset(fields) == multiset(wanted) && ScalarFields(wanted)
    ensures ScalarFields(fields)
  {
    forall i | 0 <= i < |fields|
      ensures !fields[i].value.Object? && WellFormed(fields[i].value) && '"' !in fields[i].key
    {
      assert fields[i] in multiset(fields) && fields[i] in multiset(wanted) && fields[i] in wanted;
    }
  }

  lemma TradeFieldsScalar(t: TradeFact, priceScale: nat, quantityScale: nat)
    requires Clean(t.symbol)
    ensures ScalarFields(TradeFields(t, priceScale, quantityScale))
            && DistinctKeys(TradeFields(t, priceScale, quantityScale))
    ensures AvoidsWrapper(TradeFields(t, priceScale, quantityScale))
  {
    hide Numeral, PrintDecimal;
    NumeralIsToken(t.id);
    NumeralIsToken(t.timeMs);
    PrintIsClean(t.price, priceScale);
    PrintIsClean(t.quantity, quantityScale);
  }

  lemma QuoteFieldsScalar(q: QuoteFact, priceScale: nat, quantityScale: nat)
    requires Clean(q.symbol)
    ensures ScalarFields(QuoteFields(q, priceScale, quantityScale))
            && DistinctKeys(QuoteFields(q, priceScale, quantityScale))
    ensures AvoidsWrapper(QuoteFields(q, priceScale, quantityScale))
  {
    hide Numeral, PrintDecimal;
    NumeralIsToken(q.id);
    PrintIsClean(q.bidPrice, priceScale);
    PrintIsClean(q.bidQuantity, quantityScale);
    PrintIsClean(q.askPrice, priceScale);
    PrintIsClean(q.askQuantity, quantityScale);
  }

  lemma TradeCarried(t: TradeFact, priceScale: nat, quantityScale: nat, fields: seq<Field>, stream: string)
    requires Clean(t.symbol) && Clean(stream) && multiset(fields) == multiset(TradeFields(t, priceScale, quantityScale))
    ensures Carries(Plainly(fields), TradeFields(t, priceScale, quantityScale))
    ensures Carries(Combined(stream, fields), TradeFields(t, priceScale, quantityScale))
  {
    hide TradeFields, Carries, ScalarFields, AvoidsWrapper, DistinctKeys, Plainly, Combined;
    var wanted := TradeFields(t, priceScale, quantityScale);
    TradeFieldsScalar(t, priceScale, quantityScale);
    PermutedScalars(fields, wanted);
    PlainCarries(fields, wanted);
    CombinedCarries(fields, wanted, stream);
  }

  /** A trade's six fields written in any order, plain or inside a combined-stream wrapper, map alike: exactly when
      the symbol matches and the time fits, to that trade. */
  lemma AnyOrderTrade(t: TradeFact, context: MappingContext, fields: seq<Field>, stream: string)
    requires 0 <= context.priceScale <= MAX_SCALE && 0 <= context.quantityScale <= MAX_SCALE
    requires Clean(t.symbol) && Clean(stream)
    requires multiset(fields) == multiset(TradeFields(t, context.priceScale, context.quantityScale))
    ensures TradeFrom(Print(Combined(stream, fields)), context) == TradeFrom(Print(Plainly(fields)), context)
    ensures TradeFrom(Print(Plainly(fields)), context)
         == if SymbolMatches(t.symbol, context.providerSymbol) && t.timeMs * 1_000_000 <= MAX_U64 then
              Some(Trade(EventHeader(TradeEvent, 0, context.sourceId, context.venueId, 0, 0, context.instrumentId, 0,
                                     0, 0, t.id, t.timeMs * 1_000_000, 0, 0),
                         t.price, t.quantity, t.id, if t.buyerIsMaker then SellAggressor else BuyAggressor))
            else None
  {
    hide TradeFrom, SymbolMatches, TradeFields, Print;
    TradeCarried(t, context.priceScale, context.quantityScale, fields, stream);
    TradeRoundTrip(t, context, Plainly(fields));
    TradeRoundTrip(t, context, Combined(stream, fields));
  }

  lemma QuoteCarried(q: QuoteFact, priceScale: nat, quantityScale: nat, fields: seq<Field>, stream: string)
    requires Clean(q.symbol) && Clean(stream) && multiset(fields) == multiset(QuoteFields(q, priceScale, quantityScale))
    ensures Carries(Plainly(fields), QuoteFields(q, priceScale, quantityScale))
    ensures Carries(Combined(stream, fields), QuoteFields(q, priceScale, quantityScale))
  {
    hide QuoteFields, Carries, ScalarFields, AvoidsWrapper, DistinctKeys, Plainly, Combined;
    var wanted := QuoteFields(q, priceScale, quantityScale);
    QuoteFieldsScalar(q, priceScale, quantityScale);
    PermutedScalars(fields, wanted);
    PlainCarries(fields, wanted);
    CombinedCarries(fields, wanted, stream);
  }

  /** The same for a book ticker. */
  lemma AnyOrderQuote(q: QuoteFact, context: MappingContext, fields: seq<Field>, stream: string)
    requires 0 <= context.priceScale <= MAX_SCALE && 0 <= context.quantityScale <= MAX_SCALE
    requires Clean(q.symbol) && Clean(stream)
    requires multiset(fields) == multiset(QuoteFields(q, context.priceScale, context.quantityScale))
    ensures QuoteFrom(Print(Combined(stream, fields)), context) == QuoteFrom(Print(Plainly(fields)), context)
    ensures QuoteFrom(Print(Plainly(fields)), context)
         == if SymbolMatches(q.symbol, context.providerSymbol) then
              Some(Quote(EventHeader(QuoteEvent, 0, context.sourceId, context.venueId, 0, 0, context.instrumentId, 0,
                                     0, 0, q.id, 0, 0, 0),
                         q.bidPrice, q.bidQuantity, q.askPrice, q.askQuantity))
            else None
  {
    hide QuoteFrom, SymbolMatches, QuoteFields, Print;
    QuoteCarried(q, context.priceScale, context.quantityScale, fields, stream);
    QuoteRoundTrip(q, context, Plainly(fields));
    QuoteRoundTrip(q, context, Combined(stream, fields));
  }
}
