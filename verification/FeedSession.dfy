/** A feed session: attempts against an arbitrary transport, a message budget, and retries with backoff.
    Everything outside (what arrives, what the handler and the stop flag answer, how an attempt ends) is a
    script; a script that runs out shows a prefix of a longer run. */
module FeedSession {
  import opened Words
  import opened Wrappers

  datatype RunStatus =
    | CompletedRun | StoppedRun | InvalidEndpoint | ResolveFailed | ConnectFailed | TlsHandshakeFailed
    | WebSocketHandshakeFailed | ReadFailed | CloseFailed | BackendUnavailable | UnknownError

  datatype ErrorClass = NoError | Stopped | Configuration | Dependency | Network | Protocol | Io | UnknownClass

  datatype StopReason =
    | Completed | MaxMessagesReached | StoppedByHandler | StopRequested | MaxAttemptsReached | NotRetryable

  /** The backoff multiplier is a fraction; delays are whole milliseconds. */
  datatype RetryPolicy = RetryPolicy(
    maxAttempts: u32, initialBackoff: int, maxBackoff: int, multiplier: int, divisor: nat, reconnectOnCompleted: bool)
  {
    predicate Valid() {
      divisor > 0
    }
  }

  datatype Options = Options(maxMessages: u64, retry: RetryPolicy)

  function Classify(status: RunStatus): ErrorClass {
    match status
    case CompletedRun => NoError
    case StoppedRun => Stopped
    case InvalidEndpoint => Configuration
    case BackendUnavailable => Dependency
    case ResolveFailed => Network
    case ConnectFailed => Network
    case TlsHandshakeFailed => Network
    case WebSocketHandshakeFailed => Protocol
    case ReadFailed => Io
    case CloseFailed => Io
    case UnknownError => UnknownClass
  }

  predicate Retryable(c: ErrorClass) {
    c == Network || c == Protocol || c == Io || c == UnknownClass
  }

  /** Which statuses fall in each class, and which classes are worth another attempt. */
  lemma StatusClasses(status: RunStatus, c: ErrorClass)
    ensures Classify(status) == NoError <==> status == CompletedRun
    ensures Classify(status) == Stopped <==> status == StoppedRun
    ensures Classify(status) == Configuration <==> status == InvalidEndpoint
    ensures Classify(status) == Dependency <==> status == BackendUnavailable
    ensures Classify(status) == Network <==> status in {ResolveFailed, ConnectFailed, TlsHandshakeFailed}
    ensures Classify(status) == Protocol <==> status == WebSocketHandshakeFailed
    ensures Classify(status) == Io <==> status in {ReadFailed, CloseFailed}
    ensures Classify(status) == UnknownClass <==> status == UnknownError
    ensures Retryable(c) <==> c !in {NoError, Stopped, Configuration, Dependency}
  {
  }

  // ---------------------------------------------------------------------------------------------
  // The script

  /** A message that arrives, and what the stop flag and the downstream handler answer on it. */
  datatype Offer = Offer(recvTsNs: u64, size: nat, stopSeen: bool, keep: bool)

  /** One turn of the session loop: the flag before it, the messages that would arrive, how the transport ends,
      the flag after it, and the first poll of the pause that sees the flag, if any. */
  datatype Attempt = Attempt(
    stopBefore: bool, offers: seq<Offer>, status: RunStatus, errorClass: ErrorClass, stopAfter: bool,
    pauseStop: Option<nat>)

  // ---------------------------------------------------------------------------------------------
  // Backoff

  /** Division as C does it, towards zero. */
  function TruncatedQuotient(a: int, d: nat): int
    requires d > 0
  {
    if a >= 0 then a / d else -(-a / d)
  }

  function NextBackoff(current: int, p: RetryPolicy): int
    requires p.Valid()
  {
    if current <= 0 then p.initialBackoff
    else
      var next := TruncatedQuotient(current * p.multiplier, p.divisor);
      if next <= p.maxBackoff then next else p.maxBackoff
  }

  /** The pause after the k-th attempt that is retried, counting from 0. */
  function Backoff(p: RetryPolicy, k: nat): int
    requires p.Valid()
  {
    NextBackoff(if k == 0 then 0 else Backoff(p, k - 1), p)
  }

  function Smaller(a: int, b: int): int {
    if a <= b then a else b
  }

  lemma DoubleProduct(a: nat, power: nat)
    requires power >= 1
    ensures a * (2 * power) == 2 * (a * power) && a * power >= a
  {
  }

  lemma NextDoubles(current: int, p: RetryPolicy)
    requires p.Valid() && p.multiplier == 2 && p.divisor == 1
    ensures NextBackoff(current, p) == if current <= 0 then p.initialBackoff else Smaller(2 * current, p.maxBackoff)
  {
    assert current > 0 ==> TruncatedQuotient(current * 2, 1) == 2 * current;
  }

  lemma {:induction false} BackoffDoublesWhenInRange(p: RetryPolicy, k: nat)
    requires p.Valid() && p.multiplier == 2 && p.divisor == 1 && 0 <= p.initialBackoff <= p.maxBackoff
    ensures Backoff(p, k) == Smaller(p.initialBackoff * Pow2(k), p.maxBackoff)
  {
    if k > 0 {
      BackoffDoublesWhenInRange(p, k - 1);
      var power := Pow2(k - 1);
      NextDoubles(Backoff(p, k - 1), p);
      DoubleProduct(p.initialBackoff, power);
      assert Pow2(k) == 2 * power;
      hide NextBackoff, Pow2;
    }
  }

  /** With multiplier 2 the k-th pause is min(initial * 2^k, max) for every k exactly when 0 <= initial <= max:
      the first pause is not clamped, and a negative initial delay is never doubled. */
  lemma BackoffDoublesIff(p: RetryPolicy)
    requires p.Valid() && p.multiplier == 2 && p.divisor == 1
    ensures (forall k: nat :: Backoff(p, k) == Smaller(p.initialBackoff * Pow2(k), p.maxBackoff))
            <==> 0 <= p.initialBackoff <= p.maxBackoff
  {
    assert Pow2(0) == 1 && Pow2(1) == 2;
    if 0 <= p.initialBackoff <= p.maxBackoff {
      forall k: nat ensures Backoff(p, k) == Smaller(p.initialBackoff * Pow2(k), p.maxBackoff) {
        BackoffDoublesWhenInRange(p, k);
      }
    } else {
      assert Backoff(p, 0) == p.initialBackoff;
      if p.initialBackoff < 0 {
        assert Backoff(p, 1) == p.initialBackoff;
        assert Backoff(p, 1) != Smaller(p.initialBackoff * Pow2(1), p.maxBackoff);
      } else {
        assert Backoff(p, 0) != Smaller(p.initialBackoff * Pow2(0), p.maxBackoff);
      }
    }
  }

  lemma QuotientIs(a: int, d: nat)
    requires d > 0
    ensures var q := TruncatedQuotient(a, d);
            if a >= 0 then q * d <= a < (q + 1) * d else (q - 1) * d < a <= q * d
  {
  }

  /** For every policy: after no pause, or a negative one, the first delay; else the last one times the multiplier,
      cut to whole milliseconds towards zero, but never more than the longest. */
  lemma NextBackoffByNumbers(current: int, p: RetryPolicy, product: int)
    requires p.Valid() && product == current * p.multiplier
    ensures current <= 0 ==> NextBackoff(current, p) == p.initialBackoff
    ensures current > 0 ==>
              var n, d := NextBackoff(current, p), p.divisor;
              && n <= p.maxBackoff
              && (n < p.maxBackoff ==> if product >= 0 then n * d <= product < (n + 1) * d
                                       else (n - 1) * d < product <= n * d)
              && (n == p.maxBackoff ==> if product >= 0 then n * d <= product
                                        else (n - 1) * d < product)
  {
    QuotientIs(product, p.divisor);
    var q, n, d := TruncatedQuotient(product, p.divisor), NextBackoff(current, p), p.divisor;
    hide TruncatedQuotient;
    if current > 0 && n < q {
      ScalesUp(n, q, d);
    }
  }

  lemma ScalesUp(n: int, q: int, d: nat)
    requires n < q
    ensures n * d <= q * d && (n - 1) * d <= (q - 1) * d && (d > 0 ==> n * d <= (q - 1) * d)
  {
    TimesAtMost(n, q, d);
    TimesAtMost(n - 1, q - 1, d);
    TimesAtMost(n, q - 1, d);
  }

  /** With a factor of at least one and a first delay within the longest, pauses never shrink, start at the first
      delay and stay within the longest. */
  lemma {:induction false} BackoffGrows(p: RetryPolicy, k: nat)
    requires p.Valid() && p.multiplier >= p.divisor && 0 <= p.initialBackoff <= p.maxBackoff
    ensures p.initialBackoff <= Backoff(p, k) <= Backoff(p, k + 1) <= p.maxBackoff
  {
    if k > 0 {
      BackoffGrows(p, k - 1);
    }
    var current := Backoff(p, k);
    hide NextBackoff;
    if current > 0 {
      GrowsOnce(current, p);
    } else {
      NextBackoffByNumbers(current, p, current * p.multiplier);
    }
    if k == 0 {
      NextBackoffByNumbers(0, p, 0);
    }
  }

  lemma GrowsOnce(current: int, p: RetryPolicy)
    requires p.Valid() && p.multiplier >= p.divisor && 0 < current <= p.maxBackoff
    ensures current <= NextBackoff(current, p) <= p.maxBackoff
  {
    hide NextBackoff;
    var product := current * p.multiplier;
    var n := NextBackoff(current, p);
    NextBackoffByNumbers(current, p, product);
    TimesAtMost(p.divisor, p.multiplier, current);
    TimesAtMost(0, p.multiplier, current);
    if n < current {
      TimesAtMost(n + 1, current, p.divisor);
      assert false;
    }
  }

  lemma TimesAtMost(a: int, b: int, c: nat)
    requires a <= b
    ensures a * c <= b * c && c * a <= c * b
  {
    assert (b - a) * c >= 0;
  }

  /** The pause's length, and the number of 100 ms chunks it is slept in. */
  function PauseMs(duration: int): nat {
    if duration > 0 then duration else 0
  }

  function Chunks(duration: int): nat {
    (PauseMs(duration) + 99) / 100
  }

  /** The flag is polled before every chunk and once at the end. */
  predicate PauseEnds(duration: int, stopPoll: Option<nat>) {
    stopPoll.None? || stopPoll.value > Chunks(duration)
  }

  /** The k-th poll, counting from 0, comes before the pause is over exactly when less than the pause's length has
      been slept by the poll before it. */
  lemma PollsInPause(duration: int, k: nat)
    ensures PauseEnds(duration, None)
    ensures PauseEnds(duration, Some(k)) <==> k > 0 && duration <= 100 * (k - 1)
  {
  }

  /** A pause sleeps its whole length unless stopped, and then stops within 100 ms of the flag. */
  method SleepForBackoff(duration: int, stopPoll: Option<nat>) returns (ended: bool, slept: nat)
    ensures ended <==> PauseEnds(duration, stopPoll)
    ensures slept == if ended then PauseMs(duration) else Smaller(PauseMs(duration), 100 * stopPoll.value)
  {
    var remaining := duration;
    var polls: nat := 0;
    slept := 0;
    while remaining > 0
      invariant remaining <= duration && slept + PauseMs(remaining) == PauseMs(duration)
      invariant slept == Smaller(PauseMs(duration), 100 * polls)
      invariant polls + Chunks(remaining) == Chunks(duration)
      invariant stopPoll.None? || stopPoll.value >= polls
    {
      if stopPoll == Some(polls) {
        return false, slept;
      }
      polls := polls + 1;
      var chunk := if remaining <= 100 then remaining else 100;
      slept := slept + chunk;
      remaining := remaining - chunk;
    }
    return stopPoll != Some(polls), slept;
  }

  // ---------------------------------------------------------------------------------------------
  // Counting and stopping inside an attempt

  /** The counters the session and its client both keep. */
  datatype Tally = Tally(messages: u64, bytes: u64, firstRecvTsNs: u64, lastRecvTsNs: u64)

  datatype Stats = Stats(attempts: u64, reconnects: u64, tally: Tally, lastStatus: RunStatus,
                         lastErrorClass: ErrorClass)

  const NO_TALLY := Tally(0, 0, 0, 0)

  /** The callback answers true: no flag, no refusal, and the budget not used up with `messages` delivered. */
  predicate Continues(maxMessages: u64, messages: nat, offer: Offer) {
    !offer.stopSeen && offer.keep && (maxMessages == 0 || messages < maxMessages)
  }

  /** How many of these offers an attempt delivers when `before` messages were delivered before it: all up to
      the first on which the callback answers false, inclusive. */
  function Taken(maxMessages: u64, before: nat, offers: seq<Offer>): (n: nat)
    ensures n <= |offers|
    decreases offers
  {
    if offers == [] then 0
    else if Continues(maxMessages, before + 1, offers[0]) then 1 + Taken(maxMessages, before + 1, offers[1..])
    else 1
  }

  /** The declarative reading of `Taken`: every delivered offer but the last continued, and delivery went on
      while it could. */
  lemma {:induction false} TakenIsFirstStop(maxMessages: u64, before: nat, offers: seq<Offer>)
    ensures var n := Taken(maxMessages, before, offers);
            && (forall i :: 0 <= i < n - 1 ==>
                  !offers[i].stopSeen && offers[i].keep && (maxMessages == 0 || before + 1 + i < maxMessages))
            && (n < |offers| ==>
                  n > 0 && (offers[n - 1].stopSeen || !offers[n - 1].keep || 0 < maxMessages <= before + n))
    decreases offers
  {
    if offers != [] && Continues(maxMessages, before + 1, offers[0]) {
      var rest := offers[1..];
      var n := Taken(maxMessages, before + 1, rest);
      TakenIsFirstStop(maxMessages, before + 1, rest);
      forall i | 1 <= i < n
        ensures !offers[i].stopSeen && offers[i].keep && (maxMessages == 0 || before + 1 + i < maxMessages)
      {
        assert rest[i - 1] == offers[i];
      }
      assert n > 0 ==> offers[n] == rest[n - 1];
    }
  }

  /** A positive budget is never overdrawn, and is used up only by a delivery that ends the attempt. */
  lemma {:induction false} TakenWithinBudget(maxMessages: u64, before: nat, offers: seq<Offer>)
    requires maxMessages != 0 && before < maxMessages
    ensures before + Taken(maxMessages, before, offers) <= maxMessages
    decreases offers
  {
    if offers != [] && before + 1 < maxMessages {
      TakenWithinBudget(maxMessages, before + 1, offers[1..]);
    }
  }

  function TotalSize(offers: seq<Offer>): nat {
    if offers == [] then 0 else TotalSize(offers[..|offers| - 1]) + offers[|offers| - 1].size
  }

  /** What the counters say after these deliveries; the first timestamp is the first message's unless the
      message counter has wrapped. */
  predicate Counts(t: Tally, seen: seq<Offer>) {
    && t.messages == Wrap(|seen|) && t.bytes == Wrap(TotalSize(seen))
    && (seen != [] ==> t.lastRecvTsNs == seen[|seen| - 1].recvTsNs)
    && (0 < |seen| <= MAX_U64 ==> t.firstRecvTsNs == seen[0].recvTsNs)
  }

  lemma SmallCount(t: Tally, seen: seq<Offer>)
    requires Counts(t, seen)
    ensures |seen| < 0x1_0000_0000_0000_0000 ==> t.messages == |seen|
  {
    hide TotalSize;
  }

  method Observe(t: Tally, offer: Offer, ghost seen: seq<Offer>) returns (after: Tally)
    requires Counts(t, seen)
    ensures Counts(after, seen + [offer])
  {
    after := t;
    if after.messages == 0 {
      after := after.(firstRecvTsNs := offer.recvTsNs);
    }
    after := after.(messages := Wrap(after.messages as int + 1));
    after := after.(bytes := Wrap(after.bytes as int + offer.size));
    after := after.(lastRecvTsNs := offer.recvTsNs);
    assert (seen + [offer])[..|seen|] == seen;
    WrapPlus(|seen|, 1);
    WrapPlus(TotalSize(seen), offer.size);
    hide TotalSize;
  }

  /** The session's side of the message callback. */
  class FeedSessionCallback {
    const maxMessages: u64
    var tally: Tally
    var stoppedByHandler: bool
    var stopRequested: bool
    var maxMessagesReached: bool

    constructor (maxMessages: u64, tally: Tally)
      ensures this.maxMessages == maxMessages && this.tally == tally
      ensures !stoppedByHandler && !stopRequested && !maxMessagesReached
    {
      this.maxMessages, this.tally := maxMessages, tally;
      stoppedByHandler, stopRequested, maxMessagesReached := false, false, false;
    }

    /** The message counts whatever the answer; the answer is true exactly when nothing stops the session, and a
        false answer raises exactly one flag, the first that applies. */
    method OnMessage(offer: Offer, ghost seen: seq<Offer>) returns (keepRunning: bool)
      requires Counts(tally, seen) && (maxMessages != 0 ==> |seen| < maxMessages)
      requires !stoppedByHandler && !stopRequested && !maxMessagesReached
      modifies this
      ensures Counts(tally, seen + [offer])
      ensures keepRunning <==> Continues(maxMessages, |seen| + 1, offer)
      ensures stopRequested <==> offer.stopSeen
      ensures stoppedByHandler <==> !offer.stopSeen && !offer.keep
      ensures maxMessagesReached <==> !keepRunning && !stopRequested && !stoppedByHandler
    {
      hide Counts;
      tally := Observe(tally, offer, seen);
      SmallCount(tally, seen + [offer]);
      if offer.stopSeen {
        stopRequested := true;
        return false;
      }
      if !offer.keep {
        stoppedByHandler := true;
        return false;
      }
      if maxMessages != 0 && tally.messages >= maxMessages {
        maxMessagesReached := true;
        return false;
      }
      return true;
    }
  }

  /** The transport's side: it numbers the messages of one attempt and passes them on, under what is left of
      the session's budget. */
  class FeedClient {
    const session: FeedSessionCallback
    const maxMessages: u64
    var tally: Tally

    constructor (session: FeedSessionCallback, maxMessages: u64)
      ensures this.session == session && this.maxMessages == maxMessages && tally == NO_TALLY
    {
      this.session, this.maxMessages, tally := session, maxMessages, NO_TALLY;
    }

    /** It goes on exactly when the session's callback does and its own limit is not reached. */
    method OnMessage(offer: Offer, ghost seen: seq<Offer>, ghost own: seq<Offer>)
      returns (captureSeq: u64, keepRunning: bool)
      requires Counts(session.tally, seen) && Counts(tally, own)
      requires session.maxMessages != 0 ==> |seen| < session.maxMessages
      requires !session.stoppedByHandler && !session.stopRequested && !session.maxMessagesReached
      modifies this, session
      ensures captureSeq == Wrap(|own| + 1)
      ensures Counts(session.tally, seen + [offer]) && Counts(tally, own + [offer])
      ensures keepRunning <==> Continues(session.maxMessages, |seen| + 1, offer)
                               && (maxMessages == 0 || Wrap(|own| + 1) < maxMessages)
      ensures session.stopRequested <==> offer.stopSeen
      ensures session.stoppedByHandler <==> !offer.stopSeen && !offer.keep
      ensures session.maxMessagesReached <==> !Continues(session.maxMessages, |seen| + 1, offer)
                                              && !session.stopRequested && !session.stoppedByHandler
    {
      captureSeq := Wrap(tally.messages as int + 1);
      assert captureSeq == Wrap(|own| + 1) by { WrapPlus(|own|, 1); }
      assert Counts(tally, own);
      hide Wrap;
      tally := Observe(tally, offer, own);
      assert tally.messages == Wrap(|own| + 1);
      hide Counts;
      var handlerOk := session.OnMessage(offer, seen);
      if !handlerOk {
        return captureSeq, false;
      }
      return captureSeq, maxMessages == 0 || tally.messages < maxMessages;
    }
  }

  /** Under what is left of the session's budget the client's own limit changes nothing: wherever the session's
      callback goes on, the client's limit is not reached. */
  lemma ClientLimitIsRedundant(sessionMax: u64, clientMax: u64, seen: nat, own: nat, offer: Offer)
    requires if sessionMax == 0 then clientMax == 0 else clientMax != 0 && sessionMax - seen == clientMax - own
    requires Continues(sessionMax, seen + 1, offer)
    ensures clientMax == 0 || Wrap(own + 1) < clientMax
  {
    SmallWrap(own + 1);
  }

  lemma TakenOneMore(maxMessages: u64, before: nat, offers: seq<Offer>, i: nat)
    requires i < |offers|
    ensures Taken(maxMessages, before + i, offers[i..])
         == if Continues(maxMessages, before + i + 1, offers[i])
            then 1 + Taken(maxMessages, before + i + 1, offers[i + 1..]) else 1
  {
    assert offers[i..][1..] == offers[i + 1..];
  }

  /** Which flag the last delivered message raised, if any. */
  datatype Flags = Flags(stoppedByHandler: bool, stopRequested: bool, maxMessagesReached: bool)

  function FlagsOf(maxMessages: u64, total: nat, delivered: seq<Offer>): Flags {
    if delivered == [] then Flags(false, false, false)
    else
      var last := delivered[|delivered| - 1];
      Flags(!last.stopSeen && !last.keep, last.stopSeen,
            !last.stopSeen && last.keep && maxMessages != 0 && total >= maxMessages)
  }

  /** One attempt delivers exactly the offers up to the first stop, numbers them 1, 2, ..., and leaves the
      session's and its own counters telling the same messages. */
  method RunOnce(session: FeedSessionCallback, remaining: u64, offers: seq<Offer>, ghost seen: seq<Offer>)
    returns (tally: Tally, delivered: nat, captures: seq<u64>)
    requires Counts(session.tally, seen) && (session.maxMessages != 0 ==> |seen| < session.maxMessages)
    requires remaining == if session.maxMessages == 0 then 0 else session.maxMessages - |seen|
    requires !session.stoppedByHandler && !session.stopRequested && !session.maxMessagesReached
    modifies session
    ensures delivered == Taken(session.maxMessages, |seen|, offers)
    ensures Counts(session.tally, seen + offers[..delivered]) && Counts(tally, offers[..delivered])
    ensures |captures| == delivered && forall i :: 0 <= i < delivered ==> captures[i] == Wrap(i + 1)
    ensures Flags(session.stoppedByHandler, session.stopRequested, session.maxMessagesReached)
         == FlagsOf(session.maxMessages, |seen| + delivered, offers[..delivered])
  {
    hide Counts, Taken, Wrap;
    var client := new FeedClient(session, remaining);
    delivered, captures := 0, [];
    NothingCounted();
    assert seen + offers[..0] == seen && offers[..0] == [] && offers[0..] == offers;
    var running := true;
    while running && delivered < |offers|
      invariant delivered <= |offers|
      invariant Counts(session.tally, seen + offers[..delivered]) && Counts(client.tally, offers[..delivered])
      invariant |captures| == delivered && forall i :: 0 <= i < delivered ==> captures[i] == Wrap(i + 1)
      invariant running ==> session.maxMessages != 0 ==> |seen| + delivered < session.maxMessages
      invariant running ==> delivered + Taken(session.maxMessages, |seen| + delivered, offers[delivered..])
                            == Taken(session.maxMessages, |seen|, offers)
      invariant !running ==> delivered == Taken(session.maxMessages, |seen|, offers)
      invariant running ==> !session.stoppedByHandler && !session.stopRequested && !session.maxMessagesReached
      invariant Flags(session.stoppedByHandler, session.stopRequested, session.maxMessagesReached)
             == FlagsOf(session.maxMessages, |seen| + delivered, offers[..delivered])
    {
      var offer := offers[delivered];
      TakenOneMore(session.maxMessages, |seen|, offers, delivered);
      assert offers[..delivered + 1] == offers[..delivered] + [offer];
      assert seen + offers[..delivered + 1] == seen + offers[..delivered] + [offer];
      if Continues(session.maxMessages, |seen| + delivered + 1, offer) {
        ClientLimitIsRedundant(session.maxMessages, remaining, |seen| + delivered, delivered, offer);
      }
      var captureSeq;
      captureSeq, running := client.OnMessage(offer, seen + offers[..delivered], offers[..delivered]);
      captures := captures + [captureSeq];
      delivered := delivered + 1;
    }
    NothingLeft(session.maxMessages, |seen| + delivered);
    assert running ==> offers[delivered..] == [];
    tally := client.tally;
  }

  lemma NothingLeft(maxMessages: u64, before: nat)
    ensures Taken(maxMessages, before, []) == 0
  {
  }

  lemma NothingCounted()
    ensures Counts(NO_TALLY, [])
  {
  }

  // ---------------------------------------------------------------------------------------------
  // A whole session

  function Sum(delivered: seq<nat>): nat {
    if delivered == [] then 0 else Sum(delivered[..|delivered| - 1]) + delivered[|delivered| - 1]
  }

  /** What a session did: the messages each attempt delivered, the pauses it began, and why it stopped
      (`None` while the script shows no end). */
  datatype Course = Course(delivered: seq<nat>, pauses: seq<int>, reason: Option<StopReason>)

  /** No attempt delivers more than arrived. */
  predicate Delivers(script: seq<Attempt>, delivered: seq<nat>) {
    |delivered| <= |script| && forall i :: 0 <= i < |delivered| ==> delivered[i] <= |script[i].offers|
  }

  /** All messages delivered, in order. */
  function Seen(script: seq<Attempt>, delivered: seq<nat>): (seen: seq<Offer>)
    requires Delivers(script, delivered)
    ensures |seen| == Sum(delivered)
    decreases |delivered|
  {
    if delivered == [] then [] else
      var n := |delivered| - 1;
      Seen(script, delivered[..n]) + script[n].offers[..delivered[n]]
  }

  /** Why the session stops after an attempt, or `None` to try again: the budget first, then the flag, then the
      handler, then how the attempt itself ended. `before` messages and `attempts` - 1 attempts came before. */
  function Verdict(o: Options, attempts: nat, before: nat, a: Attempt): Option<StopReason> {
    var n := Taken(o.maxMessages, before, a.offers);
    var flags := FlagsOf(o.maxMessages, before + n, a.offers[..n]);
    if flags.maxMessagesReached then Some(MaxMessagesReached)
    else if flags.stopRequested || a.stopAfter then Some(StopRequested)
    else if flags.stoppedByHandler then Some(StoppedByHandler)
    else if a.status == CompletedRun && !o.retry.reconnectOnCompleted then Some(Completed)
    else if a.status != CompletedRun && !Retryable(a.errorClass) then Some(NotRetryable)
    else if o.retry.maxAttempts != 0 && attempts >= o.retry.maxAttempts then Some(MaxAttemptsReached)
    else None
  }

  /** The i-th attempt was made, delivered what it should, and its verdict is this. */
  predicate Attempted(o: Options, script: seq<Attempt>, delivered: seq<nat>, i: nat, verdict: Option<StopReason>)
    requires i < |delivered| <= |script|
  {
    var before := Sum(delivered[..i]);
    && !script[i].stopBefore && delivered[i] == Taken(o.maxMessages, before, script[i].offers)
    && Verdict(o, i + 1, before, script[i]) == verdict
  }

  /** So many attempts were made and retried, each after its whole pause. */
  predicate Underway(o: Options, script: seq<Attempt>, delivered: seq<nat>, pauses: seq<int>)
    requires o.retry.Valid()
  {
    && |pauses| == |delivered| <= |script|
    && (forall i :: 0 <= i < |delivered| ==> Attempted(o, script, delivered, i, None))
    && (forall i :: 0 <= i < |pauses| ==> pauses[i] == Backoff(o.retry, i) && PauseEnds(pauses[i], script[i].pauseStop))
  }

  /** A course of the session over this script: retried attempts, and then one of four endings: the script shows
      no more, the flag was up before an attempt, an attempt's verdict, or the flag during its pause. */
  predicate IsCourse(o: Options, script: seq<Attempt>, c: Course)
    requires o.retry.Valid()
  {
    if c.reason.None? then Underway(o, script, c.delivered, c.pauses) && |c.delivered| == |script|
    else
      || (Underway(o, script, c.delivered, c.pauses) && |c.delivered| < |script| && script[|c.delivered|].stopBefore
          && c.reason == Some(StopRequested))
      || (var n := |c.delivered| - 1;
          && 0 <= n < |script| && Underway(o, script, c.delivered[..n], c.pauses)
          && Attempted(o, script, c.delivered, n, c.reason))
      || (var n := |c.delivered| - 1;
          && 0 <= n < |script| && |c.pauses| == n + 1 && Underway(o, script, c.delivered[..n], c.pauses[..n])
          && Attempted(o, script, c.delivered, n, None) && c.pauses[n] == Backoff(o.retry, n)
          && !PauseEnds(c.pauses[n], script[n].pauseStop) && c.reason == Some(StopRequested))
  }

  /** Every verdict in terms of the last message delivered, if any, and of how the attempt ended. */
  lemma VerdictByCases(o: Options, attempts: nat, before: nat, a: Attempt)
    ensures var n := Taken(o.maxMessages, before, a.offers);
            var seenStop := n > 0 && a.offers[n - 1].stopSeen;
            var refused := n > 0 && !a.offers[n - 1].stopSeen && !a.offers[n - 1].keep;
            var full := n > 0 && !seenStop && !refused && 0 < o.maxMessages <= before + n;
            Verdict(o, attempts, before, a)
            == if full then Some(MaxMessagesReached)
               else if seenStop || a.stopAfter then Some(StopRequested)
               else if refused then Some(StoppedByHandler)
               else if a.status == CompletedRun && !o.retry.reconnectOnCompleted then Some(Completed)
               else if a.status != CompletedRun && a.errorClass in {NoError, Stopped, Configuration, Dependency}
               then Some(NotRetryable)
               else if 0 < o.retry.maxAttempts <= attempts then Some(MaxAttemptsReached)
               else None
  {
    var n := Taken(o.maxMessages, before, a.offers);
    if n > 0 {
      assert a.offers[..n][n - 1] == a.offers[n - 1];
    }
    hide Taken, Classify;
  }

  /** An attempt that is retried leaves part of a positive budget, and a further attempt. */
  lemma RetryLeavesBudget(o: Options, attempts: nat, before: nat, a: Attempt)
    requires Verdict(o, attempts, before, a).None? && (o.maxMessages != 0 ==> before < o.maxMessages)
    ensures o.maxMessages != 0 ==> before + Taken(o.maxMessages, before, a.offers) < o.maxMessages
    ensures o.retry.maxAttempts != 0 ==> attempts < o.retry.maxAttempts
  {
    var n := Taken(o.maxMessages, before, a.offers);
    if o.maxMessages != 0 {
      TakenWithinBudget(o.maxMessages, before, a.offers);
      if n > 0 {
        assert a.offers[..n][n - 1] == a.offers[n - 1];
      }
    }
  }

  /** Of the statuses a transport reports, exactly these three are final: retrying cannot help a bad endpoint or a
      missing backend, and a handler that stopped the run wants no other. */
  lemma FinalStatuses(status: RunStatus)
    ensures status != CompletedRun && !Retryable(Classify(status))
            <==> status in {StoppedRun, InvalidEndpoint, BackendUnavailable}
  {
  }

  /** So an attempt that classifies its own status, that nothing in the session stopped and that leaves a try over,
      is retried exactly unless its status is final, or it completed and completing is enough. */
  lemma RetriedIff(o: Options, attempts: nat, before: nat, a: Attempt)
    requires a.errorClass == Classify(a.status) && !a.stopAfter
    requires o.retry.maxAttempts != 0 ==> attempts < o.retry.maxAttempts
    requires var n := Taken(o.maxMessages, before, a.offers);
             n == 0 || Continues(o.maxMessages, before + n, a.offers[n - 1])
    ensures Verdict(o, attempts, before, a).None?
       <==> a.status !in {StoppedRun, InvalidEndpoint, BackendUnavailable}
            && (a.status == CompletedRun ==> o.retry.reconnectOnCompleted)
  {
    FinalStatuses(a.status);
    var n := Taken(o.maxMessages, before, a.offers);
    if n > 0 {
      assert a.offers[..n][n - 1] == a.offers[n - 1];
    }
    hide Taken, Classify, Retryable;
  }

  /** At every turn of the loop the budgets still have room, so the checks there never fire. */
  lemma {:induction false} HeadChecksNeverFire(o: Options, script: seq<Attempt>, delivered: seq<nat>, pauses: seq<int>)
    requires o.retry.Valid() && Underway(o, script, delivered, pauses)
    ensures o.maxMessages != 0 ==> Sum(delivered) < o.maxMessages
    ensures o.retry.maxAttempts != 0 ==> |delivered| < o.retry.maxAttempts
  {
    if delivered != [] {
      var n := |delivered| - 1;
      UnderwayFront(o, script, delivered, pauses);
      HeadChecksNeverFire(o, script, delivered[..n], pauses[..n]);
      assert Attempted(o, script, delivered, n, None);
      RetryLeavesBudget(o, n + 1, Sum(delivered[..n]), script[n]);
    }
  }

  lemma UnderwayFront(o: Options, script: seq<Attempt>, delivered: seq<nat>, pauses: seq<int>)
    requires o.retry.Valid() && Underway(o, script, delivered, pauses) && delivered != []
    ensures Underway(o, script, delivered[..|delivered| - 1], pauses[..|delivered| - 1])
  {
    hide Verdict, Taken, Backoff, PauseEnds;
    var n := |delivered| - 1;
    forall i | 0 <= i < n ensures Attempted(o, script, delivered[..n], i, None) {
      assert Attempted(o, script, delivered, i, None);
      assert delivered[..n][..i] == delivered[..i];
    }
  }

  lemma UnderwaySnoc(o: Options, script: seq<Attempt>, delivered: seq<nat>, pauses: seq<int>, n: nat)
    requires o.retry.Valid() && Underway(o, script, delivered, pauses) && |delivered| < |script|
    requires var i := |delivered|;
             Attempted(o, script, delivered + [n], i, None) && PauseEnds(Backoff(o.retry, i), script[i].pauseStop)
    ensures Underway(o, script, delivered + [n], pauses + [Backoff(o.retry, |delivered|)])
  {
    hide Verdict, Taken, Backoff, PauseEnds;
    var more := delivered + [n];
    forall i | 0 <= i < |more| ensures Attempted(o, script, more, i, None) {
      if i < |delivered| {
        assert Attempted(o, script, delivered, i, None);
        assert more[..i] == delivered[..i];
      }
    }
  }

  lemma SeenSnoc(script: seq<Attempt>, delivered: seq<nat>, n: nat)
    requires Delivers(script, delivered) && |delivered| < |script| && n <= |script[|delivered|].offers|
    ensures Delivers(script, delivered + [n])
    ensures Seen(script, delivered + [n]) == Seen(script, delivered) + script[|delivered|].offers[..n]
  {
    assert (delivered + [n])[..|delivered|] == delivered;
  }

  /** The next attempt's verdict, from what it delivered and which flag its callback raised. */
  lemma NextAttempted(o: Options, script: seq<Attempt>, delivered: seq<nat>, n: nat, flags: Flags,
                      verdict: Option<StopReason>)
    requires var i := |delivered|; i < |script| && !script[i].stopBefore
    requires var i, before := |delivered|, Sum(delivered);
             var a := script[i];
             && n == Taken(o.maxMessages, before, a.offers)
                && flags == FlagsOf(o.maxMessages, before + n, a.offers[..n])
             && verdict == (if flags.maxMessagesReached then Some(MaxMessagesReached)
                            else if flags.stopRequested || a.stopAfter then Some(StopRequested)
                            else if flags.stoppedByHandler then Some(StoppedByHandler)
                            else if a.status == CompletedRun && !o.retry.reconnectOnCompleted then Some(Completed)
                            else if a.status != CompletedRun && !Retryable(a.errorClass) then Some(NotRetryable)
                            else if o.retry.maxAttempts != 0 && i + 1 >= o.retry.maxAttempts
                            then Some(MaxAttemptsReached)
                            else None)
    ensures Attempted(o, script, delivered + [n], |delivered|, verdict)
  {
    hide Taken, FlagsOf;
    assert (delivered + [n])[..|delivered|] == delivered;
  }

  lemma CourseEnds(o: Options, script: seq<Attempt>, delivered: seq<nat>, pauses: seq<int>, n: nat, reason: StopReason)
    requires o.retry.Valid() && Underway(o, script, delivered, pauses) && |delivered| < |script|
    requires Attempted(o, script, delivered + [n], |delivered|, Some(reason))
    ensures IsCourse(o, script, Course(delivered + [n], pauses, Some(reason)))
  {
    hide Underway, Attempted;
    assert (delivered + [n])[..|delivered|] == delivered;
  }

  lemma CourseEndsInPause(o: Options, script: seq<Attempt>, delivered: seq<nat>, pauses: seq<int>, n: nat)
    requires o.retry.Valid() && Underway(o, script, delivered, pauses) && |delivered| < |script|
    requires var i := |delivered|;
             Attempted(o, script, delivered + [n], i, None) && !PauseEnds(Backoff(o.retry, i), script[i].pauseStop)
    ensures IsCourse(o, script, Course(delivered + [n], pauses + [Backoff(o.retry, |delivered|)], Some(StopRequested)))
  {
    hide Attempted, Backoff, PauseEnds;
    var i := |delivered|;
    assert (delivered + [n])[..i] == delivered && (pauses + [Backoff(o.retry, i)])[..i] == pauses;
    hide Underway;
  }

  lemma CourseStarts(o: Options, script: seq<Attempt>)
    requires o.retry.Valid()
    ensures Underway(o, script, [], []) && Delivers(script, []) && Counts(NO_TALLY, Seen(script, []))
  {
    NothingCounted();
  }

  lemma CourseRunsOut(o: Options, script: seq<Attempt>, delivered: seq<nat>, pauses: seq<int>)
    requires o.retry.Valid() && Underway(o, script, delivered, pauses) && |delivered| == |script|
    ensures IsCourse(o, script, Course(delivered, pauses, None))
  {
    hide Underway;
  }

  lemma CourseStopsBefore(o: Options, script: seq<Attempt>, delivered: seq<nat>, pauses: seq<int>)
    requires o.retry.Valid() && Underway(o, script, delivered, pauses) && |delivered| < |script|
    requires script[|delivered|].stopBefore
    ensures IsCourse(o, script, Course(delivered, pauses, Some(StopRequested)))
  {
    hide Underway, Attempted;
  }

  lemma UnderwayLengths(o: Options, script: seq<Attempt>, delivered: seq<nat>, pauses: seq<int>)
    requires o.retry.Valid() && Underway(o, script, delivered, pauses)
    ensures |pauses| == |delivered|
  {
  }

  lemma SmallWrap(x: nat)
    ensures x < 0x1_0000_0000_0000_0000 ==> Wrap(x) == x
  {
  }

  /** The session loop. Its course is one the rules above allow, and its counters count exactly the attempts
      made, the pauses begun and the messages delivered. */
  method RunFeedSession(o: Options, script: seq<Attempt>) returns (stats: Stats, c: Course)
    requires o.retry.Valid()
    ensures IsCourse(o, script, c)
    ensures Delivers(script, c.delivered) && Counts(stats.tally, Seen(script, c.delivered))
    ensures stats.attempts == Wrap(|c.delivered|) && stats.reconnects == Wrap(|c.pauses|)
    ensures c.delivered != [] ==> stats.lastStatus == script[|c.delivered| - 1].status
                                  && stats.lastErrorClass == script[|c.delivered| - 1].errorClass
  {
    hide *;
    CourseStarts(o, script);
    SmallWrap(0);
    stats := Stats(0, 0, NO_TALLY, UnknownError, UnknownClass);
    var backoff := 0;
    var delivered: seq<nat>, pauses: seq<int> := [], [];
    for i := 0 to |script|
      invariant |delivered| == i && Underway(o, script, delivered, pauses) && Delivers(script, delivered)
      invariant Counts(stats.tally, Seen(script, delivered))
      invariant stats.attempts == Wrap(i) && stats.reconnects == Wrap(i)
      invariant backoff == if i == 0 then 0 else Backoff(o.retry, i - 1)
      invariant i > 0 ==> stats.lastStatus == script[i - 1].status && stats.lastErrorClass == script[i - 1].errorClass
    {
      var a := script[i];
      UnderwayLengths(o, script, delivered, pauses);
      if a.stopBefore {
        CourseStopsBefore(o, script, delivered, pauses);
        return stats, Course(delivered, pauses, Some(StopRequested));
      }
      ghost var seen := Seen(script, delivered);
      HeadChecksNeverFire(o, script, delivered, pauses);
      SmallCount(stats.tally, seen);
      SmallWrap(i);
      SmallWrap(i + 1);
      if o.maxMessages != 0 && stats.tally.messages >= o.maxMessages {
        assert false;
      }
      if o.retry.maxAttempts != 0 && stats.attempts >= o.retry.maxAttempts {
        assert false;
      }

      var remaining := if o.maxMessages == 0 then 0 else o.maxMessages - stats.tally.messages;
      var callback := new FeedSessionCallback(o.maxMessages, stats.tally);
      stats := stats.(attempts := Wrap(stats.attempts as int + 1));
      var tally, n, captures := RunOnce(callback, remaining, a.offers, seen);
      stats := stats.(tally := callback.tally, lastStatus := a.status, lastErrorClass := a.errorClass);
      SeenSnoc(script, delivered, n);
      WrapPlus(i, 1);
      ghost var flags := Flags(callback.stoppedByHandler, callback.stopRequested, callback.maxMessagesReached);

      if callback.maxMessagesReached {
        NextAttempted(o, script, delivered, n, flags, Some(MaxMessagesReached));
        CourseEnds(o, script, delivered, pauses, n, MaxMessagesReached);
        return stats, Course(delivered + [n], pauses, Some(MaxMessagesReached));
      }
      if callback.stopRequested || a.stopAfter {
        NextAttempted(o, script, delivered, n, flags, Some(StopRequested));
        CourseEnds(o, script, delivered, pauses, n, StopRequested);
        return stats, Course(delivered + [n], pauses, Some(StopRequested));
      }
      if callback.stoppedByHandler {
        NextAttempted(o, script, delivered, n, flags, Some(StoppedByHandler));
        CourseEnds(o, script, delivered, pauses, n, StoppedByHandler);
        return stats, Course(delivered + [n], pauses, Some(StoppedByHandler));
      }
      if a.status == CompletedRun && !o.retry.reconnectOnCompleted {
        NextAttempted(o, script, delivered, n, flags, Some(Completed));
        CourseEnds(o, script, delivered, pauses, n, Completed);
        return stats, Course(delivered + [n], pauses, Some(Completed));
      }
      if !Retryable(a.errorClass) && a.status != CompletedRun {
        NextAttempted(o, script, delivered, n, flags, Some(NotRetryable));
        CourseEnds(o, script, delivered, pauses, n, NotRetryable);
        return stats, Course(delivered + [n], pauses, Some(NotRetryable));
      }
      if o.retry.maxAttempts != 0 && stats.attempts >= o.retry.maxAttempts {
        NextAttempted(o, script, delivered, n, flags, Some(MaxAttemptsReached));
        CourseEnds(o, script, delivered, pauses, n, MaxAttemptsReached);
        return stats, Course(delivered + [n], pauses, Some(MaxAttemptsReached));
      }

      NextAttempted(o, script, delivered, n, flags, None);
      stats := stats.(reconnects := Wrap(stats.reconnects as int + 1));
      backoff := NextBackoff(backoff, o.retry);
      NextBackoffIs(o.retry, i, backoff);
      var ended, slept := SleepForBackoff(backoff, a.pauseStop);
      if !ended {
        CourseEndsInPause(o, script, delivered, pauses, n);
        return stats, Course(delivered + [n], pauses + [backoff], Some(StopRequested));
      }
      UnderwaySnoc(o, script, delivered, pauses, n);
      delivered, pauses := delivered + [n], pauses + [backoff];
    }
    UnderwayLengths(o, script, delivered, pauses);
    CourseRunsOut(o, script, delivered, pauses);
    c := Course(delivered, pauses, None);
  }

  lemma NextBackoffIs(p: RetryPolicy, k: nat, pause: int)
    requires p.Valid() && pause == NextBackoff(if k == 0 then 0 else Backoff(p, k - 1), p)
    ensures pause == Backoff(p, k)
  {
    hide NextBackoff;
  }

  // ---------------------------------------------------------------------------------------------
  // What holds of every course

  /** The verdicts that say a budget is used up are right, and one of the first three falls when it is. */
  lemma VerdictMeans(o: Options, attempts: nat, before: nat, a: Attempt)
    requires o.maxMessages != 0 ==> before < o.maxMessages
    requires o.retry.maxAttempts != 0 ==> attempts <= o.retry.maxAttempts
    ensures var v, total := Verdict(o, attempts, before, a), before + Taken(o.maxMessages, before, a.offers);
            && (o.maxMessages != 0 ==> total <= o.maxMessages)
            && (v == Some(MaxMessagesReached) ==> o.maxMessages != 0 && total == o.maxMessages)
            && (v == Some(MaxAttemptsReached) ==> attempts == o.retry.maxAttempts)
            && (o.maxMessages != 0 && total == o.maxMessages ==>
                  v in {Some(MaxMessagesReached), Some(StopRequested), Some(StoppedByHandler)})
  {
    if o.maxMessages != 0 {
      TakenWithinBudget(o.maxMessages, before, a.offers);
    }
    if Verdict(o, attempts, before, a).None? {
      RetryLeavesBudget(o, attempts, before, a);
    }
    hide Taken;
  }

  /** The session's limits: what was delivered and tried stays within the budgets, the reasons that name a budget
      mean it is used up exactly, and attempts run ahead of pauses by at most one. */
  predicate WithinLimits(o: Options, script: seq<Attempt>, c: Course)
    requires o.retry.Valid()
  {
    && (o.maxMessages != 0 ==> Sum(c.delivered) <= o.maxMessages)
    && (o.retry.maxAttempts != 0 ==> |c.delivered| <= o.retry.maxAttempts)
    && |c.pauses| <= |c.delivered| <= |c.pauses| + 1
    && (c.reason == Some(MaxMessagesReached) ==> o.maxMessages != 0 && Sum(c.delivered) == o.maxMessages)
    && (c.reason == Some(MaxAttemptsReached) ==> o.retry.maxAttempts != 0 && |c.delivered| == o.retry.maxAttempts)
    && (o.maxMessages != 0 && Sum(c.delivered) == o.maxMessages ==>
          c.reason in {Some(MaxMessagesReached), Some(StopRequested), Some(StoppedByHandler)})
    && (forall k :: 0 <= k < |c.pauses| ==> c.pauses[k] == Backoff(o.retry, k))
    && (o.retry.maxAttempts != 0 && |script| >= o.retry.maxAttempts ==> c.reason.Some?)
  }

  lemma CourseWithinLimits(o: Options, script: seq<Attempt>, c: Course)
    requires o.retry.Valid() && IsCourse(o, script, c)
    ensures WithinLimits(o, script, c)
  {
    hide Backoff, PauseEnds, Verdict, Taken;
    if Underway(o, script, c.delivered, c.pauses) {
      HeadChecksNeverFire(o, script, c.delivered, c.pauses);
    } else {
      var n := |c.delivered| - 1;
      HeadChecksNeverFire(o, script, c.delivered[..n], c.pauses[..n]);
      assert c.pauses[..n] == if |c.pauses| == n then c.pauses else c.pauses[..n];
      VerdictMeans(o, n + 1, Sum(c.delivered[..n]), script[n]);
      assert c.delivered[..n + 1] == c.delivered;
    }
  }

  lemma {:induction false} SameTurns(o: Options, script: seq<Attempt>, d: seq<nat>, p: seq<int>, e: seq<nat>,
                                     q: seq<int>, n: nat)
    requires o.retry.Valid() && Underway(o, script, d, p) && Underway(o, script, e, q) && n <= |d| && n <= |e|
    ensures d[..n] == e[..n] && p[..n] == q[..n]
  {
    hide Backoff, PauseEnds, Verdict, Taken;
    if n > 0 {
      SameTurns(o, script, d, p, e, q, n - 1);
      assert Attempted(o, script, d, n - 1, None) && Attempted(o, script, e, n - 1, None);
      assert d[..n] == d[..n - 1] + [d[n - 1]] && e[..n] == e[..n - 1] + [e[n - 1]];
      assert p[..n] == p[..n - 1] + [p[n - 1]] && q[..n] == q[..n - 1] + [q[n - 1]];
    }
  }

  /** The course makes t whole turns of the loop and then ends. */
  predicate EndsAfter(o: Options, script: seq<Attempt>, c: Course, t: nat)
    requires o.retry.Valid()
  {
    && t <= |c.delivered| && t <= |c.pauses| && t <= |script| && Underway(o, script, c.delivered[..t], c.pauses[..t])
    && if |c.delivered| == t then
         && |c.pauses| == t && c.reason == (if t == |script| then None else Some(StopRequested))
         && (t < |script| ==> script[t].stopBefore)
       else
         && |c.delivered| == t + 1 <= |script| && |c.pauses| <= t + 1
         && if |c.pauses| == t then c.reason.Some? && Attempted(o, script, c.delivered, t, c.reason)
            else && Attempted(o, script, c.delivered, t, None) && c.pauses[t] == Backoff(o.retry, t)
                 && !PauseEnds(c.pauses[t], script[t].pauseStop) && c.reason == Some(StopRequested)
  }

  lemma CourseEndsSomewhere(o: Options, script: seq<Attempt>, c: Course) returns (t: nat)
    requires o.retry.Valid() && IsCourse(o, script, c)
    ensures EndsAfter(o, script, c, t)
  {
    var d, p := c.delivered, c.pauses;
    if Underway(o, script, d, p)
       && (c.reason.None? || (|d| < |script| && script[|d|].stopBefore && c.reason == Some(StopRequested))) {
      t := |d|;
      assert d[..t] == d && p[..t] == p;
    } else {
      t := |d| - 1;
      assert p[..t] == if |p| == t then p else p[..t];
    }
    hide Underway, Attempted;
  }

  lemma SameTurn(o: Options, script: seq<Attempt>, d: seq<nat>, e: seq<nat>, t: nat, v: Option<StopReason>,
                 w: Option<StopReason>)
    requires t < |d| <= |script| && t < |e| <= |script| && d[..t] == e[..t]
    requires Attempted(o, script, d, t, v) && Attempted(o, script, e, t, w)
    ensures v == w && d[t] == e[t]
  {
    hide Verdict, Taken;
  }

  /** A course that ends after t turns is not outrun by another. */
  lemma NoneEndsLater(o: Options, script: seq<Attempt>, a: Course, t: nat, b: Course, u: nat)
    requires o.retry.Valid() && EndsAfter(o, script, a, t) && EndsAfter(o, script, b, u)
    ensures u <= t
  {
    if t < u {
      SameTurns(o, script, a.delivered[..t], a.pauses[..t], b.delivered[..u], b.pauses[..u], t);
      var d, e := a.delivered, b.delivered[..u];
      assert Attempted(o, script, e, t, None) && PauseEnds(b.pauses[..u][t], script[t].pauseStop);
      hide Underway, Verdict, Taken, Backoff, PauseEnds;
      assert d[..t] == e[..t];
      if |d| > t {
        SameTurn(o, script, d, e, t, if |a.pauses| == t then a.reason else None, None);
      }
    }
  }

  /** The rules leave no choice: a session over a script has one course. */
  lemma CourseIsUnique(o: Options, script: seq<Attempt>, a: Course, b: Course)
    requires o.retry.Valid() && IsCourse(o, script, a) && IsCourse(o, script, b)
    ensures a == b
  {
    hide IsCourse, Underway, Verdict, Taken, Backoff, PauseEnds;
    var t := CourseEndsSomewhere(o, script, a);
    var u := CourseEndsSomewhere(o, script, b);
    NoneEndsLater(o, script, a, t, b, u);
    NoneEndsLater(o, script, b, u, a, t);
    SameTurns(o, script, a.delivered[..t], a.pauses[..t], b.delivered[..t], b.pauses[..t], t);
    assert a.delivered[..t] == b.delivered[..t] && a.pauses[..t] == b.pauses[..t];
    if |a.delivered| > t && |b.delivered| > t {
      SameTurn(o, script, a.delivered, b.delivered, t, if |a.pauses| == t then a.reason else None,
               if |b.pauses| == t then b.reason else None);
    }
    assert a.delivered == b.delivered;
    assert a.pauses == b.pauses;
  }
}
