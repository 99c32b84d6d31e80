/** The continuity gate in front of every mapper: it accepts each exchange sequence number of one
    partition once, turns stale on a gap, and resumes only at an exact boundary. */
module SequenceGates {
  import opened Words

  datatype ContinuityState = Uninitialized | Healthy | Stale | Recovering

  datatype ContinuityEvent =
    | Accepted | Duplicate | Gap | Regression | WrongPartition | AwaitingBaseline | RejectedWhileStale | Invalid

  datatype Mode = Contiguous | Monotonic

  datatype Observation = Observation(
    event: ContinuityEvent, state: ContinuityState, partition: u64, expected: u64, received: u64)

  datatype Stats = Stats(
    accepted: u64, duplicates: u64, gaps: u64, regressions: u64, wrongPartition: u64, rejectedWhileStale: u64,
    invalid: u64)
  {
    function Sum(): nat {
      accepted + duplicates + gaps + regressions + wrongPartition + rejectedWhileStale + invalid
    }

    /** The counters after one more live observation with this answer; each wraps at 2^64. */
    function Count(e: ContinuityEvent): Stats {
      match e
      case Accepted => this.(accepted := Wrap(accepted as int + 1))
      case Duplicate => this.(duplicates := Wrap(duplicates as int + 1))
      case Gap => this.(gaps := Wrap(gaps as int + 1))
      case Regression => this.(regressions := Wrap(regressions as int + 1))
      case WrongPartition => this.(wrongPartition := Wrap(wrongPartition as int + 1))
      case AwaitingBaseline => this.(rejectedWhileStale := Wrap(rejectedWhileStale as int + 1))
      case RejectedWhileStale => this.(rejectedWhileStale := Wrap(rejectedWhileStale as int + 1))
      case Invalid => this.(invalid := Wrap(invalid as int + 1))
    }
  }

  const NO_STATS := Stats(0, 0, 0, 0, 0, 0, 0)

  // ---------------------------------------------------------------------------------------------
  // Specification: what each call answers and what it changes

  datatype Gate = Gate(
    state: ContinuityState, mode: Mode, partition: u64, lastAccepted: u64, lastReceived: u64, stats: Stats)
  {
    /** The next sequence number, wrapped. */
    function Expected(): u64 {
      Wrap(lastAccepted as int + 1)
    }

    predicate Continues(sequence: u64) {
      sequence == Expected() || (mode == Monotonic && sequence > lastAccepted)
    }

    function LiveAnswer(partition: u64, sequence: u64): ContinuityEvent {
      if partition == 0 || sequence == 0 then Invalid
      else if state == Uninitialized then AwaitingBaseline
      else if partition != this.partition then WrongPartition
      else if state != Healthy then RejectedWhileStale
      else if Continues(sequence) then Accepted
      else if sequence == lastAccepted then Duplicate
      else if sequence > Expected() then Gap
      else Regression
    }

    /** Only an acceptance moves the boundary; only a break of the stream makes the gate stale. */
    function AfterLive(partition: u64, sequence: u64): Gate {
      var e := LiveAnswer(partition, sequence);
      this.(state := if e in {Gap, Regression, WrongPartition} then Stale else state,
            lastAccepted := if e == Accepted then sequence else lastAccepted,
            lastReceived := if e == Invalid then lastReceived else sequence,
            stats := stats.Count(e))
    }

    function RecoveryAnswer(partition: u64, sequence: u64): ContinuityEvent {
      if state != Recovering || partition == 0 || partition != this.partition then Invalid
      else if Continues(sequence) then Accepted
      else if sequence < Expected() then Regression
      else Gap
    }

    function AfterRecovery(partition: u64, sequence: u64): Gate {
      if RecoveryAnswer(partition, sequence) == Accepted then this.(lastAccepted := sequence) else this
    }

    /** A recovery may be declared complete only at the exact boundary already applied, or to set the
        very first baseline. */
    predicate MayComplete(partition: u64, sequence: u64) {
      partition != 0 && (state == Uninitialized
                         || (state == Recovering && partition == this.partition && sequence == lastAccepted))
    }

    function AfterComplete(partition: u64, sequence: u64): Gate {
      if MayComplete(partition, sequence)
      then this.(state := Healthy, partition := partition, lastAccepted := sequence, lastReceived := sequence)
      else this
    }

    function AfterReset(): Gate {
      this.(state := Uninitialized, partition := 0, lastAccepted := 0, lastReceived := 0)
    }

    function Report(e: ContinuityEvent, partition: u64, received: u64, expected: u64): Observation {
      Observation(e, state, partition, if expected == 0 && lastAccepted != 0 then Expected() else expected, received)
    }
  }

  function NewGate(mode: Mode): Gate {
    Gate(Uninitialized, mode, 0, 0, 0, NO_STATS)
  }

  // ---------------------------------------------------------------------------------------------
  // The object

  class SequenceGate {
    const mode: Mode
    var state: ContinuityState
    var partition: u64
    var lastAccepted: u64
    var lastReceived: u64
    var stats: Stats

    function View(): Gate
      reads this
    {
      Gate(state, mode, partition, lastAccepted, lastReceived, stats)
    }

    constructor (mode: Mode)
      ensures View() == NewGate(mode)
      ensures this.mode == mode && state == Uninitialized && partition == lastAccepted == lastReceived == 0
      ensures stats == Stats(0, 0, 0, 0, 0, 0, 0)
    {
      this.mode := mode;
      state, partition, lastAccepted, lastReceived, stats := Uninitialized, 0, 0, 0, NO_STATS;
    }

    method Result(event: ContinuityEvent, partition: u64, received: u64, expected: u64) returns (o: Observation)
      ensures o == View().Report(event, partition, received, expected)
    {
      var e := expected;
      if e == 0 && lastAccepted != 0 {
        e := Wrap(lastAccepted as int + 1);
      }
      return Observation(event, state, partition, e, received);
    }

    method Observe(partition: u64, sequence: u64) returns (o: Observation)
      modifies this
      ensures View() == old(View()).AfterLive(partition, sequence)
      ensures o.event == old(View()).LiveAnswer(partition, sequence)
      ensures o.state == state && o.partition == partition && o.received == sequence
      ensures o.expected == if o.event in {Gap, Regression} || lastAccepted != 0 then View().Expected() else 0
    {
      hide Wrap;
      if partition == 0 || sequence == 0 {
        stats := stats.(invalid := Wrap(stats.invalid as int + 1));
        o := Result(Invalid, partition, sequence, 0);
        return;
      }
      lastReceived := sequence;
      if state == Uninitialized {
        stats := stats.(rejectedWhileStale := Wrap(stats.rejectedWhileStale as int + 1));
        o := Result(AwaitingBaseline, partition, sequence, 0);
        return;
      }
      if partition != this.partition {
        state := Stale;
        stats := stats.(wrongPartition := Wrap(stats.wrongPartition as int + 1));
        o := Result(WrongPartition, partition, sequence, 0);
        return;
      }
      if state == Stale || state == Recovering {
        stats := stats.(rejectedWhileStale := Wrap(stats.rejectedWhileStale as int + 1));
        o := Result(RejectedWhileStale, partition, sequence, 0);
        return;
      }
      var expected := Wrap(lastAccepted as int + 1);
      if sequence == expected || (mode == Monotonic && sequence > lastAccepted) {
        lastAccepted := sequence;
        stats := stats.(accepted := Wrap(stats.accepted as int + 1));
        o := Result(Accepted, partition, sequence, 0);
        return;
      }
      if sequence == lastAccepted {
        stats := stats.(duplicates := Wrap(stats.duplicates as int + 1));
        o := Result(Duplicate, partition, sequence, 0);
        return;
      }
      state := Stale;
      if sequence > expected {
        stats := stats.(gaps := Wrap(stats.gaps as int + 1));
        o := Result(Gap, partition, sequence, expected);
        return;
      }
      stats := stats.(regressions := Wrap(stats.regressions as int + 1));
      o := Result(Regression, partition, sequence, expected);
    }

    method BeginRecovery()
      modifies this
      ensures state == Recovering && partition == old(partition) && lastAccepted == old(lastAccepted)
      ensures lastReceived == old(lastReceived) && stats == old(stats)
      ensures View() == After(old(View()), Call.BeginRecovery)
    {
      state := Recovering;
    }

    method ObserveRecovery(partition: u64, sequence: u64) returns (o: Observation)
      modifies this
      ensures View() == old(View()).AfterRecovery(partition, sequence)
      ensures o.event == old(View()).RecoveryAnswer(partition, sequence)
      ensures o.state == state && o.partition == partition && o.received == sequence
      ensures o.expected == if o.event in {Gap, Regression} || lastAccepted != 0 then View().Expected() else 0
    {
      if state != Recovering || partition == 0 || partition != this.partition {
        o := Result(Invalid, partition, sequence, 0);
        return;
      }
      var expected := Wrap(lastAccepted as int + 1);
      var accepted := sequence == expected || (mode == Monotonic && sequence > lastAccepted);
      if !accepted {
        o := Result(if sequence < expected then Regression else Gap, partition, sequence, expected);
        return;
      }
      lastAccepted := sequence;
      o := Result(Accepted, partition, sequence, 0);
    }

    method CompleteRecovery(partition: u64, sequence: u64) returns (ok: bool)
      modifies this
      ensures ok <==> partition != 0 && (old(state) == Uninitialized
                                         || (old(state) == Recovering && partition == old(this.partition)
                                             && sequence == old(lastAccepted)))
      ensures ok ==> state == Healthy && this.partition == partition && lastAccepted == lastReceived == sequence
      ensures !ok ==> View() == old(View())
      ensures stats == old(stats)
      ensures View() == old(View()).AfterComplete(partition, sequence)
    {
      if partition == 0 {
        return false;
      }
      if state == Recovering && (partition != this.partition || sequence != lastAccepted) {
        return false;
      }
      if state != Uninitialized && state != Recovering {
        return false;
      }
      this.partition := partition;
      lastAccepted := sequence;
      lastReceived := sequence;
      state := Healthy;
      return true;
    }

    method Reset()
      modifies this
      ensures state == Uninitialized && partition == lastAccepted == lastReceived == 0 && stats == old(stats)
      ensures View() == old(View()).AfterReset()
    {
      state := Uninitialized;
      partition := 0;
      lastAccepted := 0;
      lastReceived := 0;
    }
  }

  // ---------------------------------------------------------------------------------------------
  // The answers, by the numbers

  /** A healthy gate, a number of its own partition: the successor (in Monotonic mode any later number) is
      applied, the same number again is a duplicate that changes nothing but its counter, a number past the
      successor is a gap, and a number before the boundary a regression, but a gap when the boundary is the
      very last number. A gap and a regression make the gate stale and leave the boundary where it was. */
  lemma HealthyByNumbers(g: Gate, sequence: u64)
    requires g.state == Healthy && g.partition != 0 && sequence != 0
    ensures var e, t, s := g.LiveAnswer(g.partition, sequence), g.AfterLive(g.partition, sequence), g.stats;
            var heard, broken := g.(lastReceived := sequence), g.(lastReceived := sequence, state := Stale);
            if sequence == g.lastAccepted + 1 || (g.mode == Monotonic && sequence > g.lastAccepted) then
              e == Accepted && t == heard.(lastAccepted := sequence, stats := s.(accepted := Wrap(s.accepted + 1)))
            else if sequence > g.lastAccepted || (sequence < g.lastAccepted && g.lastAccepted == MAX_U64) then
              e == Gap && t == broken.(stats := s.(gaps := Wrap(s.gaps + 1)))
            else if sequence < g.lastAccepted then
              e == Regression && t == broken.(stats := s.(regressions := Wrap(s.regressions + 1)))
            else
              e == Duplicate && t == heard.(stats := s.(duplicates := Wrap(s.duplicates + 1)))
  {
  }

  /** Every other live observation moves no boundary: a zero is not even heard, anything before a baseline
      waits for it, another partition breaks the stream in every state, and an unhealthy gate rejects. */
  lemma OtherwiseByNumbers(g: Gate, partition: u64, sequence: u64)
    requires partition == 0 || sequence == 0 || partition != g.partition || g.state != Healthy
    ensures var e, t, s := g.LiveAnswer(partition, sequence), g.AfterLive(partition, sequence), g.stats;
            var heard, waited := g.(lastReceived := sequence), s.(rejectedWhileStale := Wrap(s.rejectedWhileStale + 1));
            if partition == 0 || sequence == 0 then
              e == Invalid && t == g.(stats := s.(invalid := Wrap(s.invalid + 1)))
            else if g.state == Uninitialized then e == AwaitingBaseline && t == heard.(stats := waited)
            else if partition != g.partition then
              e == WrongPartition
              && t == heard.(state := Stale, stats := s.(wrongPartition := Wrap(s.wrongPartition + 1)))
            else e == RejectedWhileStale && t == heard.(stats := waited)
  {
  }

  /** A replayed number counts nowhere. It is applied by a recovering gate of its partition, and moves only the
      boundary, when it is the successor (in Monotonic mode any later number), or the 0 past the very last
      number; otherwise nothing changes, and a later number is a gap, any other a regression, but a gap at the
      very last number. */
  lemma RecoveryByNumbers(g: Gate, partition: u64, sequence: u64)
    ensures var e, t, last := g.RecoveryAnswer(partition, sequence), g.AfterRecovery(partition, sequence),
            g.lastAccepted;
            if g.state != Recovering || partition == 0 || partition != g.partition then e == Invalid && t == g
            else if sequence == last + 1 || (g.mode == Monotonic && sequence > last)
                    || (last == MAX_U64 && sequence == 0) then
              e == Accepted && t == g.(lastAccepted := sequence)
            else if sequence > last || last == MAX_U64 then e == Gap && t == g
            else e == Regression && t == g
  {
  }

  // ---------------------------------------------------------------------------------------------
  // Runs

  /** Strictly increasing, above `floor`. */
  predicate Increasing(floor: u64, seqs: seq<u64>) {
    (forall i :: 0 <= i < |seqs| ==> floor < seqs[i]) && (forall i, j :: 0 <= i < j < |seqs| ==> seqs[i] < seqs[j])
  }

  datatype Call =
    | Observe(partition: u64, sequence: u64)
    | BeginRecovery
    | ObserveRecovery(partition: u64, sequence: u64)
    | CompleteRecovery(partition: u64, sequence: u64)
    | Reset

  function After(g: Gate, c: Call): Gate {
    match c
    case Observe(p, s) => g.AfterLive(p, s)
    case BeginRecovery => g.(state := Recovering)
    case ObserveRecovery(p, s) => g.AfterRecovery(p, s)
    case CompleteRecovery(p, s) => g.AfterComplete(p, s)
    case Reset => g.AfterReset()
  }

  predicate Accepts(g: Gate, c: Call) {
    match c
    case Observe(p, s) => g.LiveAnswer(p, s) == Accepted
    case ObserveRecovery(p, s) => g.RecoveryAnswer(p, s) == Accepted
    case _ => false
  }

  function Run(g: Gate, calls: seq<Call>): Gate {
    if calls == [] then g else After(Run(g, calls[..|calls| - 1]), calls[|calls| - 1])
  }

  /** The calls, live or during recovery, that were answered `Accepted`, in order. */
  function Applied(g: Gate, calls: seq<Call>): seq<Call> {
    if calls == [] then [] else
      var front, last := calls[..|calls| - 1], calls[|calls| - 1];
      Applied(g, front) + if Accepts(Run(g, front), last) then [last] else []
  }

  predicate NoReset(calls: seq<Call>) {
    Reset !in calls
  }

  /** The one call the gate's 64-bit arithmetic gets wrong: a 0 replayed at the very last sequence number. */
  predicate WrapsRound(g: Gate, c: Call) {
    c == ObserveRecovery(g.partition, 0) && g.partition != 0 && g.state == Recovering && g.lastAccepted == MAX_U64
  }

  /** No call of the run is that one. */
  predicate NeverWrapsRound(g: Gate, calls: seq<Call>) {
    forall i :: 0 <= i < |calls| ==> !WrapsRound(Run(g, calls[..i]), calls[i])
  }

  /** `applied` is exactly what a gate moving from `from` to `upTo` should have let through. */
  predicate ExactlyOnce(mode: Mode, partition: u64, from: nat, upTo: nat, applied: seq<Call>) {
    && (forall i :: 0 <= i < |applied| ==>
          (applied[i].Observe? || applied[i].ObserveRecovery?) && applied[i].partition == partition)
    && (if mode == Contiguous
        then |applied| == upTo - from && forall i :: 0 <= i < |applied| ==> applied[i].sequence == from + 1 + i
        else && (forall i, j :: 0 <= i < j < |applied| ==> applied[i].sequence < applied[j].sequence)
             && (forall i :: 0 <= i < |applied| ==> from < applied[i].sequence <= upTo)
             && (if applied == [] then upTo == from else applied[|applied| - 1].sequence == upTo))
  }

  lemma CallKeepsPartition(g: Gate, c: Call)
    requires g.state != Uninitialized && !c.Reset?
    ensures After(g, c).state != Uninitialized && After(g, c).partition == g.partition && After(g, c).mode == g.mode
  {
  }

  lemma {:induction false} RunKeepsPartition(g: Gate, calls: seq<Call>)
    requires g.state != Uninitialized && NoReset(calls)
    ensures var t := Run(g, calls);
            t.state != Uninitialized && t.partition == g.partition && t.mode == g.mode
  {
    hide After;
    if calls != [] {
      assert calls[|calls| - 1] in calls;
      RunKeepsPartition(g, calls[..|calls| - 1]);
      CallKeepsPartition(Run(g, calls[..|calls| - 1]), calls[|calls| - 1]);
    }
  }

  lemma CallKeepsBaseline(g: Gate, c: Call)
    requires g.state != Uninitialized && !c.Reset? && !WrapsRound(g, c)
    ensures After(g, c).state != Uninitialized && After(g, c).partition == g.partition && After(g, c).mode == g.mode
    ensures if Accepts(g, c)
            then && (c.Observe? || c.ObserveRecovery?) && c.partition == g.partition
                 && After(g, c).lastAccepted == c.sequence > g.lastAccepted
                 && (g.mode == Contiguous ==> c.sequence == g.lastAccepted + 1)
            else After(g, c).lastAccepted == g.lastAccepted
  {
  }

  lemma ExtendExactlyOnce(mode: Mode, partition: u64, from: nat, upTo: nat, applied: seq<Call>, c: Call)
    requires ExactlyOnce(mode, partition, from, upTo, applied) && from <= upTo
    requires (c.Observe? || c.ObserveRecovery?) && c.partition == partition && c.sequence > upTo
    requires mode == Contiguous ==> c.sequence == upTo + 1
    ensures ExactlyOnce(mode, partition, from, c.sequence, applied + [c])
  {
  }

  lemma NeverWrapsRoundFront(g: Gate, calls: seq<Call>)
    requires calls != [] && NeverWrapsRound(g, calls)
    ensures NeverWrapsRound(g, calls[..|calls| - 1])
    ensures !WrapsRound(Run(g, calls[..|calls| - 1]), calls[|calls| - 1])
  {
    hide Run, WrapsRound;
    var n := |calls| - 1;
    assert forall i :: 0 <= i < n ==> calls[..n][..i] == calls[..i];
  }

  lemma ExactlyOnceOneMore(g: Gate, m: Gate, c: Call, applied: seq<Call>)
    requires m.state != Uninitialized && m.partition == g.partition && m.mode == g.mode
    requires !c.Reset? && !WrapsRound(m, c)
    requires g.lastAccepted <= m.lastAccepted
    requires ExactlyOnce(g.mode, g.partition, g.lastAccepted, m.lastAccepted, applied)
    ensures g.lastAccepted <= After(m, c).lastAccepted
    ensures ExactlyOnce(g.mode, g.partition, g.lastAccepted, After(m, c).lastAccepted,
                        applied + if Accepts(m, c) then [c] else [])
  {
    hide ExactlyOnce, After, Accepts, WrapsRound;
    CallKeepsBaseline(m, c);
    if Accepts(m, c) {
      ExtendExactlyOnce(g.mode, g.partition, g.lastAccepted, m.lastAccepted, applied, c);
    } else {
      assert applied + [] == applied;
    }
  }

  lemma {:induction false} ExactlyOnceWithoutWrap(g: Gate, calls: seq<Call>)
    requires g.state != Uninitialized && NoReset(calls) && NeverWrapsRound(g, calls)
    ensures g.lastAccepted <= Run(g, calls).lastAccepted
    ensures ExactlyOnce(g.mode, g.partition, g.lastAccepted, Run(g, calls).lastAccepted, Applied(g, calls))
  {
    hide After, Accepts, WrapsRound, NeverWrapsRound;
    if calls != [] {
      hide ExactlyOnce;
      var front, last := calls[..|calls| - 1], calls[|calls| - 1];
      assert last in calls;
      NeverWrapsRoundFront(g, calls);
      ExactlyOnceWithoutWrap(g, front);
      RunKeepsPartition(g, front);
      ExactlyOnceOneMore(g, Run(g, front), last, Applied(g, front));
    }
  }

  lemma {:induction false} AcceptedIsApplied(g: Gate, calls: seq<Call>, i: nat)
    requires i < |calls| && Accepts(Run(g, calls[..i]), calls[i])
    ensures calls[i] in Applied(g, calls)
  {
    hide Accepts, Run;
    var n := |calls| - 1;
    if i < n {
      assert calls[..n][..i] == calls[..i];
      AcceptedIsApplied(g, calls[..n], i);
    }
  }

  /** Between resets, once a baseline exists, each sequence number of its partition is applied exactly once
      and in order, whether it arrives live or is replayed (in Contiguous mode baseline+1, baseline+2, ...,
      last_accepted; in Monotonic mode a strictly increasing list ending at last_accepted), if and only if no 0
      is replayed at the very last sequence number. */
  lemma AppliedExactlyOnce(g: Gate, calls: seq<Call>)
    requires g.state != Uninitialized && NoReset(calls)
    ensures var t := Run(g, calls);
            t.state != Uninitialized && t.partition == g.partition && t.mode == g.mode
    ensures ExactlyOnce(g.mode, g.partition, g.lastAccepted, Run(g, calls).lastAccepted, Applied(g, calls))
            <==> NeverWrapsRound(g, calls)
    ensures NeverWrapsRound(g, calls) ==> g.lastAccepted <= Run(g, calls).lastAccepted
  {
    RunKeepsPartition(g, calls);
    if NeverWrapsRound(g, calls) {
      ExactlyOnceWithoutWrap(g, calls);
    } else {
      var i :| 0 <= i < |calls| && WrapsRound(Run(g, calls[..i]), calls[i]);
      AcceptedIsApplied(g, calls, i);
      hide Run, Applied;
    }
  }

  /** A gate that began recovering before any baseline was set: only a reset can revive it. */
  predicate Stuck(g: Gate) {
    g.partition == 0 && (g.state == Recovering || g.state == Stale)
  }

  lemma {:induction false} StuckUntilReset(g: Gate, calls: seq<Call>)
    requires Stuck(g) && NoReset(calls)
    ensures Stuck(Run(g, calls)) && Applied(g, calls) == []
  {
    if calls != [] {
      assert calls[|calls| - 1] in calls;
      StuckUntilReset(g, calls[..|calls| - 1]);
    }
  }

  lemma {:induction false} RunConcat(g: Gate, a: seq<Call>, b: seq<Call>)
    ensures Run(g, a + b) == Run(Run(g, a), b)
    ensures Applied(g, a + b) == Applied(g, a) + Applied(Run(g, a), b)
  {
    hide After, Accepts;
    if b == [] {
      assert a + b == a;
    } else {
      var front := b[..|b| - 1];
      assert (a + b)[..|a + b| - 1] == a + front;
      RunConcat(g, a, front);
    }
  }

  lemma RunSplitAt(g: Gate, calls: seq<Call>, k: nat)
    requires k < |calls|
    ensures var m, c, rest := Run(g, calls[..k]), calls[k], calls[k + 1..];
            && Run(g, calls) == Run(After(m, c), rest)
            && Applied(g, calls)
               == Applied(g, calls[..k]) + (if Accepts(m, c) then [c] else []) + Applied(After(m, c), rest)
  {
    var head := calls[..k + 1];
    assert head[..k] == calls[..k] && calls == head + calls[k + 1..];
    RunConcat(g, head, calls[k + 1..]);
  }

  /** The first call that takes a fresh gate out of Uninitialized, if any; nothing is applied before it. */
  lemma {:induction false} FirstInitialization(g: Gate, calls: seq<Call>) returns (k: nat)
    requires g.state == Uninitialized && g.partition == 0 && NoReset(calls)
    ensures k <= |calls| && Run(g, calls[..k]).state == Uninitialized && Run(g, calls[..k]).partition == 0
    ensures Applied(g, calls[..k]) == [] && Run(g, calls[..k]).mode == g.mode
    ensures k < |calls| ==> After(Run(g, calls[..k]), calls[k]).state != Uninitialized
  {
    if calls == [] {
      return 0;
    }
    var n := |calls| - 1;
    var front := calls[..n];
    assert forall c :: c in front ==> c in calls;
    assert calls[n] in calls;
    k := FirstInitialization(g, front);
    assert front[..k] == calls[..k];
    if k == n && After(Run(g, front), calls[n]).state == Uninitialized {
      k := n + 1;
      assert calls[..k] == calls && calls[..n] == front;
    }
  }

  /** Calls made before a baseline do not wrap round, and those after it do so in the rest of the run only. */
  lemma WrapsRoundAfterBaseline(g: Gate, calls: seq<Call>, k: nat)
    requires k < |calls| && calls[k].CompleteRecovery? && g.state == Uninitialized && g.partition == 0
    requires forall i :: 0 <= i <= k ==> Run(g, calls[..i]).state == Uninitialized
    ensures NeverWrapsRound(g, calls) <==> NeverWrapsRound(After(Run(g, calls[..k]), calls[k]), calls[k + 1..])
  {
    var h, rest := After(Run(g, calls[..k]), calls[k]), calls[k + 1..];
    hide Run, Applied, After, Accepts;
    forall i | 0 <= i < |rest|
      ensures rest[i] == calls[k + 1 + i] && Run(h, rest[..i]) == Run(g, calls[..k + 1 + i])
    {
      var head := calls[..k + 1 + i];
      assert head[..k] == calls[..k] && head[k] == calls[k] && head[k + 1..] == rest[..i];
      RunSplitAt(g, head, k);
    }
    if NeverWrapsRound(h, rest) {
      forall i | 0 <= i < |calls| ensures !WrapsRound(Run(g, calls[..i]), calls[i]) {
        if i > k {
          assert !WrapsRound(Run(h, rest[..i - k - 1]), rest[i - k - 1]);
        }
      }
    }
  }

  lemma {:induction false} StartsUninitialized(g: Gate, calls: seq<Call>, k: nat)
    requires g.state == Uninitialized && NoReset(calls) && k <= |calls| && Run(g, calls[..k]).state == Uninitialized
    ensures forall i :: 0 <= i <= k ==> Run(g, calls[..i]).state == Uninitialized
  {
    hide After;
    if k > 0 {
      assert calls[..k][..k - 1] == calls[..k - 1] && calls[k - 1] in calls;
      if Run(g, calls[..k - 1]).state != Uninitialized {
        CallKeepsPartition(Run(g, calls[..k - 1]), calls[k - 1]);
      }
      StartsUninitialized(g, calls, k - 1);
    }
  }

  lemma BaselineThenExactlyOnce(g: Gate, calls: seq<Call>, k: nat)
    requires g.state == Uninitialized && g.partition == 0
    requires k < |calls| && NoReset(calls) && calls[k].CompleteRecovery? && calls[k].partition != 0
    requires Applied(g, calls[..k]) == [] && Run(g, calls[..k]).state == Uninitialized
             && Run(g, calls[..k]).mode == g.mode
    ensures Run(g, calls).partition == calls[k].partition
    ensures ExactlyOnce(g.mode, calls[k].partition, calls[k].sequence, Run(g, calls).lastAccepted, Applied(g, calls))
            <==> NeverWrapsRound(g, calls)
  {
    hide Run, Applied, ExactlyOnce, NeverWrapsRound;
    var rest := calls[k + 1..];
    StartsUninitialized(g, calls, k);
    WrapsRoundAfterBaseline(g, calls, k);
    RunSplitAt(g, calls, k);
    assert forall d :: d in rest ==> d in calls;
    AppliedExactlyOnce(After(Run(g, calls[..k]), calls[k]), rest);
    assert Applied(g, calls) == Applied(After(Run(g, calls[..k]), calls[k]), rest);
  }

  lemma InitializingCall(g: Gate, c: Call)
    requires g.state == Uninitialized && g.partition == 0 && After(g, c).state != Uninitialized
    ensures !Accepts(g, c)
    ensures if c.CompleteRecovery?
            then c.partition != 0
                && After(g, c) == g.(state := Healthy, partition := c.partition, lastAccepted := c.sequence,
                                                       lastReceived := c.sequence)
            else Stuck(After(g, c))
  {
  }

  /** From a fresh or reset gate: either nothing is ever applied, or some call fixed the baseline
      (partition, sequence) and everything applied afterwards is exactly once relative to it, if and only if no
      0 is replayed at the very last sequence number. */
  lemma AppliedSinceReset(g: Gate, calls: seq<Call>) returns (k: nat)
    requires g.state == Uninitialized && g.partition == 0 && NoReset(calls)
    ensures k <= |calls|
    ensures k == |calls| ==> Applied(g, calls) == []
    ensures k < |calls| ==>
              && calls[k].CompleteRecovery? && calls[k].partition != 0 && Run(g, calls[..k]).state == Uninitialized
              && Run(g, calls).partition == calls[k].partition
              && (ExactlyOnce(g.mode, calls[k].partition, calls[k].sequence, Run(g, calls).lastAccepted,
                              Applied(g, calls))
                  <==> NeverWrapsRound(g, calls))
  {
    k := FirstInitialization(g, calls);
    if k == |calls| {
      assert calls[..k] == calls;
    } else {
      InitializingCall(Run(g, calls[..k]), calls[k]);
      if calls[k].CompleteRecovery? {
        BaselineThenExactlyOnce(g, calls, k);
      } else {
        RunSplitAt(g, calls, k);
        assert forall d :: d in calls[k + 1..] ==> d in calls;
        StuckUntilReset(After(Run(g, calls[..k]), calls[k]), calls[k + 1..]);
        k := |calls|;
      }
    }
  }

  /** The call that wraps round, on a concrete gate: at last_accepted = 2^64-1
      the wrapped expectation is 0, and a replayed 0 is applied, taking the boundary back to 0. */
  lemma ReplayedZeroWraps()
    ensures var g := Gate(Recovering, Contiguous, 3, MAX_U64, MAX_U64, NO_STATS);
            g.RecoveryAnswer(3, 0) == Accepted && g.AfterRecovery(3, 0).lastAccepted == 0
  {
  }

  /** Exactly when an applied replay moves the boundary forward. */
  lemma ReplayAdvancesIff(g: Gate, partition: u64, sequence: u64)
    requires g.RecoveryAnswer(partition, sequence) == Accepted
    ensures g.AfterRecovery(partition, sequence).lastAccepted > g.lastAccepted
       <==> !(g.lastAccepted == MAX_U64 && sequence == 0)
  {
  }

  /** The same wrapped expectation misnames a regression: a live sequence that steps back is reported as
      Regression exactly when last_accepted is not 2^64-1; there it is reported as Gap. */
  lemma StepBackNamedRegressionIff(g: Gate, sequence: u64)
    requires g.state == Healthy && g.partition != 0 && 0 < sequence < g.lastAccepted
    ensures g.LiveAnswer(g.partition, sequence) == Regression <==> g.lastAccepted != MAX_U64
    ensures g.LiveAnswer(g.partition, sequence) in {Gap, Regression}
  {
  }

  // ---------------------------------------------------------------------------------------------
  // Staleness

  lemma {:induction false} LeavingStaleTakesACall(g: Gate, calls: seq<Call>) returns (j: nat)
    requires g.state == Stale && Run(g, calls).state != Stale
    ensures j < |calls| && (calls[j] == BeginRecovery || calls[j] == Reset)
  {
    var n := |calls| - 1;
    if Run(g, calls[..n]).state == Stale {
      j := n;
    } else {
      j := LeavingStaleTakesACall(g, calls[..n]);
    }
  }

  lemma {:induction false} UninitializedTakesReset(g: Gate, calls: seq<Call>)
    requires g.state != Uninitialized && Run(g, calls).state == Uninitialized
    ensures Reset in calls
  {
    var n := |calls| - 1;
    if Run(g, calls[..n]).state == Uninitialized {
      UninitializedTakesReset(g, calls[..n]);
      assert forall c :: c in calls[..n] ==> c in calls;
    } else if !calls[n].Reset? {
      CallKeepsPartition(Run(g, calls[..n]), calls[n]);
      assert false;
    } else {
      assert calls[n] in calls;
    }
  }

  /** Staleness is sticky. If a stale gate is ever healthy again, some recovery began (or the gate was reset)
      and later a `complete_recovery` succeeded: at exactly the partition and sequence applied so far when it
      was recovering, or as a new baseline after a reset. */
  lemma {:induction false} HealthyOnlyThroughRecovery(g: Gate, calls: seq<Call>) returns (j: nat, k: nat)
    requires g.state == Stale && Run(g, calls).state == Healthy
    ensures j < k < |calls| && (calls[j] == BeginRecovery || calls[j] == Reset) && calls[k].CompleteRecovery?
    ensures var m := Run(g, calls[..k]);
            && m.MayComplete(calls[k].partition, calls[k].sequence)
            && (m.state == Recovering ==> calls[k].partition == m.partition && calls[k].sequence == m.lastAccepted)
            && (m.state != Recovering ==> m.state == Uninitialized && Reset in calls[..k])
  {
    var n := |calls| - 1;
    var front := calls[..n];
    if Run(g, front).state == Healthy {
      j, k := HealthyOnlyThroughRecovery(g, front);
      assert front[..k] == calls[..k];
    } else {
      k := n;
      j := LeavingStaleTakesACall(g, front);
      if Run(g, front).state == Uninitialized {
        UninitializedTakesReset(g, front);
      }
    }
  }

  /** So no live observation is accepted before that. */
  lemma NothingLiveWhileStale(g: Gate, calls: seq<Call>, i: nat) returns (j: nat, k: nat)
    requires g.state == Stale && i < |calls| && calls[i].Observe? && Accepts(Run(g, calls[..i]), calls[i])
    ensures j < k < i && (calls[j] == BeginRecovery || calls[j] == Reset) && calls[k].CompleteRecovery?
    ensures Run(g, calls[..k]).MayComplete(calls[k].partition, calls[k].sequence)
  {
    j, k := HealthyOnlyThroughRecovery(g, calls[..i]);
    assert calls[..i][..k] == calls[..k];
  }

  /** Which answers break the stream; a foreign partition does so even in the middle of a recovery. */
  lemma WhatMakesStale(g: Gate, partition: u64, sequence: u64)
    requires g.state != Stale
    ensures g.AfterLive(partition, sequence).state == Stale
       <==> g.LiveAnswer(partition, sequence) in {Gap, Regression, WrongPartition}
    ensures g.state == Recovering && partition != 0 && sequence != 0 && partition != g.partition ==>
              g.AfterLive(partition, sequence).state == Stale
    ensures g.AfterLive(partition, sequence).state == Stale
            ==> g.AfterLive(partition, sequence).lastAccepted == g.lastAccepted
  {
  }

  // ---------------------------------------------------------------------------------------------
  // When a stream stays healthy

  /** The number of the last live call that was heard at all; `start` before any. */
  function LastHeard(start: u64, calls: seq<Call>): u64
    requires forall c :: c in calls ==> c.Observe?
  {
    if calls == [] then start else
      var n := |calls| - 1;
      assert calls[n] in calls && forall c :: c in calls[..n] ==> c in calls;
      if calls[n].partition == 0 || calls[n].sequence == 0 then LastHeard(start, calls[..n]) else calls[n].sequence
  }

  /** A call that a healthy stream standing at `last` survives: a zero, or a number of its own partition that
      repeats the last one or follows it (in Monotonic mode anywhere after it). */
  predicate Follows(mode: Mode, partition: u64, last: u64, c: Call)
    requires c.Observe?
  {
    || c.partition == 0 || c.sequence == 0
    || (c.partition == partition
        && (c.sequence == last || c.sequence == last + 1 || (mode == Monotonic && c.sequence > last)))
  }

  lemma LiveStep(m: Gate, c: Call)
    requires m.state in {Healthy, Stale} && m.partition != 0 && c.Observe?
    ensures After(m, c).partition == m.partition && After(m, c).mode == m.mode && After(m, c).state in {Healthy, Stale}
    ensures After(m, c).state == Healthy <==> m.state == Healthy && Follows(m.mode, m.partition, m.lastAccepted, c)
    ensures After(m, c).state == Healthy ==>
              After(m, c).lastAccepted == if c.partition == 0 || c.sequence == 0 then m.lastAccepted else c.sequence
  {
    if m.state != Healthy || c.partition == 0 || c.sequence == 0 || c.partition != m.partition {
      OtherwiseByNumbers(m, c.partition, c.sequence);
    } else {
      HealthyByNumbers(m, c.sequence);
    }
    hide Gate.LiveAnswer, Gate.AfterLive;
  }

  predicate Unbroken(g: Gate, calls: seq<Call>)
    requires forall c :: c in calls ==> c.Observe?
  {
    forall i :: 0 <= i < |calls| ==> Follows(g.mode, g.partition, LastHeard(g.lastAccepted, calls[..i]), calls[i])
  }

  lemma UnbrokenStep(g: Gate, front: seq<Call>, c: Call)
    requires forall c :: c in front ==> c.Observe?
    requires c.Observe?
    ensures Unbroken(g, front + [c])
       <==> Unbroken(g, front) && Follows(g.mode, g.partition, LastHeard(g.lastAccepted, front), c)
  {
    var calls := front + [c];
    hide Follows, LastHeard;
    assert forall i :: 0 <= i < |front| ==> calls[..i] == front[..i] && calls[i] == front[i];
    assert calls[..|front|] == front;
    if Unbroken(g, calls) {
      assert Follows(g.mode, g.partition, LastHeard(g.lastAccepted, calls[..|front|]), calls[|front|]);
    }
  }

  lemma {:induction false} LiveRun(g: Gate, calls: seq<Call>)
    requires g.state == Healthy && g.partition != 0 && forall c :: c in calls ==> c.Observe?
    ensures Run(g, calls).partition == g.partition && Run(g, calls).mode == g.mode
    ensures Run(g, calls).state in {Healthy, Stale}
    ensures Run(g, calls).state == Healthy ==> Run(g, calls).lastAccepted == LastHeard(g.lastAccepted, calls)
    ensures Run(g, calls).state == Healthy <==> Unbroken(g, calls)
  {
    if calls != [] {
      var n := |calls| - 1;
      var front := calls[..n];
      assert calls[n] in calls && forall d :: d in front ==> d in calls;
      LiveRun(g, front);
      assert calls == front + [calls[n]];
      hide Follows, After, Unbroken;
      UnbrokenStep(g, front, calls[n]);
      LiveStep(Run(g, front), calls[n]);
    }
  }

  /** The stop-on-a-gap law: over live observations alone, a healthy gate is healthy at the end exactly when every
      one of them was a zero, or repeated or followed the number heard last in its own partition. So one gap, one
      step back or one foreign number anywhere leaves the gate stale. */
  lemma HealthyIffUnbroken(g: Gate, calls: seq<Call>)
    requires g.state == Healthy && g.partition != 0 && forall c :: c in calls ==> c.Observe?
    ensures Run(g, calls).state == Healthy
       <==> forall i :: 0 <= i < |calls| ==>
              var c, last := calls[i], LastHeard(g.lastAccepted, calls[..i]);
              || c.partition == 0 || c.sequence == 0
              || (c.partition == g.partition
                  && (c.sequence == last || c.sequence == last + 1 || (g.mode == Monotonic && c.sequence > last)))
    ensures Run(g, calls).state == Healthy ==> Run(g, calls).lastAccepted == LastHeard(g.lastAccepted, calls)
  {
    LiveRun(g, calls);
    hide Run, LastHeard;
  }

  lemma {:induction false} LastOfNonzero(g: Gate, calls: seq<Call>, i: nat)
    requires forall c :: c in calls ==> c.Observe? && c.partition != 0 && c.sequence != 0
    requires i <= |calls|
    ensures LastHeard(g.lastAccepted, calls[..i]) == if i == 0 then g.lastAccepted else calls[i - 1].sequence
  {
    if i > 0 {
      assert calls[..i][i - 1] == calls[i - 1] && calls[i - 1] in calls;
    }
  }

  /** The same on bare numbers: a feed of nonzero numbers of the gate's partition leaves a Contiguous gate
      healthy exactly when each is the one before it or its successor, and a Monotonic gate exactly when none
      steps back. */
  lemma HealthyIffSuccessors(g: Gate, calls: seq<Call>)
    requires g.state == Healthy && g.partition != 0
    requires forall c :: c in calls ==> c.Observe? && c.partition == g.partition && c.sequence != 0
    ensures Run(g, calls).state == Healthy
       <==> forall i :: 0 <= i < |calls| ==>
              var before := if i == 0 then g.lastAccepted else calls[i - 1].sequence;
              if g.mode == Contiguous then calls[i].sequence == before || calls[i].sequence == before + 1
              else calls[i].sequence >= before
  {
    LiveRun(g, calls);
    hide Run, LastHeard;
    forall i | 0 <= i < |calls|
      ensures Follows(g.mode, g.partition, LastHeard(g.lastAccepted, calls[..i]), calls[i])
         <==> var before := if i == 0 then g.lastAccepted else calls[i - 1].sequence;
              if g.mode == Contiguous then calls[i].sequence == before || calls[i].sequence == before + 1
              else calls[i].sequence >= before
    {
      assert calls[i] in calls;
      LastOfNonzero(g, calls, i);
    }
  }

  // ---------------------------------------------------------------------------------------------
  // Accounting

  function LiveCalls(calls: seq<Call>): nat {
    if calls == [] then 0 else LiveCalls(calls[..|calls| - 1]) + if calls[|calls| - 1].Observe? then 1 else 0
  }

  lemma CountAddsOne(s: Stats, e: ContinuityEvent)
    ensures s.Count(e).Sum() == s.Sum() + 1 || s.Count(e).Sum() == s.Sum() + 1 - TWO_TO_64
    ensures s.Sum() < MAX_U64 ==> s.Count(e).Sum() == s.Sum() + 1
  {
  }

  lemma CallCounts(m: Gate, c: Call)
    ensures var now, was := After(m, c).stats.Sum(), m.stats.Sum();
            if c.Observe? then (now == was + 1 || now == was + 1 - TWO_TO_64) && (was < MAX_U64 ==> now == was + 1)
            else now == was
  {
    if c.Observe? {
      CountAddsOne(m.stats, m.LiveAnswer(c.partition, c.sequence));
    }
    hide Stats.Count, Gate.LiveAnswer;
  }

  lemma StillMultiple(a: int, b: int)
    requires a % TWO_TO_64 == 0 && (b == a || b == a - TWO_TO_64)
    ensures b % TWO_TO_64 == 0
  {
  }

  /** Every live observation is counted once, in exactly one of the seven counters, across resets and
      recoveries; modulo 2^64 always, and exactly while the total is short of overflow. */
  lemma {:induction false} StatsConserved(g: Gate, calls: seq<Call>)
    ensures (Run(g, calls).stats.Sum() - g.stats.Sum() - LiveCalls(calls)) % TWO_TO_64 == 0
    ensures g.stats.Sum() + LiveCalls(calls) <= MAX_U64
            ==> Run(g, calls).stats.Sum() == g.stats.Sum() + LiveCalls(calls)
  {
    if calls != [] {
      var front, last := calls[..|calls| - 1], calls[|calls| - 1];
      StatsConserved(g, front);
      hide Stats.Sum, After;
      CallCounts(Run(g, front), last);
      StillMultiple(Run(g, front).stats.Sum() - g.stats.Sum() - LiveCalls(front),
                    Run(g, calls).stats.Sum() - g.stats.Sum() - LiveCalls(calls));
    }
  }
}
