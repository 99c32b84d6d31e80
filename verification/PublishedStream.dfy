/** What a mapper behind the continuity gate publishes over a whole run, and what a phase tracker makes of it. */
module PublishedStream {
  import opened Words
  import opened Wrappers
  import opened MarketEvents
  import Gates = SequenceGates
  import Rules = ExchangeRules

  datatype MapOutcome = MapOutcome(mapping: Rules.MapResult, continuity: Gates.Observation)
  {
    predicate Publishable() {
      continuity.event == Gates.Accepted && mapping.Ok()
    }
  }

  // ---------------------------------------------------------------------------------------------
  // Phase tracker

  datatype PhaseApplyStatus = Applied | Duplicate | Regression | Unsupported

  datatype Phases = Phases(phase: TradingPhase, sequence: u64)
  {
    function Answer(event: PhaseUpdate): PhaseApplyStatus {
      if event.phase == UnknownPhase || event.header.exchangeSeq == 0 then Unsupported
      else if event.header.exchangeSeq == sequence then Duplicate
      else if event.header.exchangeSeq < sequence then Regression
      else Applied
    }

    function After(event: PhaseUpdate): Phases {
      if Answer(event) == Applied then Phases(event.phase, event.header.exchangeSeq) else this
    }
  }

  const NO_PHASE := Phases(UnknownPhase, 0)

  class TradingPhaseTracker {
    var phase: TradingPhase
    var sequence: u64

    function View(): Phases
      reads this
    {
      Phases(phase, sequence)
    }

    constructor ()
      ensures View() == NO_PHASE
    {
      phase, sequence := UnknownPhase, 0;
    }

    method Apply(event: PhaseUpdate) returns (status: PhaseApplyStatus)
      modifies this
      ensures status == old(View()).Answer(event) && View() == old(View()).After(event)
    {
      if event.phase == UnknownPhase || event.header.exchangeSeq == 0 {
        return Unsupported;
      }
      if event.header.exchangeSeq == sequence {
        return Duplicate;
      }
      if event.header.exchangeSeq < sequence {
        return Regression;
      }
      phase := event.phase;
      sequence := event.header.exchangeSeq;
      return Applied;
    }
  }

  /** One update by the numbers: a later one with a known phase is taken over, and no other changes anything. */
  lemma ApplyByNumbers(p: Phases, event: PhaseUpdate)
    ensures var s, a, t := event.header.exchangeSeq, p.Answer(event), p.After(event);
            if event.phase == UnknownPhase || s == 0 then a == Unsupported && t == p
            else if s > p.sequence then a == Applied && t == Phases(event.phase, s)
            else if s == p.sequence then a == Duplicate && t == p
            else a == Regression && t == p
  {
  }

  // ---------------------------------------------------------------------------------------------
  // Runs

  /** One use of a mapper: a row, with the partition and sequence its gate sees and the event its fields map
      to (if any), or a call that only touches the gate. */
  datatype Step =
    | Row(partition: u64, sequence: u64, event: Option<StandardEvent>)
    | Control(call: Gates.Call)

  /** Rows carry their own sequence number, phase rows a known phase; control calls never reset the gate nor
      replay records. */
  predicate Sound(s: Step) {
    match s
    case Row(_, sequence, Some(e)) =>
      sequence != 0 ==> e.Header().exchangeSeq == sequence && (e.PhaseOf? ==> e.update.phase != UnknownPhase)
    case Row(_, _, None) => true
    case Control(c) => c.BeginRecovery? || c.CompleteRecovery?
  }

  predicate AllSound(steps: seq<Step>) {
    forall i :: 0 <= i < |steps| ==> Sound(steps[i])
  }

  function CallOf(s: Step): Gates.Call {
    if s.Row? then Gates.Observe(s.partition, s.sequence) else s.call
  }

  function Calls(steps: seq<Step>): (calls: seq<Gates.Call>)
    ensures |calls| == |steps|
  {
    seq(|steps|, i requires 0 <= i < |steps| => CallOf(steps[i]))
  }

  /** The events published, in order: those of rows the gate accepted and the rules mapped. */
  function Published(g: Gates.Gate, steps: seq<Step>): seq<StandardEvent> {
    if steps == [] then [] else
      var front, last := steps[..|steps| - 1], steps[|steps| - 1];
      var before := Published(g, front);
      if last.Row? && last.event.Some? && Gates.Accepts(Gates.Run(g, Calls(front)), CallOf(last))
      then before + [last.event.value] else before
  }

  /** The sequence numbers the gate accepted, in order. */
  function AcceptedSequences(g: Gates.Gate, steps: seq<Step>): seq<u64> {
    if steps == [] then [] else
      var front, last := steps[..|steps| - 1], steps[|steps| - 1];
      var before := AcceptedSequences(g, front);
      if last.Row? && Gates.Accepts(Gates.Run(g, Calls(front)), CallOf(last)) then before + [last.sequence] else before
  }

  function SequencesOf(events: seq<StandardEvent>): (s: seq<u64>)
    ensures |s| == |events|
  {
    seq(|events|, i requires 0 <= i < |events| => events[i].Header().exchangeSeq)
  }

  /** `part` is what is left of `whole` after dropping some elements. */
  predicate SubsequenceOf(part: seq<u64>, whole: seq<u64>) {
    if part == [] then true
    else if whole == [] then false
    else
      var w := whole[..|whole| - 1];
      (part[|part| - 1] == whole[|whole| - 1] && SubsequenceOf(part[..|part| - 1], w)) || SubsequenceOf(part, w)
  }

  /** Both lists strictly increase above `floor` and up to `upTo`, and the second is part of the first. */
  predicate Streams(floor: u64, upTo: u64, accepted: seq<u64>, published: seq<u64>) {
    && floor <= upTo && Gates.Increasing(floor, accepted) && Gates.Increasing(floor, published)
    && (forall i :: 0 <= i < |accepted| ==> accepted[i] <= upTo)
    && (forall i :: 0 <= i < |published| ==> published[i] <= upTo)
    && SubsequenceOf(published, accepted)
  }

  lemma AcceptOne(floor: u64, upTo: u64, accepted: seq<u64>, published: seq<u64>, s: u64)
    requires Streams(floor, upTo, accepted, published) && s > upTo
    ensures Streams(floor, s, accepted + [s], published)
    ensures Streams(floor, s, accepted + [s], published + [s])
  {
    assert (accepted + [s])[..|accepted|] == accepted;
    assert (published + [s])[..|published|] == published;
  }

  lemma StartStreams(floor: u64, upTo: u64, accepted: seq<u64>, published: seq<u64>)
    requires floor <= upTo && accepted == [] && published == []
    ensures Streams(floor, upTo, accepted, published)
  {
  }

  lemma SnocCalls(g: Gates.Gate, steps: seq<Step>)
    requires steps != []
    ensures var front, last := steps[..|steps| - 1], steps[|steps| - 1];
            Gates.Run(g, Calls(steps)) == Gates.After(Gates.Run(g, Calls(front)), CallOf(last))
  {
    assert Calls(steps)[..|steps| - 1] == Calls(steps[..|steps| - 1]);
  }

  lemma SnocSequences(events: seq<StandardEvent>, e: StandardEvent)
    ensures SequencesOf(events + [e]) == SequencesOf(events) + [e.Header().exchangeSeq]
  {
  }

  /** Before a baseline nothing is accepted and the boundary is still at its start. */
  predicate NothingYet(g: Gates.Gate, steps: seq<Step>) {
    Gates.Run(g, Calls(steps)).lastAccepted == 0 && AcceptedSequences(g, steps) == [] && Published(g, steps) == []
  }

  /** One step publishes the event of a row that the gate accepts and the rules mapped, and nothing else. */
  lemma PublishedOne(g: Gates.Gate, s: Step)
    ensures Published(g, [s]) == if s.Row? && s.event.Some? && g.LiveAnswer(s.partition, s.sequence) == Gates.Accepted
                                 then [s.event.value] else []
    ensures AcceptedSequences(g, [s]) == if s.Row? && g.LiveAnswer(s.partition, s.sequence) == Gates.Accepted
                                         then [s.sequence] else []
    ensures Gates.Run(g, Calls([s]))
         == if s.Row? then g.AfterLive(s.partition, s.sequence) else Gates.After(g, s.call)
  {
    assert [s][..0] == [] && Calls([s]) == [CallOf(s)] && [CallOf(s)][..0] == [];
    assert Calls([]) == [];
    hide Gates.Gate.LiveAnswer, Gates.Gate.AfterLive;
  }

  lemma RunParts(g: Gates.Gate, a: seq<Step>, b: seq<Step>)
    ensures Gates.Run(g, Calls(a + b)) == Gates.Run(Gates.Run(g, Calls(a)), Calls(b))
  {
    hide Gates.Run;
    assert Calls(a + b) == Calls(a) + Calls(b);
    Gates.RunConcat(g, Calls(a), Calls(b));
  }

  lemma PublishedSnoc(g: Gates.Gate, front: seq<Step>, last: Step)
    ensures var m := Gates.Run(g, Calls(front));
            && Published(g, front + [last]) == Published(g, front) + Published(m, [last])
            && AcceptedSequences(g, front + [last]) == AcceptedSequences(g, front) + AcceptedSequences(m, [last])
  {
    var m := Gates.Run(g, Calls(front));
    assert (front + [last])[..|front|] == front && [last][..0] == [] && Calls([]) == [];
    assert Gates.Run(m, Calls([])) == m;
    hide Gates.Run, Gates.Accepts;
    assert Published(m, [last][..0]) == [] && AcceptedSequences(m, [last][..0]) == [];
  }

  /** And a run publishes what its parts publish, each from where the gate stands by then. */
  lemma {:induction false} PublishedConcat(g: Gates.Gate, a: seq<Step>, b: seq<Step>)
    ensures Gates.Run(g, Calls(a + b)) == Gates.Run(Gates.Run(g, Calls(a)), Calls(b))
    ensures var m := Gates.Run(g, Calls(a));
            && Published(g, a + b) == Published(g, a) + Published(m, b)
            && AcceptedSequences(g, a + b) == AcceptedSequences(g, a) + AcceptedSequences(m, b)
  {
    RunParts(g, a, b);
    var m := Gates.Run(g, Calls(a));
    assert Published(m, []) == [] && AcceptedSequences(m, []) == [];
    hide *;
    if b == [] {
      assert a + b == a;
    } else {
      var front, last := b[..|b| - 1], b[|b| - 1];
      assert b == front + [last] && a + b == (a + front) + [last];
      PublishedConcat(g, a, front);
      PublishedSnoc(g, a + front, last);
      PublishedSnoc(m, front, last);
      RunParts(g, a, front);
      var r := Gates.Run(m, Calls(front));
      Associates(Published(g, a), Published(m, front), Published(r, [last]));
      Associates(AcceptedSequences(g, a), AcceptedSequences(m, front), AcceptedSequences(r, [last]));
    }
  }

  lemma Associates<T>(a: seq<T>, b: seq<T>, c: seq<T>)
    ensures (a + b) + c == a + (b + c)
  {
  }

  /** The accepted sequences are those of the calls the gate applied. */
  lemma {:induction false} AcceptedAreApplied(g: Gates.Gate, steps: seq<Step>)
    requires forall i :: 0 <= i < |steps| && steps[i].Control? ==>
               !steps[i].call.Observe? && !steps[i].call.ObserveRecovery?
    ensures var applied := Gates.Applied(g, Calls(steps));
            && |AcceptedSequences(g, steps)| == |applied|
            && forall i :: 0 <= i < |applied| ==>
                 applied[i].Observe? && applied[i].sequence == AcceptedSequences(g, steps)[i]
  {
    if steps != [] {
      var n := |steps| - 1;
      AcceptedAreApplied(g, steps[..n]);
      assert Calls(steps)[..n] == Calls(steps[..n]);
      hide Gates.Run, Gates.Gate.LiveAnswer, Gates.Gate.RecoveryAnswer;
    }
  }

  /** Over every run without a reset, from a fresh gate or one with a baseline: the sequences accepted strictly
      increase through baselines, gaps, staleness and recoveries up to last_accepted, and the published events
      carry a subsequence of them, so published exchange sequences strictly increase too. */
  lemma {:induction false} PublishedAscends(g: Gates.Gate, steps: seq<Step>)
    requires AllSound(steps) && (g.state == Gates.Uninitialized ==> g.lastAccepted == 0)
    ensures Streams(g.lastAccepted, Gates.Run(g, Calls(steps)).lastAccepted, AcceptedSequences(g, steps),
                    SequencesOf(Published(g, steps)))
    ensures Gates.Run(g, Calls(steps)).state == Gates.Uninitialized ==> NothingYet(g, steps)
  {
    if steps != [] {
      hide Streams, Gates.Run;
      var n := |steps| - 1;
      var front, last := steps[..n], steps[n];
      var m := Gates.Run(g, Calls(front));
      PublishedAscends(g, front);
      SnocCalls(g, steps);
      if m.state == Gates.Uninitialized {
        StartStreams(g.lastAccepted, Gates.Run(g, Calls(steps)).lastAccepted, AcceptedSequences(g, front),
                     SequencesOf(Published(g, front)));
      } else {
        Gates.CallKeepsBaseline(m, CallOf(last));
      }
      if Gates.Accepts(m, CallOf(last)) {
        AcceptOne(g.lastAccepted, m.lastAccepted, AcceptedSequences(g, front), SequencesOf(Published(g, front)),
                  last.sequence);
        if last.event.Some? {
          SnocSequences(Published(g, front), last.event.value);
        }
      }
    }
  }

  /** When the rules map every row, nothing accepted is lost: the published sequences are the accepted ones. */
  lemma {:induction false} NothingLostWhenAllMap(g: Gates.Gate, steps: seq<Step>)
    requires AllSound(steps) && forall i :: 0 <= i < |steps| && steps[i].Row? ==> steps[i].event.Some?
    ensures SequencesOf(Published(g, steps)) == AcceptedSequences(g, steps)
  {
    if steps != [] {
      hide Gates.Run;
      var front, last := steps[..|steps| - 1], steps[|steps| - 1];
      NothingLostWhenAllMap(g, front);
      if last.Row? && Gates.Accepts(Gates.Run(g, Calls(front)), CallOf(last)) {
        SnocSequences(Published(g, front), last.event.value);
      }
    }
  }

  /** The phase updates among published events. */
  function PhaseUpdates(events: seq<StandardEvent>): seq<PhaseUpdate> {
    if events == [] then [] else
      var last := events[|events| - 1];
      PhaseUpdates(events[..|events| - 1]) + if last.PhaseOf? then [last.update] else []
  }

  function Track(p: Phases, updates: seq<PhaseUpdate>): Phases {
    if updates == [] then p else Track(p, updates[..|updates| - 1]).After(updates[|updates| - 1])
  }

  predicate Supported(event: PhaseUpdate) {
    event.phase != UnknownPhase && event.header.exchangeSeq != 0
  }

  /** Whatever updates arrive, in whatever order: the tracker stands at the highest sequence of a supported one, or
      where it started if that is no lower, and in the phase of the first update that had it. */
  lemma {:induction false} TrackerStandsAtHighest(p: Phases, updates: seq<PhaseUpdate>)
    ensures var t := Track(p, updates);
            && t.sequence >= p.sequence && (t.sequence == p.sequence ==> t == p)
            && (forall i :: 0 <= i < |updates| && Supported(updates[i]) ==> updates[i].header.exchangeSeq <= t.sequence)
            && (t.sequence > p.sequence ==>
                  exists i :: 0 <= i < |updates| && Supported(updates[i])
                              && updates[i].header.exchangeSeq == t.sequence && updates[i].phase == t.phase
                              && forall j :: 0 <= j < i && Supported(updates[j]) ==>
                                   updates[j].header.exchangeSeq < t.sequence)
  {
    if updates != [] {
      var n := |updates| - 1;
      var front, last := updates[..n], updates[n];
      TrackerStandsAtHighest(p, front);
      var m, t := Track(p, front), Track(p, updates);
      ApplyByNumbers(m, last);
      assert forall i :: 0 <= i < n ==> front[i] == updates[i];
      hide Phases.After, Phases.Answer, Track;
      if t != m {
        assert t.phase == updates[n].phase && Supported(updates[n]);
      } else if t.sequence > p.sequence {
        var i :| 0 <= i < |front| && Supported(front[i]) && front[i].header.exchangeSeq == m.sequence
                 && front[i].phase == m.phase
                 && forall j :: 0 <= j < i && Supported(front[j]) ==> front[j].header.exchangeSeq < m.sequence;
        assert Supported(updates[i]) && updates[i].phase == t.phase;
      }
    }
  }

  /** Every update answers Applied, in turn. */
  predicate AllApplied(p: Phases, updates: seq<PhaseUpdate>) {
    if updates == [] then true
    else AllApplied(p, updates[..|updates| - 1])
         && Track(p, updates[..|updates| - 1]).Answer(updates[|updates| - 1]) == Applied
  }

  /** A fresh tracker answers `Applied` to every update and ends at the last one. */
  predicate TrackedToTheEnd(updates: seq<PhaseUpdate>) {
    && AllApplied(NO_PHASE, updates)
    && Track(NO_PHASE, updates) == if updates == [] then NO_PHASE
                                   else Phases(updates[|updates| - 1].phase, updates[|updates| - 1].header.exchangeSeq)
  }

  lemma TrackOneMore(updates: seq<PhaseUpdate>, next: PhaseUpdate)
    requires TrackedToTheEnd(updates) && next.phase != UnknownPhase
    requires Track(NO_PHASE, updates).sequence < next.header.exchangeSeq
    ensures TrackedToTheEnd(updates + [next]) && Track(NO_PHASE, updates + [next]).sequence == next.header.exchangeSeq
  {
    assert (updates + [next])[..|updates|] == updates;
  }

  lemma FrontAscends(events: seq<StandardEvent>)
    requires events != [] && Gates.Increasing(0, SequencesOf(events))
    ensures var n := |events| - 1;
            && Gates.Increasing(0, SequencesOf(events[..n])) && 0 < events[n].Header().exchangeSeq
            && (n > 0 ==> events[n - 1].Header().exchangeSeq < events[n].Header().exchangeSeq)
  {
    var n, seqs := |events| - 1, SequencesOf(events);
    assert SequencesOf(events[..n]) == seqs[..n];
    if n > 0 {
      assert seqs[n - 1] < seqs[n];
    }
    assert 0 < seqs[n];
  }

  lemma {:induction false} TrackerFollows(events: seq<StandardEvent>)
    requires Gates.Increasing(0, SequencesOf(events))
    requires forall i :: 0 <= i < |events| && events[i].PhaseOf? ==> events[i].update.phase != UnknownPhase
    ensures TrackedToTheEnd(PhaseUpdates(events))
    ensures events != [] ==> Track(NO_PHASE, PhaseUpdates(events)).sequence <= events[|events| - 1].Header().exchangeSeq
  {
    if events != [] {
      var n := |events| - 1;
      FrontAscends(events);
      hide Gates.Increasing, SequencesOf;
      TrackerFollows(events[..n]);
      var before := PhaseUpdates(events[..n]);
      assert n == 0 ==> Track(NO_PHASE, before) == NO_PHASE;
      hide TrackedToTheEnd, Track;
      if events[n].PhaseOf? {
        TrackOneMore(before, events[n].update);
      } else {
        assert PhaseUpdates(events) == before;
      }
    }
  }

  lemma {:induction false} PublishedPhasesKnown(g: Gates.Gate, steps: seq<Step>)
    requires AllSound(steps)
    ensures forall i :: 0 <= i < |Published(g, steps)| && Published(g, steps)[i].PhaseOf? ==>
              Published(g, steps)[i].update.phase != UnknownPhase
  {
    if steps != [] {
      PublishedPhasesKnown(g, steps[..|steps| - 1]);
    }
  }

  /** A tracker fed only the published phase updates answers Applied every time and ends at the last one. */
  lemma TrackerAppliesEveryPublishedPhase(g: Gates.Gate, steps: seq<Step>)
    requires AllSound(steps) && (g.state == Gates.Uninitialized ==> g.lastAccepted == 0)
    ensures TrackedToTheEnd(PhaseUpdates(Published(g, steps)))
  {
    PublishedAscends(g, steps);
    PublishedPhasesKnown(g, steps);
    TrackerFollows(Published(g, steps));
  }
}
