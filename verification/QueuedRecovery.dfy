/** The whole chain as it is deployed: gate, asynchronous queue, journal, checkpoint, crash and restart. */
module QueuedRecovery {
  import opened Words
  import opened EventJournal
  import opened SequenceGates
  import opened Checkpoints
  import opened CrashRecovery
  import Pipeline = JournalPipeline

  function EventSequences(queued: seq<Pipeline.Submission>): (s: seq<u64>)
    ensures |s| == |queued|
  {
    seq(|queued|, i requires 0 <= i < |queued| => queued[i].event.exchangeSeq)
  }

  /** `picks` says which applied calls the queued events were made for, in order: each event has its call's number. */
  predicate Publishes(queued: seq<Pipeline.Submission>, applied: seq<Call>, picks: seq<nat>) {
    && |picks| == |queued|
    && (forall i :: 0 <= i < |picks| ==> picks[i] < |applied|)
    && (forall i, j :: 0 <= i < j < |picks| ==> picks[i] < picks[j])
    && (forall i :: 0 <= i < |picks| ==>
          (applied[picks[i]].Observe? || applied[picks[i]].ObserveRecovery?)
          && queued[i].event.exchangeSeq == applied[picks[i]].sequence)
  }

  lemma PublishesThenJournals(answers: seq<Pipeline.Answer>, applied: seq<Call>, picks: seq<nat>)
    requires AllReadable(Pipeline.QueuedRecords(answers))
    requires Publishes(Pipeline.QueuedSubmissions(answers), applied, picks)
    ensures Journals(Pipeline.QueuedRecords(answers), applied, picks)
    ensures Sequences(Pipeline.QueuedRecords(answers)) == EventSequences(Pipeline.QueuedSubmissions(answers))
  {
    Pipeline.QueuedRecordsBear(answers);
    hide AllReadable, Pipeline.QueuedRecords, Pipeline.QueuedSubmissions;
  }

  lemma FirstPicks(queued: seq<Record>, applied: seq<Call>, picks: seq<nat>, n: nat)
    requires Journals(queued, applied, picks) && n <= |queued|
    ensures Journals(queued[..n], applied, picks[..n])
    ensures NothingSkipped(applied, picks) ==> NothingSkipped(applied, picks[..n])
  {
    if |picks| == |applied| {
      FullPicksAreIdentity(picks, |applied|);
    }
  }

  lemma SameSlices(records: seq<Record>, queued: seq<Record>, events: seq<Pipeline.Submission>, k: nat, m: nat)
    requires records <= queued && Sequences(queued) == EventSequences(events) && 0 < k <= m <= |records|
    ensures |queued| == |events| && SequenceOf(records[k - 1]) == events[k - 1].event.exchangeSeq
    ensures Sequences(records[k..m]) == EventSequences(events[k..m])
  {
    assert Sequences(queued)[k - 1] == EventSequences(events)[k - 1];
    forall i | 0 <= i < m - k ensures Sequences(records[k..m])[i] == EventSequences(events[k..m])[i] {
      assert Sequences(queued)[k + i] == EventSequences(events)[k + i];
    }
  }

  /** For every interleaving of the enqueuing and the draining thread: an event is offered for each publishable
      number a gate applies, in order; checkpoints are committed at boundaries of frames already written; the
      machine dies and the file is cut anywhere at or after the committed offset. The checkpoint names the k-th
      event answered `Queued`, the first m of them survive, and the restart applies exactly the exchange sequences
      of the events k to m, each once and none before: always in Monotonic mode, and in Contiguous mode exactly
      when none of them is missing, in particular when every applied row up to the last Queued one was Queued. */
  lemma QueuedCrashAndRestart(capacity: nat, sourceId: u32, tradingDay: u32, moves: seq<Pipeline.Move>, mode: Mode,
                              partition: u64, baseline: u64, calls: seq<Call>, picks: seq<nat>, restored: nat,
                              ks: seq<nat>, cut: nat)
    returns (k: nat, m: nat)
    requires Pipeline.Machine(capacity).Valid() && Pipeline.Moves(capacity, Pipeline.Begin(capacity), moves)
    requires partition != 0 && NoReset(calls) && NeverWrapsRound(Based(mode, partition, baseline), calls)
    requires var p := Pipeline.AfterMoves(capacity, Pipeline.Begin(capacity), moves);
             && Publishes(Pipeline.QueuedSubmissions(p.answers), Applied(Based(mode, partition, baseline), calls),
                          picks)
             && Commits(p.written, restored, ks)
             && Committed(partition, p.written, restored, ks).journalOffset <= cut <= |p.File(sourceId, tradingDay)|
    ensures var p := Pipeline.AfterMoves(capacity, Pipeline.Begin(capacity), moves);
            var queued := Pipeline.QueuedSubmissions(p.answers);
            var checkpoint := Committed(partition, p.written, restored, ks);
            && 0 < k <= m <= |p.written| <= |queued|
            && p.File(sourceId, tradingDay) == FileImage(sourceId, tradingDay, p.written)
            && checkpoint == CheckpointSequence(partition, queued[k - 1].event.exchangeSeq, FileSize(p.written[..k]))
            && Leaves(sourceId, tradingDay, p.written, cut, m)
            && Increasing(queued[k - 1].event.exchangeSeq, EventSequences(queued[k..m]))
            && AppliesExactly(mode, partition, queued[k - 1].event.exchangeSeq, EventSequences(queued[k..m]),
                              RestartFrom(checkpoint, p.File(sourceId, tradingDay)[..cut]))
            && (mode == Contiguous && NothingSkipped(Applied(Based(mode, partition, baseline), calls), picks) ==>
                  Consecutive(queued[k - 1].event.exchangeSeq, EventSequences(queued[k..m])))
  {
    hide Pipeline.Moves, Pipeline.AfterMoves, Pipeline.QueuedRecords, Pipeline.QueuedSubmissions, Applied, Committed;
    hide FileImage, Journals, Publishes, NothingSkipped, NeverWrapsRound, Based, RestartFrom, Readable;
    var p := Pipeline.AfterMoves(capacity, Pipeline.Begin(capacity), moves);
    var queued := Pipeline.QueuedRecords(p.answers);
    var applied := Applied(Based(mode, partition, baseline), calls);
    Pipeline.FileHoldsQueuedPrefix(capacity, sourceId, tradingDay, moves);
    var n := |p.written|;
    PublishesThenJournals(p.answers, applied, picks);
    assert |queued| == |picks| by { JournalsLength(queued, applied, picks); }
    FirstPicks(queued, applied, picks, n);
    k, m := CrashAndRestart(mode, partition, baseline, calls, p.written, picks[..n], sourceId, tradingDay, restored,
                            ks, cut);
    SameSlices(p.written, queued, Pipeline.QueuedSubmissions(p.answers), k, m);
    hide Consecutive, AppliesExactly, Leaves, Sequences, EventSequences, Increasing;
  }

  lemma JournalsLength(records: seq<Record>, applied: seq<Call>, picks: seq<nat>)
    requires Journals(records, applied, picks)
    ensures |records| == |picks|
  {
  }
}
