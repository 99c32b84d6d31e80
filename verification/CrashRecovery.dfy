/** Crash and restart: a gate, a journal and a checkpoint together apply every exchange sequence once. */
module CrashRecovery {
  import opened Words
  import opened ByteCodec
  import opened EventJournal
  import opened SequenceGates
  import opened Checkpoints

  function SequenceOf(r: Record): u64 {
    r.header.exchangeSeq
  }

  function Sequences(records: seq<Record>): (s: seq<u64>)
    ensures |s| == |records|
  {
    seq(|records|, i requires 0 <= i < |records| => SequenceOf(records[i]))
  }

  /** floor + 1, floor + 2, ... with nothing missing. */
  predicate Consecutive(floor: u64, seqs: seq<u64>) {
    forall i :: 0 <= i < |seqs| ==> seqs[i] == floor + 1 + i
  }

  function LastOr(floor: u64, seqs: seq<u64>): u64 {
    if seqs == [] then floor else seqs[|seqs| - 1]
  }

  function ReplayCalls(partition: u64, seqs: seq<u64>): (calls: seq<Call>)
    ensures |calls| == |seqs|
  {
    seq(|seqs|, i requires 0 <= i < |seqs| => ObserveRecovery(partition, seqs[i]))
  }

  /** What the service does after a crash: restore the checkpointed boundary, replay what the journal
      holds from there, and declare recovery complete at the last sequence replayed. */
  function RestartCalls(partition: u64, applied: u64, seqs: seq<u64>): seq<Call> {
    [CompleteRecovery(partition, applied), BeginRecovery] + ReplayCalls(partition, seqs)
    + [CompleteRecovery(partition, LastOr(applied, seqs))]
  }

  /** The records the restart feeds to the gate. */
  function RecordsFrom(records: seq<Record>, from: u64): seq<Record> {
    if records == [] then [] else
      (if SequenceOf(records[0]) >= from then [records[0]] else []) + RecordsFrom(records[1..], from)
  }

  // ---------------------------------------------------------------------------------------------
  // Replaying an increasing list

  /** Replaying an increasing list above the boundary applies all of it and ends at its last element when
      the gate is Monotonic or the list has no hole; otherwise the boundary stays short of the end. */
  lemma {:induction false} ReplayIncreasing(g: Gate, partition: u64, seqs: seq<u64>)
    requires g.state == Recovering && g.partition == partition != 0 && Increasing(g.lastAccepted, seqs)
    ensures var t := Run(g, ReplayCalls(partition, seqs));
            && t.state == Recovering && t.partition == partition && t.mode == g.mode
            && (if g.mode == Monotonic || Consecutive(g.lastAccepted, seqs)
                then t.lastAccepted == LastOr(g.lastAccepted, seqs)
                     && Applied(g, ReplayCalls(partition, seqs)) == ReplayCalls(partition, seqs)
                else t.lastAccepted < LastOr(g.lastAccepted, seqs))
  {
    if seqs != [] {
      var front, s := seqs[..|seqs| - 1], seqs[|seqs| - 1];
      ReplayCallsSnoc(partition, seqs);
      FrontIncreasing(g.lastAccepted, seqs);
      hide Increasing, Consecutive, ReplayCalls;
      ReplayIncreasing(g, partition, front);
      ReplayOneMore(g.mode, g.lastAccepted, seqs, Run(g, ReplayCalls(partition, front)));
    }
  }

  lemma ReplayCallsSnoc(partition: u64, seqs: seq<u64>)
    requires seqs != []
    ensures var n, calls := |seqs| - 1, ReplayCalls(partition, seqs);
            && calls[..n] == ReplayCalls(partition, seqs[..n]) && calls[n] == ObserveRecovery(partition, seqs[n])
            && calls == ReplayCalls(partition, seqs[..n]) + [ObserveRecovery(partition, seqs[n])]
  {
  }

  lemma ReplayOneMore(mode: Mode, floor: u64, seqs: seq<u64>, t: Gate)
    requires seqs != [] && Increasing(floor, seqs) && t.state == Recovering && t.partition != 0 && t.mode == mode
    requires var front := seqs[..|seqs| - 1];
             if mode == Monotonic || Consecutive(floor, front) then t.lastAccepted == LastOr(floor, front)
             else t.lastAccepted < LastOr(floor, front)
    ensures var s := seqs[|seqs| - 1];
            && (t.RecoveryAnswer(t.partition, s) == Accepted <==> mode == Monotonic || Consecutive(floor, seqs))
            && t.lastAccepted < s && (Consecutive(floor, seqs) ==> Consecutive(floor, seqs[..|seqs| - 1]))
  {
    var n := |seqs| - 1;
    var front := seqs[..n];
    assert forall i :: 0 <= i < n ==> front[i] == seqs[i];
    if n > 0 {
      assert LastOr(floor, front) == seqs[n - 1] < seqs[n];
    }
  }

  lemma FrontIncreasing(floor: u64, seqs: seq<u64>)
    requires seqs != [] && Increasing(floor, seqs)
    ensures Increasing(floor, seqs[..|seqs| - 1])
  {
  }

  /** `restart`, made to a new gate, ends healthy exactly when the gate is Monotonic or `past` continues
      `applied` without a hole; and then it has applied each element of `past` exactly once, in order, and
      nothing else, and stands at the last of them. */
  ghost predicate AppliesExactly(mode: Mode, partition: u64, applied: u64, past: seq<u64>, restart: seq<Call>) {
    var t := Run(NewGate(mode), restart);
    && (t.state == Healthy <==> mode == Monotonic || Consecutive(applied, past))
    && (t.state == Healthy ==> t.partition == partition && t.lastAccepted == LastOr(applied, past)
                               && Applied(NewGate(mode), restart) == ReplayCalls(partition, past))
  }

  lemma RestartOutcome(mode: Mode, partition: u64, applied: u64, seqs: seq<u64>)
    requires partition != 0 && Increasing(applied, seqs)
    ensures AppliesExactly(mode, partition, applied, seqs, RestartCalls(partition, applied, seqs))
  {
    var g0, replay, last := NewGate(mode), ReplayCalls(partition, seqs),
        CompleteRecovery(partition, LastOr(applied, seqs));
    var opening := [CompleteRecovery(partition, applied), BeginRecovery];
    var g2 := Restored(mode, partition, applied);
    ReplayIncreasing(g2, partition, seqs);
    RunConcat(g0, opening, replay);
    RunConcat(g0, opening + replay, [last]);
    SingleCall(Run(g2, replay), last);
  }

  lemma SingleCall(g: Gate, c: Call)
    ensures Run(g, [c]) == After(g, c) && Applied(g, [c]) == if Accepts(g, c) then [c] else []
  {
    assert [c][..0] == [];
  }

  lemma Restored(mode: Mode, partition: u64, applied: u64) returns (g: Gate)
    requires partition != 0
    ensures g == Run(NewGate(mode), [CompleteRecovery(partition, applied), BeginRecovery])
    ensures Applied(NewGate(mode), [CompleteRecovery(partition, applied), BeginRecovery]) == []
    ensures g.state == Recovering && g.partition == partition && g.lastAccepted == applied && g.mode == mode
  {
    var calls := [CompleteRecovery(partition, applied), BeginRecovery];
    g := Run(NewGate(mode), calls);
    assert calls[..1] == [CompleteRecovery(partition, applied)];
    SingleCall(NewGate(mode), CompleteRecovery(partition, applied));
  }

  // ---------------------------------------------------------------------------------------------
  // Commits at frame boundaries

  /** The checkpoint for "the first k journal records are applied". */
  function Boundary(partition: u64, records: seq<Record>, k: nat): CheckpointSequence
    requires 0 < k <= |records| && FileSize(records[..k]) <= MAX_U64
  {
    CheckpointSequence(partition, SequenceOf(records[k - 1]), FileSize(records[..k]))
  }

  lemma FileSizeMonotone(records: seq<Record>, j: nat, k: nat)
    requires j <= k <= |records|
    ensures FileSize(records[..j]) <= FileSize(records[..k]) <= FileSize(records)
  {
    assert records[..k] == records[..j] + records[j..k];
    FramesSizeConcat(records[..j], records[j..k]);
    assert records == records[..k] + records[k..];
    FramesSizeConcat(records[..k], records[k..]);
  }

  /** Every prefix of the journal has an offset a checkpoint can store. */
  predicate Addressable(records: seq<Record>) {
    forall k :: 0 <= k <= |records| ==> FileSize(records[..k]) <= MAX_U64
  }

  function Boundaries(partition: u64, records: seq<Record>, ks: seq<nat>): (r: seq<CheckpointSequence>)
    requires Addressable(records) && forall i :: 0 <= i < |ks| ==> 0 < ks[i] <= |records|
    ensures |r| == |ks|
  {
    seq(|ks|, i requires 0 <= i < |ks| => Boundary(partition, records, ks[i]))
  }

  function Max(ks: seq<nat>): nat {
    if ks == [] then 0 else
      var m, k := Max(ks[..|ks| - 1]), ks[|ks| - 1];
      if k > m then k else m
  }

  lemma {:induction false} MaxBounds(ks: seq<nat>, bound: nat)
    requires forall i :: 0 <= i < |ks| ==> 0 < ks[i] <= bound
    ensures Max(ks) <= bound && (ks != [] ==> Max(ks) > 0)
  {
    if ks != [] {
      MaxBounds(ks[..|ks| - 1], bound);
    }
  }

  /** The checkpoint for the first k records, or none yet. */
  function CheckpointAt(partition: u64, records: seq<Record>, k: nat): CheckpointSequence
    requires k <= |records| && Addressable(records)
  {
    if k == 0 then NO_CHECKPOINT else Boundary(partition, records, k)
  }

  function Larger(a: nat, b: nat): nat {
    if a >= b then a else b
  }

  /** However commits at frame boundaries are attempted, in whatever order, by a coordinator that starts empty or
      was restored at one of them, the committed checkpoint is the furthest boundary attempted or restored. */
  lemma {:induction false} CommittedIsFurthest(partition: u64, records: seq<Record>, restored: nat, ks: seq<nat>)
    requires partition != 0 && Increasing(0, Sequences(records)) && Addressable(records)
    requires restored <= |records| && forall i :: 0 <= i < |ks| ==> 0 < ks[i] <= |records|
    ensures Max(ks) <= |records|
    ensures CommitAll(CheckpointAt(partition, records, restored), Boundaries(partition, records, ks))
         == CheckpointAt(partition, records, Larger(restored, Max(ks)))
  {
    MaxBounds(ks, |records|);
    if ks != [] {
      var front, k := ks[..|ks| - 1], ks[|ks| - 1];
      var requests := Boundaries(partition, records, ks);
      assert requests[..|requests| - 1] == Boundaries(partition, records, front);
      CommittedIsFurthest(partition, records, restored, front);
      LaterBoundaryAdmitted(partition, records, Larger(restored, Max(front)), k);
    }
  }

  lemma LaterBoundaryAdmitted(partition: u64, records: seq<Record>, m: nat, k: nat)
    requires partition != 0 && Increasing(0, Sequences(records)) && Addressable(records)
    requires m <= |records| && 0 < k <= |records|
    ensures CheckpointAt(partition, records, m).Admits(Boundary(partition, records, k)) <==> k > m
  {
    var s := Sequences(records);
    assert s[k - 1] == SequenceOf(records[k - 1]);
    if m > 0 {
      assert s[m - 1] == SequenceOf(records[m - 1]);
      if m < k {
        FileSizeMonotone(records, m, k);
      }
    }
  }

  // ---------------------------------------------------------------------------------------------
  // What survives

  lemma {:induction false} RecordsFromSplits(records: seq<Record>, from: u64, k: nat)
    requires k <= |records|
    requires forall i :: 0 <= i < k ==> SequenceOf(records[i]) < from
    requires forall i :: k <= i < |records| ==> SequenceOf(records[i]) >= from
    ensures RecordsFrom(records, from) == records[k..]
  {
    if records != [] {
      if k > 0 {
        RecordsFromSplits(records[1..], from, k - 1);
        assert records[1..][k - 1..] == records[k..];
      } else {
        RecordsFromSplits(records[1..], from, 0);
        assert records == [records[0]] + records[1..];
      }
    }
  }

  /** What the reader returns for a file, up to its first false answer. */
  function Survivors(file: seq<byte>): seq<Record> {
    if |file| < FILE_HEADER_SIZE then [] else ReadAll(file[FILE_HEADER_SIZE..]).0
  }

  /** The calls a service makes to a new gate after a crash, given its checkpoint and what is left of the
      journal file. */
  function RestartFrom(checkpoint: CheckpointSequence, file: seq<byte>): seq<Call> {
    RestartCalls(checkpoint.partitionId, checkpoint.appliedSequence,
                 Sequences(RecordsFrom(Survivors(file), checkpoint.ReplayFromSequence())))
  }

  /** Of a journal cut after `cut` bytes, the reader returns exactly the first m records: those that fit whole. */
  predicate Leaves(sourceId: u32, tradingDay: u32, records: seq<Record>, cut: nat, m: nat)
    requires cut <= FileSize(records)
  {
    && m <= |records| && Survivors(FileImage(sourceId, tradingDay, records)[..cut]) == records[..m]
    && FileSize(records[..m]) <= cut && (m < |records| ==> cut < FileSize(records[..m + 1]))
  }

  /** Cut the journal anywhere at or after the committed offset: the records that survive include
      everything up to the checkpoint. */
  lemma CheckpointedRecordsSurvive(sourceId: u32, tradingDay: u32, records: seq<Record>, k: nat, cut: nat)
    returns (m: nat)
    requires AllReadable(records) && k <= |records| && FileSize(records[..k]) <= cut <= FileSize(records)
    ensures k <= m && Leaves(sourceId, tradingDay, records, cut, m)
  {
    hide EncodeFile, EncodeFrame, Frames, FileImage, ReadAll;
    m := ReadBackCutFile(sourceId, tradingDay, records, cut);
    if m < k {
      FileSizeMonotone(records, m + 1, k);
      assert false;
    }
  }

  lemma OrderAtBoundary(records: seq<Record>, k: nat, i: nat)
    requires Increasing(0, Sequences(records)) && 0 < k <= |records| && i < |records|
    ensures SequenceOf(records[i]) <= SequenceOf(records[k - 1]) <==> i < k
  {
    var s := Sequences(records);
    assert s[k - 1] == SequenceOf(records[k - 1]) && s[i] == SequenceOf(records[i]);
  }

  /** The survivors from the replay sequence on are exactly the survivors past the checkpoint. */
  lemma ReplayStartsPastCheckpoint(partition: u64, records: seq<Record>, k: nat, m: nat, file: seq<byte>)
    requires Increasing(0, Sequences(records)) && Addressable(records)
    requires 0 < k <= m <= |records| && SequenceOf(records[k - 1]) < MAX_U64 && Survivors(file) == records[..m]
    ensures RestartFrom(Boundary(partition, records, k), file)
         == RestartCalls(partition, SequenceOf(records[k - 1]), Sequences(records[k..m]))
  {
    hide Survivors;
    var survivors := records[..m];
    forall i | 0 <= i < m
      ensures SequenceOf(survivors[i]) <= SequenceOf(records[k - 1]) <==> i < k
    {
      OrderAtBoundary(records, k, i);
    }
    RecordsFromSplits(survivors, SequenceOf(records[k - 1]) + 1, k);
    assert survivors[k..] == records[k..m];
  }

  // ---------------------------------------------------------------------------------------------
  // The whole story

  /** `picks` says which applied calls were publishable and so reached the journal. */
  predicate Journals(records: seq<Record>, applied: seq<Call>, picks: seq<nat>) {
    && |picks| == |records|
    && (forall i :: 0 <= i < |picks| ==> picks[i] < |applied|)
    && (forall i, j :: 0 <= i < j < |picks| ==> picks[i] < picks[j])
    && (forall i :: 0 <= i < |picks| ==>
          (applied[picks[i]].Observe? || applied[picks[i]].ObserveRecovery?)
          && SequenceOf(records[i]) == applied[picks[i]].sequence)
  }

  /** The records a direct append of each of these events leaves. */
  function Recorded(events: seq<Event>, partition: u64): (records: seq<Record>)
    ensures |records| == |events|
  {
    seq(|events|, i requires 0 <= i < |events| => RecordOf(events[i], partition))
  }

  /** Events appended for the publishable numbers a gate applied, in order, journal those numbers; the reader
      accepts them all exactly when none is over 512 bytes. */
  lemma AppendedJournals(events: seq<Event>, partition: u64, applied: seq<Call>, picks: seq<nat>)
    requires |picks| == |events| && (forall i :: 0 <= i < |picks| ==> picks[i] < |applied|)
    requires forall i, j :: 0 <= i < j < |picks| ==> picks[i] < picks[j]
    requires forall i :: 0 <= i < |picks| ==> applied[picks[i]].Observe? || applied[picks[i]].ObserveRecovery?
    ensures Journals(Recorded(events, partition), applied, picks)
       <==> forall i :: 0 <= i < |picks| ==> events[i].exchangeSeq == applied[picks[i]].sequence
    ensures forall i :: 0 <= i < |events| ==> Sequences(Recorded(events, partition))[i] == events[i].exchangeSeq
    ensures AllReadable(Recorded(events, partition)) <==> forall i :: 0 <= i < |events| ==> |events[i].bytes| <= 512
  {
    var records := Recorded(events, partition);
    assert forall i :: 0 <= i < |events| ==> SequenceOf(records[i]) == events[i].exchangeSeq;
    forall i | 0 <= i < |events| ensures Readable(records[i]) <==> |events[i].bytes| <= 512 {
      EventsAreReadable(events[i], partition);
    }
  }

  /** Every applied call was published, or at least every one up to the last published. */
  predicate NothingSkipped(applied: seq<Call>, picks: seq<nat>) {
    |picks| == |applied| || forall i :: 0 <= i < |picks| ==> picks[i] == i
  }

  lemma JournalIncreases(mode: Mode, partition: u64, baseline: u64, upTo: u64, applied: seq<Call>, records: seq<Record>,
                         picks: seq<nat>)
    requires ExactlyOnce(mode, partition, baseline, upTo, applied) && baseline <= upTo
    requires Journals(records, applied, picks)
    ensures Increasing(baseline, Sequences(records))
    ensures forall i :: 0 <= i < |records| ==> SequenceOf(records[i]) <= upTo
    ensures mode == Contiguous && NothingSkipped(applied, picks) ==> Consecutive(baseline, Sequences(records))
  {
    if mode == Contiguous && |picks| == |applied| {
      FullPicksAreIdentity(picks, |applied|);
    }
  }

  lemma FullPicksAreIdentity(picks: seq<nat>, n: nat)
    requires |picks| == n && (forall i :: 0 <= i < n ==> picks[i] < n)
    requires forall i, j :: 0 <= i < j < n ==> picks[i] < picks[j]
    ensures forall i :: 0 <= i < n ==> picks[i] == i
  {
    forall i | 0 <= i < n ensures picks[i] == i {
      PicksAtLeast(picks, i);
      PicksAtMost(picks, i);
    }
  }

  lemma {:induction false} PicksAtLeast(picks: seq<nat>, i: nat)
    requires i < |picks| && forall i, j :: 0 <= i < j < |picks| ==> picks[i] < picks[j]
    ensures picks[i] >= i
  {
    if i > 0 { PicksAtLeast(picks, i - 1); }
  }

  lemma {:induction false} PicksAtMost(picks: seq<nat>, i: nat)
    requires i < |picks| && (forall i :: 0 <= i < |picks| ==> picks[i] < |picks|)
    requires forall i, j :: 0 <= i < j < |picks| ==> picks[i] < picks[j]
    ensures picks[i] <= i
    decreases |picks| - i
  {
    if i + 1 < |picks| { PicksAtMost(picks, i + 1); }
  }

  lemma PastIsIncreasing(records: seq<Record>, k: nat, m: nat)
    requires Increasing(0, Sequences(records)) && 0 < k <= m <= |records|
    ensures Increasing(SequenceOf(records[k - 1]), Sequences(records[k..m]))
  {
    var s, past := Sequences(records), Sequences(records[k..m]);
    assert s[k - 1] == SequenceOf(records[k - 1]);
    assert forall i :: 0 <= i < m - k ==> past[i] == s[k + i];
  }

  lemma PastIsConsecutive(floor: u64, records: seq<Record>, k: nat, m: nat)
    requires Consecutive(floor, Sequences(records)) && 0 < k <= m <= |records|
    ensures Consecutive(SequenceOf(records[k - 1]), Sequences(records[k..m]))
  {
    var s, past := Sequences(records), Sequences(records[k..m]);
    assert s[k - 1] == SequenceOf(records[k - 1]);
    assert forall i :: 0 <= i < m - k ==> past[i] == s[k + i];
  }

  /** At the last sequence number the replay sequence saturates: the boundary record is read again and the gate
      answers `Gap`; if the service goes on all the same, recovery completes where it stood, with nothing applied. */
  lemma RestartAtTheEnd(mode: Mode, partition: u64)
    requires partition != 0
    ensures Run(NewGate(mode), [CompleteRecovery(partition, MAX_U64), BeginRecovery]).RecoveryAnswer(partition, MAX_U64)
            == Gap
    ensures AppliesExactly(mode, partition, MAX_U64, [], RestartCalls(partition, MAX_U64, [MAX_U64]))
  {
    var g0, last := NewGate(mode), CompleteRecovery(partition, MAX_U64);
    var opening, replay := [CompleteRecovery(partition, MAX_U64), BeginRecovery], ReplayCalls(partition, [MAX_U64]);
    var g2 := Restored(mode, partition, MAX_U64);
    assert replay == [ObserveRecovery(partition, MAX_U64)] && ReplayCalls(partition, []) == [];
    SingleCall(g2, ObserveRecovery(partition, MAX_U64));
    RunConcat(g0, opening, replay);
    RunConcat(g0, opening + replay, [last]);
    SingleCall(g2, last);
  }

  lemma EndIsReplayed(partition: u64, records: seq<Record>, k: nat, m: nat, file: seq<byte>)
    requires Increasing(0, Sequences(records)) && Addressable(records)
    requires 0 < k <= m <= |records| && SequenceOf(records[k - 1]) == MAX_U64 && Survivors(file) == records[..m]
    ensures k == m == |records|
    ensures RestartFrom(Boundary(partition, records, k), file) == RestartCalls(partition, MAX_U64, [MAX_U64])
  {
    hide Survivors, RestartCalls;
    if k < |records| {
      OrderAtBoundary(records, k, k);
      assert false;
    }
    assert records[..m] == records;
    forall i | 0 <= i < k - 1 ensures SequenceOf(records[i]) < MAX_U64 {
      OrderAtBoundary(records, k, i);
      assert Sequences(records)[i] < Sequences(records)[k - 1];
    }
    RecordsFromSplits(records, MAX_U64, k - 1);
    assert records[k - 1..] == [records[k - 1]];
    assert Sequences([records[k - 1]]) == [MAX_U64];
  }

  /** Restarting from the checkpoint that names the k-th of these records, with the journal cut after `cut`
      bytes: m records survive, the checkpointed ones among them, and exactly those past the checkpoint, all of
      them later, are applied, each once. */
  ghost predicate Restarts(mode: Mode, partition: u64, sourceId: u32, tradingDay: u32, records: seq<Record>,
                           checkpoint: CheckpointSequence, cut: nat, k: nat, m: nat)
    requires Addressable(records) && cut <= FileSize(records)
  {
    && 0 < k <= m <= |records| && checkpoint == Boundary(partition, records, k)
    && Leaves(sourceId, tradingDay, records, cut, m)
    && Increasing(SequenceOf(records[k - 1]), Sequences(records[k..m]))
    && AppliesExactly(mode, partition, SequenceOf(records[k - 1]), Sequences(records[k..m]),
                      RestartFrom(checkpoint, FileImage(sourceId, tradingDay, records)[..cut]))
  }

  lemma RestartAfterCut(mode: Mode, partition: u64, sourceId: u32, tradingDay: u32, records: seq<Record>, k: nat,
                        cut: nat) returns (m: nat)
    requires AllReadable(records) && Increasing(0, Sequences(records)) && Addressable(records)
    requires partition != 0 && 0 < k <= |records| && FileSize(records[..k]) <= cut <= FileSize(records)
    ensures Restarts(mode, partition, sourceId, tradingDay, records, Boundary(partition, records, k), cut, k, m)
  {
    hide FileImage, Survivors, RestartCalls, AppliesExactly, RestartFrom;
    m := CheckpointedRecordsSurvive(sourceId, tradingDay, records, k, cut);
    PastIsIncreasing(records, k, m);
    var file := FileImage(sourceId, tradingDay, records)[..cut];
    if SequenceOf(records[k - 1]) < MAX_U64 {
      ReplayStartsPastCheckpoint(partition, records, k, m, file);
      RestartOutcome(mode, partition, SequenceOf(records[k - 1]), Sequences(records[k..m]));
    } else {
      EndIsReplayed(partition, records, k, m, file);
      assert Sequences(records[k..m]) == [];
      RestartAtTheEnd(mode, partition);
    }
  }

  /** The gate right after its baseline was set. */
  function Based(mode: Mode, partition: u64, baseline: u64): Gate {
    After(NewGate(mode), CompleteRecovery(partition, baseline))
  }

  /** What the service commits while it runs: boundaries of frames of this journal, in any order, by a coordinator
      that starts empty or was restored at such a boundary; at least one of them stands. */
  predicate Commits(records: seq<Record>, restored: nat, ks: seq<nat>) {
    && Addressable(records) && restored <= |records| && (forall i :: 0 <= i < |ks| ==> 0 < ks[i] <= |records|)
    && (restored > 0 || ks != [])
  }

  function Committed(partition: u64, records: seq<Record>, restored: nat, ks: seq<nat>): CheckpointSequence
    requires Commits(records, restored, ks)
  {
    CommitAll(CheckpointAt(partition, records, restored), Boundaries(partition, records, ks))
  }

  /** The whole story. A gate whose baseline is (partition, baseline) runs; the publishable part of what it
      applies is journalled in order; checkpoints are committed at frame boundaries, in any order; the
      machine dies and the file is cut anywhere at or after the committed offset. Restarting from the
      committed checkpoint applies each surviving record past it exactly once and none at or below it:
      always in Monotonic mode, and in Contiguous mode exactly when no survivor past the checkpoint is
      missing, in particular when every applied row was published. */
  lemma CrashAndRestart(mode: Mode, partition: u64, baseline: u64, calls: seq<Call>, records: seq<Record>,
                        picks: seq<nat>, sourceId: u32, tradingDay: u32, restored: nat, ks: seq<nat>, cut: nat)
    returns (k: nat, m: nat)
    requires partition != 0 && NoReset(calls) && NeverWrapsRound(Based(mode, partition, baseline), calls)
    requires Journals(records, Applied(Based(mode, partition, baseline), calls), picks)
    requires AllReadable(records) && Commits(records, restored, ks)
    requires Committed(partition, records, restored, ks).journalOffset <= cut <= FileSize(records)
    ensures Restarts(mode, partition, sourceId, tradingDay, records, Committed(partition, records, restored, ks), cut,
                     k, m)
    ensures mode == Contiguous && NothingSkipped(Applied(Based(mode, partition, baseline), calls), picks) ==>
              Consecutive(SequenceOf(records[k - 1]), Sequences(records[k..m]))
  {
    k := LastCommitted(mode, partition, baseline, calls, records, picks, restored, ks);
    m := RestartAfterCut(mode, partition, sourceId, tradingDay, records, k, cut);
    if Consecutive(baseline, Sequences(records)) {
      PastIsConsecutive(baseline, records, k, m);
    }
    hide Leaves, AppliesExactly, RestartFrom, Committed, Applied, Journals;
  }

  /** Before the crash: what was journalled increases, and the checkpoint names one of its boundaries. */
  lemma LastCommitted(mode: Mode, partition: u64, baseline: u64, calls: seq<Call>, records: seq<Record>,
                      picks: seq<nat>, restored: nat, ks: seq<nat>) returns (k: nat)
    requires partition != 0 && NoReset(calls) && NeverWrapsRound(Based(mode, partition, baseline), calls)
    requires Journals(records, Applied(Based(mode, partition, baseline), calls), picks)
    requires Commits(records, restored, ks)
    ensures Increasing(0, Sequences(records))
    ensures 0 < k <= |records|
    ensures Committed(partition, records, restored, ks) == Boundary(partition, records, k)
    ensures mode == Contiguous && NothingSkipped(Applied(Based(mode, partition, baseline), calls), picks) ==>
              Consecutive(baseline, Sequences(records))
  {
    hide Applied, NeverWrapsRound, ExactlyOnce, Consecutive, NothingSkipped;
    var g := Based(mode, partition, baseline);
    AppliedExactlyOnce(g, calls);
    JournalIncreases(mode, partition, baseline, Run(g, calls).lastAccepted, Applied(g, calls), records, picks);
    CommittedIsFurthest(partition, records, restored, ks);
    MaxBounds(ks, |records|);
    k := Larger(restored, Max(ks));
    hide Run, Journals, CommitAll, Boundaries;
  }
}
