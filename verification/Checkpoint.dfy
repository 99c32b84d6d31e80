/** The recovery boundary: the last sequence every downstream has applied, and how much of the journal
    was durable by then. */
module Checkpoints {
  import opened Words

  datatype CheckpointSequence = CheckpointSequence(partitionId: u64, appliedSequence: u64, journalOffset: u64)
  {
    function ReplayFromSequence(): u64 {
      if appliedSequence == MAX_U64 then MAX_U64 else appliedSequence + 1
    }

    /** A restart replays the records of these sequences. */
    predicate Replays(sequence: u64) {
      sequence >= ReplayFromSequence()
    }

    predicate Valid() {
      partitionId != 0 && appliedSequence != 0
    }

    /** `next` may replace this checkpoint: same partition, later sequence, no shorter journal. */
    predicate Admits(next: CheckpointSequence) {
      next.Valid() && (Valid() ==> next.partitionId == partitionId && next.appliedSequence > appliedSequence
                                   && next.journalOffset >= journalOffset)
    }

    function Commit(next: CheckpointSequence): CheckpointSequence {
      if Admits(next) then next else this
    }
  }

  const NO_CHECKPOINT := CheckpointSequence(0, 0, 0)

  class CheckpointCoordinator {
    var committed: CheckpointSequence

    constructor (restored: CheckpointSequence)
      ensures committed == restored
    {
      committed := restored;
    }

    method Commit(partitionId: u64, appliedSequence: u64, durableJournalOffset: u64) returns (ok: bool)
      modifies this
      ensures ok <==> old(committed).Admits(CheckpointSequence(partitionId, appliedSequence, durableJournalOffset))
      ensures committed == old(committed).Commit(CheckpointSequence(partitionId, appliedSequence, durableJournalOffset))
      ensures committed == if ok then CheckpointSequence(partitionId, appliedSequence, durableJournalOffset)
                           else old(committed)
    {
      if partitionId == 0 || appliedSequence == 0 ||
         (committed.Valid() &&
          (partitionId != committed.partitionId || appliedSequence <= committed.appliedSequence ||
           durableJournalOffset < committed.journalOffset))
      {
        return false;
      }
      committed := CheckpointSequence(partitionId, appliedSequence, durableJournalOffset);
      return true;
    }
  }

  /** Replaying from the replay sequence re-applies nothing exactly while the boundary is below 2^64-1, where the
      replay sequence saturates at the boundary itself. */
  lemma ReplaySkipsAppliedIff(c: CheckpointSequence)
    ensures (forall s: u64 :: c.Replays(s) <==> s > c.appliedSequence) <==> c.appliedSequence != MAX_U64
  {
    if c.appliedSequence == MAX_U64 {
      assert c.Replays(c.appliedSequence);
    }
  }

  function CommitAll(c: CheckpointSequence, requests: seq<CheckpointSequence>): CheckpointSequence {
    if requests == [] then c else CommitAll(c, requests[..|requests| - 1]).Commit(requests[|requests| - 1])
  }

  /** Whatever is asked of a coordinator that has a checkpoint, of whatever partition and in whatever order: it
      stays with its partition, moves only forward in sequence and offset, ends at the start or at a request
      later than it, and leaves nothing behind: no request of the partition is later than the end without its
      journal being shorter. */
  lemma {:induction false} CommitsOnlyAdvance(c: CheckpointSequence, requests: seq<CheckpointSequence>)
    requires c.partitionId != 0 && c.appliedSequence != 0
    ensures var d := CommitAll(c, requests);
            && d.partitionId == c.partitionId
            && d.appliedSequence >= c.appliedSequence && d.journalOffset >= c.journalOffset
            && (d == c || (d in requests && d.appliedSequence > c.appliedSequence))
            && (forall i :: 0 <= i < |requests| && requests[i].partitionId == c.partitionId ==>
                  requests[i].appliedSequence <= d.appliedSequence || requests[i].journalOffset < d.journalOffset)
  {
    if requests != [] {
      var front := requests[..|requests| - 1];
      CommitsOnlyAdvance(c, front);
      assert forall i :: 0 <= i < |front| ==> front[i] == requests[i];
    }
  }

  /** The next request is committed exactly when it is of the same partition, later, and of no shorter journal
      than what stands after all the requests before it; otherwise it changes nothing. */
  lemma NextIsCommittedIff(c: CheckpointSequence, requests: seq<CheckpointSequence>, next: CheckpointSequence)
    requires c.partitionId != 0 && c.appliedSequence != 0
    ensures var d := CommitAll(c, requests);
            CommitAll(c, requests + [next])
            == if next.partitionId == c.partitionId && next.appliedSequence > d.appliedSequence
                  && next.journalOffset >= d.journalOffset then next else d
  {
    CommitsOnlyAdvance(c, requests);
    assert (requests + [next])[..|requests|] == requests;
  }

  /** A coordinator without a checkpoint ignores requests without a partition or a sequence, and takes the first
      one that has both, whatever it is. */
  lemma {:induction false} FirstIsCommitted(c: CheckpointSequence, requests: seq<CheckpointSequence>,
                                            next: CheckpointSequence)
    requires c.partitionId == 0 || c.appliedSequence == 0
    requires forall r :: r in requests ==> r.partitionId == 0 || r.appliedSequence == 0
    ensures CommitAll(c, requests) == c
    ensures next.partitionId != 0 && next.appliedSequence != 0 ==> CommitAll(c, requests + [next]) == next
  {
    assert (requests + [next])[..|requests|] == requests;
    if requests != [] {
      var n := |requests| - 1;
      assert requests[n] in requests && forall r :: r in requests[..n] ==> r in requests;
      FirstIsCommitted(c, requests[..n], next);
    }
  }
}
