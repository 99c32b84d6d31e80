/** The asynchronous journal: the market-data thread copies events into the ring, one other thread pops
    them and appends them to the file. Modelled as objects, and as a step machine in which the two
    threads interleave at every index load, slot access and index store. */
module JournalPipeline {
  import opened Words
  import opened Wrappers
  import opened ByteCodec
  import opened EventJournal
  import opened RingSteps
  import opened SpscRings

  datatype EnqueueStatus = Queued | Full | PayloadTooLarge

  /** A frame header and a fixed 512-byte buffer. */
  datatype FrameSlot = FrameSlot(header: FrameHeader, payload: seq<byte>)

  const BLANK: FrameSlot :=
    FrameSlot(FrameHeader(FRAME_MAGIC, JOURNAL_VERSION, FRAME_HEADER_SIZE, 0, 0, 0, 0, 0, 0), Zeros(MAX_PAYLOAD))

  type QueuedFrame = q: FrameSlot | |q.payload| == MAX_PAYLOAD && q.header.payloadSize <= MAX_PAYLOAD witness BLANK

  /** The event's bytes at the front of a zeroed buffer. */
  function Enframe(e: Event, partitionId: u64): (q: QueuedFrame)
    requires |e.bytes| <= MAX_PAYLOAD
    ensures Unframe(q) == RecordOf(e, partitionId)
  {
    var q := FrameSlot(FrameOf(e, partitionId), e.bytes + Zeros(MAX_PAYLOAD - |e.bytes|));
    assert q.payload[..q.header.payloadSize] == e.bytes;
    q
  }

  /** What `drain_one` hands to the writer. */
  function Unframe(q: QueuedFrame): Record {
    Record(q.header, q.payload[..q.header.payloadSize])
  }

  ghost function Unframed(frames: seq<QueuedFrame>): (records: seq<Record>)
    ensures |records| == |frames|
  {
    seq(|frames|, i requires 0 <= i < |frames| => Unframe(frames[i]))
  }

  // ---------------------------------------------------------------------------------------------
  // Objects

  class AsyncEventJournalQueue {
    const queue: SpscRing<QueuedFrame>

    ghost predicate Valid()
      reads this, queue, queue.buffer
    {
      queue.Valid()
    }

    constructor (capacity: nat)
      requires 2 <= capacity < TWO_TO_64 && IsPowerOfTwo(capacity)
      ensures Valid() && queue.Contents() == [] && queue.capacity == capacity
    {
      queue := new SpscRing(capacity, BLANK);
    }

    method TryEnqueue(event: Event, partitionId: u64) returns (status: EnqueueStatus)
      requires Valid()
      modifies queue, queue.buffer
      ensures Valid()
      ensures status == PayloadTooLarge <==> |event.bytes| > MAX_PAYLOAD
      ensures status == Full <==> |event.bytes| <= MAX_PAYLOAD && |old(queue.Contents())| == queue.capacity
      ensures Unframed(queue.Contents())
           == Unframed(old(queue.Contents())) + if status == Queued then [RecordOf(event, partitionId)] else []
    {
      if |event.bytes| > MAX_PAYLOAD {
        return PayloadTooLarge;
      }
      var frame := Enframe(event, partitionId);
      var ok := queue.TryPush(frame);
      return if ok then Queued else Full;
    }

    method DrainOne(writer: EventJournalWriter) returns (ok: bool)
      requires Valid()
      modifies queue, queue.buffer, writer
      ensures Valid()
      ensures ok ==> old(queue.Contents()) != []
      ensures old(queue.Contents()) == [] ==> writer.output == old(writer.output) && queue.Contents() == []
      ensures old(queue.Contents()) != [] ==>
                var first := Unframe(old(queue.Contents())[0]);
                && queue.Contents() == old(queue.Contents())[1..]
                && (ok <==> first.header.payloadSize == |first.payload|)
                && writer.output == old(writer.output) + Frames([first])
    {
      var popped, frame := queue.TryPop(BLANK);
      if !popped {
        return false;
      }
      ok := writer.AppendFrame(frame.header, frame.payload[..frame.header.payloadSize]);
    }
  }

  // ---------------------------------------------------------------------------------------------
  // The two threads, interleaved

  datatype Submission = Submission(event: Event, partitionId: u64)

  datatype Answer = Answer(submission: Submission, status: EnqueueStatus)

  /** `current` is the event inside `try_enqueue`; `inHand` is a popped frame not yet written; `written`
      are the records handed to the file so far. */
  datatype Pipeline = Pipeline(
    ring: Ring<QueuedFrame>, current: Submission, inHand: Option<QueuedFrame>, written: seq<Record>,
    answers: seq<Answer>)
  {
    function File(sourceId: u32, tradingDay: u32): seq<byte> {
      FileImage(sourceId, tradingDay, written)
    }
  }

  datatype Move =
    | Enqueue(submission: Submission)
    | RingStep(action: Action<QueuedFrame>)
    | WriteFrame

  ghost function Machine(capacity: nat): Config<QueuedFrame> {
    Config(capacity, true, BLANK)
  }

  ghost predicate CanMove(p: Pipeline, m: Move) {
    match m
    case Enqueue(_) => p.ring.producer.PIdle?
    case RingStep(a) =>
      Enabled(p.ring, a) && !a.PushStart? && ((a.PopStart? || a.ConsumerSizeStart?) ==> p.inHand.None?)
    case WriteFrame => p.inHand.Some?
  }

  ghost function AfterMove(capacity: nat, p: Pipeline, m: Move): Pipeline
    requires Machine(capacity).Valid() && |p.ring.buffer| == capacity && CanMove(p, m)
  {
    var c := Machine(capacity);
    match m
    case Enqueue(sub) =>
      if |sub.event.bytes| > MAX_PAYLOAD then p.(answers := p.answers + [Answer(sub, PayloadTooLarge)])
      else p.(current := sub, ring := Next(c, p.ring, PushStart(Enframe(sub.event, sub.partitionId))))
    case RingStep(a) =>
      var q := p.(ring := Next(c, p.ring, a));
      var emitted := Emits(c, p.ring, a);
      if emitted == [] then q
      else (match emitted[0]
        case Pushed(_) => q.(answers := p.answers + [Answer(p.current, Queued)])
        case RefusedFull => q.(answers := p.answers + [Answer(p.current, Full)])
        case Popped(v) => q.(inHand := Some(v))
        case RefusedEmpty => q)
    case WriteFrame =>
      p.(written := p.written + [Unframe(p.inHand.value)], inHand := None)
  }

  /** The records of the events answered `Queued`, in the order of the answers. */
  ghost function QueuedRecords(answers: seq<Answer>): seq<Record> {
    if answers == [] then [] else
      var last := answers[|answers| - 1];
      QueuedRecords(answers[..|answers| - 1])
      + if last.status == Queued then [RecordOf(last.submission.event, last.submission.partitionId)] else []
  }

  /** The events answered `Queued`, in the order of the answers. */
  function QueuedSubmissions(answers: seq<Answer>): seq<Submission> {
    if answers == [] then [] else
      var last := answers[|answers| - 1];
      QueuedSubmissions(answers[..|answers| - 1]) + if last.status == Queued then [last.submission] else []
  }

  lemma {:induction false} QueuedRecordsBear(answers: seq<Answer>)
    requires AllReadable(QueuedRecords(answers))
    ensures |QueuedRecords(answers)| == |QueuedSubmissions(answers)|
    ensures forall i :: 0 <= i < |QueuedRecords(answers)| ==>
              Bears(QueuedRecords(answers)[i], QueuedSubmissions(answers)[i].event,
                    QueuedSubmissions(answers)[i].partitionId)
  {
    if answers != [] {
      var front := answers[..|answers| - 1];
      assert forall i :: 0 <= i < |QueuedRecords(front)| ==> QueuedRecords(front)[i] == QueuedRecords(answers)[i];
      QueuedRecordsBear(front);
    }
  }

  ghost function InHandCount(p: Pipeline): nat {
    if p.inHand.Some? then 1 else 0
  }

  ghost predicate Submitting(p: Pipeline, value: QueuedFrame) {
    |p.current.event.bytes| <= MAX_PAYLOAD
    && value == Enframe(p.current.event, p.current.partitionId)
  }

  ghost predicate ProducerSubmits(p: Pipeline) {
    match p.ring.producer
    case PStarted(v, _) => Submitting(p, v)
    case PRoom(v, _) => Submitting(p, v)
    case PFilled(v, _) => Submitting(p, v)
    case _ => true
  }

  ghost predicate PipelineInv(capacity: nat, p: Pipeline) {
    Inv(Machine(capacity), p.ring) && Threads(p)
  }

  /** What ties the ring to the answers given and to the frame in the writer's hand. */
  ghost predicate Threads(p: Pipeline) {
    && ProducerSubmits(p)
    && Unframed(p.ring.pushed) == QueuedRecords(p.answers)
    && AllReadable(QueuedRecords(p.answers))
    && |p.written| + InHandCount(p) == |p.ring.popped| <= |QueuedRecords(p.answers)|
    && p.written == QueuedRecords(p.answers)[..|p.written|]
    && (p.inHand.Some? ==>
          p.ring.consumer.CIdle? && p.ring.popped != [] && p.inHand.value == p.ring.popped[|p.ring.popped| - 1])
  }

  ghost function Begin(capacity: nat): Pipeline {
    Pipeline(Start(Machine(capacity)), Submission(Event(0, 0, 0, 0, []), 0), None, [], [])
  }

  ghost predicate Moves(capacity: nat, p: Pipeline, moves: seq<Move>)
    requires Machine(capacity).Valid() && |p.ring.buffer| == capacity
    decreases |moves|
  {
    moves == [] || (CanMove(p, moves[0]) && Moves(capacity, AfterMove(capacity, p, moves[0]), moves[1..]))
  }

  ghost function AfterMoves(capacity: nat, p: Pipeline, moves: seq<Move>): Pipeline
    requires Machine(capacity).Valid() && |p.ring.buffer| == capacity && Moves(capacity, p, moves)
    decreases |moves|
  {
    if moves == [] then p else AfterMoves(capacity, AfterMove(capacity, p, moves[0]), moves[1..])
  }

  lemma AnswerAppended(answers: seq<Answer>, a: Answer)
    ensures QueuedRecords(answers + [a])
         == QueuedRecords(answers) + if a.status != Queued then []
                                     else [RecordOf(a.submission.event, a.submission.partitionId)]
  {
    assert (answers + [a])[..|answers|] == answers;
  }

  /** Writing a frame extends the file by what `append_frame` writes for it. */
  lemma WriteAppends(capacity: nat, sourceId: u32, tradingDay: u32, p: Pipeline)
    requires Machine(capacity).Valid() && |p.ring.buffer| == capacity && p.inHand.Some?
    ensures AfterMove(capacity, p, WriteFrame).File(sourceId, tradingDay)
         == p.File(sourceId, tradingDay) + Frames([Unframe(p.inHand.value)])
  {
    FramesConcat(p.written, [Unframe(p.inHand.value)]);
  }

  lemma EnqueueThreads(capacity: nat, p: Pipeline, sub: Submission)
    requires Machine(capacity).Valid() && |p.ring.buffer| == capacity && p.ring.popped <= p.ring.pushed
    requires Threads(p) && CanMove(p, Enqueue(sub))
    ensures Threads(AfterMove(capacity, p, Enqueue(sub)))
  {
    AnswerAppended(p.answers, Answer(sub, PayloadTooLarge));
  }

  lemma WriteThreads(capacity: nat, p: Pipeline)
    requires Machine(capacity).Valid() && |p.ring.buffer| == capacity && p.ring.popped <= p.ring.pushed
    requires Threads(p) && CanMove(p, WriteFrame)
    ensures Threads(AfterMove(capacity, p, WriteFrame))
  {
    var n := |p.written|;
    assert Unframed(p.ring.pushed)[n] == Unframe(p.inHand.value);
  }

  lemma PushStoreThreads(capacity: nat, p: Pipeline)
    requires Machine(capacity).Valid() && |p.ring.buffer| == capacity && p.ring.popped <= p.ring.pushed
    requires Threads(p) && CanMove(p, RingStep(PushStore))
    ensures Threads(AfterMove(capacity, p, RingStep(PushStore)))
  {
    var q := AfterMove(capacity, p, RingStep(PushStore));
    AnswerAppended(p.answers, Answer(p.current, Queued));
    var r := RecordOf(p.current.event, p.current.partitionId);
    assert Unframed(q.ring.pushed) == Unframed(p.ring.pushed) + [r];
    assert (QueuedRecords(p.answers) + [r])[..|p.written|] == QueuedRecords(p.answers)[..|p.written|];
  }

  lemma OtherThreads(capacity: nat, p: Pipeline, a: Action<QueuedFrame>)
    requires Machine(capacity).Valid() && |p.ring.buffer| == capacity && p.ring.popped <= p.ring.pushed
    requires Threads(p) && CanMove(p, RingStep(a)) && !a.PushStore?
    requires a.PopStore? ==> |p.ring.popped| < |p.ring.pushed|
    ensures Threads(AfterMove(capacity, p, RingStep(a)))
  {
    hide Inv, QueuedRecords;
    AnswerAppended(p.answers, Answer(p.current, Full));
  }

  lemma MoveInv(capacity: nat, p: Pipeline, m: Move)
    requires PipelineInv(capacity, p) && CanMove(p, m)
    ensures PipelineInv(capacity, AfterMove(capacity, p, m))
  {
    match m
    case Enqueue(sub) =>
      EnqueueThreads(capacity, p, sub);
      if |sub.event.bytes| <= MAX_PAYLOAD {
        StepInv(Machine(capacity), p.ring, PushStart(Enframe(sub.event, sub.partitionId)));
      }
    case WriteFrame =>
      WriteThreads(capacity, p);
    case RingStep(a) =>
      StepInv(Machine(capacity), p.ring, a);
      if a.PushStore? {
        PushStoreThreads(capacity, p);
      } else {
        OtherThreads(capacity, p, a);
      }
  }

  lemma {:induction false} MovesInv(capacity: nat, p: Pipeline, moves: seq<Move>)
    requires PipelineInv(capacity, p) && Moves(capacity, p, moves)
    ensures PipelineInv(capacity, AfterMoves(capacity, p, moves))
    decreases |moves|
  {
    if moves != [] {
      MoveInv(capacity, p, moves[0]);
      MovesInv(capacity, AfterMove(capacity, p, moves[0]), moves[1..]);
    }
  }

  /** Every answer given is about size exactly when the event has more than 512 bytes, and the event last let into
      the ring has no more. */
  ghost predicate SizesRight(p: Pipeline) {
    && (forall i :: 0 <= i < |p.answers| ==>
          (p.answers[i].status == PayloadTooLarge <==> |p.answers[i].submission.event.bytes| > 512))
    && |p.current.event.bytes| <= 512
  }

  lemma MoveKeepsSizes(capacity: nat, p: Pipeline, m: Move)
    requires Machine(capacity).Valid() && |p.ring.buffer| == capacity && CanMove(p, m) && SizesRight(p)
    ensures SizesRight(AfterMove(capacity, p, m))
  {
    var q := AfterMove(capacity, p, m);
    if |q.answers| > |p.answers| {
      assert q.answers[..|p.answers|] == p.answers;
    }
  }

  lemma {:induction false} MovesKeepSizes(capacity: nat, p: Pipeline, moves: seq<Move>)
    requires PipelineInv(capacity, p) && Moves(capacity, p, moves) && SizesRight(p)
    ensures SizesRight(AfterMoves(capacity, p, moves))
    decreases |moves|
  {
    hide SizesRight;
    if moves != [] {
      MoveKeepsSizes(capacity, p, moves[0]);
      MoveInv(capacity, p, moves[0]);
      MovesKeepSizes(capacity, AfterMove(capacity, p, moves[0]), moves[1..]);
    }
  }

  /** For every interleaving, `PayloadTooLarge` is answered to exactly the events over 512 bytes. */
  lemma TooLargeIff(capacity: nat, moves: seq<Move>)
    requires Machine(capacity).Valid() && Moves(capacity, Begin(capacity), moves)
    ensures var answers := AfterMoves(capacity, Begin(capacity), moves).answers;
            forall i :: 0 <= i < |answers| ==>
              (answers[i].status == PayloadTooLarge <==> |answers[i].submission.event.bytes| > 512)
  {
    StartInv(Machine(capacity));
    MovesKeepSizes(capacity, Begin(capacity), moves);
    hide AfterMoves, Moves, Inv;
  }

  /** For every interleaving of enqueuing and draining, at every instant: the file is byte for byte what
      direct appends of a prefix of the events answered `Queued` would have written (no event answered
      `Full` is in it), and once the ring is drained it holds all of them. */
  lemma FileHoldsQueuedPrefix(capacity: nat, sourceId: u32, tradingDay: u32, moves: seq<Move>)
    requires Machine(capacity).Valid() && Moves(capacity, Begin(capacity), moves)
    ensures var p := AfterMoves(capacity, Begin(capacity), moves);
            && AllReadable(QueuedRecords(p.answers))
            && |p.written| <= |QueuedRecords(p.answers)| && p.written == QueuedRecords(p.answers)[..|p.written|]
            && p.File(sourceId, tradingDay) == FileImage(sourceId, tradingDay, QueuedRecords(p.answers)[..|p.written|])
            && (p.inHand.None? && p.ring.readIndex == p.ring.writeIndex ==>
                  p.File(sourceId, tradingDay) == FileImage(sourceId, tradingDay, QueuedRecords(p.answers)))
  {
    StartInv(Machine(capacity));
    MovesInv(capacity, Begin(capacity), moves);
    var p := AfterMoves(capacity, Begin(capacity), moves);
    CountersFaithful(Machine(capacity), |p.ring.pushed|, |p.ring.popped|);
    assert QueuedRecords(p.answers)[..|QueuedRecords(p.answers)|] == QueuedRecords(p.answers);
  }

  /** A cut of the journal file after `cut` bytes reads back as the first k of these records, all those whose
      frames fit whole, and then the end of the file exactly when the cut is on a frame boundary, or else a
      torn tail. */
  predicate ReadsBackFirst(queued: seq<Record>, written: nat, file: seq<byte>, cut: nat, k: nat)
    requires FILE_HEADER_SIZE <= cut <= |file|
  {
    && k <= written <= |queued| && FileSize(queued[..k]) <= cut && (k < written ==> cut < FileSize(queued[..k + 1]))
    && ReadAll(file[..cut][FILE_HEADER_SIZE..])
       == (queued[..k], if cut == FileSize(queued[..k]) then EndOfFile else TruncatedTail)
  }

  /** And a crash at any instant that keeps at least the file header loses only a suffix: what the reader
      gets back is the prefix of the events answered `Queued` whose frames survived whole, each with its own
      header and bytes, and the end of the readable part is never reported as corruption. */
  lemma CrashKeepsQueuedPrefix(capacity: nat, sourceId: u32, tradingDay: u32, moves: seq<Move>, cut: nat)
    returns (k: nat)
    requires Machine(capacity).Valid() && Moves(capacity, Begin(capacity), moves)
    requires FILE_HEADER_SIZE <= cut <= |AfterMoves(capacity, Begin(capacity), moves).File(sourceId, tradingDay)|
    ensures var p := AfterMoves(capacity, Begin(capacity), moves);
            ReadsBackFirst(QueuedRecords(p.answers), |p.written|, p.File(sourceId, tradingDay), cut, k)
  {
    hide FileImage, Inv, Frames, Classify, Moves, AfterMoves, QueuedRecords, ReadAll;
    FileHoldsQueuedPrefix(capacity, sourceId, tradingDay, moves);
    var p := AfterMoves(capacity, Begin(capacity), moves);
    k := ReadBackCutFile(sourceId, tradingDay, p.written, cut);
    var queued := QueuedRecords(p.answers);
    assert p.written[..k] == queued[..k];
    assert k < |p.written| ==> p.written[..k + 1] == queued[..k + 1];
  }

  /** Said of the events themselves: the i-th record read back carries the i-th event answered `Queued`, with its
      exchange sequence, event sequence, partition, kind, schema and bytes. */
  lemma CrashKeepsQueuedEvents(capacity: nat, sourceId: u32, tradingDay: u32, moves: seq<Move>, cut: nat)
    returns (k: nat)
    requires Machine(capacity).Valid() && Moves(capacity, Begin(capacity), moves)
    requires FILE_HEADER_SIZE <= cut <= |AfterMoves(capacity, Begin(capacity), moves).File(sourceId, tradingDay)|
    ensures var p := AfterMoves(capacity, Begin(capacity), moves);
            var (read, status) := ReadAll(p.File(sourceId, tradingDay)[..cut][FILE_HEADER_SIZE..]);
            var queued := QueuedSubmissions(p.answers);
            && |read| == k <= |p.written| <= |queued| && status in {EndOfFile, TruncatedTail}
            && (forall i :: 0 <= i < k ==> Bears(read[i], queued[i].event, queued[i].partitionId))
            && (cut == |p.File(sourceId, tradingDay)| ==> k == |p.written|)
  {
    hide FileImage, Inv, Frames, Classify, Moves, AfterMoves, QueuedRecords, QueuedSubmissions, ReadAll, Bears;
    FileHoldsQueuedPrefix(capacity, sourceId, tradingDay, moves);
    var p := AfterMoves(capacity, Begin(capacity), moves);
    QueuedRecordsBear(p.answers);
    k := CrashKeepsQueuedPrefix(capacity, sourceId, tradingDay, moves, cut);
    if k < |p.written| {
      assert p.written == p.written[..k + 1] + p.written[k + 1..];
      FramesSizeConcat(p.written[..k + 1], p.written[k + 1..]);
      assert p.written[..k + 1] == QueuedRecords(p.answers)[..k + 1];
    }
  }
}
