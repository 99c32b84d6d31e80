/** The bounded message log: raw feed messages with their envelopes, under a byte budget. */
module MessageLogs {
  import opened Words
  import opened ByteCodec
  import opened MarketEvents

  const LOG_MAGIC: u64 := 0x0031_4753_4D46_444D  // "MDFMSG1\0", little-endian
  const FRAME_MAGIC: u32 := 0x4647_534D          // "MSGF", little-endian
  const FORMAT_VERSION: u16 := 1
  const ENDIAN_CHECK: u32 := 0x0102_0304
  const FILE_HEADER_SIZE: nat := 64
  const FRAME_HEADER_SIZE: nat := 128

  datatype FileHeader = FileHeader(
    magic: u64, version: u16, headerSize: u16, flags: u32, endianCheck: u32, createdTsNs: u64, sourceId: u32,
    writerId: u32, maxTotalBytes: u64)

  datatype FrameHeader = FrameHeader(
    magic: u32, version: u16, headerSize: u16, payloadKind: u16, payloadEncoding: u8, protocol: u8, compression: u8,
    payloadSize: u32, sourceId: u32, venueId: u32, connectionId: u32, feedId: u32, instrumentId: u32,
    captureSeq: u64, eventSeq: u64, exchangeSeq: u64, sourceTsNs: u64, recvTsNs: u64, publishTsNs: u64, flags: u32)

  /** A frame as it lies in the file. */
  datatype Record = Record(header: FrameHeader, payload: seq<byte>)

  /** A message handed to the writer. */
  datatype Message = Message(envelope: MessageEnvelope, payload: seq<byte>)
  {
    function FrameBytes(): nat {
      FRAME_HEADER_SIZE + |payload|
    }

    predicate Admissible() {
      |payload| <= MAX_U32
    }

    /** What a reader should see: the schema version is reset, the payload size is the actual one. */
    function Restored(): Message
      requires Admissible()
    {
      this.(envelope := envelope.(schemaVersion := 1, payloadSize := |payload|))
    }
  }

  // ---------------------------------------------------------------------------------------------
  // Byte images

  const FILE_WIDTHS: seq<nat> := [8, 2, 2, 4, 4, 8, 4, 4, 8, 20]
  const FRAME_WIDTHS: seq<nat> := [4, 2, 2, 2, 1, 1, 1, 1, 4, 4, 4, 4, 4, 4, 8, 8, 8, 8, 8, 8, 4, 38]

  function FileFields(h: FileHeader): seq<nat> {
    [h.magic, h.version, h.headerSize, h.flags, h.endianCheck, h.createdTsNs, h.sourceId, h.writerId, h.maxTotalBytes,
     0]
  }

  function FrameFields(h: FrameHeader): seq<nat> {
    [h.magic, h.version, h.headerSize, h.payloadKind, h.payloadEncoding, h.protocol, h.compression, 0, h.payloadSize,
     h.sourceId, h.venueId, h.connectionId, h.feedId, h.instrumentId, h.captureSeq, h.eventSeq, h.exchangeSeq,
     h.sourceTsNs, h.recvTsNs, h.publishTsNs, h.flags, 0]
  }

  lemma FileTotal()
    ensures Total(FILE_WIDTHS) == FILE_HEADER_SIZE
  {
    assert Total([8, 2, 2, 4, 4, 8, 4, 4, 8, 20]) == 64;
  }

  lemma NarrowTotal()
    ensures Total([4, 2, 2, 2, 1, 1, 1, 1]) == 14
  {
  }

  lemma MiddleTotal()
    ensures Total([4, 4, 4, 4, 4, 4]) == 24
  {
  }

  lemma WideTotal()
    ensures Total([8, 8, 8, 8, 8, 8, 4, 38]) == 90
  {
  }

  lemma FrameTotal()
    ensures Total(FRAME_WIDTHS) == FRAME_HEADER_SIZE
  {
    hide Total;
    var narrow, middle, wide := [4, 2, 2, 2, 1, 1, 1, 1], [4, 4, 4, 4, 4, 4], [8, 8, 8, 8, 8, 8, 4, 38];
    assert FRAME_WIDTHS == (narrow + middle) + wide;
    TotalConcat(narrow + middle, wide);
    TotalConcat(narrow, middle);
    NarrowTotal();
    MiddleTotal();
    WideTotal();
  }

  function EncodeFile(h: FileHeader): (b: seq<byte>)
    ensures |b| == FILE_HEADER_SIZE
  {
    FileTotal();
    Pack(FILE_WIDTHS, FileFields(h))
  }

  function EncodeFrame(h: FrameHeader): (b: seq<byte>)
    ensures |b| == FRAME_HEADER_SIZE
  {
    FrameTotal();
    Pack(FRAME_WIDTHS, FrameFields(h))
  }

  lemma FileFieldsFit(v: seq<nat>)
    requires Fits(FILE_WIDTHS, v)
    ensures |v| == 10 && v[0] < TWO_TO_64 && v[1] < 0x1_0000 && v[2] < 0x1_0000 && v[3] < 0x1_0000_0000
            && v[4] < 0x1_0000_0000
    ensures v[5] < TWO_TO_64 && v[6] < 0x1_0000_0000 && v[7] < 0x1_0000_0000 && v[8] < TWO_TO_64
  {
    hide Range;
    Ranges();
    assert FILE_WIDTHS[3] == FILE_WIDTHS[4] == FILE_WIDTHS[6] == FILE_WIDTHS[7] == 4;
    assert FILE_WIDTHS[0] == FILE_WIDTHS[5] == FILE_WIDTHS[8] == 8;
  }

  function DecodeFile(b: seq<byte>): FileHeader
    requires |b| == FILE_HEADER_SIZE
  {
    FileTotal();
    var v := Unpack(FILE_WIDTHS, b);
    FileFieldsFit(v);
    FileHeader(v[0], v[1], v[2], v[3], v[4], v[5], v[6], v[7], v[8])
  }

  predicate AllBelow(v: seq<nat>, from: nat, to: nat, bound: nat)
    requires from <= to <= |v|
  {
    forall i :: from <= i < to ==> v[i] < bound
  }

  lemma FieldsFit(v: seq<nat>)
    requires Fits(FRAME_WIDTHS, v)
    ensures |v| == 22 && v[0] < 0x1_0000_0000 && v[20] < 0x1_0000_0000
    ensures AllBelow(v, 1, 4, 0x1_0000) && AllBelow(v, 4, 8, 0x100) && AllBelow(v, 8, 14, 0x1_0000_0000)
    ensures AllBelow(v, 14, 20, TWO_TO_64)
  {
    hide Range;
    Ranges();
    assert forall i :: 1 <= i < 4 ==> FRAME_WIDTHS[i] == 2;
    assert forall i :: 4 <= i < 8 ==> FRAME_WIDTHS[i] == 1;
    assert forall i :: 8 <= i < 14 ==> FRAME_WIDTHS[i] == 4;
    assert forall i :: 14 <= i < 20 ==> FRAME_WIDTHS[i] == 8;
  }

  function DecodeFrame(b: seq<byte>): FrameHeader
    requires |b| == FRAME_HEADER_SIZE
  {
    FrameTotal();
    var v := Unpack(FRAME_WIDTHS, b);
    FieldsFit(v);
    FrameHeader(v[0], v[1], v[2], v[3], v[4], v[5], v[6], v[8], v[9], v[10], v[11], v[12], v[13], v[14], v[15], v[16],
                v[17], v[18], v[19], v[20])
  }

  lemma FileRoundTrip(h: FileHeader)
    ensures DecodeFile(EncodeFile(h)) == h
  {
    hide Pack, Unpack, Range;
    Ranges();
    UnpackPack(FILE_WIDTHS, FileFields(h));
  }

  lemma FrameRoundTrip(h: FrameHeader)
    ensures DecodeFrame(EncodeFrame(h)) == h
  {
    hide Pack, Unpack, Range;
    Ranges();
    UnpackPack(FRAME_WIDTHS, FrameFields(h));
  }

  function Image(r: Record): (b: seq<byte>)
    ensures |b| == FRAME_HEADER_SIZE + |r.payload|
  {
    EncodeFrame(r.header) + r.payload
  }

  function FramesSize(records: seq<Record>): nat {
    if records == [] then 0 else FRAME_HEADER_SIZE + |records[0].payload| + FramesSize(records[1..])
  }

  function Frames(records: seq<Record>): (b: seq<byte>)
    ensures |b| == FramesSize(records)
  {
    if records == [] then [] else Image(records[0]) + Frames(records[1..])
  }

  // ---------------------------------------------------------------------------------------------
  // Envelopes

  function HeaderOf(e: MessageEnvelope, payloadSize: nat): FrameHeader {
    FrameHeader(FRAME_MAGIC, FORMAT_VERSION, FRAME_HEADER_SIZE, e.payloadKind, e.payloadEncoding, e.protocol,
                e.compression, if payloadSize > MAX_U32 then MAX_U32 else payloadSize,
                e.sourceId, e.venueId, e.connectionId, e.feedId, e.instrumentId, e.captureSeq, e.eventSeq,
                e.exchangeSeq, e.sourceTsNs, e.recvTsNs, e.publishTsNs, e.flags)
  }

  /** The schema version is not stored: a read envelope has the default one. */
  function EnvelopeOf(h: FrameHeader): MessageEnvelope {
    MessageEnvelope(1, h.payloadKind, h.payloadEncoding, h.protocol, h.compression, h.sourceId, h.venueId,
                    h.connectionId, h.feedId, h.instrumentId, h.captureSeq, h.eventSeq, h.exchangeSeq, h.sourceTsNs,
                    h.recvTsNs, h.publishTsNs, h.payloadSize, h.flags)
  }

  function RecordOf(m: Message): Record {
    Record(HeaderOf(m.envelope, |m.payload|), m.payload)
  }

  function RecordsOf(messages: seq<Message>): (records: seq<Record>)
    ensures |records| == |messages|
  {
    seq(|messages|, i requires 0 <= i < |messages| => RecordOf(messages[i]))
  }

  /** What reading a record back gives the consumer. */
  function MessageOf(r: Record): Message {
    Message(EnvelopeOf(r.header), r.payload)
  }

  // ---------------------------------------------------------------------------------------------
  // Writer

  datatype LimitPolicy = StopRecording | DropNew | RotateDeleteOldest

  datatype AppendStatus =
    | Written | DroppedByLimit | StoppedByLimit | WriterClosed | PayloadTooLarge | RotateNotImplemented

  /** An answer, with the counters as they stand after it. */
  datatype AppendResult = AppendResult(status: AppendStatus, bytesWritten: u64, framesWritten: u64)

  datatype Options = Options(maxTotalBytes: u64, limitPolicy: LimitPolicy, sourceId: u32, writerId: u32)

  /** The writer's state and the bytes it has put in the file. */
  datatype Log = Log(options: Options, isOpen: bool, limited: bool, bytesWritten: u64, framesWritten: u64,
                     file: seq<byte>)
  {
    /** The frame would take the file past its budget; a zero budget is no budget. */
    predicate OverBudget(m: Message) {
      options.maxTotalBytes != 0 && bytesWritten + m.FrameBytes() > options.maxTotalBytes
    }

    function Answer(m: Message): AppendStatus {
      if !isOpen then WriterClosed
      else if limited then StoppedByLimit
      else if !m.Admissible() then AppendStatus.PayloadTooLarge
      else if !OverBudget(m) then Written
      else match options.limitPolicy
        case StopRecording => StoppedByLimit
        case DropNew => DroppedByLimit
        case RotateDeleteOldest => RotateNotImplemented
    }

    /** Only a written message changes the file and the counters; every policy but DropNew stops for good at
        the first message that does not fit. */
    function After(m: Message): Log {
      match Answer(m)
      case Written => this.(bytesWritten := Wrap(bytesWritten + m.FrameBytes()),
                            framesWritten := Wrap(framesWritten + 1),
                            file := file + Image(RecordOf(m)))
      case StoppedByLimit => this.(limited := true)
      case RotateNotImplemented => this.(limited := true)
      case _ => this
    }
  }

  function NewFileHeader(o: Options, createdTsNs: u64): FileHeader {
    FileHeader(LOG_MAGIC, FORMAT_VERSION, FILE_HEADER_SIZE, 0, ENDIAN_CHECK, createdTsNs, o.sourceId, o.writerId,
               o.maxTotalBytes)
  }

  function NewLog(o: Options, createdTsNs: u64): Log {
    Log(o, true, false, FILE_HEADER_SIZE, 0, EncodeFile(NewFileHeader(o, createdTsNs)))
  }

  class MessageLogWriter {
    var options: Options
    var output: seq<byte>
    var isOpen: bool
    var bytesWritten: u64
    var framesWritten: u64
    var limited: bool

    function View(): Log
      reads this
    {
      Log(options, isOpen, limited, bytesWritten, framesWritten, output)
    }

    constructor ()
      ensures !isOpen && !limited && bytesWritten == framesWritten == 0
    {
      options, output := Options(100 * 1024 * 1024, StopRecording, 0, 0), [];
      isOpen, bytesWritten, framesWritten, limited := false, 0, 0, false;
    }

    method Open(options: Options, createdTsNs: u64)
      modifies this
      ensures View() == NewLog(options, createdTsNs)
    {
      hide EncodeFile;
      this.options := options;
      limited, bytesWritten, framesWritten := false, 0, 0;
      output := EncodeFile(FileHeader(LOG_MAGIC, FORMAT_VERSION, FILE_HEADER_SIZE, 0, ENDIAN_CHECK, createdTsNs,
                                      options.sourceId, options.writerId, options.maxTotalBytes));
      isOpen := true;
      bytesWritten := FILE_HEADER_SIZE;
    }

    method WouldExceedLimit(nextFrameBytes: nat) returns (exceeds: bool)
      ensures exceeds <==> options.maxTotalBytes != 0 && bytesWritten + nextFrameBytes > options.maxTotalBytes
    {
      if options.maxTotalBytes == 0 {
        return false;
      }
      if bytesWritten > options.maxTotalBytes {
        return true;
      }
      return nextFrameBytes > options.maxTotalBytes - bytesWritten;
    }

    method HandleLimit() returns (result: AppendResult)
      modifies this`limited
      ensures result.status == match options.limitPolicy
                               case StopRecording => StoppedByLimit
                               case DropNew => DroppedByLimit
                               case RotateDeleteOldest => RotateNotImplemented
      ensures result.bytesWritten == bytesWritten && result.framesWritten == framesWritten
      ensures limited == (old(limited) || options.limitPolicy != DropNew)
    {
      match options.limitPolicy {
        case StopRecording =>
          limited := true;
          return AppendResult(StoppedByLimit, bytesWritten, framesWritten);
        case DropNew =>
          return AppendResult(DroppedByLimit, bytesWritten, framesWritten);
        case RotateDeleteOldest =>
          limited := true;
          return AppendResult(RotateNotImplemented, bytesWritten, framesWritten);
      }
    }

    method WriteFrame(m: Message)
      modifies this`output
      ensures output == old(output) + Image(RecordOf(m))
    {
      hide EncodeFrame;
      output := output + EncodeFrame(HeaderOf(m.envelope, |m.payload|));
      if m.payload != [] {
        output := output + m.payload;
      }
    }

    method Append(m: Message) returns (result: AppendResult)
      modifies this
      ensures View() == old(View()).After(m)
      ensures result == AppendResult(old(View()).Answer(m), bytesWritten, framesWritten)
    {
      hide Image, RecordOf, Wrap;
      if !isOpen {
        return AppendResult(WriterClosed, bytesWritten, framesWritten);
      }
      if limited {
        return AppendResult(StoppedByLimit, bytesWritten, framesWritten);
      }
      if |m.payload| > MAX_U32 {
        return AppendResult(AppendStatus.PayloadTooLarge, bytesWritten, framesWritten);
      }
      var frameBytes := FRAME_HEADER_SIZE + |m.payload|;
      var exceeds := WouldExceedLimit(frameBytes);
      if exceeds {
        result := HandleLimit();
        return;
      }
      WriteFrame(m);
      bytesWritten := Wrap(bytesWritten as int + frameBytes);
      framesWritten := Wrap(framesWritten as int + 1);
      return AppendResult(Written, bytesWritten, framesWritten);
    }

    method Close()
      modifies this`isOpen
      ensures View() == old(View()).(isOpen := false)
    {
      isOpen := false;
    }
  }

  // ---------------------------------------------------------------------------------------------
  // Runs of appends

  function Run(l: Log, messages: seq<Message>): Log
    decreases messages
  {
    if messages == [] then l else Run(l.After(messages[0]), messages[1..])
  }

  /** The messages answered `Written`, in order. */
  function Kept(l: Log, messages: seq<Message>): seq<Message>
    decreases messages
  {
    if messages == [] then [] else
      (if l.Answer(messages[0]) == Written then [messages[0]] else []) + Kept(l.After(messages[0]), messages[1..])
  }

  function TotalBytes(messages: seq<Message>): nat {
    if messages == [] then 0 else messages[0].FrameBytes() + TotalBytes(messages[1..])
  }

  /** The file holds what was counted: exactly under a budget, modulo 2^64 without one. */
  predicate Counted(l: Log) {
    && l.bytesWritten == Wrap(|l.file|)
    && (l.options.maxTotalBytes != 0 ==>
          l.bytesWritten == |l.file| <= if l.options.maxTotalBytes < FILE_HEADER_SIZE then FILE_HEADER_SIZE
                                        else l.options.maxTotalBytes)
  }

  lemma AppendKeepsCount(l: Log, m: Message)
    requires Counted(l)
    ensures Counted(l.After(m)) && l.After(m).options == l.options && l.After(m).isOpen == l.isOpen
    ensures if l.Answer(m) == Written
            then && l.After(m).file == l.file + Image(RecordOf(m)) && |l.After(m).file| == |l.file| + m.FrameBytes()
                 && l.After(m).framesWritten == Wrap(l.framesWritten as int + 1) && l.After(m).limited == l.limited
            else l.After(m) == l || (l.After(m) == l.(limited := true) && l.options.limitPolicy != DropNew)
  {
    hide EncodeFrame;
    if l.Answer(m) == Written {
      WrapPlus(|l.file|, m.FrameBytes());
    }
  }

  lemma KeepOne(m: Message, more: seq<Message>)
    ensures Frames(RecordsOf([m] + more)) == Image(RecordOf(m)) + Frames(RecordsOf(more))
    ensures TotalBytes([m] + more) == m.FrameBytes() + TotalBytes(more)
  {
    assert ([m] + more)[1..] == more;
    assert RecordsOf([m] + more)[1..] == RecordsOf(more);
  }

  /** From one state to a later one: the file grew by the frames of these messages, and the counters count them. */
  predicate Grew(from: Log, to: Log, kept: seq<Message>) {
    && to.file == from.file + Frames(RecordsOf(kept)) && |to.file| == |from.file| + TotalBytes(kept)
    && to.framesWritten == Wrap(from.framesWritten as int + |kept|) && to.options == from.options
  }

  lemma GrewOne(from: Log, next: Log, to: Log, m: Message, more: seq<Message>)
    requires next.file == from.file + Image(RecordOf(m)) && |next.file| == |from.file| + m.FrameBytes()
    requires next.framesWritten == Wrap(from.framesWritten as int + 1) && next.options == from.options
    requires Grew(next, to, more)
    ensures Grew(from, to, [m] + more)
  {
    hide Image, RecordOf, Frames, RecordsOf, TotalBytes, Wrap;
    KeepOne(m, more);
    var image, frames := Image(RecordOf(m)), Frames(RecordsOf(more));
    assert (from.file + image) + frames == from.file + (image + frames);
    WrapPlus(from.framesWritten as int + 1, |more|);
  }

  /** A refused message moves nothing that growth looks at. */
  lemma GrewUnchanged(from: Log, next: Log, to: Log, kept: seq<Message>)
    requires (next == from || next == from.(limited := true)) && Grew(next, to, kept)
    ensures Grew(from, to, kept)
  {
    hide Frames, RecordsOf, TotalBytes, Wrap;
  }

  lemma GrewNothing(l: Log)
    ensures Grew(l, l, [])
  {
    assert Frames(RecordsOf([])) == [];
  }

  /** Over every run of appends: the file is what it was plus the frames of the kept messages, in order;
      the counters count them; and under a budget the file never outgrows it (nor its own header). */
  lemma {:induction false} FileHoldsKept(l: Log, messages: seq<Message>)
    requires Counted(l)
    ensures Grew(l, Run(l, messages), Kept(l, messages)) && Counted(Run(l, messages))
    decreases messages
  {
    if messages == [] {
      GrewNothing(l);
    } else {
      hide Image, Counted, Log.After, Log.Answer, RecordOf, Kept, Wrap, Admissibles, Grew, TotalBytes;
      var m := messages[0];
      var next := l.After(m);
      KeptCons(l, messages);
      AppendKeepsCount(l, m);
      FileHoldsKept(next, messages[1..]);
      if l.Answer(m) == Written {
        GrewOne(l, next, Run(l, messages), m, Kept(next, messages[1..]));
      } else {
        GrewUnchanged(l, next, Run(l, messages), Kept(next, messages[1..]));
      }
    }
  }

  function Admissibles(messages: seq<Message>): seq<Message> {
    if messages == [] then [] else (if messages[0].Admissible() then [messages[0]] else []) + Admissibles(messages[1..])
  }

  /** `used` bytes and these messages stay within the budget. */
  predicate WithinBudget(o: Options, used: nat, messages: seq<Message>) {
    o.maxTotalBytes == 0 || used + TotalBytes(messages) <= o.maxTotalBytes
  }

  lemma {:induction false} StoppedKeepsNothing(l: Log, messages: seq<Message>)
    requires l.limited || !l.isOpen
    ensures Kept(l, messages) == []
    decreases messages
  {
    if messages != [] {
      StoppedKeepsNothing(l.After(messages[0]), messages[1..]);
    }
  }

  /** One append to an open log that has not been stopped, in terms of the budget. */
  predicate Stepped(l: Log, m: Message, written: bool, next: Log) {
    && (written <==> m.Admissible() && WithinBudget(l.options, |l.file|, [m]))
    && Counted(next) && next.options == l.options && next.isOpen
    && |next.file| == |l.file| + (if written then m.FrameBytes() else 0)
    && (next.limited <==> !written && m.Admissible() && l.options.limitPolicy != DropNew)
    && (!written && !next.limited ==> next == l)
  }

  lemma OpenLogSteps(l: Log, m: Message)
    requires Counted(l) && l.isOpen && !l.limited
    ensures Stepped(l, m, l.Answer(m) == Written, l.After(m))
  {
    TotalOne(m);
    AppendKeepsCount(l, m);
    hide Image, Wrap;
  }

  lemma PrefixCons(m: Message, rest: seq<Message>, j: nat)
    requires j <= |rest|
    ensures ([m] + rest)[..j + 1] == [m] + rest[..j]
    ensures TotalBytes(([m] + rest)[..j + 1]) == m.FrameBytes() + TotalBytes(rest[..j])
  {
    assert ([m] + rest[..j])[1..] == rest[..j];
  }

  /** `kept` is the longest prefix of `all`, of length k, that stays within the budget on top of `used`. */
  predicate LongestFit(o: Options, used: nat, all: seq<Message>, kept: seq<Message>, k: nat) {
    && k <= |all| && kept == all[..k]
    && (k > 0 ==> WithinBudget(o, used, kept))
    && (k < |all| ==> !WithinBudget(o, used, all[..k + 1]))
  }

  lemma FitOneMore(o: Options, used: nat, m: Message, rest: seq<Message>, kept: seq<Message>, k: nat)
    requires WithinBudget(o, used, [m]) && LongestFit(o, used + m.FrameBytes(), rest, kept, k)
    ensures LongestFit(o, used, [m] + rest, [m] + kept, k + 1)
  {
    TotalOne(m);
    PrefixCons(m, rest, k);
    if k < |rest| {
      PrefixCons(m, rest, k + 1);
    }
    hide TotalBytes;
  }

  lemma FitNone(o: Options, used: nat, m: Message, rest: seq<Message>)
    requires !WithinBudget(o, used, [m])
    ensures LongestFit(o, used, [m] + rest, [], 0)
  {
    assert ([m] + rest)[..1] == [m];
  }

  /** Every policy but DropNew keeps the longest prefix of the admissible messages that fits the budget. */
  lemma {:induction false} KeepsLongestFittingPrefix(l: Log, messages: seq<Message>) returns (k: nat)
    requires Counted(l) && l.isOpen && !l.limited && l.options.limitPolicy != DropNew
    ensures LongestFit(l.options, |l.file|, Admissibles(messages), Kept(l, messages), k)
    decreases messages
  {
    hide Log.After, Log.Answer;
    if messages == [] {
      k := 0;
    } else {
      hide Kept, Admissibles, Counted, WithinBudget, LongestFit;
      var m, rest := messages[0], messages[1..];
      KeptCons(l, messages);
      OpenLogSteps(l, m);
      if l.Answer(m) == Written {
        var j := KeepsLongestFittingPrefix(l.After(m), rest);
        FitOneMore(l.options, |l.file|, m, Admissibles(rest), Kept(l.After(m), rest), j);
        k := j + 1;
      } else if m.Admissible() {
        StoppedKeepsNothing(l.After(m), rest);
        FitNone(l.options, |l.file|, m, Admissibles(rest));
        k := 0;
      } else {
        k := KeepsLongestFittingPrefix(l, rest);
      }
    }
  }

  lemma TotalOne(m: Message)
    ensures TotalBytes([m]) == m.FrameBytes() && TotalBytes([]) == 0
  {
  }

  lemma KeptCons(l: Log, messages: seq<Message>)
    requires messages != []
    ensures var m, rest := messages[0], messages[1..];
            && Kept(l, messages) == (if l.Answer(m) == Written then [m] + Kept(l.After(m), rest)
                                     else Kept(l.After(m), rest))
            && Admissibles(messages) == (if m.Admissible() then [m] + Admissibles(rest) else Admissibles(rest))
  {
  }

  /** Take each admissible message that still fits on top of those taken before it. */
  function Greedy(o: Options, used: nat, messages: seq<Message>): seq<Message>
    decreases messages
  {
    if messages == [] then []
    else if messages[0].Admissible() && WithinBudget(o, used, [messages[0]])
    then [messages[0]] + Greedy(o, used + messages[0].FrameBytes(), messages[1..])
    else Greedy(o, used, messages[1..])
  }

  lemma GreedyCons(o: Options, used: nat, messages: seq<Message>)
    requires messages != []
    ensures var m, rest := messages[0], messages[1..];
            Greedy(o, used, messages) == if m.Admissible() && WithinBudget(o, used, [m])
                                         then [m] + Greedy(o, used + m.FrameBytes(), rest) else Greedy(o, used, rest)
  {
  }

  /** DropNew keeps the greedy selection. */
  lemma {:induction false} DropNewKeepsGreedy(l: Log, messages: seq<Message>)
    requires Counted(l) && l.isOpen && !l.limited && l.options.limitPolicy == DropNew
    ensures Kept(l, messages) == Greedy(l.options, |l.file|, messages)
    decreases messages
  {
    hide Log.After, Log.Answer;
    if messages != [] {
      hide Kept, Counted, WithinBudget, Admissibles, Greedy;
      var m := messages[0];
      KeptCons(l, messages);
      OpenLogSteps(l, m);
      GreedyCons(l.options, |l.file|, messages);
      DropNewKeepsGreedy(l.After(m), messages[1..]);
    }
  }

  // ---------------------------------------------------------------------------------------------
  // Reader

  datatype ReadStatus = Ok | Eof | InvalidHeader | PayloadTooLarge | IoError

  predicate ValidFileHeader(h: FileHeader) {
    h.magic == LOG_MAGIC && h.version == FORMAT_VERSION && h.headerSize == FILE_HEADER_SIZE
        && h.endianCheck == ENDIAN_CHECK
  }

  predicate ValidFrameHeader(h: FrameHeader) {
    h.magic == FRAME_MAGIC && h.version == FORMAT_VERSION && h.headerSize == FRAME_HEADER_SIZE
  }

  /** What the next read finds in the unread part of a file. */
  function Classify(rest: seq<byte>, maxPayload: u32): ReadStatus {
    if |rest| == 0 then Eof
    else if |rest| < FRAME_HEADER_SIZE then InvalidHeader
    else
      var h := DecodeFrame(rest[..FRAME_HEADER_SIZE]);
      if !ValidFrameHeader(h) then InvalidHeader
      else if h.payloadSize > maxPayload then ReadStatus.PayloadTooLarge
      else if |rest| - FRAME_HEADER_SIZE < h.payloadSize then InvalidHeader
      else Ok
  }

  function FirstRecord(rest: seq<byte>, maxPayload: u32): (r: Record)
    requires Classify(rest, maxPayload) == Ok
    ensures |Image(r)| <= |rest|
  {
    var h := DecodeFrame(rest[..FRAME_HEADER_SIZE]);
    Record(h, rest[FRAME_HEADER_SIZE..FRAME_HEADER_SIZE + h.payloadSize])
  }

  /** All records up to the first read that is not `Ok`, and what that read answers. */
  function ReadAll(rest: seq<byte>, maxPayload: u32): (seq<Record>, ReadStatus)
    decreases |rest|
  {
    if Classify(rest, maxPayload) != Ok then ([], Classify(rest, maxPayload)) else
      var r := FirstRecord(rest, maxPayload);
      var (more, status) := ReadAll(rest[|Image(r)|..], maxPayload);
      ([r] + more, status)
  }

  /** What a refused frame leaves in the caller's record: nothing new unless only the payload was cut, and then the
      header and what there is of the payload, filled up with zeros. */
  function Refused(rest: seq<byte>, maxPayload: u32, before: Record): Record
    requires Classify(rest, maxPayload) == InvalidHeader
  {
    if !PayloadCut(rest) then before
    else
      var h := DecodeFrame(rest[..FRAME_HEADER_SIZE]);
      Record(h, rest[FRAME_HEADER_SIZE..] + Zeros(h.payloadSize - (|rest| - FRAME_HEADER_SIZE)))
  }

  /** A whole valid header whose payload is not all there. */
  predicate PayloadCut(rest: seq<byte>) {
    |rest| >= FRAME_HEADER_SIZE
    && var h := DecodeFrame(rest[..FRAME_HEADER_SIZE]);
       ValidFrameHeader(h) && |rest| - FRAME_HEADER_SIZE < h.payloadSize
  }

  /** Byte by byte: the record is untouched unless a whole valid header announced more than is left; then it has
      that header, and a payload of the announced size that ends in zeros. */
  lemma RefusedByBytes(rest: seq<byte>, maxPayload: u32, before: Record)
    requires Classify(rest, maxPayload) == InvalidHeader
    ensures var out := Refused(rest, maxPayload, before);
            if |rest| < 128 || !ValidFrameHeader(DecodeFrame(rest[..128])) then out == before
            else && out.header == DecodeFrame(rest[..128]) && |out.payload| == out.header.payloadSize > |rest| - 128
                 && forall i :: 0 <= i < |out.payload| ==>
                      out.payload[i] == if i < |rest| - 128 then rest[128 + i] else 0
  {
    hide DecodeFrame, ValidFrameHeader;
  }

  class MessageLogReader {
    var input: seq<byte>
    var pos: nat
    var failed: bool  // the stream has hit its end; later reads deliver nothing
    var isOpen: bool
    var fileHeader: FileHeader
    var maxPayload: u32

    ghost predicate Positioned()
      reads this
    {
      pos <= |input|
    }

    constructor ()
      ensures Positioned() && !isOpen
    {
      input, pos, failed, isOpen := [], 0, false, false;
      fileHeader := FileHeader(LOG_MAGIC, FORMAT_VERSION, FILE_HEADER_SIZE, 0, ENDIAN_CHECK, 0, 0, 0, 0);
      maxPayload := 100 * 1024 * 1024;
    }

    method Open(file: seq<byte>, maxPayload: u32) returns (status: ReadStatus)
      modifies this
      ensures Positioned() && this.maxPayload == maxPayload && input == file
      ensures isOpen <==> |file| >= FILE_HEADER_SIZE && ValidFileHeader(DecodeFile(file[..FILE_HEADER_SIZE]))
      ensures status == if isOpen then Ok else InvalidHeader
      ensures isOpen ==> pos == FILE_HEADER_SIZE && !failed && fileHeader == DecodeFile(file[..FILE_HEADER_SIZE])
    {
      hide EncodeFile, DecodeFile;
      this.maxPayload := maxPayload;
      input, isOpen := file, true;
      if |file| < FILE_HEADER_SIZE {
        pos, failed := |file|, true;
        fileHeader := DecodeFile(file + EncodeFile(fileHeader)[|file|..]);
        isOpen := false;
        return InvalidHeader;
      }
      pos, failed := FILE_HEADER_SIZE, false;
      fileHeader := DecodeFile(file[..FILE_HEADER_SIZE]);
      if fileHeader.magic != LOG_MAGIC || fileHeader.version != FORMAT_VERSION ||
         fileHeader.headerSize != FILE_HEADER_SIZE || fileHeader.endianCheck != ENDIAN_CHECK
      {
        isOpen := false;
        return InvalidHeader;
      }
      return Ok;
    }

    method ReadNext(record: Record) returns (status: ReadStatus, out: Record)
      requires Positioned()
      modifies this`pos, this`failed
      ensures Positioned()
      ensures status == if !isOpen then IoError else if old(failed) then Eof
              else Classify(old(input[pos..]), maxPayload)
      ensures status == Ok ==> out == FirstRecord(old(input[pos..]), maxPayload)
                               && input[pos..] == old(input[pos..])[|Image(out)|..] && !failed
      ensures status == Eof ==> failed
      ensures status in {Eof, ReadStatus.PayloadTooLarge, IoError} ==> out == record
      ensures status == ReadStatus.PayloadTooLarge ==> !failed && input[pos..] == old(input[pos..])[FRAME_HEADER_SIZE..]
      ensures status == InvalidHeader ==>
                && out == Refused(old(input[pos..]), maxPayload, record)
                && (failed <==> |old(input[pos..])| < FRAME_HEADER_SIZE || PayloadCut(old(input[pos..])))
                && (if failed then pos == |input| else input[pos..] == old(input[pos..])[FRAME_HEADER_SIZE..])
    {
      hide EncodeFrame, DecodeFrame;
      ghost var rest := input[pos..];
      out := record;
      if !isOpen {
        return IoError, out;
      }
      var available := if failed then 0 else |input| - pos;
      var headerBytes := if available < FRAME_HEADER_SIZE then available else FRAME_HEADER_SIZE;
      if headerBytes == 0 {
        failed := true;
        return Eof, out;
      }
      if headerBytes != FRAME_HEADER_SIZE {
        pos, failed := |input|, true;
        return InvalidHeader, out;
      }
      var header := DecodeFrame(input[pos..pos + FRAME_HEADER_SIZE]);
      assert rest[..FRAME_HEADER_SIZE] == input[pos..pos + FRAME_HEADER_SIZE];
      pos := pos + FRAME_HEADER_SIZE;
      if header.magic != FRAME_MAGIC || header.version != FORMAT_VERSION || header.headerSize != FRAME_HEADER_SIZE {
        return InvalidHeader, out;
      }
      if header.payloadSize > maxPayload {
        return ReadStatus.PayloadTooLarge, out;
      }
      assert input[pos..] == rest[FRAME_HEADER_SIZE..];
      out := Record(header, Zeros(header.payloadSize));
      if header.payloadSize > 0 {
        if |input| - pos < header.payloadSize {
          out := Record(header, input[pos..] + Zeros(header.payloadSize - (|input| - pos)));
          pos, failed := |input|, true;
          return InvalidHeader, out;
        }
        out := Record(header, input[pos..pos + header.payloadSize]);
        pos := pos + header.payloadSize;
      }
      assert out.payload == rest[FRAME_HEADER_SIZE..FRAME_HEADER_SIZE + header.payloadSize];
      assert input[pos..] == rest[|Image(out)|..];
      return Ok, out;
    }
  }

  /** Calling `ReadNext` until its first answer other than `Ok` delivers what `ReadAll` says. */
  method ReadToEnd(reader: MessageLogReader) returns (records: seq<Record>, status: ReadStatus)
    requires reader.Positioned() && reader.isOpen && !reader.failed
    modifies reader
    ensures (records, status) == ReadAll(old(reader.input[reader.pos..]), reader.maxPayload)
    ensures reader.maxPayload == old(reader.maxPayload)
  {
    hide Classify, FirstRecord, Image;
    ghost var all := ReadAll(reader.input[reader.pos..], reader.maxPayload);
    records, status := [], Ok;
    var record := Record(FrameHeader(FRAME_MAGIC, FORMAT_VERSION, FRAME_HEADER_SIZE, 0, 0, 0, 0, 0, 0, 0, 0, 0, 0, 0,
                                     0, 0, 0, 0, 0, 0), []);
    assert [] + all.0 == all.0;
    while status == Ok
      invariant reader.Positioned() && reader.isOpen && reader.maxPayload == old(reader.maxPayload)
      invariant status == Ok ==> !reader.failed
      invariant status == Ok ==> all.0 == records + ReadAll(reader.input[reader.pos..], reader.maxPayload).0
      invariant status == Ok ==> all.1 == ReadAll(reader.input[reader.pos..], reader.maxPayload).1
      invariant status != Ok ==> all == (records, status)
      decreases status == Ok, |reader.input| - reader.pos
    {
      ghost var rest := reader.input[reader.pos..];
      status, record := reader.ReadNext(record);
      if status == Ok {
        ReadAllFirst(rest, reader.maxPayload);
        assert records + ([record] + ReadAll(reader.input[reader.pos..], reader.maxPayload).0)
            == (records + [record]) + ReadAll(reader.input[reader.pos..], reader.maxPayload).0;
        records := records + [record];
      } else {
        assert records + [] == records;
      }
    }
  }

  lemma ReadAllFirst(rest: seq<byte>, maxPayload: u32)
    requires Classify(rest, maxPayload) == Ok
    ensures var r := FirstRecord(rest, maxPayload);
            var after := ReadAll(rest[|Image(r)|..], maxPayload);
            ReadAll(rest, maxPayload) == ([r] + after.0, after.1) && |Image(r)| > 0
  {
    hide Image, FirstRecord, Classify;
  }

  // ---------------------------------------------------------------------------------------------
  // Reading back

  /** A record the reader's framing rules accept. */
  predicate Framed(r: Record) {
    ValidFrameHeader(r.header) && r.header.payloadSize == |r.payload|
  }

  predicate AllFramed(records: seq<Record>) {
    forall i :: 0 <= i < |records| ==> Framed(records[i])
  }

  /** The answer at the front of an image cut after n bytes, whatever follows a whole one. */
  lemma CutImage(r: Record, tail: seq<byte>, n: nat, maxPayload: u32)
    requires Framed(r) && n <= |Image(r)| + |tail|
    ensures var b := (Image(r) + tail)[..n];
            && Classify(b, maxPayload) == (if n == 0 then Eof else if n < FRAME_HEADER_SIZE then InvalidHeader
                                           else if |r.payload| > maxPayload then ReadStatus.PayloadTooLarge
                                           else if n < |Image(r)| then InvalidHeader else Ok)
            && (Classify(b, maxPayload) == Ok
                ==> FirstRecord(b, maxPayload) == r && b[|Image(r)|..] == tail[..n - |Image(r)|])
  {
    hide EncodeFrame, DecodeFrame;
    var b := (Image(r) + tail)[..n];
    if n >= FRAME_HEADER_SIZE {
      assert b[..FRAME_HEADER_SIZE] == EncodeFrame(r.header);
      FrameRoundTrip(r.header);
    }
    if n >= |Image(r)| {
      assert b[FRAME_HEADER_SIZE..FRAME_HEADER_SIZE + |r.payload|] == r.payload;
    }
  }

  lemma {:induction false} FramesSizePrefix(records: seq<Record>, j: nat)
    requires j < |records|
    ensures FramesSize(records[..j + 1]) == |Image(records[0])| + FramesSize(records[1..][..j])
  {
    assert records[..j + 1][1..] == records[1..][..j];
  }

  /** What a reader makes of frames cut after n bytes: `k` whole records of acceptable size, then a status. */
  predicate ReadsBack(records: seq<Record>, n: nat, maxPayload: u32, k: nat)
    requires n <= FramesSize(records)
  {
    && k <= |records| && FramesSize(records[..k]) <= n
    && (forall i :: 0 <= i < k ==> |records[i].payload| <= maxPayload)
    && ReadAll(Frames(records)[..n], maxPayload).0 == records[..k]
    && (var status := ReadAll(Frames(records)[..n], maxPayload).1;
        var left := n - FramesSize(records[..k]);
        if left == 0 then status == Eof
        else && k < |records|
             && status == (if left >= FRAME_HEADER_SIZE && |records[k].payload| > maxPayload
                           then ReadStatus.PayloadTooLarge else InvalidHeader)
             && (status == InvalidHeader ==> left < |Image(records[k])|))
  }

  lemma ReadsBackCons(records: seq<Record>, n: nat, maxPayload: u32, j: nat)
    requires records != [] && Framed(records[0]) && |records[0].payload| <= maxPayload
    requires |Image(records[0])| <= n <= FramesSize(records)
    requires ReadsBack(records[1..], n - |Image(records[0])|, maxPayload, j)
    ensures ReadsBack(records, n, maxPayload, j + 1)
  {
    hide Classify, FirstRecord, Image, Frames, ReadAll, EncodeFrame, DecodeFrame;
    var r, rest := records[0], records[1..];
    ReadAllCons(records, n, maxPayload);
    FramesSizePrefix(records, j);
    assert records[..j + 1] == [r] + rest[..j];
  }

  lemma ReadsBackNone(records: seq<Record>, n: nat, maxPayload: u32)
    requires n <= FramesSize(records) && records != [] && Framed(records[0])
    requires |records[0].payload| > maxPayload || n < |Image(records[0])|
    ensures ReadsBack(records, n, maxPayload, 0)
  {
    hide Image, Classify, FirstRecord, EncodeFrame, DecodeFrame;
    CutImage(records[0], Frames(records[1..]), n, maxPayload);
    assert records[..0] == [];
  }

  lemma ReadAllCons(records: seq<Record>, n: nat, maxPayload: u32)
    requires records != [] && Framed(records[0]) && |records[0].payload| <= maxPayload
    requires |Image(records[0])| <= n <= FramesSize(records)
    ensures var r := records[0];
            var after := ReadAll(Frames(records[1..])[..n - |Image(r)|], maxPayload);
            ReadAll(Frames(records)[..n], maxPayload) == ([r] + after.0, after.1)
  {
    hide Image, Classify, FirstRecord, EncodeFrame, DecodeFrame;
    CutImage(records[0], Frames(records[1..]), n, maxPayload);
  }

  /** Cut the frames anywhere: the reader returns the whole records up to the first one larger than it takes,
      then says Eof exactly when nothing is left, PayloadTooLarge when it meets that larger one's header, and
      InvalidHeader when it meets a torn frame. */
  lemma {:induction false} ReadBackCutFrames(records: seq<Record>, n: nat, maxPayload: u32) returns (k: nat)
    requires AllFramed(records) && n <= FramesSize(records)
    ensures ReadsBack(records, n, maxPayload, k)
  {
    hide EncodeFrame, DecodeFrame;
    k := 0;
    if records != [] {
      hide Image, ReadsBack;
      var r := records[0];
      if n >= |Image(r)| && |r.payload| <= maxPayload {
        var j := ReadBackCutFrames(records[1..], n - |Image(r)|, maxPayload);
        ReadsBackCons(records, n, maxPayload, j);
        k := j + 1;
      } else {
        ReadsBackNone(records, n, maxPayload);
      }
    }
  }

  lemma {:induction false} KeptIsAdmissible(l: Log, messages: seq<Message>)
    ensures forall i :: 0 <= i < |Kept(l, messages)| ==> Kept(l, messages)[i].Admissible()
    decreases messages
  {
    hide Log.After;
    if messages != [] {
      KeptIsAdmissible(l.After(messages[0]), messages[1..]);
    }
  }

  /** An admissible message comes back as it should. */
  lemma MessageReadsBack(m: Message)
    requires m.Admissible()
    ensures Framed(RecordOf(m))
    ensures MessageOf(RecordOf(m)) == m.Restored()
  {
  }

  /** Each record gives back the message it was made of, restored. */
  predicate Restores(records: seq<Record>, kept: seq<Message>) {
    && |records| == |kept|
    && forall i :: 0 <= i < |kept| ==>
         kept[i].Admissible() && MessageOf(records[i]) == kept[i].Restored()
  }

  /** The bytes are this header and these frames. */
  predicate Holds(file: seq<byte>, header: FileHeader, frames: seq<byte>) {
    |file| >= FILE_HEADER_SIZE && file[FILE_HEADER_SIZE..] == frames
    && ValidFileHeader(header) && DecodeFile(file[..FILE_HEADER_SIZE]) == header
  }

  /** A file cut after n bytes opens with this header and delivers the first of these records, up to the first
      torn or oversized one. */
  predicate DeliversPrefix(header: FileHeader, records: seq<Record>, file: seq<byte>, n: nat, maxPayload: u32, k: nat) {
    && FILE_HEADER_SIZE <= n <= |file| && n - FILE_HEADER_SIZE <= FramesSize(records)
    && Holds(file[..n], header, Frames(records)[..n - FILE_HEADER_SIZE])
    && ReadsBack(records, n - FILE_HEADER_SIZE, maxPayload, k)
  }

  lemma CutFile(header: seq<byte>, frames: seq<byte>, n: nat)
    requires |header| <= n <= |header| + |frames|
    ensures (header + frames)[..n][..|header|] == header
    ensures (header + frames)[..n][|header|..] == frames[..n - |header|]
  {
  }

  lemma FramedMessages(kept: seq<Message>)
    requires forall i :: 0 <= i < |kept| ==> kept[i].Admissible()
    ensures AllFramed(RecordsOf(kept)) && Restores(RecordsOf(kept), kept)
  {
    hide Framed, RecordOf, MessageOf;
    forall i | 0 <= i < |kept| ensures Framed(RecordsOf(kept)[i])
      && MessageOf(RecordsOf(kept)[i]) == kept[i].Restored()
    {
      MessageReadsBack(kept[i]);
    }
  }

  /** Log any messages under any policy, cut the file anywhere after its header, and read it. */
  lemma LogReadsBack(o: Options, createdTsNs: u64, messages: seq<Message>, n: nat, maxPayload: u32) returns (k: nat)
    requires FILE_HEADER_SIZE <= n <= |Run(NewLog(o, createdTsNs), messages).file|
    ensures var l := NewLog(o, createdTsNs);
            var records := RecordsOf(Kept(l, messages));
            && DeliversPrefix(NewFileHeader(o, createdTsNs), records, Run(l, messages).file, n, maxPayload, k)
            && Restores(records, Kept(l, messages))
  {
    hide Frames, ReadsBack, EncodeFile, DecodeFile, Run, Kept, RecordOf, MessageOf, TotalBytes, AllFramed, Counted,
         RecordsOf, Restores;
    var l := NewLog(o, createdTsNs);
    var kept := Kept(l, messages);
    NewLogCounted(o, createdTsNs);
    FileHoldsKept(l, messages);
    FileRoundTrip(NewFileHeader(o, createdTsNs));
    KeptIsAdmissible(l, messages);
    FramedMessages(kept);
    CutFile(l.file, Frames(RecordsOf(kept)), n);
    k := ReadBackCutFrames(RecordsOf(kept), n - FILE_HEADER_SIZE, maxPayload);
  }

  lemma NewLogCounted(o: Options, createdTsNs: u64)
    ensures Counted(NewLog(o, createdTsNs))
  {
    hide EncodeFile;
  }

  predicate DeliversAll(kept: seq<Message>, file: seq<byte>, maxPayload: u32) {
    |file| >= FILE_HEADER_SIZE && ReadAll(file[FILE_HEADER_SIZE..], maxPayload) == (RecordsOf(kept), Eof)
  }

  /** Read whole, with room for every payload, the log gives back all kept messages and then Eof. */
  lemma WholeLogReadsBack(o: Options, createdTsNs: u64, messages: seq<Message>, maxPayload: u32)
    requires forall m :: m in Kept(NewLog(o, createdTsNs), messages) ==> |m.payload| <= maxPayload
    ensures var l := NewLog(o, createdTsNs);
            DeliversAll(Kept(l, messages), Run(l, messages).file, maxPayload)
  {
    hide Frames, EncodeFile, DecodeFile, Run, Kept, TotalBytes, ReadAll, RecordOf, MessageOf, Counted, Image, NewLog,
         Restores;
    var l := NewLog(o, createdTsNs);
    var file := Run(l, messages).file;
    NewLogCounted(o, createdTsNs);
    assert |l.file| == FILE_HEADER_SIZE by { NewLogSize(o, createdTsNs); }
    FileHoldsKept(l, messages);
    var k := LogReadsBack(o, createdTsNs, messages, |file|, maxPayload);
    var records := RecordsOf(Kept(l, messages));
    assert file[..|file|] == file;
    assert Frames(records)[..|file| - FILE_HEADER_SIZE] == Frames(records);
    PayloadsKept(Kept(l, messages), maxPayload);
    if k < |records| {
      SplitSize(records, k);
      assert false;
    }
    assert records[..k] == records;
  }

  lemma PayloadsKept(kept: seq<Message>, maxPayload: u32)
    requires forall m :: m in kept ==> |m.payload| <= maxPayload
    ensures forall i :: 0 <= i < |kept| ==> |RecordsOf(kept)[i].payload| <= maxPayload
  {
    assert forall i :: 0 <= i < |kept| ==> kept[i] in kept;
    hide HeaderOf;
  }

  lemma NewLogSize(o: Options, createdTsNs: u64)
    ensures |NewLog(o, createdTsNs).file| == FILE_HEADER_SIZE
  {
    hide EncodeFile;
  }

  lemma {:induction false} SplitSize(records: seq<Record>, k: nat)
    requires k < |records|
    ensures FramesSize(records) >= FramesSize(records[..k]) + FRAME_HEADER_SIZE + |records[k].payload|
  {
    if k > 0 {
      SplitSize(records[1..], k - 1);
      assert records[..k][1..] == records[1..][..k - 1];
    }
  }
}
