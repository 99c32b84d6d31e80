/** The event journal: a 64-byte file header followed by frames of a 40-byte header and a payload.
    A file is a byte sequence; a crash is a cut. */
module EventJournal {
  import opened Words
  import opened ByteCodec
  import opened Wrappers

  const JOURNAL_MAGIC: u64 := 0x0031_3054_5645_444D  // "MDEVT01\0", little-endian
  const FRAME_MAGIC: u32 := 0x4654_5645              // "EVTF", little-endian
  const JOURNAL_VERSION: u16 := 1
  const MAX_PAYLOAD: nat := 512
  const FILE_HEADER_SIZE: nat := 64
  const FRAME_HEADER_SIZE: nat := 40

  datatype FileHeader = FileHeader(magic: u64, version: u16, headerSize: u16, sourceId: u32, tradingDay: u32)

  datatype FrameHeader = FrameHeader(
    magic: u32, version: u16, headerSize: u16, eventKind: u16, schemaVersion: u16, payloadSize: u32,
    partitionId: u64, exchangeSeq: u64, eventSeq: u64)

  /** A standard event as the journal sees it: the header fields it copies out, and the object's bytes. */
  datatype Event = Event(kind: u16, schemaVersion: u16, exchangeSeq: u64, eventSeq: u64, bytes: seq<byte>)

  datatype Record = Record(header: FrameHeader, payload: seq<byte>)

  datatype ReadStatus = IsRecord | EndOfFile | TruncatedTail | Corrupt | InvalidFile

  // ---------------------------------------------------------------------------------------------
  // Byte images

  const FILE_WIDTHS: seq<nat> := [8, 2, 2, 4, 4, 44]
  const FRAME_WIDTHS: seq<nat> := [4, 2, 2, 2, 2, 4, 8, 8, 8]

  function FileFields(h: FileHeader): seq<nat> {
    [h.magic, h.version, h.headerSize, h.sourceId, h.tradingDay, 0]
  }

  function FrameFields(h: FrameHeader): seq<nat> {
    [h.magic, h.version, h.headerSize, h.eventKind, h.schemaVersion, h.payloadSize,
     h.partitionId, h.exchangeSeq, h.eventSeq]
  }

  function EncodeFile(h: FileHeader): (b: seq<byte>)
    ensures |b| == FILE_HEADER_SIZE
  {
    FileTotal();
    Pack(FILE_WIDTHS, FileFields(h))
  }

  function EncodeFrame(h: FrameHeader): (b: seq<byte>)
    ensures |b| == FRAME_HEADER_SIZE
  {
    FrameTotal();
    Pack(FRAME_WIDTHS, FrameFields(h))
  }

  lemma FrameTotal()
    ensures Total(FRAME_WIDTHS) == FRAME_HEADER_SIZE
  {
    assert Total([4, 2, 2, 2, 2, 4, 8, 8, 8]) == 40;
  }

  lemma FileTotal()
    ensures Total(FILE_WIDTHS) == FILE_HEADER_SIZE
  {
    assert Total([8, 2, 2, 4, 4, 44]) == 64;
  }

  lemma FileFieldsFit(v: seq<nat>)
    requires Fits(FILE_WIDTHS, v)
    ensures |v| == 6 && v[0] < TWO_TO_64 && v[1] < 0x1_0000 && v[2] < 0x1_0000 && v[3] < 0x1_0000_0000
            && v[4] < 0x1_0000_0000
  {
    hide Range;
    Ranges();
    assert FILE_WIDTHS[0] == 8 && FILE_WIDTHS[1] == FILE_WIDTHS[2] == 2 && FILE_WIDTHS[3] == FILE_WIDTHS[4] == 4;
  }

  lemma FrameFieldsFit(v: seq<nat>)
    requires Fits(FRAME_WIDTHS, v)
    ensures |v| == 9 && v[0] < 0x1_0000_0000 && v[1] < 0x1_0000 && v[2] < 0x1_0000 && v[3] < 0x1_0000 && v[4] < 0x1_0000
    ensures v[5] < 0x1_0000_0000 && v[6] < TWO_TO_64 && v[7] < TWO_TO_64 && v[8] < TWO_TO_64
  {
    hide Range;
    Ranges();
    assert FRAME_WIDTHS[0] == FRAME_WIDTHS[5] == 4 && FRAME_WIDTHS[6] == FRAME_WIDTHS[7] == FRAME_WIDTHS[8] == 8;
    assert FRAME_WIDTHS[1] == FRAME_WIDTHS[2] == FRAME_WIDTHS[3] == FRAME_WIDTHS[4] == 2;
  }

  function DecodeFile(b: seq<byte>): FileHeader
    requires |b| == FILE_HEADER_SIZE
  {
    FileTotal();
    var v := Unpack(FILE_WIDTHS, b);
    FileFieldsFit(v);
    FileHeader(v[0], v[1], v[2], v[3], v[4])
  }

  function DecodeFrame(b: seq<byte>): FrameHeader
    requires |b| == FRAME_HEADER_SIZE
  {
    FrameTotal();
    var v := Unpack(FRAME_WIDTHS, b);
    FrameFieldsFit(v);
    FrameHeader(v[0], v[1], v[2], v[3], v[4], v[5], v[6], v[7], v[8])
  }

  lemma FrameRoundTrip(h: FrameHeader)
    ensures DecodeFrame(EncodeFrame(h)) == h
  {
    Ranges();
    UnpackPack(FRAME_WIDTHS, FrameFields(h));
  }

  lemma FileRoundTrip(h: FileHeader)
    ensures DecodeFile(EncodeFile(h)) == h
  {
    Ranges();
    UnpackPack(FILE_WIDTHS, FileFields(h));
  }

  // ---------------------------------------------------------------------------------------------
  // Where each field lies

  lemma FrameOffsets()
    ensures Total(FRAME_WIDTHS[..0]) == 0 && Total(FRAME_WIDTHS[..1]) == 4 && Total(FRAME_WIDTHS[..2]) == 6
    ensures Total(FRAME_WIDTHS[..3]) == 8 && Total(FRAME_WIDTHS[..4]) == 10 && Total(FRAME_WIDTHS[..5]) == 12
    ensures Total(FRAME_WIDTHS[..6]) == 16 && Total(FRAME_WIDTHS[..7]) == 24 && Total(FRAME_WIDTHS[..8]) == 32
  {
    var w := FRAME_WIDTHS;
    assert |w| == 9 && w[0] == 4 && w[1] == w[2] == w[3] == w[4] == 2 && w[5] == 4 && w[6] == w[7] == 8;
    hide FRAME_WIDTHS;
    NextOffset(w, 0, 0); NextOffset(w, 1, 4); NextOffset(w, 2, 6); NextOffset(w, 3, 8);
    NextOffset(w, 4, 10); NextOffset(w, 5, 12); NextOffset(w, 6, 16); NextOffset(w, 7, 24);
  }

  /** The 40 bytes b are a frame header with these fields: magic at 0, version at 4, header size at 6, kind at 8,
      schema version at 10, payload size at 12, partition at 16, exchange sequence at 24, event sequence at 32,
      each with its low byte first. */
  predicate FrameLies(b: seq<byte>, h: FrameHeader) {
    && |b| == 40
    && HoldsAt(b, 0, 4, h.magic) && HoldsAt(b, 4, 2, h.version) && HoldsAt(b, 6, 2, h.headerSize)
    && HoldsAt(b, 8, 2, h.eventKind) && HoldsAt(b, 10, 2, h.schemaVersion) && HoldsAt(b, 12, 4, h.payloadSize)
    && HoldsAt(b, 16, 8, h.partitionId) && HoldsAt(b, 24, 8, h.exchangeSeq) && HoldsAt(b, 32, 8, h.eventSeq)
  }

  lemma FrameLayout(h: FrameHeader)
    ensures FrameLies(EncodeFrame(h), h)
  {
    var w, v := FRAME_WIDTHS, FrameFields(h);
    FrameTotal();
    FrameOffsets();
    assert w[0] == 4 && w[1] == w[2] == w[3] == w[4] == 2 && w[5] == 4 && w[6] == w[7] == w[8] == 8;
    hide Pack, Total, HoldsAt, FRAME_WIDTHS;
    PackHolds(w, v, 0, 0);
    PackHolds(w, v, 1, 4);
    PackHolds(w, v, 2, 6);
    PackHolds(w, v, 3, 8);
    PackHolds(w, v, 4, 10);
    PackHolds(w, v, 5, 12);
    PackHolds(w, v, 6, 16);
    PackHolds(w, v, 7, 24);
    PackHolds(w, v, 8, 32);
  }

  lemma FrameReads(b: seq<byte>)
    requires |b| == FRAME_HEADER_SIZE
    ensures FrameLies(b, DecodeFrame(b))
  {
    var w := FRAME_WIDTHS;
    FrameTotal();
    FrameOffsets();
    assert w[0] == 4 && w[1] == w[2] == w[3] == w[4] == 2 && w[5] == 4 && w[6] == w[7] == w[8] == 8;
    hide Unpack, Total, HoldsAt, FRAME_WIDTHS;
    FrameFieldsFit(Unpack(w, b));
    UnpackReads(w, b, 0, 0);
    UnpackReads(w, b, 1, 4);
    UnpackReads(w, b, 2, 6);
    UnpackReads(w, b, 3, 8);
    UnpackReads(w, b, 4, 10);
    UnpackReads(w, b, 5, 12);
    UnpackReads(w, b, 6, 16);
    UnpackReads(w, b, 7, 24);
    UnpackReads(w, b, 8, 32);
  }

  /** A file header: magic at 0, version at 8, header size at 10, source at 12, trading day at 16, zeros from 20. */
  predicate FileLies(b: seq<byte>, h: FileHeader) {
    && |b| == 64
    && HoldsAt(b, 0, 8, h.magic) && HoldsAt(b, 8, 2, h.version) && HoldsAt(b, 10, 2, h.headerSize)
    && HoldsAt(b, 12, 4, h.sourceId) && HoldsAt(b, 16, 4, h.tradingDay)
  }

  lemma FileOffsets()
    ensures Total(FILE_WIDTHS[..0]) == 0 && Total(FILE_WIDTHS[..1]) == 8 && Total(FILE_WIDTHS[..2]) == 10
    ensures Total(FILE_WIDTHS[..3]) == 12 && Total(FILE_WIDTHS[..4]) == 16 && Total(FILE_WIDTHS[..5]) == 20
  {
    var w := FILE_WIDTHS;
    assert w[0] == 8 && w[1] == w[2] == 2 && w[3] == w[4] == 4;
    assert |w| == 6;
    hide FILE_WIDTHS;
    NextOffset(w, 0, 0); NextOffset(w, 1, 8); NextOffset(w, 2, 10); NextOffset(w, 3, 12); NextOffset(w, 4, 16);
  }

  lemma FileLayout(h: FileHeader)
    ensures FileLies(EncodeFile(h), h) && HoldsAt(EncodeFile(h), 20, 44, 0)
  {
    var w, v := FILE_WIDTHS, FileFields(h);
    FileTotal();
    FileOffsets();
    assert w[0] == 8 && w[1] == w[2] == 2 && w[3] == w[4] == 4 && w[5] == 44;
    hide Pack, Total, HoldsAt, FILE_WIDTHS;
    PackHolds(w, v, 0, 0);
    PackHolds(w, v, 1, 8);
    PackHolds(w, v, 2, 10);
    PackHolds(w, v, 3, 12);
    PackHolds(w, v, 4, 16);
    PackHolds(w, v, 5, 20);
  }

  lemma FileReads(b: seq<byte>)
    requires |b| == FILE_HEADER_SIZE
    ensures FileLies(b, DecodeFile(b))
  {
    var w := FILE_WIDTHS;
    FileTotal();
    FileOffsets();
    assert w[0] == 8 && w[1] == w[2] == 2 && w[3] == w[4] == 4 && w[5] == 44;
    hide Unpack, Total, HoldsAt, FILE_WIDTHS;
    FileFieldsFit(Unpack(w, b));
    UnpackReads(w, b, 0, 0);
    UnpackReads(w, b, 1, 8);
    UnpackReads(w, b, 2, 10);
    UnpackReads(w, b, 3, 12);
    UnpackReads(w, b, 4, 16);
  }

  function Image(r: Record): (b: seq<byte>)
    ensures |b| == FRAME_HEADER_SIZE + |r.payload|
  {
    EncodeFrame(r.header) + r.payload
  }

  function FramesSize(records: seq<Record>): nat {
    if records == [] then 0 else FRAME_HEADER_SIZE + |records[0].payload| + FramesSize(records[1..])
  }

  function FileSize(records: seq<Record>): nat {
    FILE_HEADER_SIZE + FramesSize(records)
  }

  function Frames(records: seq<Record>): (b: seq<byte>)
    ensures |b| == FramesSize(records)
  {
    if records == [] then [] else Image(records[0]) + Frames(records[1..])
  }

  function NewFileHeader(sourceId: u32, tradingDay: u32): FileHeader {
    FileHeader(JOURNAL_MAGIC, JOURNAL_VERSION, FILE_HEADER_SIZE, sourceId, tradingDay)
  }

  function FileImage(sourceId: u32, tradingDay: u32, records: seq<Record>): (b: seq<byte>)
    ensures |b| == FileSize(records)
  {
    EncodeFile(NewFileHeader(sourceId, tradingDay)) + Frames(records)
  }

  lemma {:induction false} FramesSizeConcat(a: seq<Record>, b: seq<Record>)
    ensures FramesSize(a + b) == FramesSize(a) + FramesSize(b)
  {
    if a == [] {
      assert a + b == b;
    } else {
      assert (a + b)[1..] == a[1..] + b;
      FramesSizeConcat(a[1..], b);
    }
  }

  lemma {:induction false} FramesConcat(a: seq<Record>, b: seq<Record>)
    ensures Frames(a + b) == Frames(a) + Frames(b)
  {
    if a == [] {
      assert a + b == b;
    } else {
      assert (a + b)[1..] == a[1..] + b;
      FramesConcat(a[1..], b);
    }
  }

  // ---------------------------------------------------------------------------------------------
  // Events

  function FrameOf(e: Event, partitionId: u64): FrameHeader {
    FrameHeader(FRAME_MAGIC, JOURNAL_VERSION, FRAME_HEADER_SIZE, e.kind, e.schemaVersion,
                |e.bytes| % 0x1_0000_0000, partitionId, e.exchangeSeq, e.eventSeq)
  }

  function RecordOf(e: Event, partitionId: u64): Record {
    Record(FrameOf(e, partitionId), e.bytes)
  }

  predicate ValidFileHeader(h: FileHeader) {
    h.magic == JOURNAL_MAGIC && h.version == JOURNAL_VERSION && h.headerSize == FILE_HEADER_SIZE
  }

  predicate ValidFrameHeader(h: FrameHeader) {
    h.magic == FRAME_MAGIC && h.version == JOURNAL_VERSION && h.headerSize == FRAME_HEADER_SIZE
        && h.payloadSize <= MAX_PAYLOAD
  }

  /** A record the reader accepts. */
  predicate Readable(r: Record) {
    ValidFrameHeader(r.header) && r.header.payloadSize == |r.payload|
  }

  predicate AllReadable(records: seq<Record>) {
    forall i :: 0 <= i < |records| ==> Readable(records[i])
  }

  lemma EventsAreReadable(e: Event, partitionId: u64)
    ensures Readable(RecordOf(e, partitionId)) <==> |e.bytes| <= MAX_PAYLOAD
  {
  }

  /** The typed view of a record: its bytes, if it was written by this very kind, size and schema. */
  function Decode(r: Record, kind: u16, size: nat, schemaVersion: u16): Option<seq<byte>> {
    if r.header.schemaVersion != schemaVersion || |r.payload| != size || r.header.eventKind != kind then None
    else Some(r.payload)
  }

  // ---------------------------------------------------------------------------------------------
  // Writer

  class EventJournalWriter {
    var output: seq<byte>

    constructor (sourceId: u32, tradingDay: u32)
      ensures output == FileImage(sourceId, tradingDay, [])
    {
      output := EncodeFile(FileHeader(JOURNAL_MAGIC, JOURNAL_VERSION, FILE_HEADER_SIZE, sourceId, tradingDay));
    }

    method AppendFrame(frame: FrameHeader, payload: seq<byte>) returns (ok: bool)
      modifies this
      ensures ok <==> |payload| == frame.payloadSize
      ensures output == old(output) + if ok then Frames([Record(frame, payload)]) else []
    {
      if |payload| != frame.payloadSize {
        return false;
      }
      output := output + EncodeFrame(frame);
      output := output + payload;
      assert Frames([Record(frame, payload)]) == Image(Record(frame, payload));
      return true;
    }

    method Append(event: Event, partitionId: u64) returns (ok: bool)
      modifies this
      ensures ok <==> |event.bytes| <= MAX_U32
      ensures output == old(output) + if ok then Frames([RecordOf(event, partitionId)]) else []
    {
      var frame := FrameHeader(FRAME_MAGIC, JOURNAL_VERSION, FRAME_HEADER_SIZE, event.kind, event.schemaVersion,
                               |event.bytes| % 0x1_0000_0000, partitionId, event.exchangeSeq, event.eventSeq);
      ok := AppendFrame(frame, event.bytes);
    }
  }

  // ---------------------------------------------------------------------------------------------
  // Reader

  /** What the next read finds in the unread part of a file. */
  function Classify(rest: seq<byte>): ReadStatus {
    if |rest| == 0 then EndOfFile
    else if |rest| < FRAME_HEADER_SIZE then TruncatedTail
    else
      var h := DecodeFrame(rest[..FRAME_HEADER_SIZE]);
      if !ValidFrameHeader(h) then Corrupt
      else if |rest| - FRAME_HEADER_SIZE < h.payloadSize then TruncatedTail
      else IsRecord
  }

  function FirstRecord(rest: seq<byte>): (r: Record)
    requires Classify(rest) == IsRecord
    ensures |Image(r)| <= |rest|
  {
    var h := DecodeFrame(rest[..FRAME_HEADER_SIZE]);
    Record(h, rest[FRAME_HEADER_SIZE..FRAME_HEADER_SIZE + h.payloadSize])
  }

  lemma SoundBytes(b: seq<byte>, h: FrameHeader)
    requires FrameLies(b, h)
    ensures h.magic == FRAME_MAGIC && h.version == 1 && h.headerSize == 40
       <==> b[..8] == [0x45, 0x56, 0x54, 0x46, 1, 0, 40, 0]
    ensures h.payloadSize == b[12] as int + 0x100 * b[13] as int + 0x1_0000 * b[14] as int + 0x100_0000 * b[15] as int
  {
    hide HoldsAt;
    TwoBytes(b, 4, h.version);
    TwoBytes(b, 6, h.headerSize);
    FourBytes(b, 0, h.magic);
    FourBytes(b, 12, h.payloadSize);
    FrameMagicBytes(b[0], b[1], b[2], b[3]);
    assert b[..8] == [b[0], b[1], b[2], b[3], b[4], b[5], b[6], b[7]];
    hide *;
  }

  lemma FrameMagicBytes(b0: byte, b1: byte, b2: byte, b3: byte)
    ensures b0 as int + 0x100 * b1 as int + 0x1_0000 * b2 as int + 0x100_0000 * b3 as int == FRAME_MAGIC
       <==> b0 == 0x45 && b1 == 0x56 && b2 == 0x54 && b3 == 0x46
  {
  }

  /** The reader's verdict on the bytes themselves. A frame is sound when it opens with "EVTF", version 1 and size
      40 and announces at most 512 bytes; anything else of 40 bytes or more is corrupt, a sound frame with too few
      bytes behind it is a torn tail. */
  lemma VerdictByBytes(rest: seq<byte>)
    requires |rest| >= 40
    ensures var size := rest[12] as int + 0x100 * rest[13] as int + 0x1_0000 * rest[14] as int
                        + 0x100_0000 * rest[15] as int;
            var sound := rest[..8] == [0x45, 0x56, 0x54, 0x46, 1, 0, 40, 0] && size <= 512;
            && Classify(rest) == (if !sound then Corrupt else if |rest| < 40 + size then TruncatedTail else IsRecord)
            && (Classify(rest) == IsRecord ==> FirstRecord(rest).payload == rest[40..40 + size])
  {
    var b := rest[..40];
    var h := DecodeFrame(b);
    FrameReads(b);
    hide DecodeFrame, HoldsAt;
    SoundBytes(b, h);
    assert rest[..8] == b[..8];
  }

  lemma MagicDigits()
    ensures var eight := [0x4D, 0x44, 0x45, 0x56, 0x54, 0x30, 0x31, 0];
            forall i :: 0 <= i < 8 ==> JOURNAL_MAGIC / Range(i) % 0x100 == eight[i]
  {
    Ranges();
    assert Range(0) == 1 && Range(3) == 0x100 * Range(2) && Range(5) == 0x100 * Range(4);
    assert Range(6) == 0x100 * Range(5) && Range(7) == 0x100 * Range(6);
  }

  /** A file is a journal exactly when it has 64 bytes and opens with "MDEVT01\0", version 1 and size 64. */
  lemma JournalByBytes(file: seq<byte>)
    requires |file| >= 64
    ensures ValidFileHeader(DecodeFile(file[..64]))
       <==> file[..8] == [0x4D, 0x44, 0x45, 0x56, 0x54, 0x30, 0x31, 0] && file[8..12] == [1, 0, 64, 0]
  {
    var b := file[..64];
    var h := DecodeFile(b);
    FileReads(b);
    hide DecodeFile, HoldsAt, JOURNAL_MAGIC;
    TwoBytes(b, 8, h.version);
    TwoBytes(b, 10, h.headerSize);
    MagicDigits();
    SameEightBytes(b, h.magic, JOURNAL_MAGIC, [0x4D, 0x44, 0x45, 0x56, 0x54, 0x30, 0x31, 0]);
    assert b[..8] == file[..8];
    assert file[8..12] == [file[8], file[9], file[10], file[11]];
  }

  /** All records up to the first read that answers false, and that answer's status. */
  function ReadAll(rest: seq<byte>): (seq<Record>, ReadStatus)
    decreases |rest|
  {
    if Classify(rest) != IsRecord then ([], Classify(rest)) else
      var r := FirstRecord(rest);
      var (more, status) := ReadAll(rest[|Image(r)|..]);
      ([r] + more, status)
  }

  /** `std::vector::resize`, then a read that fills only the first bytes. */
  function Refill(before: seq<byte>, size: nat, bytes: seq<byte>): (after: seq<byte>)
    requires |bytes| <= size
    ensures |after| == size && after[..|bytes|] == bytes
  {
    var resized := if size <= |before| then before[..size] else before + Zeros(size - |before|);
    bytes + resized[|bytes|..]
  }

  /** What a torn tail leaves in the caller's record: nothing new if the header is torn, else the header and as
      much of the payload as there is. */
  function Torn(rest: seq<byte>, before: Record): Record
    requires Classify(rest) == TruncatedTail
  {
    if |rest| < FRAME_HEADER_SIZE then before
    else
      var h := DecodeFrame(rest[..FRAME_HEADER_SIZE]);
      Record(h, Refill(before.payload, h.payloadSize, rest[FRAME_HEADER_SIZE..]))
  }

  /** Byte by byte: under 40 bytes the record is untouched, header and payload; from 40 on it has the header just
      read, and a payload of the announced size whose bytes are those left in the file, then those it had there
      before, then zeros. */
  lemma TornByBytes(rest: seq<byte>, before: Record)
    requires Classify(rest) == TruncatedTail
    ensures |rest| < 40 ==> Torn(rest, before) == before
    ensures |rest| >= 40 ==>
              var out := Torn(rest, before);
              && FrameLies(rest[..40], out.header) && |out.payload| == out.header.payloadSize
              && forall i :: 0 <= i < |out.payload| ==>
                   out.payload[i] == if i < |rest| - 40 then rest[40 + i]
                                     else if i < |before.payload| then before.payload[i] else 0
  {
    if |rest| >= 40 {
      FrameReads(rest[..40]);
    }
    hide DecodeFrame, FrameLies;
  }

  class EventJournalReader {
    const input: seq<byte>
    var pos: nat
    var failed: bool  // the stream has hit its end; later reads deliver nothing
    var valid: bool
    var fileHeader: FileHeader
    var lastStatus: ReadStatus

    ghost predicate Positioned()
      reads this
    {
      pos <= |input|
    }

    constructor (file: seq<byte>)
      ensures Positioned() && input == file && lastStatus == InvalidFile
      ensures valid <==> |file| >= FILE_HEADER_SIZE && ValidFileHeader(DecodeFile(file[..FILE_HEADER_SIZE]))
      ensures valid ==> pos == FILE_HEADER_SIZE && !failed && fileHeader == DecodeFile(file[..FILE_HEADER_SIZE])
    {
      input := file;
      lastStatus := InvalidFile;
      if |file| < FILE_HEADER_SIZE {
        pos, failed, valid := |file|, true, false;
        fileHeader := NewFileHeader(0, 0);
      } else {
        pos, failed := FILE_HEADER_SIZE, false;
        fileHeader := DecodeFile(file[..FILE_HEADER_SIZE]);
        valid := ValidFileHeader(DecodeFile(file[..FILE_HEADER_SIZE]));
      }
    }

    method Next(record: Record) returns (ok: bool, out: Record)
      requires Positioned()
      modifies this
      ensures Positioned() && valid == old(valid) && fileHeader == old(fileHeader)
      ensures lastStatus == if !valid then InvalidFile else if old(failed) then EndOfFile
              else Classify(old(input[pos..]))
      ensures ok <==> lastStatus == IsRecord
      ensures ok ==> !failed && out == FirstRecord(old(input[pos..]))
      ensures ok ==> input[pos..] == old(input[pos..])[|Image(out)|..]
      ensures lastStatus in {EndOfFile, TruncatedTail} ==> failed
      ensures lastStatus == Corrupt ==> input[pos..] == old(input[pos..])[FRAME_HEADER_SIZE..] && !failed
      ensures !ok ==> out == if lastStatus == TruncatedTail then Torn(old(input[pos..]), record) else record
    {
      hide DecodeFrame, EncodeFrame;
      ghost var rest := input[pos..];
      out := record;
      if !valid {
        lastStatus := InvalidFile;
        return false, out;
      }
      var available := if failed then 0 else |input| - pos;
      var headerBytes := if available < FRAME_HEADER_SIZE then available else FRAME_HEADER_SIZE;
      if headerBytes == 0 {
        failed := true;
        lastStatus := EndOfFile;
        return false, out;
      }
      if headerBytes != FRAME_HEADER_SIZE {
        pos, failed := |input|, true;
        lastStatus := TruncatedTail;
        return false, out;
      }
      var frame := DecodeFrame(input[pos..pos + FRAME_HEADER_SIZE]);
      assert rest[..FRAME_HEADER_SIZE] == input[pos..pos + FRAME_HEADER_SIZE];
      pos := pos + FRAME_HEADER_SIZE;
      if frame.magic != FRAME_MAGIC || frame.version != JOURNAL_VERSION || frame.headerSize != FRAME_HEADER_SIZE ||
         frame.payloadSize > MAX_PAYLOAD
      {
        assert input[pos..] == rest[FRAME_HEADER_SIZE..];
        lastStatus := Corrupt;
        return false, out;
      }
      if |input| - pos < frame.payloadSize {
        assert input[pos..] == rest[FRAME_HEADER_SIZE..];
        out := Record(frame, Refill(record.payload, frame.payloadSize, input[pos..]));
        pos, failed := |input|, true;
        lastStatus := TruncatedTail;
        return false, out;
      }
      out := Record(frame, input[pos..pos + frame.payloadSize]);
      assert rest[FRAME_HEADER_SIZE..FRAME_HEADER_SIZE + frame.payloadSize] == input[pos..pos + frame.payloadSize];
      pos := pos + frame.payloadSize;
      assert input[pos..] == rest[|Image(out)|..];
      lastStatus := IsRecord;
      return true, out;
    }
  }

  /** Calling `Next` until its first false answer delivers what `ReadAll` says. */
  method ReadToEnd(reader: EventJournalReader) returns (records: seq<Record>, status: ReadStatus)
    requires reader.Positioned() && reader.valid && !reader.failed
    modifies reader
    ensures (records, status) == ReadAll(old(reader.input[reader.pos..]))
    ensures reader.lastStatus == status
  {
    hide Classify, FirstRecord, Image;
    ghost var all := ReadAll(reader.input[reader.pos..]);
    records := [];
    var record := Record(FrameHeader(FRAME_MAGIC, JOURNAL_VERSION, FRAME_HEADER_SIZE, 0, 0, 0, 0, 0, 0), []);
    var ok := true;
    assert [] + all.0 == all.0;
    while ok
      invariant reader.Positioned() && reader.valid
      invariant ok ==> !reader.failed
      invariant ok ==> all.0 == records + ReadAll(reader.input[reader.pos..]).0
      invariant ok ==> all.1 == ReadAll(reader.input[reader.pos..]).1
      invariant !ok ==> all == (records, reader.lastStatus)
      decreases ok, |reader.input| - reader.pos
    {
      ghost var rest := reader.input[reader.pos..];
      ok, record := reader.Next(record);
      if ok {
        ReadAllFirst(rest);
        assert records + ([record] + ReadAll(reader.input[reader.pos..]).0)
            == (records + [record]) + ReadAll(reader.input[reader.pos..]).0;
        records := records + [record];
      } else {
        assert records + [] == records;
      }
    }
    status := reader.lastStatus;
  }

  lemma ReadAllFirst(rest: seq<byte>)
    requires Classify(rest) == IsRecord
    ensures var r := FirstRecord(rest);
            && ReadAll(rest) == ([r] + ReadAll(rest[|Image(r)|..]).0, ReadAll(rest[|Image(r)|..]).1)
            && |Image(r)| > 0
  {
    hide Image, FirstRecord, Classify;
  }

  // ---------------------------------------------------------------------------------------------
  // Round trip under truncation

  lemma ImageReadsBack(r: Record, tail: seq<byte>)
    requires Readable(r)
    ensures Classify(Image(r) + tail) == IsRecord && FirstRecord(Image(r) + tail) == r
    ensures (Image(r) + tail)[|Image(r)|..] == tail
  {
    var b := Image(r) + tail;
    assert b[..FRAME_HEADER_SIZE] == EncodeFrame(r.header);
    FrameRoundTrip(r.header);
    assert b[FRAME_HEADER_SIZE..FRAME_HEADER_SIZE + |r.payload|] == r.payload;
  }

  /** The typed round trip: a record written for an event and read back decodes to the event's bytes exactly as
      the kind, size and schema version it was written with, and as nothing else. */
  lemma DecodesAsWritten(e: Event, partitionId: u64, tail: seq<byte>, kind: u16, size: nat, schemaVersion: u16)
    requires |e.bytes| <= MAX_PAYLOAD
    ensures Classify(Image(RecordOf(e, partitionId)) + tail) == IsRecord
    ensures var read := FirstRecord(Image(RecordOf(e, partitionId)) + tail);
            Decode(read, kind, size, schemaVersion)
            == if (kind, size, schemaVersion) == (e.kind, |e.bytes|, e.schemaVersion) then Some(e.bytes) else None
  {
    hide Image, Classify, FirstRecord;
    ImageReadsBack(RecordOf(e, partitionId), tail);
  }

  /** The record carries the event: its numbers each in its own field, its kind and schema, and its bytes. */
  predicate Bears(r: Record, e: Event, partitionId: u64) {
    && r.header.exchangeSeq == e.exchangeSeq && r.header.eventSeq == e.eventSeq
    && r.header.partitionId == partitionId
    && r.header.eventKind == e.kind && r.header.schemaVersion == e.schemaVersion
    && r.payload == e.bytes && r.header.payloadSize == |e.bytes|
  }

  /** What an append leaves in the file, byte by byte, and that the reader gets all of it back. */
  lemma EventComesBack(e: Event, partitionId: u64, tail: seq<byte>)
    requires |e.bytes| <= MAX_PAYLOAD
    ensures var b := Frames([RecordOf(e, partitionId)]) + tail;
            && HoldsAt(b, 8, 2, e.kind) && HoldsAt(b, 10, 2, e.schemaVersion) && HoldsAt(b, 12, 4, |e.bytes|)
            && HoldsAt(b, 16, 8, partitionId) && HoldsAt(b, 24, 8, e.exchangeSeq) && HoldsAt(b, 32, 8, e.eventSeq)
            && |b| == 40 + |e.bytes| + |tail| && b[40..40 + |e.bytes|] == e.bytes && b[40 + |e.bytes|..] == tail
            && Classify(b) == IsRecord && Bears(FirstRecord(b), e, partitionId)
  {
    var r := RecordOf(e, partitionId);
    var b := Frames([r]) + tail;
    assert Frames([r]) == Image(r) + Frames([]) == Image(r) == EncodeFrame(r.header) + e.bytes;
    hide Classify, FirstRecord, EncodeFrame, Frames, Image;
    ImageReadsBack(r, tail);
    FrameLayout(r.header);
    SameStart(EncodeFrame(r.header), e.bytes, tail, b);
    HeldInFront(EncodeFrame(r.header), b);
    hide HoldsAt;
  }

  lemma SameStart(a: seq<byte>, b: seq<byte>, c: seq<byte>, all: seq<byte>)
    requires all == a + b + c
    ensures a <= all && all[|a|..|a| + |b|] == b && all[|a| + |b|..] == c
  {
  }

  lemma HeldInFront(a: seq<byte>, b: seq<byte>)
    requires a <= b
    ensures forall offset, width, n :: HoldsAt(a, offset, width, n) ==> HoldsAt(b, offset, width, n)
  {
    forall offset, width, n | HoldsAt(a, offset, width, n) ensures HoldsAt(b, offset, width, n) {
      assert forall j :: 0 <= j < |a| ==> b[j] == a[j];
    }
  }

  lemma CutFrameIsTruncated(r: Record, n: nat)
    requires Readable(r) && n < |Image(r)|
    ensures Classify(Image(r)[..n]) == if n == 0 then EndOfFile else TruncatedTail
  {
    if n >= FRAME_HEADER_SIZE {
      assert Image(r)[..n][..FRAME_HEADER_SIZE] == EncodeFrame(r.header);
      FrameRoundTrip(r.header);
    }
  }

  lemma ReadAllCons(r: Record, rest: seq<byte>)
    requires Readable(r)
    ensures ReadAll(Image(r) + rest) == ([r] + ReadAll(rest).0, ReadAll(rest).1)
  {
    ImageReadsBack(r, rest);
  }

  lemma FramesPrefix(records: seq<Record>, j: nat)
    requires j < |records|
    ensures records[..j + 1] == [records[0]] + records[1..][..j]
    ensures FramesSize(records[..j + 1]) == |Image(records[0])| + FramesSize(records[1..][..j])
  {
    assert records[..j + 1][1..] == records[1..][..j];
  }

  lemma TakeConcat(a: seq<byte>, b: seq<byte>, n: nat)
    requires n <= |a| + |b|
    ensures (a + b)[..n] == if n < |a| then a[..n] else a + b[..n - |a|]
  {
  }

  /** Cut the frames anywhere: the reader returns exactly the records whose frames fit entirely, and its
      first false answer says whether the cut fell on a frame boundary. It never says Corrupt. */
  lemma {:induction false} ReadBackCutFrames(records: seq<Record>, n: nat) returns (k: nat)
    requires AllReadable(records) && n <= FramesSize(records)
    ensures k <= |records| && FramesSize(records[..k]) <= n
    ensures k < |records| ==> n < FramesSize(records[..k + 1])
    ensures ReadAll(Frames(records)[..n])
         == (records[..k], if n == FramesSize(records[..k]) then EndOfFile else TruncatedTail)
  {
    hide EncodeFrame, DecodeFrame;
    if records == [] {
      k := 0;
    } else {
      hide Image, Classify, FirstRecord;
      var r, tail := records[0], Frames(records[1..]);
      TakeConcat(Image(r), tail, n);
      if n < |Image(r)| {
        k := 0;
        FramesPrefix(records, 0);
        CutFrameIsTruncated(r, n);
      } else {
        var j := ReadBackCutFrames(records[1..], n - |Image(r)|);
        k := j + 1;
        ReadAllCons(r, tail[..n - |Image(r)|]);
        FramesPrefix(records, j);
        if k < |records| {
          FramesPrefix(records, k);
        }
      }
    }
  }

  /** A new journal opens with its magic, version 1 and size 64, and names its source at byte 12 and its day at 16. */
  lemma NewJournalLies(sourceId: u32, tradingDay: u32, records: seq<Record>)
    ensures var file := FileImage(sourceId, tradingDay, records);
            && file[..8] == [0x4D, 0x44, 0x45, 0x56, 0x54, 0x30, 0x31, 0] && file[8..12] == [1, 0, 64, 0]
            && HoldsAt(file, 12, 4, sourceId) && HoldsAt(file, 16, 4, tradingDay) && HoldsAt(file, 20, 44, 0)
  {
    var h := NewFileHeader(sourceId, tradingDay);
    var b, file := EncodeFile(h), FileImage(sourceId, tradingDay, records);
    assert file[..64] == b;
    FileLayout(h);
    FileRoundTrip(h);
    hide EncodeFile, DecodeFile, Frames, FileImage;
    JournalByBytes(file);
    HeldInFront(b, file);
    hide HoldsAt;
  }

  lemma CutKeepsHeader(header: seq<byte>, frames: seq<byte>, n: nat)
    requires |header| <= n <= |header| + |frames|
    ensures (header + frames)[..n][..|header|] == header
    ensures (header + frames)[..n][|header|..] == frames[..n - |header|]
  {
  }

  /** The same for a whole file: a cut before byte 64 leaves no valid journal, any later cut leaves a
      valid one whose header is intact and whose records are a prefix of those written. */
  lemma ReadBackCutFile(sourceId: u32, tradingDay: u32, records: seq<Record>, n: nat) returns (k: nat)
    requires AllReadable(records) && FILE_HEADER_SIZE <= n <= FileSize(records)
    ensures var file := FileImage(sourceId, tradingDay, records)[..n];
            && DecodeFile(file[..FILE_HEADER_SIZE]) == NewFileHeader(sourceId, tradingDay)
            && ValidFileHeader(DecodeFile(file[..FILE_HEADER_SIZE]))
            && k <= |records| && FileSize(records[..k]) <= n
            && (k < |records| ==> n < FileSize(records[..k + 1]))
            && ReadAll(file[FILE_HEADER_SIZE..])
            == (records[..k], if n == FileSize(records[..k]) then EndOfFile else TruncatedTail)
  {
    hide EncodeFile;
    hide EncodeFrame;
    hide Frames;
    CutKeepsHeader(EncodeFile(NewFileHeader(sourceId, tradingDay)), Frames(records), n);
    FileRoundTrip(NewFileHeader(sourceId, tradingDay));
    k := ReadBackCutFrames(records, n - FILE_HEADER_SIZE);
  }
}
