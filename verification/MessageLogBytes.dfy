/** The message log by its bytes: where every field lies, and what the reader makes of the bytes it meets. */
module MessageLogBytes {
  import opened Words
  import opened ByteCodec
  import opened MarketEvents
  import opened MessageLogs

  // ---------------------------------------------------------------------------------------------
  // Offsets

  lemma NarrowOffsets()
    ensures Total(FRAME_WIDTHS[..0]) == 0 && Total(FRAME_WIDTHS[..1]) == 4 && Total(FRAME_WIDTHS[..2]) == 6
    ensures Total(FRAME_WIDTHS[..3]) == 8 && Total(FRAME_WIDTHS[..4]) == 10 && Total(FRAME_WIDTHS[..5]) == 11
    ensures Total(FRAME_WIDTHS[..6]) == 12 && Total(FRAME_WIDTHS[..7]) == 13 && Total(FRAME_WIDTHS[..8]) == 14
  {
    var w := FRAME_WIDTHS;
    assert |w| == 22 && w[0] == 4 && w[1] == w[2] == w[3] == 2 && w[4] == w[5] == w[6] == w[7] == 1;
    hide FRAME_WIDTHS;
    NextOffset(w, 0, 0); NextOffset(w, 1, 4); NextOffset(w, 2, 6); NextOffset(w, 3, 8);
    NextOffset(w, 4, 10); NextOffset(w, 5, 11); NextOffset(w, 6, 12); NextOffset(w, 7, 13);
  }

  lemma MiddleOffsets()
    ensures Total(FRAME_WIDTHS[..8]) == 14 && Total(FRAME_WIDTHS[..9]) == 18 && Total(FRAME_WIDTHS[..10]) == 22
    ensures Total(FRAME_WIDTHS[..11]) == 26 && Total(FRAME_WIDTHS[..12]) == 30 && Total(FRAME_WIDTHS[..13]) == 34
    ensures Total(FRAME_WIDTHS[..14]) == 38
  {
    var w := FRAME_WIDTHS;
    NarrowOffsets();
    assert |w| == 22 && w[8] == w[9] == w[10] == w[11] == w[12] == w[13] == 4;
    hide FRAME_WIDTHS;
    NextOffset(w, 8, 14); NextOffset(w, 9, 18); NextOffset(w, 10, 22);
    NextOffset(w, 11, 26); NextOffset(w, 12, 30); NextOffset(w, 13, 34);
  }

  lemma WideOffsets()
    ensures Total(FRAME_WIDTHS[..14]) == 38 && Total(FRAME_WIDTHS[..15]) == 46 && Total(FRAME_WIDTHS[..16]) == 54
    ensures Total(FRAME_WIDTHS[..17]) == 62 && Total(FRAME_WIDTHS[..18]) == 70 && Total(FRAME_WIDTHS[..19]) == 78
    ensures Total(FRAME_WIDTHS[..20]) == 86 && Total(FRAME_WIDTHS[..21]) == 90
  {
    var w := FRAME_WIDTHS;
    MiddleOffsets();
    assert |w| == 22 && w[14] == w[15] == w[16] == w[17] == w[18] == w[19] == 8 && w[20] == 4;
    hide FRAME_WIDTHS;
    NextOffset(w, 14, 38); NextOffset(w, 15, 46); NextOffset(w, 16, 54); NextOffset(w, 17, 62);
    NextOffset(w, 18, 70); NextOffset(w, 19, 78); NextOffset(w, 20, 86);
  }

  lemma FileOffsets()
    ensures Total(FILE_WIDTHS[..0]) == 0 && Total(FILE_WIDTHS[..1]) == 8 && Total(FILE_WIDTHS[..2]) == 10
    ensures Total(FILE_WIDTHS[..3]) == 12 && Total(FILE_WIDTHS[..4]) == 16 && Total(FILE_WIDTHS[..5]) == 20
    ensures Total(FILE_WIDTHS[..6]) == 28 && Total(FILE_WIDTHS[..7]) == 32 && Total(FILE_WIDTHS[..8]) == 36
    ensures Total(FILE_WIDTHS[..9]) == 44
  {
    var w := FILE_WIDTHS;
    assert |w| == 10 && w[0] == w[5] == w[8] == 8 && w[1] == w[2] == 2 && w[3] == w[4] == w[6] == w[7] == 4;
    hide FILE_WIDTHS;
    NextOffset(w, 0, 0); NextOffset(w, 1, 8); NextOffset(w, 2, 10); NextOffset(w, 3, 12); NextOffset(w, 4, 16);
    NextOffset(w, 5, 20); NextOffset(w, 6, 28); NextOffset(w, 7, 32); NextOffset(w, 8, 36);
  }

  // ---------------------------------------------------------------------------------------------
  // Where each field lies

  /** The file header: magic at 0, version at 8, header size at 10, flags at 12, byte-order check at 16, creation
      time at 20, source at 28, writer at 32, budget at 36. */
  predicate FileLies(b: seq<byte>, h: FileHeader) {
    && |b| == 64
    && HoldsAt(b, 0, 8, h.magic) && HoldsAt(b, 8, 2, h.version) && HoldsAt(b, 10, 2, h.headerSize)
    && HoldsAt(b, 12, 4, h.flags) && HoldsAt(b, 16, 4, h.endianCheck) && HoldsAt(b, 20, 8, h.createdTsNs)
    && HoldsAt(b, 28, 4, h.sourceId) && HoldsAt(b, 32, 4, h.writerId) && HoldsAt(b, 36, 8, h.maxTotalBytes)
  }

  lemma FileLayout(h: FileHeader)
    ensures FileLies(EncodeFile(h), h)
  {
    var w, v := FILE_WIDTHS, FileFields(h);
    FileTotal();
    FileOffsets();
    assert w[0] == w[5] == w[8] == 8 && w[1] == w[2] == 2 && w[3] == w[4] == w[6] == w[7] == 4;
    hide Pack, Total, HoldsAt, FILE_WIDTHS;
    PackHolds(w, v, 0, 0);
    PackHolds(w, v, 1, 8);
    PackHolds(w, v, 2, 10);
    PackHolds(w, v, 3, 12);
    PackHolds(w, v, 4, 16);
    PackHolds(w, v, 5, 20);
    PackHolds(w, v, 6, 28);
    PackHolds(w, v, 7, 32);
    PackHolds(w, v, 8, 36);
  }

  lemma FileReads(b: seq<byte>)
    requires |b| == FILE_HEADER_SIZE
    ensures FileLies(b, DecodeFile(b))
  {
    var w := FILE_WIDTHS;
    FileTotal();
    FileOffsets();
    assert w[0] == w[5] == w[8] == 8 && w[1] == w[2] == 2 && w[3] == w[4] == w[6] == w[7] == 4;
    hide Unpack, Total, HoldsAt, FILE_WIDTHS;
    FileFieldsFit(Unpack(w, b));
    UnpackReads(w, b, 0, 0);
    UnpackReads(w, b, 1, 8);
    UnpackReads(w, b, 2, 10);
    UnpackReads(w, b, 3, 12);
    UnpackReads(w, b, 4, 16);
    UnpackReads(w, b, 5, 20);
    UnpackReads(w, b, 6, 28);
    UnpackReads(w, b, 7, 32);
    UnpackReads(w, b, 8, 36);
  }

  /** The front of a frame: magic at 0, version at 4, header size at 6, payload kind at 8, encoding at 10, protocol
      at 11, compression at 12, a spare byte, payload size at 14. */
  predicate FrontLies(b: seq<byte>, magic: u32, version: u16, headerSize: u16, kind: u16, encoding: u8, protocol: u8,
                      compression: u8, payloadSize: u32) {
    && HoldsAt(b, 0, 4, magic) && HoldsAt(b, 4, 2, version) && HoldsAt(b, 6, 2, headerSize)
    && HoldsAt(b, 8, 2, kind) && HoldsAt(b, 10, 1, encoding) && HoldsAt(b, 11, 1, protocol)
    && HoldsAt(b, 12, 1, compression) && HoldsAt(b, 14, 4, payloadSize)
  }

  /** The envelope's identities: source at 18, venue at 22, connection at 26, feed at 30, instrument at 34. */
  predicate IdentityLies(b: seq<byte>, source: u32, venue: u32, connection: u32, feed: u32, instrument: u32) {
    && HoldsAt(b, 18, 4, source) && HoldsAt(b, 22, 4, venue) && HoldsAt(b, 26, 4, connection)
    && HoldsAt(b, 30, 4, feed) && HoldsAt(b, 34, 4, instrument)
  }

  /** Its sequences at 38, 46 and 54, its times at 62, 70 and 78, and its flags at 86. */
  predicate NumbersLie(b: seq<byte>, capture: u64, event: u64, exchange: u64, source: u64, recv: u64, publish: u64,
                       flags: u32) {
    && HoldsAt(b, 38, 8, capture) && HoldsAt(b, 46, 8, event) && HoldsAt(b, 54, 8, exchange)
    && HoldsAt(b, 62, 8, source) && HoldsAt(b, 70, 8, recv) && HoldsAt(b, 78, 8, publish) && HoldsAt(b, 86, 4, flags)
  }

  lemma FieldLies(h: FrameHeader, k: nat, offset: nat)
    requires k < |FRAME_WIDTHS| == |FrameFields(h)| && offset == Total(FRAME_WIDTHS[..k])
    ensures HoldsAt(EncodeFrame(h), offset, FRAME_WIDTHS[k], FrameFields(h)[k])
  {
    FrameTotal();
    hide FRAME_WIDTHS, FrameFields, Pack, HoldsAt, Total;
    PackHolds(FRAME_WIDTHS, FrameFields(h), k, offset);
  }

  lemma FrontFields(h: FrameHeader)
    ensures |FRAME_WIDTHS| == |FrameFields(h)| == 22
    ensures FRAME_WIDTHS[0] == 4 && FRAME_WIDTHS[1] == 2 && FRAME_WIDTHS[2] == 2 && FRAME_WIDTHS[3] == 2
    ensures FRAME_WIDTHS[4] == 1 && FRAME_WIDTHS[5] == 1 && FRAME_WIDTHS[6] == 1 && FRAME_WIDTHS[8] == 4
    ensures FrameFields(h)[0] == h.magic && FrameFields(h)[1] == h.version && FrameFields(h)[2] == h.headerSize
    ensures FrameFields(h)[3] == h.payloadKind && FrameFields(h)[4] == h.payloadEncoding
    ensures FrameFields(h)[5] == h.protocol && FrameFields(h)[6] == h.compression
    ensures FrameFields(h)[8] == h.payloadSize
  {
  }

  lemma FrontLayout(h: FrameHeader)
    ensures FrontLies(EncodeFrame(h), h.magic, h.version, h.headerSize, h.payloadKind, h.payloadEncoding, h.protocol,
                      h.compression, h.payloadSize)
  {
    FrontFields(h);
    NarrowOffsets();
    hide Total, HoldsAt, FRAME_WIDTHS, FrameFields, EncodeFrame;
    FieldLies(h, 0, 0);
    FieldLies(h, 1, 4);
    FieldLies(h, 2, 6);
    FieldLies(h, 3, 8);
    FieldLies(h, 4, 10);
    FieldLies(h, 5, 11);
    FieldLies(h, 6, 12);
    FieldLies(h, 8, 14);
  }

  lemma IdentityFields(h: FrameHeader)
    ensures |FRAME_WIDTHS| == |FrameFields(h)| == 22
    ensures FRAME_WIDTHS[9] == 4 && FRAME_WIDTHS[10] == 4 && FRAME_WIDTHS[11] == 4 && FRAME_WIDTHS[12] == 4
    ensures FRAME_WIDTHS[13] == 4
    ensures FrameFields(h)[9] == h.sourceId && FrameFields(h)[10] == h.venueId
    ensures FrameFields(h)[11] == h.connectionId && FrameFields(h)[12] == h.feedId
    ensures FrameFields(h)[13] == h.instrumentId
  {
  }

  lemma IdentityLayout(h: FrameHeader)
    ensures IdentityLies(EncodeFrame(h), h.sourceId, h.venueId, h.connectionId, h.feedId, h.instrumentId)
  {
    IdentityFields(h);
    MiddleOffsets();
    hide Total, HoldsAt, FRAME_WIDTHS, FrameFields, EncodeFrame;
    FieldLies(h, 9, 18);
    FieldLies(h, 10, 22);
    FieldLies(h, 11, 26);
    FieldLies(h, 12, 30);
    FieldLies(h, 13, 34);
  }

  lemma NumbersFields(h: FrameHeader)
    ensures |FRAME_WIDTHS| == |FrameFields(h)| == 22
    ensures FRAME_WIDTHS[7] == 1 && FRAME_WIDTHS[14] == 8 && FRAME_WIDTHS[15] == 8 && FRAME_WIDTHS[16] == 8
    ensures FRAME_WIDTHS[17] == 8 && FRAME_WIDTHS[18] == 8 && FRAME_WIDTHS[19] == 8 && FRAME_WIDTHS[20] == 4
    ensures FRAME_WIDTHS[21] == 38
    ensures FrameFields(h)[7] == 0 && FrameFields(h)[14] == h.captureSeq && FrameFields(h)[15] == h.eventSeq
    ensures FrameFields(h)[16] == h.exchangeSeq && FrameFields(h)[17] == h.sourceTsNs
    ensures FrameFields(h)[18] == h.recvTsNs && FrameFields(h)[19] == h.publishTsNs
    ensures FrameFields(h)[20] == h.flags && FrameFields(h)[21] == 0
  {
  }

  lemma NumbersLayout(h: FrameHeader)
    ensures NumbersLie(EncodeFrame(h), h.captureSeq, h.eventSeq, h.exchangeSeq, h.sourceTsNs, h.recvTsNs,
                       h.publishTsNs, h.flags)
    ensures HoldsAt(EncodeFrame(h), 13, 1, 0) && HoldsAt(EncodeFrame(h), 90, 38, 0)
  {
    NumbersFields(h);
    NarrowOffsets();
    WideOffsets();
    hide Total, HoldsAt, FRAME_WIDTHS, FrameFields, EncodeFrame;
    FieldLies(h, 7, 13);
    FieldLies(h, 14, 38);
    FieldLies(h, 15, 46);
    FieldLies(h, 16, 54);
    FieldLies(h, 17, 62);
    FieldLies(h, 18, 70);
    FieldLies(h, 19, 78);
    FieldLies(h, 20, 86);
    FieldLies(h, 21, 90);
  }

  /** What the writer puts in the file for a message: 128 bytes that hold every field of its envelope, each at its
      own place, and its payload behind them. */
  lemma MessageLies(m: Message)
    requires m.Admissible()
    ensures var b, e := EncodeFrame(HeaderOf(m.envelope, |m.payload|)), m.envelope;
            && Image(RecordOf(m)) == b + m.payload && |b| == 128
            && FrontLies(b, FRAME_MAGIC, 1, 128, e.payloadKind, e.payloadEncoding, e.protocol, e.compression,
                         |m.payload|)
            && IdentityLies(b, e.sourceId, e.venueId, e.connectionId, e.feedId, e.instrumentId)
            && NumbersLie(b, e.captureSeq, e.eventSeq, e.exchangeSeq, e.sourceTsNs, e.recvTsNs, e.publishTsNs, e.flags)
  {
    var h := HeaderOf(m.envelope, |m.payload|);
    FrontLayout(h);
    IdentityLayout(h);
    NumbersLayout(h);
    hide FrontLies, IdentityLies, NumbersLie, EncodeFrame;
  }

  lemma FieldReads(b: seq<byte>, k: nat, offset: nat)
    requires |b| == Total(FRAME_WIDTHS) && k < |FRAME_WIDTHS| && offset == Total(FRAME_WIDTHS[..k])
    ensures HoldsAt(b, offset, FRAME_WIDTHS[k], Unpack(FRAME_WIDTHS, b)[k])
  {
    hide FRAME_WIDTHS, Unpack, HoldsAt, Total;
    UnpackReads(FRAME_WIDTHS, b, k, offset);
  }

  lemma DecodedFront(b: seq<byte>)
    requires |b| == FRAME_HEADER_SIZE
    ensures |b| == Total(FRAME_WIDTHS)
    ensures var h, v := DecodeFrame(b), Unpack(FRAME_WIDTHS, b);
            |v| > 8 && h.magic == v[0] && h.version == v[1] && h.headerSize == v[2] && h.payloadSize == v[8]
  {
    FrameTotal();
    hide Unpack, Total, FRAME_WIDTHS;
    FieldsFit(Unpack(FRAME_WIDTHS, b));
  }

  lemma FrontWidths()
    ensures |FRAME_WIDTHS| == 22
    ensures FRAME_WIDTHS[0] == FRAME_WIDTHS[8] == 4 && FRAME_WIDTHS[1] == FRAME_WIDTHS[2] == 2
  {
  }

  lemma FrameFrontReads(b: seq<byte>)
    requires |b| == FRAME_HEADER_SIZE
    ensures var h := DecodeFrame(b);
            HoldsAt(b, 0, 4, h.magic) && HoldsAt(b, 4, 2, h.version) && HoldsAt(b, 6, 2, h.headerSize)
            && HoldsAt(b, 14, 4, h.payloadSize)
  {
    hide Unpack, Total, HoldsAt, FRAME_WIDTHS, DecodeFrame;
    FrontWidths();
    DecodedFront(b);
    NarrowOffsets();
    FieldReads(b, 0, 0);
    FieldReads(b, 1, 4);
    FieldReads(b, 2, 6);
    FieldReads(b, 8, 14);
  }

  // ---------------------------------------------------------------------------------------------
  // What the reader makes of bytes

  lemma FrameMagicBytes(b0: byte, b1: byte, b2: byte, b3: byte)
    ensures b0 as int + 0x100 * b1 as int + 0x1_0000 * b2 as int + 0x100_0000 * b3 as int == FRAME_MAGIC
       <==> b0 == 0x4D && b1 == 0x53 && b2 == 0x47 && b3 == 0x46
  {
  }

  lemma EndianBytes(b0: byte, b1: byte, b2: byte, b3: byte)
    ensures b0 as int + 0x100 * b1 as int + 0x1_0000 * b2 as int + 0x100_0000 * b3 as int == ENDIAN_CHECK
       <==> b0 == 4 && b1 == 3 && b2 == 2 && b3 == 1
  {
  }

  lemma LowMagicDigits()
    ensures LOG_MAGIC / Range(0) % 0x100 == 0x4D && LOG_MAGIC / Range(1) % 0x100 == 0x44
    ensures LOG_MAGIC / Range(2) % 0x100 == 0x46 && LOG_MAGIC / Range(3) % 0x100 == 0x4D
  {
    assert Range(0) == 1 && Range(1) == 0x100 && Range(3) == 0x100 * Range(2);
  }

  lemma HighMagicDigits()
    ensures LOG_MAGIC / Range(4) % 0x100 == 0x53 && LOG_MAGIC / Range(5) % 0x100 == 0x47
    ensures LOG_MAGIC / Range(6) % 0x100 == 0x31 && LOG_MAGIC / Range(7) % 0x100 == 0
  {
    Ranges();
    assert Range(5) == 0x100 * Range(4);
    assert Range(6) == 0x100 * Range(5) && Range(7) == 0x100 * Range(6);
  }

  lemma MagicDigits()
    ensures var eight := [0x4D, 0x44, 0x46, 0x4D, 0x53, 0x47, 0x31, 0];
            forall i :: 0 <= i < 8 ==> LOG_MAGIC / Range(i) % 0x100 == eight[i]
  {
    hide Range, LOG_MAGIC;
    LowMagicDigits();
    HighMagicDigits();
  }

  lemma HeaderBytes(b: seq<byte>, h: FileHeader)
    requires FileLies(b, h)
    ensures h.magic == LOG_MAGIC <==> b[..8] == [0x4D, 0x44, 0x46, 0x4D, 0x53, 0x47, 0x31, 0]
    ensures h.version == 1 && h.headerSize == 64 <==> b[8] == 1 && b[9] == 0 && b[10] == 64 && b[11] == 0
    ensures h.endianCheck == ENDIAN_CHECK <==> b[16] == 4 && b[17] == 3 && b[18] == 2 && b[19] == 1
  {
    hide HoldsAt, LOG_MAGIC, ENDIAN_CHECK;
    TwoBytes(b, 8, h.version);
    TwoBytes(b, 10, h.headerSize);
    FourBytes(b, 16, h.endianCheck);
    EndianBytes(b[16], b[17], b[18], b[19]);
    MagicDigits();
    SameEightBytes(b, h.magic, LOG_MAGIC, [0x4D, 0x44, 0x46, 0x4D, 0x53, 0x47, 0x31, 0]);
    hide Range;
  }

  /** A file is a message log exactly when it has 64 bytes and opens with "MDFMSG1\0", version 1 and size 64, and
      reads 04 03 02 01 at byte 16. */
  lemma LogByBytes(file: seq<byte>)
    requires |file| >= 64
    ensures ValidFileHeader(DecodeFile(file[..64]))
       <==> file[..8] == [0x4D, 0x44, 0x46, 0x4D, 0x53, 0x47, 0x31, 0] && file[8..12] == [1, 0, 64, 0]
            && file[16..20] == [4, 3, 2, 1]
  {
    var b := file[..64];
    FileReads(b);
    hide DecodeFile, HoldsAt;
    HeaderBytes(b, DecodeFile(b));
    assert b[..8] == file[..8];
    assert file[8..12] == [file[8], file[9], file[10], file[11]];
    assert file[16..20] == [file[16], file[17], file[18], file[19]];
  }

  /** A new log is open, counts its header's 64 bytes and no frame, and its header holds the creation time, source,
      writer and budget at bytes 20, 28, 32 and 36. */
  lemma NewLogLies(o: Options, createdTsNs: u64)
    ensures var l := NewLog(o, createdTsNs);
            && l.isOpen && !l.limited && l.bytesWritten == |l.file| == 64 && l.framesWritten == 0 && l.options == o
            && l.file[..8] == [0x4D, 0x44, 0x46, 0x4D, 0x53, 0x47, 0x31, 0] && l.file[8..12] == [1, 0, 64, 0]
            && HoldsAt(l.file, 12, 4, 0) && l.file[16..20] == [4, 3, 2, 1] && HoldsAt(l.file, 20, 8, createdTsNs)
            && HoldsAt(l.file, 28, 4, o.sourceId) && HoldsAt(l.file, 32, 4, o.writerId)
            && HoldsAt(l.file, 36, 8, o.maxTotalBytes)
  {
    var h := NewFileHeader(o, createdTsNs);
    var file := EncodeFile(h);
    FileLayout(h);
    FileRoundTrip(h);
    hide EncodeFile, DecodeFile, HoldsAt;
    assert file[..64] == file;
    LogByBytes(file);
  }

  lemma SoundBytes(b: seq<byte>)
    requires |b| == 128
    ensures ValidFrameHeader(DecodeFrame(b)) <==> b[..8] == [0x4D, 0x53, 0x47, 0x46, 1, 0, 128, 0]
    ensures DecodeFrame(b).payloadSize
         == b[14] as int + 0x100 * b[15] as int + 0x1_0000 * b[16] as int + 0x100_0000 * b[17] as int
  {
    var h := DecodeFrame(b);
    FrameFrontReads(b);
    hide HoldsAt, DecodeFrame;
    TwoBytes(b, 4, h.version);
    TwoBytes(b, 6, h.headerSize);
    FourBytes(b, 0, h.magic);
    FourBytes(b, 14, h.payloadSize);
    FrameMagicBytes(b[0], b[1], b[2], b[3]);
    assert b[..8] == [b[0], b[1], b[2], b[3], b[4], b[5], b[6], b[7]];
  }

  /** The reader's answer to 128 bytes or more: a frame that does not open with "MSGF", version 1 and size 128 is
      invalid; one that announces more than the reader takes is too large; one with too few bytes behind it is
      invalid; any other is delivered, with the bytes behind it as its payload. */
  lemma VerdictByBytes(rest: seq<byte>, maxPayload: u32)
    requires |rest| >= 128
    ensures var size := rest[14] as int + 0x100 * rest[15] as int + 0x1_0000 * rest[16] as int
                        + 0x100_0000 * rest[17] as int;
            && Classify(rest, maxPayload)
               == (if rest[..8] != [0x4D, 0x53, 0x47, 0x46, 1, 0, 128, 0] then InvalidHeader
                   else if size > maxPayload then ReadStatus.PayloadTooLarge
                   else if |rest| < 128 + size then InvalidHeader else Ok)
            && (Classify(rest, maxPayload) == Ok ==> FirstRecord(rest, maxPayload).payload == rest[128..128 + size])
  {
    hide DecodeFrame, ValidFrameHeader;
    var b := rest[..128];
    SoundBytes(b);
    assert rest[..8] == b[..8];
    assert b[14] == rest[14] && b[15] == rest[15] && b[16] == rest[16] && b[17] == rest[17];
  }

  // ---------------------------------------------------------------------------------------------
  // The writer's answers

  /** Every answer in plain terms, in the source's order of precedence, and all that each changes: a closed or
      stopped log and an oversized payload change nothing; a message within the budget (or without one) is written
      and counted; one past it is dropped, or stops the log for good. */
  lemma AppendByNumbers(l: Log, m: Message)
    ensures var a, next, max := l.Answer(m), l.After(m), l.options.maxTotalBytes;
            if !l.isOpen then a == WriterClosed && next == l
            else if l.limited then a == StoppedByLimit && next == l
            else if |m.payload| >= 0x1_0000_0000 then a == AppendStatus.PayloadTooLarge && next == l
            else if max == 0 || l.bytesWritten + 128 + |m.payload| <= max then
              a == Written
              && next == l.(bytesWritten := Wrap(l.bytesWritten + 128 + |m.payload|),
                            framesWritten := Wrap(l.framesWritten + 1), file := l.file + Image(RecordOf(m)))
            else if l.options.limitPolicy == DropNew then a == DroppedByLimit && next == l
            else if l.options.limitPolicy == StopRecording then a == StoppedByLimit && next == l.(limited := true)
            else a == RotateNotImplemented && next == l.(limited := true)
  {
    hide Image, RecordOf, Wrap;
  }
}
