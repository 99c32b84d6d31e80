# Verified model of the market data library

This project models, in Dafny, the parts of the header-only market data library whose correctness is not visible from
any single function, and proves what their documentation promises.

* **Ring and journal.** `RingSteps.dfy` is the single-producer, single-consumer ring as a machine of two threads that
  move one index load, slot access or index store at a time, over wrapping 64-bit counters (`Words.dfy`).
  `SpscRing.dfy` is the ring object, each of whose methods is proved to be an uninterrupted run of that machine.
  `ByteCodec.dfy` packs structs into bytes and says where each byte lies, `EventJournal.dfy` has the journal's writer
  and reader, and `JournalPipeline.dfy` runs enqueuing and draining as two threads over the step machine.
* **Continuity and recovery.** `SequenceGate.dfy` is the gate and its run theorems, `Checkpoint.dfy` the commit rule,
  `CrashRecovery.dfy` joins gate, journal and checkpoints into one statement about a crash and a restart, and
  `QueuedRecovery.dfy` states it through the asynchronous queue.
* **Text to event.** `JsonReader.dfy` is the hand-written scanner against a recursive specification, `JsonDocument.dfy`
  relates that specification to nested documents printed with arbitrary whitespace, `FixedPoint.dfy` is the exact
  decimal parser and a printer it inverts, and `BinanceMappers.dfy` composes them end to end.
* **Stock mappers.** `MarketEvents.dfy`, `ExchangeRules.dfy` and `MapperOutputs.dfy` hold events and the rules shared by
  all providers; `TonglianMapper.dfy` and `CsmarMapper.dfy` are two providers in front of them; `PublishedStream.dfy`
  has the run properties of what a mapper publishes, with the phase tracker; `ProviderIndependence.dfy` compares the two
  providers, and `FactContents.dfy` says what each publishes of a fact.
* **Message log and feed session.** `MessageLog.dfy` is the byte-budgeted log, written and read back, and
  `MessageLogBytes.dfy` the same by its bytes; `FeedSession.dfy` is the retry loop, its message callback and the
  client's.

Objects whose methods update fields are classes. Where a property spans calls, the class method is tied to a function on
the object's view, and the property is a lemma about runs of that function. What such a function answers is also stated
apart from it, in plain numbers, bytes or fields (`HealthyByNumbers`, `VerdictByBytes`, `SseOrderContents` and the like).

Where the code does not do what its documentation says, the model follows the code. The places found have their own
lemmas: a replayed sequence 0 is applied at the 64-bit boundary (`ReplayedZeroWraps`, `AppliedExactlyOnce`) and a step
back there is named a gap (`StepBackNamedRegressionIff`); the replay sequence saturates there (`ReplaySkipsAppliedIff`),
where a restart that goes on past the `Gap` it is answered still applies nothing twice (`RestartAtTheEnd`); an object
under a key hides a later scalar of the same key (`ObjectHidesScalar`, `ScanFindsFirstScalarIff`); and the two providers
disagree on Shanghai deletes, on rows only one of them checks and on event numbers (`DeletesDiffer`, `AgreeIff`,
`RowNumberShows`).

## Model

| member | source | states |
|---|---|---|
| Words.WrapFaithful | include/marketdata/runtime/spsc_ring.hpp:57-66 | for true counts less than 2^64 apart, the wrapped difference is the true one, wrapped equality is true equality, and a wrapped increment is the increment |
| Words.MaskOfWrapped | include/marketdata/runtime/spsc_ring.hpp:14-16 | ANDing a wrapped counter with capacity-1 gives the true counter modulo the capacity, because the capacity passes the compile-time power-of-two test |
| Words.SlotsDiffer | include/marketdata/runtime/spsc_ring.hpp:107-109 | two counters less than a capacity apart never share a slot |
| RingSteps.CountersFaithful | include/marketdata/runtime/spsc_ring.hpp:92-107 | the ring's difference, equality test, mask and increment on wrapped counters answer as on counters that never wrap |
| RingSteps.StepInv | include/marketdata/runtime/spsc_ring.hpp:56-101 | every step of either thread, with loads as stale as the bounded stale-read model allows, keeps the ring invariant |
| RingSteps.RunRefinesFifo | include/marketdata/runtime/spsc_ring.hpp:56-101 | from any state of the invariant, the events of a run form a history of a bounded FIFO; refusals are exact too when loads are current |
| RingSteps.LinearizableToBoundedFifo | include/marketdata/runtime/spsc_ring.hpp:56-101 | every sequentially consistent interleaving is linearizable to a bounded FIFO, pushes and pops at the index stores and refusals at the load of the other index, with pushed = popped ++ contents |
| RingSteps.SafeUnderStaleLoads | include/marketdata/runtime/spsc_ring.hpp:56-68 | with stale loads the threads never touch one slot, occupancy stays within 0..capacity, and each pop returns the matching push |
| RingSteps.RefusalsWereTrue | include/marketdata/runtime/spsc_ring.hpp:93-96 | even with stale loads a refusal happens exactly when the loaded count makes the ring full or empty, a count that was current since the thread last looked |
| RingSteps.SizeEstimateExact | include/marketdata/runtime/spsc_ring.hpp:76-86 | a size estimate from either thread is the exact length at an instant inside the call and never wraps, and `full`, which makes the same loads and compares, tells exactly whether the length was the capacity at that instant |
| RingSteps.StaleEstimateInRange | include/marketdata/runtime/spsc_ring.hpp:76-86 | even with stale loads an estimate is the difference of two counts the call saw, between 0 and the capacity |
| RingSteps.EmptyExact | include/marketdata/runtime/spsc_ring.hpp:70-74 | `empty` called by the producer is exact at its load of the read index, called by the consumer at its load of the write index, whatever steps the other thread takes between the loads |
| RingSteps.WrappingRefinesUnbounded | include/marketdata/runtime/spsc_ring.hpp:57-107 | the ring with 64-bit counters and the ring with counters that never wrap make exactly the same runs, step for step and event for event, from corresponding states |
| RingSteps.RealRunsAreUnbounded | include/marketdata/runtime/spsc_ring.hpp:57-107 | every run of the real ring from its start is a run with exact counters with the same history, and the other way round |
| SpscRings.SpscRing.constructor | include/marketdata/runtime/spsc_ring.hpp:20-27 | a new ring is empty and in the machine's start state, for any power of two from 2 up |
| SpscRings.SpscRing.TryPush | include/marketdata/runtime/spsc_ring.hpp:89-101 | appends exactly when the ring is not full, and is an uninterrupted run of the step machine |
| SpscRings.SpscRing.TryPop | include/marketdata/runtime/spsc_ring.hpp:56-68 | returns and removes the oldest value exactly when there is one, leaves `out` alone otherwise, and is an uninterrupted run of the step machine |
| SpscRings.SpscRing.Empty | include/marketdata/runtime/spsc_ring.hpp:70-74 | with no other thread moving, answers whether the queue is empty |
| SpscRings.SpscRing.Full | include/marketdata/runtime/spsc_ring.hpp:76-80 | with no other thread moving, answers whether the queue holds a capacity of values |
| SpscRings.SpscRing.SizeEstimate | include/marketdata/runtime/spsc_ring.hpp:82-86 | with no other thread moving, the estimate is the length |
| SpscRings.PushRuns | include/marketdata/runtime/spsc_ring.hpp:89-101 | the closed form of a push made while the consumer stands still: contents, slot, indices, and the run it is |
| SpscRings.PopRuns | include/marketdata/runtime/spsc_ring.hpp:56-68 | the closed form of a pop made while the producer stands still |
| ByteCodec.LittleEndianRoundTrip | include/marketdata/replay/event_journal.hpp:24-45 | a number that fits a field of n bytes survives being stored in it |
| ByteCodec.FromLittleEndianRoundTrip | include/marketdata/replay/event_journal.hpp:24-45 | bytes read as a number and stored again are the same bytes |
| ByteCodec.LittleEndianAt | include/marketdata/replay/event_journal.hpp:24-45 | byte i of a stored number is n / 256^i modulo 256 |
| ByteCodec.ReadsAsHeld | include/marketdata/replay/event_journal.hpp:24-45 | a field reads as n if and only if its bytes are the base-256 digits of n, the lowest first |
| ByteCodec.UnpackPack | include/marketdata/replay/event_journal.hpp:24-48 | reading a packed struct of any field widths back gives the fields written |
| ByteCodec.PackAt | include/marketdata/replay/event_journal.hpp:24-45 | each field of a packed struct lies right behind the fields before it, for any widths |
| EventJournal.FileRoundTrip | include/marketdata/replay/event_journal.hpp:25-32 | the 64-byte file header decodes to what was encoded |
| EventJournal.FrameRoundTrip | include/marketdata/replay/event_journal.hpp:34-44 | the 40-byte frame header decodes to what was encoded |
| EventJournal.FileLayout | include/marketdata/replay/event_journal.hpp:25-32 | every field of the file header lies at its own offset: magic 0, version 8, size 10, source 12, day 16, zeros from 20 |
| EventJournal.FrameLayout | include/marketdata/replay/event_journal.hpp:34-44 | every field of the frame header lies at its own offset: kind 8, schema 10, payload size 12, partition 16, exchange sequence 24, event sequence 32 |
| EventJournal.FrameReads | include/marketdata/replay/event_journal.hpp:34-44 | any 40 bytes decode to the numbers they hold at those offsets |
| EventJournal.NewJournalLies | include/marketdata/replay/event_journal.hpp:54-63 | every journal opens with its magic, version and size, its source at byte 12 and its day at 16, whatever is appended |
| EventJournal.JournalByBytes | include/marketdata/replay/event_journal.hpp:185-193 | a file of 64 bytes or more is a journal if and only if its first 12 bytes are "MDEVT01", a zero, version 1 and size 64 |
| EventJournal.VerdictByBytes | include/marketdata/replay/event_journal.hpp:200-236 | 40 bytes or more are Corrupt unless they open with "EVTF", version 1 and size 40 and announce at most 512 bytes; then a torn tail or a record, by what is left |
| EventJournal.TornByBytes | include/marketdata/replay/event_journal.hpp:225-233 | what a torn payload leaves in the caller's record, byte by byte: the bytes left in the file, then those it had there before, then zeros; a torn header leaves it alone |
| EventJournal.EventJournalWriter.constructor | include/marketdata/replay/event_journal.hpp:54-63 | a new journal is exactly a file header and no frames |
| EventJournal.EventJournalWriter.AppendFrame | include/marketdata/replay/event_journal.hpp:81-90 | appends exactly one frame image when the payload has the announced size, and nothing otherwise |
| EventJournal.EventJournalWriter.Append | include/marketdata/replay/event_journal.hpp:65-79 | appends exactly the frame of the event, whose every byte `EventComesBack` gives |
| EventJournal.EventsAreReadable | include/marketdata/replay/event_journal.hpp:217-224 | the reader accepts an appended event exactly when it is at most 512 bytes long |
| EventJournal.EventJournalReader.constructor | include/marketdata/replay/event_journal.hpp:185-193 | a file is valid exactly when it opens with a whole header of the right magic, version and size |
| EventJournal.EventJournalReader.Next | include/marketdata/replay/event_journal.hpp:200-236 | answers by the first bytes left: a record and the rest of the file, or end of file, truncated tail or corrupt; the caller's record is untouched unless a payload was cut, and then holds the header and what there is; after Corrupt the reader stands past the bad header |
| EventJournal.ReadToEnd | include/marketdata/replay/event_journal.hpp:200-236 | calling `next` until its first false answer delivers exactly the records and status the truncation theorems speak of |
| EventJournal.DecodesAsWritten | include/marketdata/replay/event_journal.hpp:155-173 | a record appended for an event and read back decodes to the event's bytes exactly for the kind, size and schema version it was written with |
| EventJournal.EventComesBack | include/marketdata/replay/event_journal.hpp:65-79 | an appended event lies in the file with its exchange sequence at 24, its event sequence at 32 and every other field at its offset, and the record read back carries each of them and its bytes |
| EventJournal.ReadBackCutFrames | include/marketdata/replay/event_journal.hpp:200-236 | frames cut anywhere read back as exactly the records that fit whole, then EndOfFile if and only if the cut is on a frame boundary, else TruncatedTail, never Corrupt |
| EventJournal.ReadBackCutFile | include/marketdata/replay/event_journal.hpp:185-236 | the same for a whole file cut at or after byte 64, whose header is intact and valid |
| JournalPipeline.AsyncEventJournalQueue.TryEnqueue | include/marketdata/replay/event_journal.hpp:116-135 | queues exactly the event's record unless it is too large or the ring is full, and says which |
| JournalPipeline.AsyncEventJournalQueue.DrainOne | include/marketdata/replay/event_journal.hpp:137-145 | moves the oldest queued frame to the file as its frame image, or does nothing when there is none |
| JournalPipeline.WriteAppends | include/marketdata/replay/event_journal.hpp:142-144 | the drain thread's write extends the file by that frame's image |
| JournalPipeline.MovesInv | include/marketdata/replay/event_journal.hpp:112-153 | every interleaving of the enqueuing and draining threads keeps ring, answers and file in step |
| JournalPipeline.FileHoldsQueuedPrefix | include/marketdata/replay/event_journal.hpp:65-153 | at every instant of every interleaving the file is, byte for byte, direct appends of a prefix of the events answered Queued (none answered Full), and of all of them once drained |
| JournalPipeline.CrashKeepsQueuedPrefix | include/marketdata/replay/event_journal.hpp:112-236 | a cut of that file at any instant reads back as exactly the Queued events whose frames fit whole, then EndOfFile if and only if the cut is on a frame boundary, else TruncatedTail |
| JournalPipeline.CrashKeepsQueuedEvents | include/marketdata/replay/event_journal.hpp:117-149 | the same said of the events: the i-th record read back carries the i-th Queued event, with its exchange and event sequence, partition, kind, schema and bytes |
| JournalPipeline.TooLargeIff | include/marketdata/replay/event_journal.hpp:114-135 | for every interleaving, PayloadTooLarge is answered to exactly the events over 512 bytes |
| SequenceGates.SequenceGate.Observe | include/marketdata/mappers/sequence_gate.hpp:32-73 | answers and moves as the gate's live rule, which `HealthyByNumbers` and `OtherwiseByNumbers` give on plain numbers, counts once, and reports the state and the number expected next, or none before anything was accepted |
| SequenceGates.SequenceGate.BeginRecovery | include/marketdata/mappers/sequence_gate.hpp:75 | changes the state to Recovering and nothing else |
| SequenceGates.SequenceGate.ObserveRecovery | include/marketdata/mappers/sequence_gate.hpp:77-94 | applies a replayed sequence only while recovering on the same partition and only if it continues; moves nothing else |
| SequenceGates.SequenceGate.CompleteRecovery | include/marketdata/mappers/sequence_gate.hpp:96-114 | succeeds exactly at the boundary already applied, or to set the first baseline |
| SequenceGates.SequenceGate.Reset | include/marketdata/mappers/sequence_gate.hpp:116-121 | forgets the stream and keeps the counters |
| SequenceGates.HealthyByNumbers | include/marketdata/mappers/sequence_gate.hpp:32-73 | of a healthy gate's own partition the successor (in Monotonic mode any later number) is Accepted, the boundary itself a Duplicate, a number past the successor a Gap, an earlier one a Regression (a Gap at 2^64-1), with the whole state and counter after each |
| SequenceGates.OtherwiseByNumbers | include/marketdata/mappers/sequence_gate.hpp:34-73 | every other observation moves no boundary: zeros are invalid, anything before a baseline waits, another partition makes the gate stale in every state, an unhealthy gate rejects |
| SequenceGates.RecoveryByNumbers | include/marketdata/mappers/sequence_gate.hpp:77-94 | the replay answers on plain numbers, each with the whole state after it |
| SequenceGates.HealthyIffUnbroken | docs/architecture.md:59 | the stop-on-a-gap law: over live observations alone a healthy gate ends healthy if and only if each was a zero, or repeated or followed the number heard last in its own partition |
| SequenceGates.HealthyIffSuccessors | docs/architecture.md:59 | on bare numbers: a Contiguous gate ends healthy if and only if each number is the one before it or its successor, a Monotonic one if and only if none steps back |
| SequenceGates.AppliedExactlyOnce | include/marketdata/mappers/sequence_gate.hpp:32-114 | over every run without reset once a baseline exists, live and replayed acceptances together are baseline+1, baseline+2, ..., last_accepted (Contiguous) or strictly increasing to last_accepted (Monotonic), all in the baseline's partition, if and only if no 0 is replayed while last_accepted is 2^64-1 |
| SequenceGates.AppliedSinceReset | include/marketdata/mappers/sequence_gate.hpp:32-121 | from a new or reset gate either nothing is applied, or one complete_recovery fixed the baseline and everything since is exactly once relative to it, under the same if-and-only-if |
| SequenceGates.StuckUntilReset | include/marketdata/mappers/sequence_gate.hpp:75-104 | a recovery begun before any baseline applies nothing and is left only by reset |
| SequenceGates.ReplayedZeroWraps | include/marketdata/mappers/sequence_gate.hpp:77-94 | the input that breaks monotonicity: a replayed 0 at last_accepted = 2^64-1 is applied |
| SequenceGates.ReplayAdvancesIff | include/marketdata/mappers/sequence_gate.hpp:83-93 | an applied replay advances the boundary except for exactly that input |
| SequenceGates.StepBackNamedRegressionIff | include/marketdata/mappers/sequence_gate.hpp:54-72 | a live step back is a Regression if and only if last_accepted is not 2^64-1; there it is named Gap |
| SequenceGates.WhatMakesStale | include/marketdata/mappers/sequence_gate.hpp:43-72 | a gate turns stale exactly on Gap, Regression or WrongPartition, also on a foreign partition in mid-recovery, without moving the boundary |
| SequenceGates.HealthyOnlyThroughRecovery | include/marketdata/mappers/sequence_gate.hpp:75-121 | a stale gate is healthy again only after begin_recovery or reset and then a complete_recovery at exactly the applied boundary, or as a new baseline with a reset before it |
| SequenceGates.NothingLiveWhileStale | include/marketdata/mappers/sequence_gate.hpp:34-52 | no observe is accepted before that |
| SequenceGates.StatsConserved | include/marketdata/mappers/sequence_gate.hpp:34-73 | the seven counters sum to the number of observe calls over every run, across resets: modulo 2^64 always, exactly short of overflow |
| Checkpoints.CheckpointCoordinator.Commit | include/marketdata/replay/checkpoint.hpp:29-42 | commits exactly a valid boundary of the same partition with a later sequence and no shorter journal |
| Checkpoints.CommitsOnlyAdvance | include/marketdata/replay/checkpoint.hpp:29-42 | over any requests of any partitions, from a valid checkpoint: the partition never changes, sequence and offset never decrease, the end is the start or a later request, and no later request of the partition with a journal as long is left behind |
| Checkpoints.NextIsCommittedIff | include/marketdata/replay/checkpoint.hpp:29-42 | after any requests the next one is committed if and only if it is of the same partition, later, and of no shorter journal |
| Checkpoints.FirstIsCommitted | include/marketdata/replay/checkpoint.hpp:29-42 | without a checkpoint, requests lacking a partition or sequence are ignored and the first that has both is taken |
| Checkpoints.ReplaySkipsAppliedIff | include/marketdata/replay/checkpoint.hpp:14-16 | sequences from the replay sequence on are exactly those past the boundary, if and only if the boundary is not 2^64-1 |
| CrashRecovery.ReplayIncreasing | include/marketdata/mappers/sequence_gate.hpp:77-94 | replaying an increasing list applies all of it when the gate is Monotonic or the list has no hole, and otherwise stops short of its end |
| CrashRecovery.CommittedIsFurthest | include/marketdata/replay/checkpoint.hpp:25-42 | whatever order commits at frame boundaries are attempted in, by a coordinator that starts empty or restored at such a boundary, the committed checkpoint is the furthest attempted or restored |
| CrashRecovery.CheckpointedRecordsSurvive | include/marketdata/replay/event_journal.hpp:200-236 | a cut at or after the committed offset leaves exactly the records that fit whole readable, every record up to the checkpoint among them |
| CrashRecovery.ReplayStartsPastCheckpoint | include/marketdata/replay/checkpoint.hpp:14-16 | the survivors from the replay sequence on are exactly those past the checkpoint |
| CrashRecovery.RestartAtTheEnd | include/marketdata/replay/checkpoint.hpp:14-16 | at the boundary 2^64-1, where the replay sequence saturates, the boundary record is read again and answered Gap; if the service goes on, recovery completes with nothing applied |
| CrashRecovery.CrashAndRestart | include/marketdata/replay/checkpoint.hpp:14-42 | journal what the gate applied and published, commit in any order from an empty or restored coordinator, cut at or after the committed offset, restart: exactly the records that fit whole survive, and each survivor past the checkpoint is applied exactly once and none at or below it, always if Monotonic, and if Contiguous exactly when no survivor is missing, in particular when every applied row was published |
| CrashRecovery.AppendedJournals | include/marketdata/replay/event_journal.hpp:65-79 | events appended for the numbers a gate applied journal those numbers if and only if each event's exchange sequence is its call's, and all are readable if and only if none is over 512 bytes |
| QueuedRecovery.QueuedCrashAndRestart | docs/components/replay.md:8-28 | the same through the asynchronous queue and in terms of the events: for every interleaving, with commits at frames already written, the checkpoint names the exchange sequence of a Queued event and the restart applies exactly the exchange sequences of the surviving Queued events past it, each once |
| JsonReader.FindJsonValue | include/marketdata/providers/crypto/binance/detail/json_value_reader.hpp:35-103 | the index-moving loops return what a recursive reading of the text defines, terminate, and stay in bounds |
| JsonReader.ReadJsonString | include/marketdata/providers/crypto/binance/detail/json_value_reader.hpp:105-110 | succeeds exactly on a quoted value and returns it |
| JsonReader.ReadJsonBool | include/marketdata/providers/crypto/binance/detail/json_value_reader.hpp:112-129 | succeeds exactly on unquoted true or false and returns it |
| JsonReader.ReadJsonU64 | include/marketdata/providers/crypto/binance/detail/json_value_reader.hpp:131-153 | succeeds exactly on digits whose value fits 64 bits and returns that value, with no intermediate overflow |
| JsonReader.AsciiEqualIgnoreCase | include/marketdata/providers/crypto/binance/detail/json_value_reader.hpp:10-29 | answers whether the texts are equal ignoring ASCII case, as `EqualIgnoringCaseIff` says in codes |
| JsonReader.EqualIgnoringCaseIff | include/marketdata/providers/crypto/binance/detail/json_value_reader.hpp:10-29 | two texts are equal ignoring case if and only if they are equally long and at each place the same character or two letters A-Z and a-z exactly 32 apart |
| JsonReader.CharacterCodes | include/marketdata/providers/crypto/binance/detail/json_value_reader.hpp:31-33 | whitespace, token ends and digits by character code |
| JsonReader.QuotedValueEnds | include/marketdata/providers/crypto/binance/detail/json_value_reader.hpp:76-92 | a quoted value ends at the first quote no backslash precedes, and is nothing when there is none |
| JsonDocuments.ScanFindsFirstField | include/marketdata/providers/crypto/binance/detail/json_value_reader.hpp:35-103 | for every nested document, whitespace and key, the scanner reads the first field with that key in document order with the right quoted flag, is not fooled by string values, and finds nothing exactly when no field has the key |
| JsonDocuments.ScanFindsFirstScalarIff | include/marketdata/providers/crypto/binance/detail/json_value_reader.hpp:65-99 | it returns the first scalar field of the key if and only if the key's first field is not an object |
| JsonDocuments.ObjectHidesScalar | include/marketdata/providers/crypto/binance/detail/json_value_reader.hpp:93-99 | a document in which an object under the key hides a later scalar |
| FixedPoint.AppendDigit | include/marketdata/codecs/fixed_point.hpp:38-44 | appends a digit exactly when the result stays within the limit |
| FixedPoint.DenotesUnique | include/marketdata/codecs/fixed_point.hpp:12-95 | a text has at most one value at a scale, so soundness fixes the output |
| FixedPoint.ParseDecimalToFixed | include/marketdata/codecs/fixed_point.hpp:12-95 | succeeds if and only if the scale is 0..18, the text is a decimal and its exact value times 10^scale is an int64 (-2^63 included), and then returns it; else leaves the output alone |
| FixedPoint.ParseInvertsPrint | include/marketdata/codecs/fixed_point.hpp:12-95 | every int64 printed as a decimal at any scale parses back |
| FixedPoint.ParsesIff | include/marketdata/codecs/fixed_point.hpp:12-95 | a sign or none, digits, and perhaps a point and digits parse to n if and only if there is a digit, the scale is 0 to 18, n is an int64 and n * 10^(digits behind the point) is the signed number of all digits times 10^scale |
| FixedPoint.ParsesOnlyShapes | include/marketdata/codecs/fixed_point.hpp:12-95 | no text of any other form parses |
| BinanceMappers.MillisecondsToNanoseconds | include/marketdata/providers/crypto/binance/trade_mapper.hpp:14-21 | multiplies exactly when the product fits 64 bits |
| BinanceMappers.DocumentIsTradeIff | include/marketdata/providers/crypto/binance/trade_mapper.hpp:23-72 | every well-formed document maps to a given trade if and only if the first fields with the six keys are a matching symbol, an id, a price and a quantity within int64 at the configured scales, a time that fits and a maker flag, and the trade is of just these |
| BinanceMappers.DocumentIsQuoteIff | include/marketdata/providers/crypto/binance/book_ticker_mapper.hpp:13-63 | the same for quotes |
| BinanceMappers.MapTradeToTrade | include/marketdata/providers/crypto/binance/trade_mapper.hpp:23-72 | maps exactly the payloads that `DocumentIsTradeIff` describes, to that trade; leaves the output untouched otherwise |
| BinanceMappers.MapTradeMessage | include/marketdata/providers/crypto/binance/trade_mapper.hpp:74-92 | the message form maps the same payloads and takes flags, feed, connection, capture and event sequence and the receive and publish times from the envelope, the identities from the context and sequence and time from the payload |
| BinanceMappers.MapBookTickerToQuote | include/marketdata/providers/crypto/binance/book_ticker_mapper.hpp:13-63 | maps exactly the payloads that `DocumentIsQuoteIff` describes, to that quote; leaves the output untouched otherwise |
| BinanceMappers.MapBookTickerMessage | include/marketdata/providers/crypto/binance/book_ticker_mapper.hpp:65-81 | the same for the message form of a book ticker, which takes its exchange time from the envelope |
| BinanceMappers.TradeRoundTrip | include/marketdata/providers/crypto/binance/trade_mapper.hpp:23-72 | any document in which a trade's rendered fields are the first with their keys maps if and only if the configured symbol is empty or matches letter by letter and the time in nanoseconds fits, and then to exactly that trade, taker opposite to maker |
| BinanceMappers.QuoteRoundTrip | include/marketdata/providers/crypto/binance/book_ticker_mapper.hpp:13-63 | the same for quotes, if and only if the symbol matches |
| BinanceMappers.AnyOrderTrade | include/marketdata/providers/crypto/binance/trade_mapper.hpp:23-72 | a trade's fields printed in any order, plain or inside a combined-stream wrapper, map back to it under the same condition |
| BinanceMappers.AnyOrderQuote | include/marketdata/providers/crypto/binance/book_ticker_mapper.hpp:13-63 | the same for quotes |
| ExchangeRules.SseTradeReducesOrders | include/marketdata/markets/cn/sse/mapper.hpp:90-124 | a Shanghai trade reduces both orders in an auction or when neutral, else only the passive one; refused exactly when malformed, or continuous without an active side |
| ExchangeRules.SseTradeIsSymmetric | include/marketdata/markets/cn/sse/mapper.hpp:90-124 | swapping buyer and seller in the row swaps them in the event, for every row |
| ExchangeRules.SzseTradeIsSymmetricIff | include/marketdata/markets/cn/szse/mapper.hpp:80-109 | the same in Shenzhen, except exactly for unmarked trades between equal nonzero order ids |
| ExchangeRules.SzseTradeActiveSide | include/marketdata/markets/cn/szse/mapper.hpp:95-106 | a marked active side stands; an unmarked one is the later of two orders, the sale if they are one order, and unknown if an order is missing |
| ExchangeRules.CancelNamesOrder | include/marketdata/markets/cn/sse/mapper.hpp:66-88 | both exchanges map a cancel exactly when it has a quantity and an order; it names the sell order if there is one, else the buy order |
| ExchangeRules.SseOrderContents | include/marketdata/markets/cn/sse/mapper.hpp:14-49 | for every row view: which Shanghai orders are ignored, invalid, unsupported or mapped, and every field of a mapped one: price, quantity (also remaining), side, ids, sequence, Add or Delete, limit |
| ExchangeRules.SzseOrderContents | include/marketdata/markets/cn/szse/mapper.hpp:13-53 | the same for Shenzhen orders, with limit, market and own-best kinds |
| ExchangeRules.PhaseContents | include/marketdata/markets/cn/sse/mapper.hpp:51-64 | a phase row maps if and only if its phase is known, to that phase |
| ExchangeRules.CancelContents | include/marketdata/markets/cn/sse/mapper.hpp:66-88 | both cancels: when they map and every field of the event |
| ExchangeRules.SseTradeContents | include/marketdata/markets/cn/sse/mapper.hpp:90-124 | for every row view: buyer's and seller's order in their own fields in an auction or a neutral trade, else only the order that rested, and every other field and result |
| ExchangeRules.SzseTradeContents | include/marketdata/markets/cn/szse/mapper.hpp:80-109 | for every row view: both orders in their own fields, the marked side or else the later order's, and every other field and result |
| PublishedStream.TradingPhaseTracker.Apply | include/marketdata/markets/trading_phase_tracker.hpp:20-35 | applies exactly a known phase with a later nonzero sequence, and names the other cases |
| PublishedStream.ApplyByNumbers | include/marketdata/markets/trading_phase_tracker.hpp:20-35 | one update by the numbers: a later known phase is taken over, a repeated one is a Duplicate, an earlier one a Regression, and neither changes anything |
| PublishedStream.TrackerStandsAtHighest | include/marketdata/markets/trading_phase_tracker.hpp:20-35 | whatever updates arrive in whatever order, the tracker stands at the highest sequence of a supported one, in the phase of the first that had it, and never goes back |
| PublishedStream.PublishedOne | include/marketdata/providers/cn/stock/tonglian/mapper.hpp:269-296 | one step publishes the event of a row the gate accepts and the rules mapped, and nothing else |
| PublishedStream.PublishedConcat | include/marketdata/providers/cn/stock/tonglian/mapper.hpp:269-296 | a run publishes what its parts publish, each from where the gate stands by then |
| PublishedStream.AcceptedAreApplied | include/marketdata/providers/cn/stock/tonglian/mapper.hpp:269-296 | the accepted sequences are those of the calls the gate applied |
| PublishedStream.PublishedAscends | include/marketdata/providers/cn/stock/tonglian/mapper.hpp:269-296 | over every run without reset, accepted sequences strictly increase through gaps and recoveries up to last_accepted, and the published ones are a subsequence of them |
| PublishedStream.NothingLostWhenAllMap | include/marketdata/providers/cn/stock/tonglian/mapper.hpp:269-296 | when every row maps, the published sequences are exactly the accepted ones |
| PublishedStream.TrackerAppliesEveryPublishedPhase | include/marketdata/markets/trading_phase_tracker.hpp:20-35 | a tracker fed only published phase updates answers Applied every time and ends at the last one |
| TonglianMapper.TonglianMapper.MapOrder | include/marketdata/providers/cn/stock/tonglian/mapper.hpp:269-286 | one continuity check per row; publishable exactly when the output kind is set, and then the published event is what the row maps to |
| TonglianMapper.TonglianMapper.MapTransaction | include/marketdata/providers/cn/stock/tonglian/mapper.hpp:288-296 | the same for a transaction row |
| TonglianMapper.TonglianMapper.MapTransactionRow | include/marketdata/providers/cn/stock/tonglian/mapper.hpp:191-249 | with a market configured the result is ok exactly when a kind is set, trades and cancels each to their own output; with none the row is unsupported and the output keeps the kind it came with |
| TonglianMapper.TonglianMapper.CompleteRecovery | include/marketdata/providers/cn/stock/tonglian/mapper.hpp:260-263 | succeeds exactly where the gate may complete |
| TonglianMapper.RunPublishesInOrder | include/marketdata/providers/cn/stock/tonglian/mapper.hpp:253-296 | every run of the mapper publishes increasing accepted sequences and phases a tracker applies one by one |
| TonglianMapper.Codes | include/marketdata/providers/cn/stock/tonglian/mapper.hpp:101-146 | which letters are a side, an active side, a cancel, a trade and, per exchange, each kind of order |
| TonglianMapper.OrderRowContents | include/marketdata/providers/cn/stock/tonglian/mapper.hpp:130-189 | a published order row carries its row number, exchange sequence, time, exchange order id, price and quantity, or its phase |
| TonglianMapper.TransactionRowContents | include/marketdata/providers/cn/stock/tonglian/mapper.hpp:191-257 | a published transaction row takes its transaction id for a missing exchange sequence, and carries its price, quantity and orders |
| TonglianMapper.StepMovesGate | include/marketdata/providers/cn/stock/tonglian/mapper.hpp:252-297 | each use of the mapper moves the gate by the row's channel and exchange index, or completes recovery at the channel and sequence given |
| CsmarMapper.CsmarMapper.EstablishBaseline | include/marketdata/providers/cn/stock/csmar/mapper.hpp:96-99 | sets the baseline exactly where the gate may complete |
| CsmarMapper.CsmarMapper.MapShanghaiOrder | include/marketdata/providers/cn/stock/csmar/mapper.hpp:101-167 | one continuity check per row; publishable exactly when the output kind is set, and then the published event is what the row maps to |
| CsmarMapper.CsmarMapper.MapShanghaiTransaction | include/marketdata/providers/cn/stock/csmar/mapper.hpp:169-210 | the same for a Shanghai transaction row |
| CsmarMapper.CsmarMapper.MapShenzhenOrder | include/marketdata/providers/cn/stock/csmar/mapper.hpp:212-241 | the same for a Shenzhen order row |
| CsmarMapper.CsmarMapper.MapShenzhenTransaction | include/marketdata/providers/cn/stock/csmar/mapper.hpp:243-293 | the same for a Shenzhen transaction row |
| CsmarMapper.RunPublishesInOrder | include/marketdata/providers/cn/stock/csmar/mapper.hpp:91-293 | every run of the mapper publishes increasing accepted sequences and phases a tracker applies one by one |
| CsmarMapper.Codes | include/marketdata/providers/cn/stock/csmar/mapper.hpp:311-361 | which codes are a side, an active side and a kind of order |
| CsmarMapper.PhaseCodes | include/marketdata/providers/cn/stock/csmar/mapper.hpp:325-345 | each of the 21 status codes and its phase; every other text is unknown |
| CsmarMapper.StepMovesGate | include/marketdata/providers/cn/stock/csmar/mapper.hpp:96-293 | each use of the mapper moves the gate by the row's channel and record id, or sets the baseline given |
| CsmarMapper.ShanghaiOrderIff | include/marketdata/providers/cn/stock/csmar/mapper.hpp:101-167 | the result of every Shanghai order row, as a condition on its own fields |
| CsmarMapper.ShanghaiTransactionIff | include/marketdata/providers/cn/stock/csmar/mapper.hpp:169-210 | the result of every Shanghai transaction row |
| CsmarMapper.ShenzhenOrderIff | include/marketdata/providers/cn/stock/csmar/mapper.hpp:212-241 | the result of every Shenzhen order row |
| CsmarMapper.ShenzhenTransactionIff | include/marketdata/providers/cn/stock/csmar/mapper.hpp:243-293 | the result of every Shenzhen transaction row |
| ProviderIndependence.HhmmssmmmReadsBack | include/marketdata/providers/cn/stock/tonglian/mapper.hpp:85-99 | every millisecond of the day written as HHMMSSmmm reads back as its nanoseconds |
| ProviderIndependence.ExchangeTimeIsLocal | include/marketdata/providers/cn/stock/csmar/mapper.hpp:303-309 | for every 64-bit instant the reduce-first conversion is the true UTC+8 time of day |
| ProviderIndependence.ClocksAgree | include/marketdata/providers/cn/stock/csmar/mapper.hpp:301-309 | both vendors' times of one instant are the same nanosecond, so the 09:30 rule takes the same branch |
| ProviderIndependence.WhatTonglianMaps | include/marketdata/providers/cn/stock/tonglian/mapper.hpp:130-249 | which Tonglian rows of a fact map, as a condition on the fact and the vendor's own fields; a Shanghai trade from 09:30 on must say which side was active or that neither was |
| ProviderIndependence.WhatCsmarMaps | include/marketdata/providers/cn/stock/csmar/mapper.hpp:101-293 | which CSMAR rows of a fact map, as a condition on the fact |
| FactContents.TonglianOrders | include/marketdata/providers/cn/stock/tonglian/mapper.hpp:130-169 | every order fact Tonglian maps is published with the fact's price, quantity (also remaining), side, id, channel, sequence and time, Add or Delete, limit in Shanghai and limit, market or own-best in Shenzhen |
| FactContents.CsmarOrders | include/marketdata/providers/cn/stock/csmar/mapper.hpp:146-167 | every add CSMAR maps is published with the same contents |
| FactContents.TonglianCancels | include/marketdata/providers/cn/stock/tonglian/mapper.hpp:191-257 | every Shenzhen cancel fact Tonglian maps cancels the fact's order by the fact's quantity |
| FactContents.CsmarCancels | include/marketdata/providers/cn/stock/csmar/mapper.hpp:128-144 | so does every Shenzhen cancel and every Shanghai delete through CSMAR |
| FactContents.TonglianTrades | include/marketdata/providers/cn/stock/tonglian/mapper.hpp:191-257 | every trade fact Tonglian maps is published with the fact's price and quantity, the buyer's and the seller's order in their own fields or, in continuous Shanghai trading, only the one that rested, and the active side |
| FactContents.CsmarTrades | include/marketdata/providers/cn/stock/csmar/mapper.hpp:169-210 | every trade fact CSMAR maps is published with the same contents |
| FactContents.Phases | include/marketdata/providers/cn/stock/csmar/mapper.hpp:112-124 | a status fact is published by either vendor as the phase of its code |
| FactContents.TonglianRefusals | include/marketdata/providers/cn/stock/tonglian/mapper.hpp:130-257 | a fact Tonglian does not map is invalid, but unsupported if it is a Shanghai trade good but for its side |
| FactContents.CsmarRefusals | include/marketdata/providers/cn/stock/csmar/mapper.hpp:101-293 | a fact CSMAR does not map is invalid |
| ProviderIndependence.AgreeIff | include/marketdata/providers/cn/stock/csmar/mapper.hpp:101-293 | for every exchange fact and whatever the Tonglian row carries in its own fields (row number, transaction id, Shenzhen order id, replaced order, marked side), the two rows lead to the same answer and event up to source_id if and only if both are refused as invalid, or both map, the ids follow the exchange's sequence, the marked side is the exchange's (in Shenzhen none or the inferred one), the row number is the sequence and it is no Shanghai delete; up to source_id and event_seq likewise without the row number |
| ProviderIndependence.RowNumberShows | include/marketdata/providers/cn/stock/tonglian/mapper.hpp:149-153 | a status row numbered 3 by the vendor and 112 by the exchange: the two events differ, and only in event_seq |
| ProviderIndependence.DeletesDiffer | include/marketdata/providers/cn/stock/csmar/mapper.hpp:128-145 | a Shanghai delete both providers map becomes Delete through one and Cancel of the same order through the other, under headers that differ at most in event_seq |
| ProviderIndependence.SameStream | include/marketdata/providers/cn/stock/tonglian/mapper.hpp:253-296 | fed the same unbroken facts from the same baseline, with any vendor fields within the shared domain, the strict and the lenient gate accept every row and the published streams are equal up to source_id, or up to source_id and event_seq when row numbers are the vendor's own |
| MessageLogs.FileRoundTrip | include/marketdata/replay/message_log.hpp:32-43 | the 64-byte log header decodes to what was encoded |
| MessageLogs.FrameRoundTrip | include/marketdata/replay/message_log.hpp:45-68 | the 128-byte frame header decodes to what was encoded |
| MessageLogBytes.FileLayout | include/marketdata/replay/message_log.hpp:32-43 | every field of the log's file header lies at its own offset |
| MessageLogBytes.NewLogLies | include/marketdata/replay/message_log.hpp:191-219 | a new log is open, counts 64 bytes and no frame, and its header holds creation time, source, writer and budget at their offsets |
| MessageLogBytes.MessageLies | include/marketdata/replay/message_log.hpp:99-124 | every field of a message's envelope lies at its own offset of its 128-byte header, and its payload behind it |
| MessageLogBytes.LogByBytes | include/marketdata/replay/message_log.hpp:370-390 | a file of 64 bytes or more is a log if and only if it opens with "MDFMSG1", a zero, version 1 and size 64 and reads 04 03 02 01 at byte 16 |
| MessageLogBytes.VerdictByBytes | include/marketdata/replay/message_log.hpp:392-421 | the reader's answer to 128 bytes or more in terms of the bytes: magic, version, size, announced payload |
| MessageLogs.RefusedByBytes | include/marketdata/replay/message_log.hpp:408-420 | what a cut payload leaves in the caller's record, byte by byte; any other refusal leaves it alone |
| MessageLogBytes.AppendByNumbers | include/marketdata/replay/message_log.hpp:221-256 | each answer of an append in plain terms, in order of precedence, and all that it changes |
| MessageLogs.MessageLogWriter.Open | include/marketdata/replay/message_log.hpp:191-219 | starts a new log holding its header, with the counters and the stop flag cleared |
| MessageLogs.MessageLogWriter.WouldExceedLimit | include/marketdata/replay/message_log.hpp:296-305 | the subtraction without overflow answers whether bytes written plus the frame pass a nonzero budget |
| MessageLogs.MessageLogWriter.HandleLimit | include/marketdata/replay/message_log.hpp:307-324 | the status of each policy; every policy but DropNew stops the log |
| MessageLogs.MessageLogWriter.Append | include/marketdata/replay/message_log.hpp:221-256 | answers closed, stopped, too large, over budget or written in that order with the counters as they then stand, and only a written message changes file and counters |
| MessageLogs.MessageLogWriter.Close | include/marketdata/replay/message_log.hpp:270-275 | closing changes nothing else |
| MessageLogs.StoppedKeepsNothing | include/marketdata/replay/message_log.hpp:223-230 | a closed or stopped log keeps no further message |
| MessageLogs.AppendKeepsCount | include/marketdata/replay/message_log.hpp:237-255 | one append keeps bytes_written equal to the file's length and within max(64, budget) |
| MessageLogs.FileHoldsKept | include/marketdata/replay/message_log.hpp:221-256 | over every run of appends the file grows by exactly the kept messages' frames, 128 + payload bytes each, the counters count them (modulo 2^64 without a budget), and it never exceeds max(64, budget) |
| MessageLogs.KeepsLongestFittingPrefix | include/marketdata/replay/message_log.hpp:227-241 | StopRecording (and rotation, not implemented) keep the longest prefix of the admissible messages that fits the budget |
| MessageLogs.DropNewKeepsGreedy | include/marketdata/replay/message_log.hpp:239-241 | DropNew keeps the greedy selection: each message that fits on top of those kept before |
| MessageLogs.MessageReadsBack | include/marketdata/replay/message_log.hpp:99-149 | an envelope comes back equal except for the schema version, reset to 1, and the payload size, now the actual one |
| MessageLogs.MessageLogReader.Open | include/marketdata/replay/message_log.hpp:370-390 | opens exactly a file with a whole valid header |
| MessageLogs.MessageLogReader.ReadNext | include/marketdata/replay/message_log.hpp:392-422 | answers by the first bytes left, returns the record and moves past it; otherwise says what is left in the caller's record (nothing new unless only the payload was cut) and where the reader stands |
| MessageLogs.ReadToEnd | include/marketdata/replay/message_log.hpp:392-422 | calling `read_next` until its first answer other than Ok delivers exactly the records and status the read-back theorems speak of |
| MessageLogs.ReadBackCutFrames | include/marketdata/replay/message_log.hpp:392-422 | frames cut anywhere read back as the whole records up to the first oversized one, then Eof exactly when nothing is left, PayloadTooLarge at an oversized header, InvalidHeader at a torn frame |
| MessageLogs.LogReadsBack | include/marketdata/replay/message_log.hpp:221-422 | log any messages under any policy, cut anywhere after the header, and read: the header and the first kept messages come back |
| MessageLogs.WholeLogReadsBack | include/marketdata/replay/message_log.hpp:392-422 | uncut and with room for every payload, exactly the kept messages come back and then Eof |
| FeedSession.BackoffDoublesIff | include/marketdata/service/feed_session.hpp:224-232 | with multiplier 2 the k-th pause is min(initial * 2^k, max) for all k if and only if 0 <= initial <= max |
| FeedSession.NextBackoffByNumbers | include/marketdata/service/feed_session.hpp:224-232 | for every multiplier: after no or a negative pause the first delay, else the last one times the multiplier cut to whole milliseconds towards zero, but never more than the longest |
| FeedSession.BackoffGrows | include/marketdata/service/feed_session.hpp:224-232 | with a factor of at least one and a first delay within the longest, pauses never shrink and stay between the two |
| FeedSession.SleepForBackoff | include/marketdata/service/feed_session.hpp:234-247 | sleeps the whole pause unless the flag is up at a poll, and then at most 100 ms per poll before it |
| FeedSession.TakenIsFirstStop | include/marketdata/service/feed_session.hpp:262-289 | an attempt delivers up to and including the first message on which the flag is seen, the handler refuses or the budget is used up, and no further |
| FeedSession.TakenWithinBudget | include/marketdata/service/feed_session.hpp:282-286 | no attempt overdraws the message budget |
| FeedSession.Observe | include/marketdata/service/feed_session.hpp:100-107 | counts one message: number, bytes, first and last receive times |
| FeedSession.FeedSessionCallback.OnMessage | include/marketdata/service/feed_session.hpp:262-289 | counts every message, answers true exactly when nothing stops the session, and raises exactly one flag otherwise |
| FeedSession.FeedClient.OnMessage | include/marketdata/providers/crypto/binance/websocket_feed_client.hpp:88-128 | numbers and counts the message and goes on exactly when the session's callback does and the client's own limit, if any, is not reached |
| FeedSession.ClientLimitIsRedundant | include/marketdata/providers/crypto/binance/websocket_feed_client.hpp:126-127 | given what is left of the session's budget, the client's limit is never the one that decides |
| FeedSession.RunOnce | include/marketdata/providers/crypto/binance/websocket_feed_client.hpp:53-72 | one attempt delivers exactly up to the first stop with capture numbers 1, 2, ..., and session and client count the same messages |
| FeedSession.RetriedIff | include/marketdata/service/feed_session.hpp:122-152 | an attempt that classifies its own status and that nothing stopped is retried exactly unless the status is a bad endpoint, a missing backend or a handler stop, or it completed and completing is enough |
| FeedSession.VerdictByCases | include/marketdata/service/feed_session.hpp:340-369 | every verdict in terms of the last message delivered, of how the attempt ended and of the budgets |
| FeedSession.StatusClasses | include/marketdata/service/feed_session.hpp:122-152 | which statuses fall in each error class and which classes are retryable |
| FeedSession.PollsInPause | include/marketdata/service/feed_session.hpp:234-247 | a poll stops a pause if and only if less than its length was slept by the poll before |
| FeedSession.HeadChecksNeverFire | include/marketdata/service/feed_session.hpp:307-319 | at every turn of the loop both budgets have room, so the checks there never fire and the remaining budget never underflows |
| FeedSession.RunFeedSession | include/marketdata/service/feed_session.hpp:293-377 | the loop follows the one course the rules allow, and its counters count exactly the attempts, pauses and messages of that course |
| FeedSession.CourseWithinLimits | include/marketdata/service/feed_session.hpp:293-377 | every course stays within max_messages and max_attempts, ends once max_attempts turns are shown, keeps attempts minus reconnects at 0 or 1, pauses by the backoff rule, and names a budget as its reason only when it is used up |
| FeedSession.CourseIsUnique | include/marketdata/service/feed_session.hpp:293-377 | the rules determine the course of every script completely |

## Left out

- The C++ memory model, padding and `noexcept`: threads interleave step by step, with a bounded stale-read model beside it.
- Files, stream errors and flushing: a file is a sequence of bytes with a cut, and every write succeeds; so the `IoError` results of the message log and the `good()` half of `append_frame` are not modelled, and a reader of an exhausted stream is modelled only as far as later reads saying end of file.
- The host's byte order is taken to be little-endian, as the packed headers assume.
- The event structs of sibling repositories: the journal treats an event as four header fields and its bytes, and the mappers set only the fields shown in `MarketEvents.dfy`; enumeration numbers of those repositories are not part of this model.
- Frames over 512 bytes handed to `append_frame` by hand: the writer takes them and the reader calls them corrupt (`EventsAreReadable` draws the line).
- Clocks: creation and receive times are inputs.
- JSON escapes, arrays and Unicode, outside what the scanner supports: sections 2, 4 and 7 of RFC 8259 restricted to unescaped strings and objects.
- Sockets, TLS and the websocket library: an attempt is a list of messages that would arrive, a status, and what handler and stop flag answer; null callback states and the per-attempt error text are not modelled.
- CrashRecovery.CrashAndRestart: the file stays below 2^64 bytes so that an offset can be stored, and the restart reads the file from its start, filters by sequence and does not stop at a refused record; no 0 was replayed at 2^64-1, the one call that breaks exactly-once (`AppliedExactlyOnce`).
- FeedSession.FeedClient.OnMessage: the client always has a session's callback; a client without a handler is not modelled.
- EventJournal.EventJournalWriter.AppendFrame: does not model a stream that fails, so false means only a wrong size.
- EventJournal.EventJournalWriter.Append: the same.
- MessageLogs.MessageLogWriter.Open: does not model a path that cannot be opened or a header that cannot be written.
- MessageLogs.MessageLogWriter.Append: does not model `IoError`.
- MessageLogs.MessageLogReader.Open: does not model a path that cannot be opened.
- FeedSession.BackoffDoublesIff: the multiplier is a fraction instead of a double, and a product beyond 64 bits is not modelled.
- FeedSession.NextBackoffByNumbers: the same.
- FeedSession.BackoffGrows: the same.
- FeedSession.RunFeedSession: the run is over a finite script, and a script that runs out shows a prefix of a longer session, since unlimited attempts need not end.
- FeedSession.RunOnce: of the envelope built by the client only the capture number is modelled; feed and connection identifiers are copied fields.
- PublishedStream.PublishedAscends: a reset in mid-run starts a new stream and is not part of one run.
- Logging, command line, gateway runner, feed keys, endpoints, symbol and name tables: text building, display and plumbing, on which no property here depends.
