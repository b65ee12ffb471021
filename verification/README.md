# tailsurf delivery pipeline, verified

A Dafny model of how tailsurf gets records from a writer to a reader, and proofs that nothing is lost,
doubled, reordered or torn on the way.

- `WriterSpec`, `WriterQueue`: what a durable writer is, whatever its data structures: records numbered
  from zero, a prefix acknowledged, a prefix sent on the current connection, two window limits.
- `RustWriter`, `TsWriter`, `WriterRuns`: the Rust writer actor and the TypeScript writer, both proved
  step by step against that reference, and what holds of their whole runs.
- `Assembly`, `RustAssembler`, `TsAssembler`, `AssemblyRuns`, `AssemblyComplete`, `RoundTrip`: splitting logical
  records, assembling them again under limits, and duplicate suppression: what may be emitted and what must be.
- `Delivery`: writer, sockets and service composed. A socket appends some prefix of what it was sent, in
  order, also after it was replaced; acknowledgements name durable records. Reading the log from its start
  gives exactly-once, in-order delivery.
- `DeliveryProgress`: from every state all of it can still be delivered.
- `CloseProtocol`: producers, close, abort and the exit of the actor, as interleaved atomic steps.
- `FrameCodec`, `RustFrames`, `WireLayout`, `LinkSecrets`: the binary frames, the loops that encode and decode them, and their
  bytes by the table of the protocol.
- `SseSpec`, `RustSse`, `TsSse`: greedy event splitting and the two incremental parsers that refine it. The
  format is a subset of section 9.2.5 of the WHATWG HTML Standard.
- `ReadSpec`, `RustReader`, `TsReader`, `SseReader`, `ServedReads`: the resumable read sessions: what they may hand
  out, and that they hand out everything a correct service sends.
- `PtyHandoff`: the handoff of terminal output between two threads, as interleaved atomic steps.
- `Transcript`, `ChunkedPayload`: the command that writes standard input as records and prints them back.
- `JsonAppend`, `Json`, `JsonRequest`: the stateless append, the size of its JSON body (section 7 of RFC 8259,
  section 5 of RFC 4648), and what a JSON reader finds in it.

Results that come out differently from what one might expect:

- A read batch that ends at the last sequence number leaves the Rust request where it was (the TypeScript one
  stops before the last record), so delivered and remaining records do not add up there, and only there
  (`ReadSpec.AdvancesAgree`, `ReadSpec.RunDelivers`). The session is finished then.
- A read that starts at a time forgets it when it is caught up before its first record (`ReadSpec.RunStartsInTime`,
  `ReadSpec.CaughtUpForgetsTime`).
- The event-stream session adopts the cursor of a handshake without comparing it. Cursor, request and records
  stay together if and only if that cursor is absent, the current one or, while there is none, a zero count at
  the requested sequence number (`SseReader.CursorKeepsTrack`, `SseReader.OpeningKeepsTrack`). The records alone
  are contiguous exactly under the weaker condition of `SseReader.SseRunIsContiguous`; a run that skips records
  is in `SseReader.HandshakeCanSkipRecords`.
- A transcript line longer than 512 KiB that is over the reassembly limit, or has more than 16,385 parts, can be
  written but not tailed; every other line can (`Transcript.WriteThenTail`, `Transcript.SomeLinesCannotBeTailed`).
- When the writer sequence is exhausted the TypeScript writer rejects the batch and goes on, while the Rust
  writer ends.

Verify everything with `dafny verify dfyconfig.toml`.

## Model

| member | source | states |
|---|---|---|
| `WriterSpec.FrameEndUnique` | rust/src/client.rs:1754-1778 | the frame a writer sends is determined by what is acknowledged and sent: no two different ends are the longest that fits |
| `WriterSpec.ExtendFrame` | rust/src/client.rs:1760-1776 | the four limits tested per record decide exactly whether one more record fits window and frame |
| `WriterSpec.SentFramesAreValid` | rust/src/client.rs:1754-1807 | sending keeps both window limits, every frame passes the codec's limits, and an empty frame with nothing in flight means nothing is retained |
| `WriterSpec.AcknowledgedIsValid` | rust/src/client.rs:1900-1922 | an accepted acknowledgement keeps the writer valid and the window bytes split at it without underflow |
| `WriterQueue.SendKeepsTiles` | rust/src/client.rs:1754-1778 | marking the next record sent keeps the pending batches tiling the unacknowledged history, sent records a prefix |
| `WriterQueue.AckKeepsTiles` | rust/src/client.rs:1900-1922 | settling the next record keeps the tiling, with only the front batch partly acknowledged |
| `WriterQueue.RewindKeepsTiles` | rust/src/client.rs:1848-1851 | rewinding every sent marker to its acknowledged prefix keeps the tiling |
| `WriterQueue.PopFront` | rust/src/client.rs:1912-1921 | a completed front batch leaves the queue and resolves its own ticket with exactly its receipts |
| `RustWriter.DurableWriter.Admit` | rust/src/client.rs:1551-1561 | a batch gets the next numbers, or nothing changes because the end of its range is not representable |
| `RustWriter.DurableWriter.DrainQueuedCommands` | rust/src/client.rs:1703-1748 | admits queued submissions in order, and stops at a close, at an exhausted sequence or exactly when the submissions fill a window |
| `RustWriter.DurableWriter.TakeFrame` | rust/src/client.rs:1754-1778 | sends the longest frame that fits: the next unsent records in order, with the window charged for them |
| `RustWriter.DurableWriter.SendPending` | rust/src/client.rs:1782-1807 | whatever the socket takes is a run of non-empty valid frames carrying consecutive records; it fails exactly when one more frame was refused, and otherwise the window is full and something is in flight |
| `RustWriter.DurableWriter.DispatchAck` | rust/src/client.rs:1860-1924 | accepts exactly the acknowledgements that start at the oldest unacknowledged record and cover sent ones; anything else changes nothing, with the error the code gives |
| `RustWriter.DurableWriter.Collect` | rust/src/client.rs:1900-1922 | one receipt per acknowledged record, both numberings consecutive, tickets resolved in order |
| `RustWriter.DurableWriter.RecoverPendingAppends` | rust/src/client.rs:1822-1858 | attempts go on over retryable failures; only a connection to a stream of the same kind rewinds, anything else leaves the writer alone |
| `RustWriter.DurableWriter.Recover` | rust/src/client.rs:1846-1853 | after a reconnect nothing is in flight and every unacknowledged record will be sent again |
| `RustWriter.DurableWriter.FinishWriterError` | rust/src/client.rs:1936-1958 | the terminal error is retained, a requested close is answered with failure, and every admitted ticket is resolved exactly once, in order |
| `RustWriter.DurableWriter.TryFinishClose` | rust/src/client.rs:1607-1612 | close succeeds exactly when every record ever admitted is acknowledged, and then every ticket is delivered |
| `TsWriter.DefaultTsfWriter.AppendBatch` | typescript/packages/client/src/writer.ts:83-128 | accepts exactly the non-empty batches of allowed records while the writer is open and the range representable; a rejection has no effect |
| `TsWriter.DefaultTsfWriter.SelectFrame` | typescript/packages/client/src/writer.ts:286-318 | chooses the longest frame that fits, before anything is marked |
| `TsWriter.DefaultTsfWriter.SendNextFrame` | typescript/packages/client/src/writer.ts:286-328 | marks exactly the chosen records sent, and only if the socket took the frame; throws exactly when there is a frame and the socket is closed |
| `TsWriter.DefaultTsfWriter.FillSocketWindow` | typescript/packages/client/src/writer.ts:205-218 | throws exactly when the window could not be filled because the socket closed; otherwise, with records retained one is in flight, so the error for a record that could not be sent does not occur |
| `TsWriter.DefaultTsfWriter.SentRange` | typescript/packages/client/src/writer.ts:385-397 | the range read off the calls is the stretch sent and unacknowledged |
| `TsWriter.DefaultTsfWriter.DispatchAck` | typescript/packages/client/src/writer.ts:330-383 | accepts exactly the acknowledgements the Rust writer accepts and reaches the same state |
| `TsWriter.ReceiptsAgree` | typescript/packages/client/src/writer.ts:330-385 | the receipts of both implementations name the same writer and stream numbers |
| `TsWriter.DefaultTsfWriter.SettleFront` | typescript/packages/client/src/writer.ts:348-376 | each round settles at least one record, so the error for exceeding the sent range does not occur |
| `TsWriter.DefaultTsfWriter.Interrupt` | typescript/packages/client/src/writer.ts:228-252 | a fatal end reports durability unknown exactly when an unacknowledged record was handed to some socket; otherwise the writer rewinds |
| `TsWriter.DefaultTsfWriter.ReconnectFailed` | typescript/packages/client/src/writer.ts:252-276 | the same exactness when reconnecting fails |
| `TsWriter.DefaultTsfWriter.Abort` | typescript/packages/client/src/writer.ts:176-190 | abort reports durability unknown exactly when an unacknowledged record was handed to a socket on any connection, and does nothing on a closed writer |
| `TsWriter.DefaultTsfWriter.FinishClose` | typescript/packages/client/src/writer.ts:158-174 | once the queue has drained, close ends without an error only with every record acknowledged and every call resolved |
| `TsWriter.DefaultTsfWriter.ResetSentToAcknowledged` | typescript/packages/client/src/writer.ts:399-405 | a fresh connection has nothing in flight and the window is empty |
| `WriterRuns.StepKeepsValid` | rust/src/client.rs:1563-1674 | every step of a writer keeps the window limits, never un-acknowledges and never renumbers a record |
| `WriterRuns.WritersAgree` | typescript/packages/client/src/writer.ts:286-383 | over whole runs the two writers send the same frames, give the same verdicts and stay in the same state |
| `WriterRuns.CloseNeedsFewAcks` | rust/src/client.rs:1304-1338 | a closing writer accepts at most as many acknowledgements as it has unacknowledged records, whatever reconnects happen |
| `WriterRuns.NeverStuck` | rust/src/client.rs:1782-1807 | while a record is unacknowledged, taking a frame leaves one in flight and an honest acknowledgement of it is accepted |
| `WriterRuns.TicketReceiptsMatchBatch` | rust/src/client.rs:1097-1107 | a resolved ticket holds one receipt per record of its batch with consecutive writer numbers |
| `WriterRuns.BatchesDoNotOverlap` | rust/src/client.rs:1540-1561 | batches occupy disjoint ranges in admission order, without gaps |
| `Protocol.SplitRecordPayloads` | rust/src/protocol/ws/frame.rs:488-513 | a payload splits into its 512 KiB slices with consecutive part indices, the last one final; fails exactly when an index needs more than 31 bits |
| `Protocol.SlicesConcatenate` | rust/src/protocol/ws/frame.rs:488-513 | the slices concatenate to the payload |
| `RustAssembler.LogicalRecordAssembler.PushRecord` | rust/src/logical_records.rs:56-152 | one record is one step of the reference assembler, with totals equal to the sums over all writers |
| `TsAssembler.LogicalRecordAssembler.PushRecord` | typescript/packages/protocol/src/logical-records.ts:53-118 | the same step and the same answer as the Rust assembler, record by record |
| `TsAssembler.Concatenate` | typescript/packages/protocol/src/logical-records.ts:164-178 | the completed record is the chunks in order, filling its buffer exactly |
| `AssemblyRuns.PushKeepsAccounts` | rust/src/logical_records.rs:453-500 | totals stay the sums over writers and within limits on every path; other writers are untouched; a limit error drops only its own writer's parts |
| `AssemblyRuns.RunRemembers` | rust/src/logical_records.rs:56-152 | after any records, what a writer retains is exactly the parts 0..k it was sent, and its mark is its highest number |
| `AssemblyRuns.EmissionsAreWhole` | rust/src/logical_records.rs:73-151 | from arbitrary input every emitted record is one unsplit record or parts 0..k of one writer at consecutive numbers, and emissions of a writer strictly increase |
| `AssemblyComplete.UnsplitIsHandedOut` | rust/src/logical_records.rs:66-80 | wherever the read began and whatever came before, an unsplit record is handed out with its own bytes if and only if it is above every earlier record of its writer |
| `AssemblyComplete.SplitIsHandedOut` | rust/src/logical_records.rs:82-151 | parts 0..k of one writer, with nothing but repeats of that writer between them, are handed out as their concatenation, wherever the read began and whatever other writers send |
| `AssemblyComplete.RefusedOnlyOverLimits` | rust/src/logical_records.rs:453-500 | no record is refused while all split parts that arrived are within the limits and there is room for every writer |
| `AssemblyComplete.RefusalsNameTheExcess` | rust/src/logical_records.rs:453-500 | an error carries the amount that would have been retained, which is over its limit |
| `RoundTrip.DuplicatesDoNotMatter` | rust/src/logical_records.rs:66-71 | assembling an at-least-once log of a writer gives what one copy of each durable record gives |
| `RoundTrip.AssemblingUndoesSplitting` | rust/src/logical_records.rs:507-540 | assembling a prefix of the split records emits exactly the logical records complete within it, in order |
| `Delivery.WriterStepIsEvent` | rust/src/client.rs:1563-1924 | every call of either writer, stated as a step, is an event of the delivery system |
| `Delivery.StepKeepsInvariant` | rust/src/client.rs:1563-1924 | every event of writer, sockets and service keeps the log at-least-once: a number fixes its content and is at most one above the highest durable one |
| `Delivery.RunKeepsInvariant` | rust/src/client.rs:1563-1924 | the same over every run of sends, failed sends, lost sockets, late appends and partial acknowledgements |
| `Delivery.WritersAssembleAlone` | rust/src/logical_records.rs:56-152 | assembling a log of many writers is, for each of them, assembling its own records |
| `Delivery.ReadsEachRecordOnce` | rust/src/client.rs:1563-1924 | reading the log from its start assembles to what one copy of each durable record would, for any batches |
| `Delivery.DeliversExactlyOnce` | rust/src/client.rs:1563-1924 | the reader gets the submitted records in submission order, each once, as a prefix, and all of them once everything is acknowledged |
| `Delivery.DeliversWhatIsDurable` | rust/src/client.rs:1563-1924 | the reader has exactly the logical records all of whose parts are durable |
| `Delivery.ReceiptsPointIntoLog` | rust/src/client.rs:1900-1922 | an accepted receipt names the place in the log where its very record is |
| `DeliveryProgress.DeliveryGoesOn` | rust/src/client.rs:1782-1924 | while a record is unacknowledged, writer or service has a step that brings the end nearer: reconnect, send, append or acknowledge |
| `DeliveryProgress.EveryRunCanFinish` | rust/src/client.rs:1563-1924 | however a run went, it can go on until every admitted record is acknowledged, with nothing lost any more |
| `DeliveryProgress.SubmittedCanBeRead` | rust/src/client.rs:1563-1924 | so every submission can be read back in full, unless the reader meets a limit |
| `CloseProtocol.StepKeepsInv` | rust/src/client.rs:1151-1222 | every step of producers, closer and actor keeps tickets in order in channel and queue, and the settled ones an initial stretch |
| `CloseProtocol.CloseComesLast` | rust/src/client.rs:1202-1222 | every accepted batch precedes the close command in the channel, in the order of acceptance |
| `CloseProtocol.CloseIsFinal` | rust/src/client.rs:1304-1320 | once the close command is in the channel nothing more is accepted |
| `CloseProtocol.CloseOkMeansAllDurable` | rust/src/client.rs:1304-1338 | close returns success only if every accepted ticket has its receipts |
| `CloseProtocol.CloseOkUnlessSomethingFailed` | rust/src/client.rs:1304-1338 | close returns success if and only if nothing was aborted and the actor did not end with an error |
| `CloseProtocol.EverySendIsAccepted` | rust/src/client.rs:1202-1222 | unless something fails, every command that is sent is accepted, also around a close |
| `CloseProtocol.ProducersPassWhileOpen` | rust/src/client.rs:1202-1222 | until close moves the flag or something fails, a producer that checks it goes on to send, and the command is queued |
| `CloseProtocol.NothingAcceptedAfterClose` | rust/src/client.rs:1202-1222 | once close has returned nothing is accepted any more |
| `CloseProtocol.NoTicketHangs` | rust/src/client.rs:1130-1148 | once the actor is gone, or a terminal error is set, every accepted ticket is settled |
| `CloseProtocol.CloseIsNeverStuck` | rust/src/client.rs:1304-1338 | a close in progress always has a step of closer or actor that can happen |
| `CloseProtocol.CloseEnds` | rust/src/client.rs:1606-1637 | after the close command every such step takes work away and none adds any |
| `SseSpec.SplitGoesOn` | rust/src/client.rs:2531-2615 | splitting can stop anywhere and go on: events of a prefix are final and only its tail matters |
| `SseSpec.SplitLosesNothing` | rust/src/client.rs:2602-2615 | blocks, terminators and tail in turn are the stream again; only LF LF and CR LF CR LF end an event |
| `SseSpec.SplitFindsEveryEvent` | rust/src/client.rs:2602-2615 | on bytes: every event ends at the first LF LF or CR LF CR LF behind the previous one, and the tail holds none |
| `SseSpec.SplitIsUnique` | rust/src/client.rs:2602-2615 | it is the only split with that property |
| `SseSpec.AcceptedIffEachFits` | rust/src/client.rs:2556-2573 | a stream is accepted if and only if every event with its terminator, and the tail, are within 2 MiB |
| `SseSpec.PrefixAccepted` | rust/src/client.rs:2556-2573 | a stream over a limit never becomes acceptable by more bytes |
| `RustSse.SseBoundary` | rust/src/client.rs:2602-2615 | finds the first terminator, by jumping from line feed to line feed |
| `RustSse.OverlapSuffices` | rust/src/client.rs:2556-2560 | rescanning from three bytes before the new ones finds the event end that a full scan finds |
| `RustSse.SseParser.Push` | rust/src/client.rs:2532-2536 | fails exactly when the stream so far has an event or tail over 2 MiB; no terminator lies past the tail start |
| `RustSse.SseParser.ValidateNewBytes` | rust/src/client.rs:2556-2573 | the loop over new bytes decides acceptance and finds every complete event |
| `RustSse.SseParser.NextEvent` | rust/src/client.rs:2538-2554 | hands out the next block, and says there is none exactly when all blocks of the stream are out |
| `RustSse.SseParser.Compact` | rust/src/client.rs:2575-2582 | dropping the consumed prefix changes nothing observable |
| `RustSse.ReadEvents` | rust/src/client.rs:2584-2600 | for every chunking: accepted exactly when the whole stream is, and then its blocks; on failure those of the chunks before the first one over a limit |
| `TsSse.SseParser.Append` | typescript/packages/client/src/sse.ts:428-447 | fails exactly over the limit, otherwise the bytes follow what was held, in a buffer within the limit |
| `TsSse.SseParser.BoundaryLength` | typescript/packages/client/src/sse.ts:449-469 | looking back across the chunk border finds the terminator of the joined bytes |
| `TsSse.SseParser.Push` | typescript/packages/client/src/sse.ts:389-420 | returns the blocks this chunk completes, and fails exactly when the stream so far is over a limit |
| `TsSse.ReadEvents` | typescript/packages/client/src/sse.ts:350-381 | for every chunking the same verdict and the same blocks as the Rust parser, on failure too |
| `ReadSpec.AdvancesAgree` | rust/src/client.rs:2280-2289 | the batch advance equals the folded record advance if and only if the batch does not end at the last sequence number or has one record |
| `ReadSpec.RunDelivers` | rust/src/client.rs:2169-2249 | over any reconnects: one contiguous run, below until, within the count; delivered plus remaining is the requested count unless the run ended at the last sequence number |
| `ReadSpec.RunStartsInTime` | rust/src/client.rs:2300-2352 | a read from a time starts no earlier than asked, unless it is caught up before its first record |
| `ReadSpec.CaughtUpForgetsTime` | rust/src/client.rs:2178-2192 | once it is caught up it takes an earlier record |
| `ReadSpec.ExhaustedIffNothingAsked` | rust/src/client.rs:2291-2298 | a session ends without reading exactly when the count is zero or no time lies in a window that begins at a time |
| `ReadSpec.SessionsAgree` | typescript/packages/client/src/reader.ts:182-202 | the two sessions deliver the same records and finish together; their requests differ only after the last sequence number |
| `ServedReads.ServedInFull` | rust/src/client.rs:2169-2249 | both sessions hand out everything a correct service sends, however often sockets break, and finish exactly when the count or the last sequence number is reached |
| `ServedReads.SseServedInFull` | rust/src/client.rs:2029-2112 | the event-stream session hands out everything a service with counting cursors sends, over fewer lost connections in a row than attempts |
| `RustReader.TsfReadSession.NextBatch` | rust/src/client.rs:2169-2202 | the loop leaves the session where feeding it the socket's outcomes one by one leaves it; fails exactly at an outcome that is not taken, and returns the first batch that is |
| `RustReader.TsfReadSession.BatchDelivered` | rust/src/client.rs:2244-2289 | the request after a batch is the batch advance |
| `TsReader.HandOutOne` | typescript/packages/client/src/reader.ts:182-202 | handing out one pending record leaves the rest to be handed out to the same effect |
| `TsReader.DefaultTsfReadSession.NextPendingRecord` | typescript/packages/client/src/reader.ts:182-202 | hands out the next record of the batch without changing where the session will be when the batch is through |
| `TsReader.DefaultTsfReadSession.Pump` | typescript/packages/client/src/reader.ts:241-341 | with pending records counted as handed out, each frame moves the session as the reference says; fails exactly at an outcome that is not taken, and hands out the first record of one that is |
| `SseReader.CursorKeepsTrack` | rust/src/client.rs:2029-2112 | cursor, request and record count stay together on an outcome if and only if a handshake cursor that is adopted fits: absent, the current one or, before there is one, a zero count at the requested number |
| `SseReader.OpeningKeepsTrack` | rust/src/client.rs:704-730 | at the start they are together if and only if the cursor of the opening handshake fits |
| `SseReader.SseRunDelivers` | rust/src/client.rs:2029-2112 | if every handshake cursor fits, the opening one included, the cursor counts all records delivered, which are one contiguous run |
| `SseReader.SseRunIsContiguous` | rust/src/client.rs:2029-2112 | whatever handshakes say, the records are contiguous if and only if at every batch taken the cursor in force names the record after the last one |
| `SseReader.SseRunStops` | rust/src/client.rs:2029-2112 | whatever handshakes say, delivered plus remaining is the requested count, until holds, and reconnects without progress stay below the budget |
| `SseReader.HandshakeCanSkipRecords` | rust/src/client.rs:2061-2063 | a handshake cursor ahead of the current one makes the session skip records |
| `SseReader.TsfSseReadSession.NextBatch` | rust/src/client.rs:2029-2112 | the loop leaves the session where feeding it the events one by one leaves it; fails exactly at an event that is not taken, and returns the first batch that is |
| `SseReader.TsfSseReadSession.TakeBatch` | rust/src/client.rs:2803-2842 | a batch is taken exactly when its cursor follows its records and the previous cursor |
| `SseReader.TsfSseReadSession.TakeCaughtUp` | rust/src/client.rs:2844-2876 | a caught-up event is taken exactly when it repeats the previous cursor or opens the read |
| `PtyHandoff.StepKeepsInv` | cli/src/terminal.rs:896-1016 | every step of either thread keeps each started chunk received, in the channel or in flight, exactly once and in order |
| `PtyHandoff.ClosedQueuesEveryStartedChunk` | cli/src/terminal.rs:988-1016 | once closed, exactly the chunks whose send began before closing are queued, in read order; at most the last one read is missing |
| `PtyHandoff.PausedIsQuiet` | cli/src/terminal.rs:896-946 | between pausing and resuming nothing enters the channel |
| `PtyHandoff.NothingDroppedBeforeClosing` | cli/src/terminal.rs:948-986 | before closing every chunk read is queued, in the channel or in hand |
| `PtyHandoff.WaitingIsNeverStuck` | cli/src/terminal.rs:988-1016 | no wake-up is lost and the awaited acknowledgement always comes: a pause or close can go on without another read |
| `PtyHandoff.WaitingEnds` | cli/src/terminal.rs:896-1016 | a pause and a close end after finitely many steps |
| `PtyHandoff.ConsumerFailsOnReadError` | cli/src/terminal.rs:918-1016 | the consumer fails if and only if a read error was handed over, and until then everything handed over is data |
| `PtyHandoff.ThreadReadsOn` | cli/src/terminal.rs:694-722 | nothing is read behind an error, and the thread reads on until an error, the end of the terminal or closing |
| `PtyHandoff.ChunksGetThrough` | cli/src/terminal.rs:948-986 | in normal operation some step always brings a chunk that was read nearer to being handed over |
| `FrameCodec.ClientRoundTrip` | rust/src/protocol/ws/frame.rs:832-887 | decoding undoes encoding on every valid client frame |
| `FrameCodec.ClientRoundTripBack` | rust/src/protocol/ws/frame.rs:832-906 | every accepted client message is the encoding of the valid frame it decodes to |
| `FrameCodec.ServerRoundTrip` | rust/src/protocol/ws/frame.rs:762-804 | decoding undoes encoding on every valid server frame other than stream metadata |
| `FrameCodec.ServerRoundTripBack` | rust/src/protocol/ws/frame.rs:908-987 | every accepted such server message is the encoding of the valid frame it decodes to |
| `FrameCodec.SplitOfJoin` | rust/src/protocol/ws/frame.rs:1070-1120 | walking joined record bodies gives the bodies back |
| `FrameCodec.JoinOfSplit` | rust/src/protocol/ws/frame.rs:1070-1120 | what can be walked is the join of the non-empty bodies found |
| `FrameCodec.PartRoundTrip` | rust/src/protocol/ws/frame.rs:80-125 | part header and packed word determine each other |
| `FrameCodec.AppendBatchFits` | rust/src/protocol/ws/frame.rs:649-663 | the computed length of an append batch is exact and within the message bound |
| `FrameCodec.ReadBatchFits` | rust/src/protocol/ws/frame.rs:742-754 | the same for read batches |
| `FrameCodec.SentFramesDecode` | rust/src/client.rs:1754-1807 | every non-empty frame a writer builds passes validation, and the server reads back the very records |
| `WireLayout.ClientLayout` | docs/protocol.md:398-402 | every client frame has the operation byte, field order, widths and final bit of the protocol table, in plain arithmetic |
| `WireLayout.ServerLayout` | docs/protocol.md:412-418 | the same for every server frame |
| `WireLayout.AppendVector` | rust/fixtures/v1.json:46-55 | the shared vector of an append batch comes out |
| `WireLayout.ServerVectors` | rust/fixtures/v1.json:66-105 | the shared vectors of an acknowledgement and a caught-up position come out |
| `LinkSecrets.SecretIffEncoding` | docs/protocol.md:404-408 | a secret in a frame is accepted if and only if it is the base64url text of 24 bytes |
| `RustFrames.RecordBodyRanges.Next` | rust/src/protocol/ws/frame.rs:1070-1120 | yields the next body exactly when the rest of the message starts with one and the count allows it |
| `RustFrames.DecodeClientFrame` | rust/src/protocol/ws/frame.rs:832-906 | accepts exactly the encodings of valid client frames and returns that frame |
| `RustFrames.DecodeServerFrame` | rust/src/protocol/ws/frame.rs:908-987 | accepts exactly the encodings of valid server frames other than stream metadata |
| `RustFrames.EncodeAppendBatch` | rust/src/protocol/ws/frame.rs:649-674 | succeeds exactly on valid batches and then writes their encoding |
| `RustFrames.ValidateContiguous` | rust/src/protocol/ws/frame.rs:1047-1058 | holds exactly for consecutive sequence numbers without overflow |
| `Transcript.LineRecordAppender.PushBytes` | cli/src/main.rs:1203-1222 | complete lines become records without their line feed, and the rest waits, whatever the chunks |
| `Transcript.StreamLines` | cli/src/main.rs:1165-1175 | for every chunking the records submitted are the lines of the input; fails exactly if one cannot be split |
| `Transcript.ByteRecordAppender.PushBytes` | cli/src/main.rs:1103-1120 | bytes go into full records of 512 KiB as if one by one, and the rest waits, whatever the chunks |
| `Transcript.StreamBytes` | cli/src/main.rs:1135-1163 | the records are those of collecting byte by byte with a flush at every timer firing; they hold 1 byte to 512 KiB and concatenate to the input |
| `Transcript.FramedIsFrame` | cli/src/main.rs:1190-1222 | there is only one way to frame an input: whoever keeps the invariant has its lines |
| `Transcript.LinesPrintAsTailed` | cli/src/main.rs:1670-1702 | the lines of an input print as the input with a final line feed, and hold none themselves |
| `Transcript.ReadableIffEveryRecordFits` | rust/src/logical_records.rs:56-152 | reading a whole stream meets no limit if and only if every record is unsplit or within the reassembly limits |
| `Transcript.WriteThenTail` | cli/src/main.rs:1670-1702 | tailing a transcript goes through if and only if every line fits, and then prints the input up to a final line feed |
| `Transcript.WriteBytesThenTail` | cli/src/main.rs:1670-1702 | bytes are read back exactly under every reassembly limit |
| `Transcript.AcknowledgedLogIsComplete` | rust/src/client.rs:1563-1924 | a run with everything acknowledged leaves a complete log of what was submitted, however many sockets were lost |
| `Transcript.WriteAndTail` | cli/src/main.rs:1670-1702 | from input to output: any chunking, any such run; tailing goes through if and only if every line of the input fits, and prints the input up to a final line feed |
| `Transcript.WriteAndReadBytes` | cli/src/main.rs:1670-1702 | the same for byte streams under every limit and every timer firing |
| `Transcript.SomeLinesCannotBeTailed` | cli/src/main.rs:1655-1656 | under the default limit a line of 16 MiB and one byte has a complete log and reading that log fails |
| `Transcript.WriteRecordBatches` | cli/src/main.rs:1670-1702 | prints exactly what assembly emits, of all writers in log order, and stops exactly at the first refused record |
| `ChunkedPayload.ChunkedBytes.Advance` | rust/src/logical_records.rs:383-402 | the unread bytes afterwards are the old ones without the first count bytes, with the remaining count exact |
| `ChunkedPayload.ChunkedBytes.Chunk` | rust/src/logical_records.rs:376-381 | a prefix of the unread bytes, empty only at the end |
| `ChunkedPayload.ChunkedBytes.IntoBytes` | rust/src/logical_records.rs:352-368 | the unread suffix of the concatenation, from any position |
| `ChunkedPayload.EqualContents` | rust/src/logical_records.rs:271-292 | the comparison loop ends and decides equality of what is left of two records, whatever their storage shapes and positions |
| `ChunkedPayload.WriteRecordData` | cli/src/main.rs:1753-1772 | prints the contents; the error for an empty chunk before the end does not occur |
| `ChunkedPayload.AssembledChunksAreNotEmpty` | rust/src/logical_records.rs:86-150 | the assembler never retains or emits an empty chunk |
| `JsonAppend.CompactPayloadIsExactAndShort` | rust/src/client.rs:2716-2730 | the chosen payload keeps the exact bytes, is the shorter form where both exist, and never longer than base64url |
| `JsonAppend.EscapedLenIsExact` | rust/src/client.rs:2695-2713 | the length table agrees with the escaped text |
| `JsonAppend.TextRoundTrip` | rust/src/client.rs:2695-2713 | escaped text reads back as its bytes |
| `JsonAppend.Base64RoundTrip` | rust/src/client.rs:2716-2730 | base64url decodes to its bytes |
| `JsonAppend.EscapesAreStandard` | rust/src/client.rs:2691-2714 | quotes, backslashes and control characters are escaped as JSON says, and nothing else is |
| `JsonAppend.AlphabetIsUrlSafe` | rust/src/client.rs:2716-2730 | the digits are the four runs of the URL-safe alphabet, each decoded to its own value only |
| `JsonAppend.GroupIsItsBits` | rust/src/client.rs:2716-2730 | a base64url group is its bits from the left, zero-filled, in pieces of six |
| `JsonRequest.RequestReadsBack` | rust/src/client.rs:477-541 | whoever parses the body as JSON gets the writer id, the first number, every record's part header and exact bytes in order, and the expected number |
| `JsonAppend.OneExplanation` | rust/src/client.rs:484-529 | the checks come in one order: at most one error explains a rejection |
| `JsonAppend.AcceptedAppendFits` | rust/src/protocol/rest.rs:12-16 | every accepted append serialises to at most 1,300,000 bytes |
| `JsonAppend.AppendRecords` | rust/src/client.rs:477-541 | accepts exactly the valid batches and builds a body within the limit; an error names the first check the batch fails |

## Left out

- Sockets, TLS, HTTP, timers, backoff, jitter and wall-clock deadlines: they are outcomes and steps that may
  happen at any time. Progress is stated as steps that remain possible and measures that fall.
- The service: only what it may do is assumed. A socket appends a prefix of what it was sent, in order, and an
  acknowledgement names appended records of this writer.
- Delivery.DeliversExactlyOnce: assumes that no assembly limit is met and that the log is read from its start,
  because completeness is false otherwise. For one writer `Transcript.ReadableIffEveryRecordFits` says exactly
  when no limit is met. `AssemblyRuns.EmissionsAreWhole` and `AssemblyComplete` hold for reads from anywhere.
- ServedReads.ServedInFull: service means records without a gap; a socket that closes for good is not part of it.
- FrameCodec.ServerRoundTrip: leaves out stream metadata, whose body is JSON.
- FrameCodec.ServerRoundTripBack: leaves out stream metadata too.
- RustFrames.DecodeServerFrame: reports an error for stream metadata; the kinds of decoding errors are not
  specified, acceptance and the decoded value are.
- JsonAppend.AppendRecords: whether bytes are UTF-8 is a parameter; the send and the answered range are left out.
- RustSse.SseParser.NextEvent: hands out blocks of bytes; UTF-8 failure, the fields of an event and the skipping
  of blocks without data are not modelled.
- RustSse.ReadEvents: the same.
- TsSse.SseParser.Push: UTF-8 validation of chunks and the fields of an event are not modelled.
- TsSse.ReadEvents: the same; both parsers are compared on blocks of bytes.
- TsReader.DefaultTsfReadSession.Pump: metadata frames, observers and a close during a read are left out.
- SseReader.TsfSseReadSession.NextBatch: metadata events are only told apart as fatal or not. The TypeScript
  event-stream session is not modelled; it differs from this one as its WebSocket session does.
- TsWriter.DefaultTsfWriter: calls and selected references are values indexed by position, so aliasing of call
  objects is not captured; promises are ticket numbers.
- RustWriter.DurableWriter: payload buffers are values, so that resending shares memory is not captured; machine
  word sizes of memory counts are unbounded, and writer sequences are 64-bit with the code's overflow checks.
- CloseProtocol: payloads, connections and the order of acknowledgement inside the actor are those of the writer
  modules; here an acknowledgement settles the oldest ticket or the actor fails.
- PtyHandoff: a terminal read is a step that may never come; checkpoints, resizing itself and the publisher are
  left out, and a receiver dropped by an early error ends the machine.
- The second frame codec in TypeScript, the record splitter of the manual session, REST management calls, link
  pagination, permissions, titles, identifiers, playback rate, update hints and process handling.
