/**
 * Reference model of logical-record assembly: what one delivered physical record does to the state
 * of its writer, and when the assembler as a whole refuses it.
 */
module Assembly {
  import opened Wrappers
  import opened Protocol

  const MAX_RECORD_WRITER_STATES := 4096
  const MAX_RECORD_TOTAL_PENDING_PARTS := 16384

  datatype PendingRecord = PendingRecord(
    startSeqNum: nat, nextPartIndex: nat, len: nat, partCount: nat, chunks: seq<Bytes>)

  datatype WriterState = WriterState(highestSeq: Option<nat>, pending: Option<PendingRecord>)

  const NEW_WRITER := WriterState(None, None)

  /** A logical payload in one of its storage shapes. */
  datatype LogicalRecordData = Borrowed(data: Bytes) | Owned(data: Bytes) | Chunked(chunks: seq<Bytes>) {

    function Content(): Bytes {
      match this
      case Borrowed(data) => data
      case Owned(data) => data
      case Chunked(chunks) => Concat(chunks)
    }
  }

  function FromOrderedChunks(chunks: seq<Bytes>): (data: LogicalRecordData)
    ensures data.Content() == Concat(chunks)
  {
    if |chunks| == 0 then Owned([])
    else if |chunks| == 1 then assert Concat(chunks) == Concat([]) + chunks[0]; Owned(chunks[0])
    else Chunked(chunks)
  }

  function WithChunk(chunks: seq<Bytes>, data: Bytes): (extended: seq<Bytes>)
    ensures Concat(extended) == Concat(chunks) + data
  {
    if data == [] then chunks else assert (chunks + [data])[..|chunks|] == chunks; chunks + [data]
  }

  /** Reused or decreasing writer sequence numbers are suppressed. */
  predicate IsDuplicate(writer: WriterState, record: ReadRecord) {
    writer.highestSeq.Some? && record.writerSeqNum <= writer.highestSeq.value
  }

  /** What `record` does to the state of its writer when no limit intervenes. */
  function Accept(writer: WriterState, record: ReadRecord): (result: (WriterState, Option<LogicalRecordData>))
  {
    if IsDuplicate(writer, record) then (writer, None)
    else
      var idle := WriterState(Some(record.writerSeqNum), None);
      var index := record.part.index;
      if record.part == UNSPLIT then (idle, Some(Borrowed(record.data)))
      else if record.writerSeqNum < index then (idle, None)
      else if index == 0 then
        (idle.(pending := Some(PendingRecord(
           record.writerSeqNum, 1, |record.data|, 1, WithChunk([], record.data)))), None)
      else if writer.pending.None? then (idle, None)
      else
        var p := writer.pending.value;
        if p.startSeqNum != record.writerSeqNum - index || p.nextPartIndex != index then (idle, None)
        else
          var chunks := WithChunk(p.chunks, record.data);
          if record.part.isFinal then (idle, Some(FromOrderedChunks(chunks)))
          else
            (idle.(pending := Some(PendingRecord(
               p.startSeqNum, index + 1, p.len + |record.data|, p.partCount + 1, chunks))), None)
  }

  /** Retained bytes and parts of one writer. */
  function PendingBytes(writer: WriterState): nat {
    if writer.pending.Some? then writer.pending.value.len else 0
  }

  function PendingParts(writer: WriterState): nat {
    if writer.pending.Some? then writer.pending.value.partCount else 0
  }

  datatype State = State(writers: map<WriterId, WriterState>, bytes: nat, parts: nat)

  const EMPTY := State(map[], 0, 0)

  datatype LogicalRecordError =
    | ReassemblyLimitExceeded(actual: nat)
    | WriterStateLimitExceeded(actual: nat)
    | TotalPendingPartsLimitExceeded(actual: nat)

  function WriterOf(state: State, id: WriterId): WriterState {
    if id in state.writers then state.writers[id] else NEW_WRITER
  }

  /** The limit that retaining `after`, or completing `out`, breaks. The totals exclude whatever the
      writer retained before. A completed split record only has to fit the limit by itself. */
  function BrokenLimit(
    max: nat, before: WriterState, after: WriterState, record: ReadRecord,
    out: Option<LogicalRecordData>, otherBytes: nat, otherParts: nat): Option<LogicalRecordError>
  {
    if before.pending.Some? && record.part.index > 0
       && (after.pending.Some? || (out.Some? && !out.value.Borrowed?))
       && before.pending.value.len + |record.data| > max then
      Some(ReassemblyLimitExceeded(before.pending.value.len + |record.data|))
    else if after.pending.Some? && otherBytes + PendingBytes(after) > max then
      Some(ReassemblyLimitExceeded(otherBytes + PendingBytes(after)))
    else if after.pending.Some? && otherParts + PendingParts(after) > MAX_RECORD_TOTAL_PENDING_PARTS then
      Some(TotalPendingPartsLimitExceeded(otherParts + PendingParts(after)))
    else None
  }

  ghost predicate TotalsCover(state: State, id: WriterId) {
    && PendingBytes(WriterOf(state, id)) <= state.bytes
    && PendingParts(WriterOf(state, id)) <= state.parts
  }

  /** The state a fresh record leaves its writer in, and the assembler's answer. A broken limit
      drops what the writer retained and keeps its duplicate-suppression mark. */
  function Limited(max: nat, before: WriterState, record: ReadRecord, otherBytes: nat, otherParts: nat)
    : (result: (WriterState, Result<Option<LogicalRecordData>, LogicalRecordError>))
  {
    var (after, out) := Accept(before, record);
    match BrokenLimit(max, before, after, record, out, otherBytes, otherParts)
    case Some(error) => (after.(pending := None), Err(error))
    case None => (after, Ok(out))
  }

  /** A fresh record was settled: the writer, the answer and the totals are as `Limited` says. */
  ghost predicate Settles(
    max: nat, before: WriterState, record: ReadRecord, bytes: nat, parts: nat,
    after: WriterState, answer: Result<Option<LogicalRecordData>, LogicalRecordError>,
    bytesAfter: nat, partsAfter: nat)
  {
    && PendingBytes(before) <= bytes && PendingParts(before) <= parts
    && (after, answer) == Limited(max, before, record, bytes - PendingBytes(before), parts - PendingParts(before))
    && bytesAfter == bytes - PendingBytes(before) + PendingBytes(after)
    && partsAfter == parts - PendingParts(before) + PendingParts(after)
  }

  /** One delivered record: a step of its writer within the limits, with the totals following. */
  function Push(max: nat, state: State, record: ReadRecord)
    : (result: (State, Result<Option<LogicalRecordData>, LogicalRecordError>))
    requires TotalsCover(state, record.writerId)
  {
    var id := record.writerId;
    var before := WriterOf(state, id);
    if id !in state.writers && |state.writers| >= MAX_RECORD_WRITER_STATES then
      (state, Err(WriterStateLimitExceeded(|state.writers| + 1)))
    else if IsDuplicate(before, record) then (state, Ok(None))
    else
      var otherBytes := state.bytes - PendingBytes(before);
      var otherParts := state.parts - PendingParts(before);
      var (kept, answer) := Limited(max, before, record, otherBytes, otherParts);
      (State(state.writers[id := kept], otherBytes + PendingBytes(kept), otherParts + PendingParts(kept)),
       answer)
  }
}
