/**
 * The TypeScript assembler. It keeps the same state as the Rust one, answers every record the same
 * way and differs only in what its errors and completed records carry.
 */
module TsAssembler {
  import opened Wrappers
  import opened Protocol
  import opened Assembly
  import opened AssemblyRuns

  datatype ProtocolError =
    | RecordWriterLimit
    | RecordReassemblyLimit(length: nat)
    | RecordTotalPendingPartsLimit

  /** The TypeScript error for a broken limit. */
  function Translate(error: LogicalRecordError): ProtocolError {
    match error
    case WriterStateLimitExceeded(_) => RecordWriterLimit
    case ReassemblyLimitExceeded(actual) => RecordReassemblyLimit(actual)
    case TotalPendingPartsLimitExceeded(_) => RecordTotalPendingPartsLimit
  }

  /** The TypeScript answer for a Rust one: the same record as one flat payload. */
  function Answer(result: Result<Option<LogicalRecordData>, LogicalRecordError>)
    : Result<Option<Bytes>, ProtocolError>
  {
    match result
    case Err(error) => Err(Translate(error))
    case Ok(None) => Ok(None)
    case Ok(Some(data)) => Ok(Some(data.Content()))
  }

  /** A fresh record was settled as in the reference, up to the TypeScript answer. */
  ghost predicate SettlesAs(
    max: nat, before: WriterState, record: ReadRecord, bytes: nat, parts: nat,
    after: WriterState, answer: Result<Option<Bytes>, ProtocolError>, bytesAfter: nat, partsAfter: nat)
  {
    && PendingBytes(before) <= bytes && PendingParts(before) <= parts
    && var reference := Limited(max, before, record, bytes - PendingBytes(before), parts - PendingParts(before)).1;
    && Settles(max, before, record, bytes, parts, after, reference, bytesAfter, partsAfter)
    && answer == Answer(reference)
  }

  /** Retained chunks and their lengths are consistent, so a completed record fills its buffer. */
  ghost predicate LengthsAgree(state: State) {
    forall id <- state.writers :: LengthAgrees(state.writers[id])
  }

  ghost predicate LengthAgrees(writer: WriterState) {
    writer.pending.Some? ==> writer.pending.value.len == |Concat(writer.pending.value.chunks)|
  }

  class LogicalRecordAssembler {
    const maxReassemblyBytes: nat
    var writers: map<WriterId, WriterState>
    var totalPendingBytes: nat
    var totalPendingParts: nat

    function View(): State
      reads this
    {
      State(writers, totalPendingBytes, totalPendingParts)
    }

    /** The totals are exact and every limit holds. */
    ghost predicate Valid()
      reads this
    {
      Accounted(maxReassemblyBytes, View())
    }

    constructor (maxReassemblyBytes: nat)
      ensures Valid() && View() == EMPTY && this.maxReassemblyBytes == maxReassemblyBytes
      ensures LengthsAgree(View())
    {
      assert Total(map[], PendingBytes) == 0 && Total(map[], PendingParts) == 0;
      this.maxReassemblyBytes := maxReassemblyBytes;
      writers, totalPendingBytes, totalPendingParts := map[], 0, 0;
    }

    method PushRecord(record: ReadRecord) returns (result: Result<Option<Bytes>, ProtocolError>)
      requires Valid() && LengthsAgree(View())
      modifies this
      ensures Valid() && LengthsAgree(View()) && TotalsCover(old(View()), record.writerId)
      ensures View() == Push(maxReassemblyBytes, old(View()), record).0
      ensures result == Answer(Push(maxReassemblyBytes, old(View()), record).1)
    {
      PendingLengthAgrees(View(), record.writerId);
      PushKeepsAccounts(maxReassemblyBytes, View(), record);
      PushKeepsLengths(maxReassemblyBytes, View(), record);
      hide Accounted, LengthsAgree, LengthAgrees, Limited, Concat, SettlesAs, Push;
      var key := record.writerId;
      var writer := NEW_WRITER;
      if key in writers {
        writer := writers[key];
      } else if |writers| >= MAX_RECORD_WRITER_STATES {
        PushRefusesWriter(maxReassemblyBytes, View(), record);
        return Err(RecordWriterLimit);
      }
      writer, result := AcceptRecord(writer, record);
      PushFromSettled(maxReassemblyBytes, old(View()), record, writer, result,
                      totalPendingBytes, totalPendingParts);
      writers := writers[key := writer];
    }

    /** The rest of `pushRecord`, on the writer object it looked up. */
    method AcceptRecord(entry: WriterState, record: ReadRecord)
      returns (writer: WriterState, result: Result<Option<Bytes>, ProtocolError>)
      requires PendingBytes(entry) <= totalPendingBytes && PendingParts(entry) <= totalPendingParts
      requires LengthAgrees(entry)
      modifies `totalPendingBytes, `totalPendingParts
      ensures IsDuplicate(entry, record) ==>
        && writer == entry && result == Ok(None)
        && totalPendingBytes == old(totalPendingBytes) && totalPendingParts == old(totalPendingParts)
      ensures !IsDuplicate(entry, record) ==>
        SettlesAs(maxReassemblyBytes, entry, record, old(totalPendingBytes), old(totalPendingParts),
                  writer, result, totalPendingBytes, totalPendingParts)
    {
      hide Concat;
      if entry.highestSeq.Some? && record.writerSeqNum <= entry.highestSeq.value {
        return entry, Ok(None);
      }
      writer := entry.(highestSeq := Some(record.writerSeqNum));

      if record.part == UNSPLIT {
        writer := ClearPending(writer);
        return writer, Ok(Some(record.data));
      }
      var startSeqNum: int := record.writerSeqNum - record.part.index;
      if startSeqNum < 0 {
        writer := ClearPending(writer);
        return writer, Ok(None);
      }
      if record.part.index == 0 {
        writer := ClearPending(writer);
        var chunks := if |record.data| == 0 then [] else [record.data];
        assert chunks == WithChunk([], record.data);
        var error;
        writer, error := SetPending(writer, PendingRecord(startSeqNum, 1, |record.data|, 1, chunks));
        return writer, if error.Some? then Err(error.value) else Ok(None);
      }
      writer, result := ContinueSplit(entry, writer, record, startSeqNum);
    }

    /** A later split part: it extends the retained record, completes it, or drops it. */
    method ContinueSplit(ghost entry: WriterState, marked: WriterState, record: ReadRecord, startSeqNum: nat)
      returns (writer: WriterState, result: Result<Option<Bytes>, ProtocolError>)
      requires marked == entry.(highestSeq := Some(record.writerSeqNum)) && !IsDuplicate(entry, record)
      requires PendingBytes(entry) <= totalPendingBytes && PendingParts(entry) <= totalPendingParts
      requires LengthAgrees(entry)
      requires record.part.index > 0 && startSeqNum == record.writerSeqNum - record.part.index
      modifies `totalPendingBytes, `totalPendingParts
      ensures SettlesAs(maxReassemblyBytes, entry, record, old(totalPendingBytes), old(totalPendingParts),
                        writer, result, totalPendingBytes, totalPendingParts)
    {
      hide Concat;
      var taken;
      writer, taken := TakePending(marked);
      if taken.None?
        || taken.value.startSeqNum != startSeqNum
        || taken.value.nextPartIndex != record.part.index
      {
        return writer, Ok(None);
      }
      var pending := taken.value;
      var length := pending.len + |record.data|;
      if length > maxReassemblyBytes {
        return writer, Err(RecordReassemblyLimit(length));
      }
      var chunks := pending.chunks;
      if |record.data| > 0 {
        chunks := chunks + [record.data];
      }
      assert chunks == WithChunk(pending.chunks, record.data);
      pending := pending.(len := length, partCount := pending.partCount + 1, chunks := chunks);
      if record.part.isFinal {
        var data := Concatenate(pending.chunks, pending.len);
        return writer, Ok(Some(data));
      }
      pending := pending.(nextPartIndex := record.part.index + 1);
      var error;
      writer, error := SetPending(writer, pending);
      return writer, if error.Some? then Err(error.value) else Ok(None);
    }

    /** `#takePending`. */
    method TakePending(writer: WriterState) returns (cleared: WriterState, pending: Option<PendingRecord>)
      requires PendingBytes(writer) <= totalPendingBytes && PendingParts(writer) <= totalPendingParts
      modifies `totalPendingBytes, `totalPendingParts
      ensures pending == writer.pending && cleared == writer.(pending := None)
      ensures totalPendingBytes == old(totalPendingBytes) - PendingBytes(writer)
      ensures totalPendingParts == old(totalPendingParts) - PendingParts(writer)
    {
      pending := writer.pending;
      cleared := writer;
      if pending.None? {
        return;
      }
      cleared := writer.(pending := None);
      totalPendingBytes := totalPendingBytes - pending.value.len;
      totalPendingParts := totalPendingParts - pending.value.partCount;
    }

    /** `#clearPending`. */
    method ClearPending(writer: WriterState) returns (cleared: WriterState)
      requires PendingBytes(writer) <= totalPendingBytes && PendingParts(writer) <= totalPendingParts
      modifies `totalPendingBytes, `totalPendingParts
      ensures cleared == writer.(pending := None)
      ensures totalPendingBytes == old(totalPendingBytes) - PendingBytes(writer)
      ensures totalPendingParts == old(totalPendingParts) - PendingParts(writer)
    {
      var dropped;
      cleared, dropped := TakePending(writer);
    }

    /** `#setPending`: retains the record unless a limit would be exceeded. */
    method SetPending(writer: WriterState, pending: PendingRecord)
      returns (updated: WriterState, error: Option<ProtocolError>)
      requires writer.pending.None?
      modifies `totalPendingBytes, `totalPendingParts
      ensures error == (
        if old(totalPendingBytes) + pending.len > maxReassemblyBytes then
          Some(RecordReassemblyLimit(old(totalPendingBytes) + pending.len))
        else if old(totalPendingParts) + pending.partCount > MAX_RECORD_TOTAL_PENDING_PARTS then
          Some(RecordTotalPendingPartsLimit)
        else None)
      ensures updated == if error.Some? then writer else writer.(pending := Some(pending))
      ensures totalPendingBytes == old(totalPendingBytes) + PendingBytes(updated)
      ensures totalPendingParts == old(totalPendingParts) + PendingParts(updated)
    {
      updated := writer;
      var reassemblyBytes := totalPendingBytes + pending.len;
      if reassemblyBytes > maxReassemblyBytes {
        return writer, Some(RecordReassemblyLimit(reassemblyBytes));
      }
      if pending.partCount > MAX_RECORD_TOTAL_PENDING_PARTS - totalPendingParts {
        return writer, Some(RecordTotalPendingPartsLimit);
      }
      updated := writer.(pending := Some(pending));
      totalPendingBytes := totalPendingBytes + pending.len;
      totalPendingParts := totalPendingParts + pending.partCount;
      return updated, None;
    }
  }

  lemma PendingLengthAgrees(state: State, key: WriterId)
    requires LengthsAgree(state)
    ensures LengthAgrees(WriterOf(state, key))
  {
  }

  lemma PushRefusesWriter(max: nat, state: State, record: ReadRecord)
    requires TotalsCover(state, record.writerId)
    requires record.writerId !in state.writers && |state.writers| >= MAX_RECORD_WRITER_STATES
    ensures Push(max, state, record).0 == state
    ensures Answer(Push(max, state, record).1) == Err(RecordWriterLimit)
  {
  }

  /** Storing a settled writer completes the step of the whole assembler. */
  lemma PushFromSettled(
    max: nat, state: State, record: ReadRecord,
    after: WriterState, answer: Result<Option<Bytes>, ProtocolError>, bytes: nat, parts: nat)
    requires TotalsCover(state, record.writerId)
    requires record.writerId in state.writers || |state.writers| < MAX_RECORD_WRITER_STATES
    requires var before := WriterOf(state, record.writerId);
      if IsDuplicate(before, record) then
        after == before && answer == Ok(None) && bytes == state.bytes && parts == state.parts
      else SettlesAs(max, before, record, state.bytes, state.parts, after, answer, bytes, parts)
    ensures Push(max, state, record).0 == State(state.writers[record.writerId := after], bytes, parts)
    ensures Answer(Push(max, state, record).1) == answer
  {
    hide Limited;
    if record.writerId in state.writers {
      assert state.writers[record.writerId := state.writers[record.writerId]] == state.writers;
    }
  }

  lemma PushKeepsLengths(max: nat, state: State, record: ReadRecord)
    requires TotalsCover(state, record.writerId) && LengthsAgree(state)
    ensures LengthsAgree(Push(max, state, record).0)
  {
    PendingLengthAgrees(state, record.writerId);
    assert LengthAgrees(Accept(WriterOf(state, record.writerId), record).0);
  }

  /** `concatenate`: copies the chunks one after the other into a buffer of the known length. */
  method Concatenate(chunks: seq<Bytes>, length: nat) returns (data: Bytes)
    requires length == |Concat(chunks)|
    ensures data == Concat(chunks)
  {
    if |chunks| == 0 {
      return [];
    }
    if |chunks| == 1 {
      assert Concat(chunks) == Concat(chunks[..0]) + chunks[0];
      return chunks[0];
    }
    var output := new Byte[length](_ => 0);
    var offset := 0;
    for i := 0 to |chunks|
      invariant offset == |Concat(chunks[..i])| <= length
      invariant output[..offset] == Concat(chunks[..i])
    {
      ConcatMonotone(chunks, i + 1);
      assert chunks[..i + 1][..i] == chunks[..i];
      assert Concat(chunks[..i + 1]) == Concat(chunks[..i]) + chunks[i];
      forall k | 0 <= k < |chunks[i]| {
        output[offset + k] := chunks[i][k];
      }
      offset := offset + |chunks[i]|;
    }
    assert chunks[..|chunks|] == chunks;
    return output[..];
  }
}
