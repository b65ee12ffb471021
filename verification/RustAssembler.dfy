/** The Rust assembler, proved to be one `Assembly.Push` per record. */
module RustAssembler {
  import opened Wrappers
  import opened Protocol
  import opened Assembly
  import opened AssemblyRuns

  class LogicalRecordAssembler {
    const maxReassemblyBytes: nat
    var writers: map<WriterId, WriterState>
    var totalBytes: nat
    var totalParts: nat

    function View(): State
      reads this
    {
      State(writers, totalBytes, totalParts)
    }

    /** The totals are exact and every limit holds. */
    ghost predicate Valid()
      reads this
    {
      Accounted(maxReassemblyBytes, View())
    }

    constructor (maxReassemblyBytes: nat)
      ensures Valid() && View() == EMPTY && this.maxReassemblyBytes == maxReassemblyBytes
    {
      assert Total(map[], PendingBytes) == 0 && Total(map[], PendingParts) == 0;
      this.maxReassemblyBytes := maxReassemblyBytes;
      writers, totalBytes, totalParts := map[], 0, 0;
    }

    method PushRecord(record: ReadRecord)
      returns (result: Result<Option<LogicalRecordData>, LogicalRecordError>)
      requires Valid()
      modifies this
      ensures Valid() && TotalsCover(old(View()), record.writerId)
      ensures (View(), result) == Push(maxReassemblyBytes, old(View()), record)
    {
      hide Limited, Concat, Accounted;
      PushKeepsAccounts(maxReassemblyBytes, View(), record);
      var writerCount := |writers|;
      var writer := NEW_WRITER;
      if record.writerId in writers {
        writer := writers[record.writerId];
      } else if writerCount >= MAX_RECORD_WRITER_STATES {
        return Err(WriterStateLimitExceeded(writerCount + 1));
      }
      writer, result := AcceptRecord(writer, record);
      if record.writerId in writers {
        assert writers[record.writerId := writers[record.writerId]] == writers;
      }
      writers := writers[record.writerId := writer];
    }

    /** The rest of `push_record`, on the entry it borrowed. */
    method AcceptRecord(entry: WriterState, record: ReadRecord)
      returns (writer: WriterState, result: Result<Option<LogicalRecordData>, LogicalRecordError>)
      requires PendingBytes(entry) <= totalBytes && PendingParts(entry) <= totalParts
      modifies `totalBytes, `totalParts
      ensures IsDuplicate(entry, record) ==>
        && writer == entry && result == Ok(None)
        && totalBytes == old(totalBytes) && totalParts == old(totalParts)
      ensures !IsDuplicate(entry, record) ==>
        Settles(maxReassemblyBytes, entry, record, old(totalBytes), old(totalParts),
                writer, result, totalBytes, totalParts)
    {
      hide Concat;
      if entry.highestSeq.Some? && record.writerSeqNum <= entry.highestSeq.value {
        return entry, Ok(None);
      }
      writer := entry.(highestSeq := Some(record.writerSeqNum));

      if record.part == UNSPLIT {
        writer := ClearPending(writer);
        return writer, Ok(Some(Borrowed(record.data)));
      }
      if record.writerSeqNum < record.part.index {
        writer := ClearPending(writer);
        return writer, Ok(None);
      }
      if record.part.index == 0 {
        writer, result := BeginSplit(entry, writer, record);
      } else {
        writer, result := ContinueSplit(entry, writer, record);
      }
    }

    /** A first split part: whatever was retained is dropped and a new record begins. */
    method BeginSplit(ghost entry: WriterState, marked: WriterState, record: ReadRecord)
      returns (writer: WriterState, result: Result<Option<LogicalRecordData>, LogicalRecordError>)
      requires marked == entry.(highestSeq := Some(record.writerSeqNum)) && !IsDuplicate(entry, record)
      requires PendingBytes(entry) <= totalBytes && PendingParts(entry) <= totalParts
      requires record.part == PartHeader(0, false)
      modifies `totalBytes, `totalParts
      ensures Settles(maxReassemblyBytes, entry, record, old(totalBytes), old(totalParts),
                      writer, result, totalBytes, totalParts)
    {
      hide Concat;
      writer := ClearPending(marked);
      var pending := PendingRecord(record.writerSeqNum, 1, |record.data|, 1, []);
      if record.data != [] {
        pending := pending.(chunks := [record.data]);
      }
      assert pending.chunks == WithChunk([], record.data);
      var added := WithAdded(pending);
      if added.Err? {
        return writer, Err(added.error);
      }
      totalBytes, totalParts := added.value.0, added.value.1;
      return writer.(pending := Some(pending)), Ok(None);
    }

    /** A later split part: it extends the retained record, completes it, or drops it. */
    method ContinueSplit(ghost entry: WriterState, marked: WriterState, record: ReadRecord)
      returns (writer: WriterState, result: Result<Option<LogicalRecordData>, LogicalRecordError>)
      requires marked == entry.(highestSeq := Some(record.writerSeqNum)) && !IsDuplicate(entry, record)
      requires PendingBytes(entry) <= totalBytes && PendingParts(entry) <= totalParts
      requires 0 < record.part.index <= record.writerSeqNum
      modifies `totalBytes, `totalParts
      ensures Settles(maxReassemblyBytes, entry, record, old(totalBytes), old(totalParts),
                      writer, result, totalBytes, totalParts)
    {
      hide Concat;
      var partIndex := record.part.index;
      var startSeqNum := record.writerSeqNum - partIndex;
      var taken;
      writer, taken := TakePending(marked);
      if taken.None? {
        return writer, Ok(None);
      }
      var pending := taken.value;
      if pending.startSeqNum != startSeqNum || pending.nextPartIndex != partIndex {
        return writer, Ok(None);
      }
      var logicalRecordLen := pending.len + |record.data|;
      if logicalRecordLen > maxReassemblyBytes {
        return writer, Err(ReassemblyLimitExceeded(logicalRecordLen));
      }
      pending := pending.(len := logicalRecordLen, partCount := pending.partCount + 1);
      if record.data != [] {
        pending := pending.(chunks := pending.chunks + [record.data]);
      }
      if record.part.isFinal {
        return writer, Ok(Some(FromOrderedChunks(pending.chunks)));
      }
      pending := pending.(nextPartIndex := partIndex + 1);
      var added := WithAdded(pending);
      if added.Err? {
        return writer, Err(added.error);
      }
      totalBytes, totalParts := added.value.0, added.value.1;
      return writer.(pending := Some(pending)), Ok(None);
    }

    /** `take_pending`: detaches what the writer retained and takes it off the totals. */
    method TakePending(writer: WriterState) returns (cleared: WriterState, pending: Option<PendingRecord>)
      requires PendingBytes(writer) <= totalBytes && PendingParts(writer) <= totalParts
      modifies `totalBytes, `totalParts
      ensures pending == writer.pending && cleared == writer.(pending := None)
      ensures totalBytes == old(totalBytes) - PendingBytes(writer)
      ensures totalParts == old(totalParts) - PendingParts(writer)
    {
      pending := writer.pending;
      if pending.Some? {
        totalBytes := totalBytes - pending.value.len;
        totalParts := totalParts - pending.value.partCount;
      }
      cleared := writer.(pending := None);
    }

    /** `clear_pending`. */
    method ClearPending(writer: WriterState) returns (cleared: WriterState)
      requires PendingBytes(writer) <= totalBytes && PendingParts(writer) <= totalParts
      modifies `totalBytes, `totalParts
      ensures cleared == writer.(pending := None)
      ensures totalBytes == old(totalBytes) - PendingBytes(writer)
      ensures totalParts == old(totalParts) - PendingParts(writer)
    {
      var dropped;
      cleared, dropped := TakePending(writer);
    }

    /** `with_added`: the totals with one more retained record, within both limits. */
    function WithAdded(pending: PendingRecord): Result<(nat, nat), LogicalRecordError>
      reads this
    {
      if totalBytes + pending.len > maxReassemblyBytes then
        Err(ReassemblyLimitExceeded(totalBytes + pending.len))
      else if totalParts + pending.partCount > MAX_RECORD_TOTAL_PENDING_PARTS then
        Err(TotalPendingPartsLimitExceeded(totalParts + pending.partCount))
      else
        Ok((totalBytes + pending.len, totalParts + pending.partCount))
    }
  }
}
