/**
 * What holds of an assembler after any sequence of records, whatever the stream delivered and
 * whatever limits were broken on the way.
 */
module AssemblyRuns {
  import opened Wrappers
  import opened Protocol
  import opened Assembly

  // ----- Accounting -----

  /** A measure summed over the writers of a map. */
  ghost function Total(writers: map<WriterId, WriterState>, measure: WriterState -> nat): nat {
    if writers == map[] then 0
    else var id :| id in writers; measure(writers[id]) + Total(writers - {id}, measure)
  }

  lemma {:induction false} TotalTakesAny(writers: map<WriterId, WriterState>, measure: WriterState -> nat, id: WriterId)
    requires id in writers
    ensures Total(writers, measure) == measure(writers[id]) + Total(writers - {id}, measure)
  {
    var first :| first in writers
      && Total(writers, measure) == measure(writers[first]) + Total(writers - {first}, measure);
    if first != id {
      TotalTakesAny(writers - {first}, measure, id);
      TotalTakesAny(writers - {id}, measure, first);
      assert writers - {first} - {id} == writers - {id} - {first};
    }
  }

  lemma TotalAfterUpdate(
    writers: map<WriterId, WriterState>, measure: WriterState -> nat, id: WriterId, writer: WriterState)
    requires measure(NEW_WRITER) == 0
    ensures var before := if id in writers then writers[id] else NEW_WRITER;
      && measure(before) <= Total(writers, measure)
      && Total(writers[id := writer], measure) == Total(writers, measure) - measure(before) + measure(writer)
  {
    var updated := writers[id := writer];
    TotalTakesAny(updated, measure, id);
    if id in writers {
      TotalTakesAny(writers, measure, id);
      assert updated - {id} == writers - {id};
    } else {
      assert updated - {id} == writers;
    }
  }

  /** The totals are the sums over all writers, and every limit holds. */
  ghost predicate Accounted(max: nat, state: State) {
    && state.bytes == Total(state.writers, PendingBytes) <= max
    && state.parts == Total(state.writers, PendingParts) <= MAX_RECORD_TOTAL_PENDING_PARTS
    && |state.writers| <= MAX_RECORD_WRITER_STATES
  }

  lemma AccountedCovers(max: nat, state: State, id: WriterId)
    requires Accounted(max, state)
    ensures TotalsCover(state, id)
  {
    TotalAfterUpdate(state.writers, PendingBytes, id, NEW_WRITER);
    TotalAfterUpdate(state.writers, PendingParts, id, NEW_WRITER);
  }

  /** Accounting survives every record, accepted or refused; no record touches another writer; a
      broken limit drops exactly what its own writer retained. */
  lemma PushKeepsAccounts(max: nat, state: State, record: ReadRecord)
    requires Accounted(max, state)
    ensures TotalsCover(state, record.writerId)
    ensures var (after, answer) := Push(max, state, record);
      && Accounted(max, after)
      && (forall id :: id in state.writers ==> id in after.writers)
      && (forall id :: id != record.writerId ==>
            (id in after.writers <==> id in state.writers)
            && WriterOf(after, id) == WriterOf(state, id))
      && (answer.Err? && answer.error.WriterStateLimitExceeded? ==> after == state)
      && (answer.Err? && !answer.error.WriterStateLimitExceeded? ==>
            WriterOf(after, record.writerId) == WriterState(Some(record.writerSeqNum), None))
  {
    hide Total, Limited;
    AccountedCovers(max, state, record.writerId);
    var id := record.writerId;
    var before := WriterOf(state, id);
    var otherBytes, otherParts := state.bytes - PendingBytes(before), state.parts - PendingParts(before);
    if !IsDuplicate(before, record) {
      LimitedStaysWithin(max, before, record, otherBytes, otherParts);
    }
    var kept := Limited(max, before, record, otherBytes, otherParts).0;
    TotalAfterUpdate(state.writers, PendingBytes, id, kept);
    TotalAfterUpdate(state.writers, PendingParts, id, kept);
  }

  lemma LimitedStaysWithin(max: nat, before: WriterState, record: ReadRecord, otherBytes: nat, otherParts: nat)
    requires !IsDuplicate(before, record)
    requires otherBytes <= max && otherParts <= MAX_RECORD_TOTAL_PENDING_PARTS
    ensures var (kept, answer) := Limited(max, before, record, otherBytes, otherParts);
      && otherBytes + PendingBytes(kept) <= max
      && otherParts + PendingParts(kept) <= MAX_RECORD_TOTAL_PENDING_PARTS
      && (answer.Err? ==> kept == WriterState(Some(record.writerSeqNum), None)
                          && !answer.error.WriterStateLimitExceeded?)
  {
    hide Concat;
  }

  /** The assembler after `records`, going on after every error. */
  ghost function After(max: nat, records: seq<ReadRecord>): (state: State)
    ensures Accounted(max, state)
  {
    if records == [] then
      assert Total(map[], PendingBytes) == 0 && Total(map[], PendingParts) == 0;
      EMPTY
    else
      var state := After(max, records[..|records| - 1]);
      PushKeepsAccounts(max, state, records[|records| - 1]);
      Push(max, state, records[|records| - 1]).0
  }

  /** The answer to the `n`-th record. */
  ghost function AnswerTo(max: nat, records: seq<ReadRecord>, n: nat)
    : Result<Option<LogicalRecordData>, LogicalRecordError>
    requires n < |records|
  {
    PushKeepsAccounts(max, After(max, records[..n]), records[n]);
    Push(max, After(max, records[..n]), records[n]).1
  }

  // ----- Soundness -----

  /** The payloads of the records at `source`. */
  ghost function Payloads(records: seq<ReadRecord>, source: seq<nat>): seq<Bytes>
    requires Within(records, source)
  {
    seq(|source|, k requires 0 <= k < |source| => records[source[k]].data)
  }

  ghost predicate Within(records: seq<ReadRecord>, source: seq<nat>) {
    forall k :: 0 <= k < |source| ==> source[k] < |records|
  }

  /** `source` lists, in delivery order, parts `0 .. |source|` of one split record of `id` that
      starts at writer sequence `start`; only a closing part is final. */
  ghost predicate IsSource(records: seq<ReadRecord>, source: seq<nat>, id: WriterId, start: nat, closed: bool) {
    && source != []
    && Within(records, source)
    && (forall k, l :: 0 <= k < l < |source| ==> source[k] < source[l])
    && (forall k :: 0 <= k < |source| ==>
          var record := records[source[k]];
          && record.writerId == id
          && record.writerSeqNum == start + k
          && record.part == PartHeader(k, closed && k == |source| - 1))
  }

  /** What one writer remembers of the records so far. */
  ghost predicate Remembers(records: seq<ReadRecord>, id: WriterId, writer: WriterState) {
    && writer.highestSeq.Some?
    && (forall i :: 0 <= i < |records| && records[i].writerId == id ==>
          records[i].writerSeqNum <= writer.highestSeq.value)
    && (writer.pending.Some? ==> RetainsSplit(records, id, writer.pending.value))
  }

  ghost predicate RetainsSplit(records: seq<ReadRecord>, id: WriterId, p: PendingRecord) {
    exists source ::
      && IsSource(records, source, id, p.startSeqNum, false)
      && |source| == p.nextPartIndex
      && Concat(p.chunks) == Concat(Payloads(records, source))
  }

  /** Every known writer remembers faithfully, and a writer is unknown only if it never appeared or
      the writer limit is reached for good. */
  ghost predicate RemembersAll(records: seq<ReadRecord>, state: State) {
    && (forall id :: id in state.writers ==> Remembers(records, id, state.writers[id]))
    && (forall i :: 0 <= i < |records| && records[i].writerId !in state.writers ==>
          |state.writers| >= MAX_RECORD_WRITER_STATES)
  }

  /** A completed logical record: an unsplit record as delivered, or the concatenation of parts
      `0 .. k` of one writer, the last of them final and just delivered. */
  ghost predicate IsWhole(records: seq<ReadRecord>, n: nat, data: LogicalRecordData)
    requires n < |records|
  {
    || (records[n].part == UNSPLIT && data.Content() == records[n].data)
    || exists source, start ::
         && IsSource(records, source, records[n].writerId, start, true)
         && source[|source| - 1] == n && |source| > 1
         && data.Content() == Concat(Payloads(records, source))
  }

  lemma PayloadsOfLonger(records: seq<ReadRecord>, more: seq<ReadRecord>, source: seq<nat>)
    requires records <= more && Within(records, source)
    ensures Payloads(records, source) == Payloads(more, source)
  {
    forall k | 0 <= k < |source|
      ensures Payloads(records, source)[k] == Payloads(more, source)[k]
    {
      assert more[source[k]] == records[source[k]];
    }
  }

  lemma SourceOfLonger(
    records: seq<ReadRecord>, more: seq<ReadRecord>, source: seq<nat>, id: WriterId, start: nat, closed: bool)
    requires records <= more && IsSource(records, source, id, start, closed)
    ensures IsSource(more, source, id, start, closed)
  {
    forall k | 0 <= k < |source|
      ensures more[source[k]] == records[source[k]]
    {
    }
  }

  lemma RetainsInLonger(records: seq<ReadRecord>, record: ReadRecord, id: WriterId, p: PendingRecord)
    requires RetainsSplit(records, id, p)
    ensures RetainsSplit(records + [record], id, p)
  {
    var source :| IsSource(records, source, id, p.startSeqNum, false)
      && |source| == p.nextPartIndex && Concat(p.chunks) == Concat(Payloads(records, source));
    SourceOfLonger(records, records + [record], source, id, p.startSeqNum, false);
    PayloadsOfLonger(records, records + [record], source);
  }

  /** The next part extends the source of what is retained. */
  lemma ExtendSource(records: seq<ReadRecord>, record: ReadRecord, p: PendingRecord, closed: bool)
    returns (source: seq<nat>)
    requires RetainsSplit(records, record.writerId, p)
    requires record.writerSeqNum == p.startSeqNum + p.nextPartIndex
    requires record.part == PartHeader(p.nextPartIndex, closed)
    ensures IsSource(records + [record], source, record.writerId, p.startSeqNum, closed)
    ensures source[|source| - 1] == |records| && |source| == p.nextPartIndex + 1
    ensures Concat(Payloads(records + [record], source)) == Concat(p.chunks) + record.data
  {
    var earlier :| IsSource(records, earlier, record.writerId, p.startSeqNum, false)
      && |earlier| == p.nextPartIndex && Concat(p.chunks) == Concat(Payloads(records, earlier));
    var more := records + [record];
    var last: nat := |records|;
    source := earlier + [last];
    PayloadsOfLonger(records, more, earlier);
    var payloads := Payloads(more, source);
    assert payloads[..|payloads| - 1] == Payloads(more, earlier);
    assert payloads[|payloads| - 1] == record.data;
  }

  /** One accepted step: the writer goes on remembering, and what it emits is whole. */
  lemma AcceptIsSound(records: seq<ReadRecord>, record: ReadRecord, writer: WriterState)
    requires writer == NEW_WRITER || Remembers(records, record.writerId, writer)
    requires writer == NEW_WRITER ==>
      forall i :: 0 <= i < |records| ==> records[i].writerId != record.writerId
    requires !IsDuplicate(writer, record)
    ensures var (after, out) := Accept(writer, record);
      && Remembers(records + [record], record.writerId, after)
      && (out.Some? ==> IsWhole(records + [record], |records|, out.value))
  {
    var more := records + [record];
    var id := record.writerId;
    var index := record.part.index;
    var (after, out) := Accept(writer, record);
    if record.part == UNSPLIT || record.writerSeqNum < index {
    } else if index == 0 {
      var source := [|records|];
      assert IsSource(more, source, id, record.writerSeqNum, false);
      var payloads := Payloads(more, source);
      assert payloads[..0] == [] && payloads[0] == record.data;
      assert RetainsSplit(more, id, after.pending.value);
    } else if writer.pending.Some?
      && writer.pending.value.startSeqNum == record.writerSeqNum - index
      && writer.pending.value.nextPartIndex == index
    {
      var source := ExtendSource(records, record, writer.pending.value, record.part.isFinal);
    }
  }

  /** The invariant of every run. */
  lemma {:induction false} RunRemembers(max: nat, records: seq<ReadRecord>)
    ensures RemembersAll(records, After(max, records))
  {
    if records != [] {
      var n := |records| - 1;
      var before, record := records[..n], records[n];
      RunRemembers(max, before);
      assert records == before + [record];
      PushIsSound(max, before, After(max, before), record);
    }
  }

  lemma PushIsSound(max: nat, records: seq<ReadRecord>, state: State, record: ReadRecord)
    requires Accounted(max, state) && RemembersAll(records, state)
    ensures TotalsCover(state, record.writerId)
    ensures var (after, answer) := Push(max, state, record);
      && RemembersAll(records + [record], after)
      && (answer.Ok? && answer.value.Some? ==>
            && IsWhole(records + [record], |records|, answer.value.value)
            && forall i :: 0 <= i < |records| && records[i].writerId == record.writerId ==>
                 records[i].writerSeqNum < record.writerSeqNum)
  {
    PushKeepsAccounts(max, state, record);
    var id := record.writerId;
    var writer := WriterOf(state, id);
    var (after, answer) := Push(max, state, record);
    if !IsDuplicate(writer, record) && (id in state.writers || |state.writers| < MAX_RECORD_WRITER_STATES) {
      AcceptIsSound(records, record, writer);
    }
    hide Accept, IsWhole, Total, Accounted, BrokenLimit;
    forall other | other in after.writers && other != id
      ensures Remembers(records + [record], other, after.writers[other])
    {
      assert after.writers[other] == WriterOf(state, other) == state.writers[other];
      if state.writers[other].pending.Some? {
        RetainsInLonger(records, record, other, state.writers[other].pending.value);
      }
    }
    if id in state.writers && state.writers[id].pending.Some? {
      RetainsInLonger(records, record, id, state.writers[id].pending.value);
    }
  }

  /** A reader may start anywhere and receive anything: what it emits is never torn, mixed or
      repeated, and the emissions of one writer strictly increase in writer sequence. */
  lemma EmissionsAreWhole(max: nat, records: seq<ReadRecord>, n: nat)
    requires n < |records|
    ensures var answer := AnswerTo(max, records, n);
      answer.Ok? && answer.value.Some? ==>
        && IsWhole(records[..n + 1], n, answer.value.value)
        && forall i :: 0 <= i < n && records[i].writerId == records[n].writerId ==>
             records[i].writerSeqNum < records[n].writerSeqNum
  {
    hide RemembersAll, IsWhole, Accounted, Limited, Total;
    RunRemembers(max, records[..n]);
    PushIsSound(max, records[..n], After(max, records[..n]), records[n]);
    assert records[..n + 1] == records[..n] + [records[n]];
  }
}
