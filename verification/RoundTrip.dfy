/**
 * Splitting and assembling one writer's records: duplicates do not matter, and the assembled
 * records are the submitted ones.
 */
module RoundTrip {
  import opened Wrappers
  import opened Protocol
  import opened Assembly

  // ----- One writer's assembly -----

  /** One writer after its own records, no limit intervening. */
  function WriterAfter(records: seq<ReadRecord>): WriterState {
    if records == [] then NEW_WRITER
    else Accept(WriterAfter(records[..|records| - 1]), records[|records| - 1]).0
  }

  function Emitted(out: Option<LogicalRecordData>): seq<Bytes> {
    if out.Some? then [out.value.Content()] else []
  }

  /** The logical records it emits. */
  function WriterOutput(records: seq<ReadRecord>): seq<Bytes> {
    if records == [] then []
    else
      var before := records[..|records| - 1];
      WriterOutput(before) + Emitted(Accept(WriterAfter(before), records[|records| - 1]).1)
  }

  // ----- Duplicates do not matter -----

  /** Number of distinct records a gap-free log holds: one more than its highest number. */
  function Durable(records: seq<ReadRecord>): nat {
    if records == [] then 0
    else
      var before, seqNum := Durable(records[..|records| - 1]), records[|records| - 1].writerSeqNum;
      if seqNum < before then before else seqNum + 1
  }

  /** The record a writer numbers `n` of `history`, as its readers see it. */
  function Physical(id: WriterId, history: seq<RecordPayload>, n: nat): ReadRecord
    requires n < |history| <= U64_MAX
  {
    ReadRecord(id, n, history[n].part, history[n].data)
  }

  /** An at-least-once log of `history`: a number fixes the content, and a number first appears
      right after everything below it. Repeats may come at any time. */
  ghost predicate AtLeastOnce(id: WriterId, history: seq<RecordPayload>, records: seq<ReadRecord>)
    requires |history| <= U64_MAX
  {
    records == [] ||
    (var before, last := records[..|records| - 1], records[|records| - 1];
     && AtLeastOnce(id, history, before)
     && last.writerSeqNum < |history| && last.writerSeqNum <= Durable(before)
     && last == Physical(id, history, last.writerSeqNum))
  }

  /** The first `n` records of `history`, each once. */
  function Once(id: WriterId, history: seq<RecordPayload>, n: nat): (records: seq<ReadRecord>)
    requires n <= |history| <= U64_MAX
    ensures |records| == n
  {
    seq(n, i requires 0 <= i < n => Physical(id, history, i))
  }

  lemma OnceExtends(id: WriterId, history: seq<RecordPayload>, n: nat)
    requires n < |history| <= U64_MAX
    ensures Once(id, history, n + 1)[..n] == Once(id, history, n)
    ensures Once(id, history, n + 1)[n] == Physical(id, history, n)
  {
  }

  lemma {:induction false} OnceMarksHighest(id: WriterId, history: seq<RecordPayload>, n: nat)
    requires n <= |history| <= U64_MAX
    ensures WriterAfter(Once(id, history, n)).highestSeq == if n == 0 then None else Some(n - 1)
  {
    if n > 0 {
      OnceMarksHighest(id, history, n - 1);
      OnceExtends(id, history, n - 1);
    }
  }

  /** A log without repeats is an at-least-once log. */
  lemma {:induction false} OnceIsAtLeastOnce(id: WriterId, history: seq<RecordPayload>, n: nat)
    requires n <= |history| <= U64_MAX
    ensures AtLeastOnce(id, history, Once(id, history, n)) && Durable(Once(id, history, n)) == n
  {
    if n > 0 {
      OnceIsAtLeastOnce(id, history, n - 1);
      OnceExtends(id, history, n - 1);
    }
  }

  /** Assembling an at-least-once log is assembling each of its records exactly once. */
  lemma {:induction false} DuplicatesDoNotMatter(id: WriterId, history: seq<RecordPayload>, records: seq<ReadRecord>)
    requires |history| <= U64_MAX && AtLeastOnce(id, history, records)
    ensures Durable(records) <= |history|
    ensures WriterAfter(records) == WriterAfter(Once(id, history, Durable(records)))
    ensures WriterOutput(records) == WriterOutput(Once(id, history, Durable(records)))
  {
    if records != [] {
      var before, last := records[..|records| - 1], records[|records| - 1];
      DuplicatesDoNotMatter(id, history, before);
      var n := Durable(before);
      OnceMarksHighest(id, history, n);
      if last.writerSeqNum == n {
        OnceExtends(id, history, n);
      }
    }
  }

  // ----- Splitting and assembling -----

  /** The parts `split_record_payloads` makes of `data`. */
  function PartsOf(data: Bytes): (parts: seq<RecordPayload>)
    requires Splittable(data)
    ensures IsSplit(data, parts)
  {
    var count := PartCount(|data|);
    seq(count, i requires 0 <= i < count =>
      RecordPayload(PartHeader(i, i == count - 1), PartData(data, i)))
  }

  lemma SplitIsPartsOf(data: Bytes, parts: seq<RecordPayload>)
    requires Splittable(data) && IsSplit(data, parts)
    ensures parts == PartsOf(data)
  {
  }

  ghost predicate AllSplittable(records: seq<Bytes>) {
    forall i :: 0 <= i < |records| ==> Splittable(records[i])
  }

  /** What a writer admits when it submits `records` one logical record at a time. */
  ghost function Layout(records: seq<Bytes>): seq<RecordPayload>
    requires AllSplittable(records)
  {
    if records == [] then []
    else Layout(records[..|records| - 1]) + PartsOf(records[|records| - 1])
  }

  lemma {:induction false} LayoutPrefix(records: seq<Bytes>, m: nat)
    requires AllSplittable(records) && m <= |records|
    ensures Layout(records[..m]) <= Layout(records)
    decreases |records|
  {
    if m < |records| {
      LayoutPrefix(records[..|records| - 1], m);
      assert records[..|records| - 1][..m] == records[..m];
    } else {
      assert records[..m] == records;
    }
  }

  /** The parts of record `m` follow the parts of the records before it. */
  lemma LayoutAt(records: seq<Bytes>, m: nat, j: nat)
    requires AllSplittable(records) && m < |records| && j < PartCount(|records[m]|)
    ensures var start := |Layout(records[..m])|;
      && start + PartCount(|records[m]|) == |Layout(records[..m + 1])| <= |Layout(records)|
      && Layout(records)[start + j] == RecordPayload(
           PartHeader(j, j == PartCount(|records[m]|) - 1), PartData(records[m], j))
  {
    LayoutPrefix(records, m + 1);
    assert records[..m + 1][..m] == records[..m];
  }

  /** `m` logical records are complete within the first `n` physical ones; `j` parts of the next
      one follow. */
  ghost predicate Complete(records: seq<Bytes>, n: nat, m: nat, j: nat)
    requires AllSplittable(records)
  {
    && m <= |records|
    && n == |Layout(records[..m])| + j
    && (if m == |records| then j == 0 else j < PartCount(|records[m]|))
  }

  /** What the assembler retains of a split record after its first `j` parts. */
  ghost predicate Retains(writer: WriterState, data: Bytes, start: nat, j: nat)
    requires j < PartCount(|data|)
  {
    if j == 0 then writer.pending.None? else
      && writer.pending.Some?
      && var p := writer.pending.value;
      && p.startSeqNum == start && p.nextPartIndex == j
      && p.len == j * MAX_RECORD_PAYLOAD_BYTES && p.partCount == j
      && Concat(p.chunks) == data[..j * MAX_RECORD_PAYLOAD_BYTES]
  }

  /** One more part of `data` either extends what is retained or completes the record. */
  lemma AcceptPart(writer: WriterState, id: WriterId, data: Bytes, start: nat, j: nat)
    requires start + j <= U64_MAX
    requires Splittable(data) && j < PartCount(|data|) && Retains(writer, data, start, j)
    requires writer.highestSeq == if start + j == 0 then None else Some(start + j - 1)
    ensures var last := j == PartCount(|data|) - 1;
      var (after, out) := Accept(writer, ReadRecord(id, start + j, PartHeader(j, last), PartData(data, j)));
      && after.highestSeq == Some(start + j)
      && Emitted(out) == (if last then [data] else [])
      && (if last then after.pending.None? else Retains(after, data, start, j + 1))
  {
    var last := j == PartCount(|data|) - 1;
    var sofar := data[..j * MAX_RECORD_PAYLOAD_BYTES];
    assert sofar + PartData(data, j) == data[..Min((j + 1) * MAX_RECORD_PAYLOAD_BYTES, |data|)];
    if last {
      assert data[..Min((j + 1) * MAX_RECORD_PAYLOAD_BYTES, |data|)] == data;
      if j == 0 { assert PartData(data, j) == data; }
    } else if j == 0 {
      assert Concat([]) + PartData(data, 0) == PartData(data, 0) == data[..MAX_RECORD_PAYLOAD_BYTES];
    }
    hide Concat;
  }

  /** Where assembly stands after the first `n` records of a layout. */
  ghost predicate Assembled(id: WriterId, records: seq<Bytes>, n: nat, m: nat, j: nat)
    requires AllSplittable(records) && n <= |Layout(records)| <= U64_MAX
  {
    && Complete(records, n, m, j)
    && WriterOutput(Once(id, Layout(records), n)) == records[..m]
    && (m < |records| ==> Retains(WriterAfter(Once(id, Layout(records), n)), records[m], n - j, j))
  }

  /** One more part was accepted: what the writer is and has emitted afterwards. */
  lemma NextPartAccepted(id: WriterId, records: seq<Bytes>, n: nat, m: nat, j: nat)
    requires AllSplittable(records) && n < |Layout(records)| <= U64_MAX
    requires Assembled(id, records, n, m, j)
    ensures m < |records| && j < PartCount(|records[m]|)
    ensures |Layout(records[..m])| + PartCount(|records[m]|) == |Layout(records[..m + 1])|
    ensures var after := WriterAfter(Once(id, Layout(records), n + 1));
      var output := WriterOutput(Once(id, Layout(records), n + 1));
      if j == PartCount(|records[m]|) - 1 then after.pending.None? && output == records[..m] + [records[m]]
      else Retains(after, records[m], n - j, j + 1) && output == records[..m]
  {
    hide Accept, Concat, PartData, PartCount, Splittable, Layout, Retains;
    var history := Layout(records);
    OnceMarksHighest(id, history, n);
    OnceExtends(id, history, n);
    assert records[..|records|] == records;
    LayoutAt(records, m, j);
    AcceptPart(WriterAfter(Once(id, history, n)), id, records[m], n - j, j);
  }

  lemma AssembleFinalPart(id: WriterId, records: seq<Bytes>, n: nat, m: nat, j: nat)
    requires AllSplittable(records) && n < |Layout(records)| <= U64_MAX
    requires Assembled(id, records, n, m, j) && m < |records| && j == PartCount(|records[m]|) - 1
    ensures Assembled(id, records, n + 1, m + 1, 0)
  {
    hide Accept, Concat, PartData, Splittable, Layout, WriterAfter, WriterOutput, Once;
    NextPartAccepted(id, records, n, m, j);
    assert records[..m + 1] == records[..m] + [records[m]];
  }

  lemma AssembleInnerPart(id: WriterId, records: seq<Bytes>, n: nat, m: nat, j: nat)
    requires AllSplittable(records) && n < |Layout(records)| <= U64_MAX
    requires Assembled(id, records, n, m, j) && m < |records| && j != PartCount(|records[m]|) - 1
    ensures Assembled(id, records, n + 1, m, j + 1)
  {
    hide Accept, Concat, PartData, PartCount, Splittable, Layout, Retains, WriterAfter, WriterOutput, Once;
    NextPartAccepted(id, records, n, m, j);
  }

  lemma NothingAssembled(id: WriterId, records: seq<Bytes>)
    requires AllSplittable(records) && |Layout(records)| <= U64_MAX
    ensures Assembled(id, records, 0, 0, 0)
  {
    assert records[..0] == [] && Once(id, Layout(records), 0) == [];
  }

  /** Assembling the first `n` records of a layout emits exactly the logical records complete within
      them, in submission order. */
  lemma {:induction false} AssemblingUndoesSplitting(id: WriterId, records: seq<Bytes>, n: nat)
    returns (m: nat, j: nat)
    requires AllSplittable(records) && n <= |Layout(records)| <= U64_MAX
    ensures Assembled(id, records, n, m, j)
  {
    hide Assembled, PartCount, Splittable, Layout;
    if n == 0 {
      m, j := 0, 0;
      NothingAssembled(id, records);
    } else {
      m, j := AssemblingUndoesSplitting(id, records, n - 1);
      NextPartAccepted(id, records, n - 1, m, j);
      if j == PartCount(|records[m]|) - 1 {
        AssembleFinalPart(id, records, n - 1, m, j);
        m, j := m + 1, 0;
      } else {
        AssembleInnerPart(id, records, n - 1, m, j);
        j := j + 1;
      }
    }
  }

  /** Completeness is unique, so "how many records are out" is a function of how many are durable. */
  lemma CompleteUnique(records: seq<Bytes>, n: nat, m: nat, j: nat, m': nat, j': nat)
    requires AllSplittable(records) && Complete(records, n, m, j) && Complete(records, n, m', j')
    ensures m == m' && j == j'
  {
    if m < m' {
      assert records[..m'][..m + 1] == records[..m + 1];
      LayoutPrefix(records[..m'], m + 1);
      LayoutAt(records, m, j);
    } else if m' < m {
      assert records[..m][..m' + 1] == records[..m' + 1];
      LayoutPrefix(records[..m], m' + 1);
      LayoutAt(records, m', j');
    }
  }
}
