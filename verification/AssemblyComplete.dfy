/**
 * The converse of soundness: what an assembler that may start anywhere must hand out, and when it may
 * refuse a record.
 */
module AssemblyComplete {
  import opened Wrappers
  import opened Protocol
  import opened Assembly
  import opened AssemblyRuns

  /** The writers that appear. */
  ghost function Authors(records: seq<ReadRecord>): set<WriterId> {
    set r <- records :: r.writerId
  }

  /** No writer's mark is invented: it is the number of one of its records. */
  ghost predicate MarksAreSeen(records: seq<ReadRecord>, state: State) {
    && state.writers.Keys <= Authors(records)
    && forall id :: id in state.writers && state.writers[id].highestSeq.Some? ==>
         exists i :: 0 <= i < |records| && records[i].writerId == id
                     && records[i].writerSeqNum == state.writers[id].highestSeq.value
  }

  /** One record: its writer keeps its mark or takes the record's number, and nobody else's moves. */
  ghost predicate MovesOneMark(state: State, record: ReadRecord, after: State) {
    && after.writers.Keys <= state.writers.Keys + {record.writerId}
    && forall id :: id in after.writers ==>
         || (id in state.writers && after.writers[id] == state.writers[id])
         || (id == record.writerId && after.writers[id].highestSeq == Some(record.writerSeqNum))
  }

  lemma PushMovesOneMark(max: nat, state: State, record: ReadRecord)
    requires Accounted(max, state)
    ensures TotalsCover(state, record.writerId)
    ensures MovesOneMark(state, record, Push(max, state, record).0)
  {
    hide Accounted, WithChunk, Concat, BrokenLimit;
    AccountedCovers(max, state, record.writerId);
  }

  lemma MarksStaySeen(records: seq<ReadRecord>, state: State, record: ReadRecord, after: State)
    requires MarksAreSeen(records, state) && MovesOneMark(state, record, after)
    ensures MarksAreSeen(records + [record], after)
  {
    var more := records + [record];
    assert more[|records|] == record;
    forall r | r in records
      ensures r in more
    {
    }
    forall id | id in after.writers && after.writers[id].highestSeq.Some?
      ensures exists i :: 0 <= i < |more| && more[i].writerId == id
                          && more[i].writerSeqNum == after.writers[id].highestSeq.value
    {
      if id in state.writers && after.writers[id] == state.writers[id] {
        var i :| 0 <= i < |records| && records[i].writerId == id
          && records[i].writerSeqNum == state.writers[id].highestSeq.value;
        assert more[i] == records[i];
      }
    }
  }

  lemma NothingSeen()
    ensures MarksAreSeen([], EMPTY)
  {
  }

  lemma {:induction false} RunMarksAreSeen(max: nat, records: seq<ReadRecord>)
    ensures MarksAreSeen(records, After(max, records))
  {
    hide MarksAreSeen, MovesOneMark, Accounted, Push;
    NothingSeen();
    if records != [] {
      var n := |records| - 1;
      var before, record := records[..n], records[n];
      RunMarksAreSeen(max, before);
      PushMovesOneMark(max, After(max, before), record);
      MarksStaySeen(before, After(max, before), record, After(max, records));
      assert before + [record] == records;
    }
  }

  // ----- unsplit records -----

  /** A record above every earlier one of its writer. */
  ghost predicate IsNew(before: seq<ReadRecord>, record: ReadRecord) {
    forall i :: 0 <= i < |before| && before[i].writerId == record.writerId ==>
      before[i].writerSeqNum < record.writerSeqNum
  }

  /** The assembler has room for every writer so far and the one of `record`. */
  ghost predicate HasRoom(before: seq<ReadRecord>, record: ReadRecord) {
    |Authors(before) + {record.writerId}| <= MAX_RECORD_WRITER_STATES
  }

  ghost predicate Admits(state: State, record: ReadRecord) {
    record.writerId in state.writers || |state.writers| < MAX_RECORD_WRITER_STATES
  }

  lemma SmallerSet(small: set<WriterId>, large: set<WriterId>)
    requires small <= large
    ensures |small| <= |large|
  {
    assert large == small + (large - small);
  }

  lemma RoomIsKept(before: seq<ReadRecord>, record: ReadRecord, state: State)
    requires state.writers.Keys <= Authors(before) && HasRoom(before, record)
    ensures Admits(state, record)
    ensures record.writerId in Authors(before) && record.writerId !in state.writers ==>
              |state.writers| < MAX_RECORD_WRITER_STATES
  {
    if record.writerId !in state.writers {
      SmallerSet(state.writers.Keys, Authors(before) + {record.writerId} - {record.writerId});
    }
  }

  /** A new record is not taken for a duplicate. */
  lemma NewIsNoDuplicate(before: seq<ReadRecord>, record: ReadRecord, state: State)
    requires MarksAreSeen(before, state) && IsNew(before, record)
    ensures !IsDuplicate(WriterOf(state, record.writerId), record)
  {
  }

  /** With room for all, every writer that appeared is known, and remembers its highest number. */
  lemma OldIsDuplicate(before: seq<ReadRecord>, record: ReadRecord, state: State)
    requires MarksAreSeen(before, state) && RemembersAll(before, state) && !IsNew(before, record)
    requires HasRoom(before, record)
    ensures IsDuplicate(WriterOf(state, record.writerId), record)
  {
    var i :| 0 <= i < |before| && before[i].writerId == record.writerId
      && before[i].writerSeqNum >= record.writerSeqNum;
    assert before[i] in before;
    RoomIsKept(before, record, state);
    hide RetainsSplit, HasRoom;
  }

  lemma PushUnsplit(max: nat, state: State, record: ReadRecord)
    requires Accounted(max, state) && Admits(state, record) && record.part == UNSPLIT
    ensures TotalsCover(state, record.writerId)
    ensures Push(max, state, record).1
         == Ok(if IsDuplicate(WriterOf(state, record.writerId), record) then None else Some(Borrowed(record.data)))
  {
    AccountedCovers(max, state, record.writerId);
    hide Accounted, WithChunk;
  }

  /** An unsplit record is handed out, with its own bytes, if and only if it is above every earlier
      record of its writer: wherever the read began, and whatever came before. */
  lemma UnsplitIsHandedOut(max: nat, records: seq<ReadRecord>, n: nat)
    requires n < |records| && records[n].part == UNSPLIT && HasRoom(records[..n], records[n])
    ensures AnswerTo(max, records, n)
         == Ok(if IsNew(records[..n], records[n]) then Some(Borrowed(records[n].data)) else None)
  {
    var before, record := records[..n], records[n];
    RunMarksAreSeen(max, before);
    RunRemembers(max, before);
    var state := After(max, before);
    RoomIsKept(before, record, state);
    PushUnsplit(max, state, record);
    hide Accounted, After, Push, MarksAreSeen, RemembersAll, IsNew, HasRoom, IsDuplicate, Admits;
    if IsNew(before, record) {
      NewIsNoDuplicate(before, record, state);
    } else {
      OldIsDuplicate(before, record, state);
    }
  }

  // ----- split records -----

  /** Between the parts at `source` the writer's records only repeat lower numbers, and before the first
      part all its numbers are lower. Other writers may do anything. */
  ghost predicate Undisturbed(records: seq<ReadRecord>, source: seq<nat>, id: WriterId, start: nat) {
    && (forall i :: 0 <= i < |records| && records[i].writerId == id && |source| > 0 && i < source[0] ==>
          records[i].writerSeqNum < start)
    && (forall i, j, k :: 0 <= i < |records| && records[i].writerId == id
                          && 0 <= j < k < |source| && k == j + 1 && source[j] < i < source[k] ==>
          records[i].writerSeqNum < start + k)
  }

  /** The writer holds the first `k` parts of a record that starts at `start`. */
  ghost predicate Collected(state: State, id: WriterId, start: nat, k: nat, data: Bytes) {
    && id in state.writers
    && var writer := state.writers[id];
    && k > 0 && writer.highestSeq == Some(start + k - 1)
    && writer.pending.Some?
    && writer.pending.value.startSeqNum == start && writer.pending.value.nextPartIndex == k
    && Concat(writer.pending.value.chunks) == data
  }

  /** The first part begins a record, whatever was retained before. */
  lemma PushBegins(max: nat, state: State, record: ReadRecord)
    requires Accounted(max, state) && Admits(state, record)
    requires !IsDuplicate(WriterOf(state, record.writerId), record) && record.part == PartHeader(0, false)
    ensures TotalsCover(state, record.writerId)
    ensures var (after, answer) := Push(max, state, record);
      answer.Ok? ==> Collected(after, record.writerId, record.writerSeqNum, 1, record.data)
  {
    AccountedCovers(max, state, record.writerId);
    hide Accounted;
  }

  /** The next part extends it, and the last one completes it. */
  lemma PushContinues(max: nat, state: State, record: ReadRecord, start: nat, k: nat, data: Bytes)
    requires Accounted(max, state) && Collected(state, record.writerId, start, k, data)
    requires record.writerSeqNum == start + k && record.part.index == k
    ensures TotalsCover(state, record.writerId)
    ensures var (after, answer) := Push(max, state, record);
      answer.Ok? ==>
        if record.part.isFinal then answer.value.Some? && answer.value.value.Content() == data + record.data
        else Collected(after, record.writerId, start, k + 1, data + record.data)
  {
    AccountedCovers(max, state, record.writerId);
    hide Accounted, Concat;
  }

  /** What does not disturb it leaves it alone. */
  lemma PushPasses(max: nat, state: State, record: ReadRecord, id: WriterId, start: nat, k: nat, data: Bytes)
    requires Accounted(max, state) && Collected(state, id, start, k, data)
    requires record.writerId == id ==> record.writerSeqNum < start + k
    ensures TotalsCover(state, record.writerId)
    ensures Collected(Push(max, state, record).0, id, start, k, data)
  {
    PushKeepsAccounts(max, state, record);
    hide Accounted, Limited, Concat;
  }

  /** Every part at `source` finds room and is not refused. */
  ghost predicate NoneRefused(max: nat, records: seq<ReadRecord>, source: seq<nat>)
    requires Within(records, source)
  {
    forall k :: 0 <= k < |source| ==>
      HasRoom(records[..source[k]], records[source[k]]) && AnswerTo(max, records, source[k]).Ok?
  }

  /** A split record whose parts arrive undisturbed and are not refused. */
  ghost predicate Arrives(max: nat, records: seq<ReadRecord>, source: seq<nat>, id: WriterId, start: nat) {
    && IsSource(records, source, id, start, true)
    && Undisturbed(records, source, id, start) && NoneRefused(max, records, source)
  }

  /** The payloads of the first `k` parts. */
  ghost function FirstParts(records: seq<ReadRecord>, source: seq<nat>, k: nat): Bytes {
    if Within(records, source) && k <= |source| then Concat(Payloads(records, source)[..k]) else []
  }

  lemma PartIs(records: seq<ReadRecord>, source: seq<nat>, id: WriterId, start: nat, k: nat)
    requires IsSource(records, source, id, start, true) && k < |source|
    ensures Within(records, source) && source[k] < |records| && (k > 0 ==> source[k - 1] < source[k])
    ensures var record := records[source[k]];
      record.writerId == id && record.writerSeqNum == start + k && record.part == PartHeader(k, k == |source| - 1)
  {
  }

  lemma PartsGrow(records: seq<ReadRecord>, source: seq<nat>, k: nat)
    requires Within(records, source) && k < |source| && source[k] < |records|
    ensures FirstParts(records, source, k + 1) == FirstParts(records, source, k) + records[source[k]].data
    ensures k == 0 ==> FirstParts(records, source, k + 1) == records[source[k]].data
  {
    var payloads := Payloads(records, source);
    assert payloads[..k + 1][..k] == payloads[..k];
  }

  lemma PartAt(max: nat, records: seq<ReadRecord>, source: seq<nat>, id: WriterId, start: nat, k: nat)
    requires Arrives(max, records, source, id, start) && k < |source|
    ensures source[k] < |records| && (k > 0 ==> source[k - 1] < source[k])
    ensures var record := records[source[k]];
      && record.writerId == id && record.writerSeqNum == start + k
      && record.part == PartHeader(k, k == |source| - 1)
      && AnswerTo(max, records, source[k]).Ok?
      && FirstParts(records, source, k + 1) == FirstParts(records, source, k) + record.data
      && (k == 0 ==> FirstParts(records, source, k + 1) == record.data)
  {
    hide IsSource, Undisturbed, AnswerTo, HasRoom, FirstParts, Within;
    PartIs(records, source, id, start, k);
    PartsGrow(records, source, k);
  }

  lemma PassesBy(
    max: nat, records: seq<ReadRecord>, source: seq<nat>, id: WriterId, start: nat, i: nat, k: nat)
    requires Arrives(max, records, source, id, start) && 0 < k < |source|
    requires source[k - 1] < i < source[k] && i < |records| && records[i].writerId == id
    ensures records[i].writerSeqNum < start + k
  {
    hide HasRoom, IsSource;
  }

  lemma FirstIsAdmitted(max: nat, records: seq<ReadRecord>, source: seq<nat>, id: WriterId, start: nat)
    requires Arrives(max, records, source, id, start)
    ensures source[0] < |records|
    ensures var state, record := After(max, records[..source[0]]), records[source[0]];
      Admits(state, record) && !IsDuplicate(WriterOf(state, record.writerId), record)
  {
    var before, record := records[..source[0]], records[source[0]];
    RunMarksAreSeen(max, before);
    RoomIsKept(before, record, After(max, before));
    NewIsNoDuplicate(before, record, After(max, before));
  }

  lemma OneMorePushed(max: nat, records: seq<ReadRecord>, i: nat)
    requires i < |records|
    ensures var state := After(max, records[..i]);
      && Accounted(max, state) && TotalsCover(state, records[i].writerId)
      && After(max, records[..i + 1]) == Push(max, state, records[i]).0
      && AnswerTo(max, records, i) == Push(max, state, records[i]).1
  {
    assert records[..i + 1][..i] == records[..i];
    PushKeepsAccounts(max, After(max, records[..i]), records[i]);
    hide Accounted, Push;
  }

  /** The next part is collected too. */
  lemma CollectsPart(max: nat, records: seq<ReadRecord>, source: seq<nat>, id: WriterId, start: nat, k: nat)
    requires Arrives(max, records, source, id, start) && k < |source| - 1 && source[k] < |records|
    requires k > 0 ==> Collected(After(max, records[..source[k]]), id, start, k, FirstParts(records, source, k))
    ensures Collected(After(max, records[..source[k] + 1]), id, start, k + 1, FirstParts(records, source, k + 1))
  {
    hide *;
    PartAt(max, records, source, id, start, k);
    OneMorePushed(max, records, source[k]);
    var state, record := After(max, records[..source[k]]), records[source[k]];
    if k == 0 {
      FirstIsAdmitted(max, records, source, id, start);
      PushBegins(max, state, record);
    } else {
      PushContinues(max, state, record, start, k, FirstParts(records, source, k));
    }
  }

  /** And stays so until the part after it arrives. */
  lemma StaysCollected(
    max: nat, records: seq<ReadRecord>, source: seq<nat>, id: WriterId, start: nat, i: nat, k: nat)
    requires Arrives(max, records, source, id, start) && 0 < k < |source|
    requires source[k - 1] < i < source[k] && i < |records|
    requires Collected(After(max, records[..i]), id, start, k, FirstParts(records, source, k))
    ensures Collected(After(max, records[..i + 1]), id, start, k, FirstParts(records, source, k))
  {
    hide *;
    OneMorePushed(max, records, i);
    if records[i].writerId == id {
      PassesBy(max, records, source, id, start, i, k);
    }
    PushPasses(max, After(max, records[..i]), records[i], id, start, k, FirstParts(records, source, k));
  }

  /** Up to its last part, a split record that arrives is collected. */
  lemma {:induction false} Collects(
    max: nat, records: seq<ReadRecord>, source: seq<nat>, id: WriterId, start: nat, p: nat, k: nat)
    requires Arrives(max, records, source, id, start)
    requires 0 < k < |source| && source[k - 1] < p <= source[k]
    ensures p < |records| && Collected(After(max, records[..p]), id, start, k, FirstParts(records, source, k))
    decreases p
  {
    hide *;
    PartAt(max, records, source, id, start, k);
    var i := p - 1;
    if i > source[k - 1] {
      Collects(max, records, source, id, start, i, k);
      StaysCollected(max, records, source, id, start, i, k);
    } else {
      if k > 1 {
        PartAt(max, records, source, id, start, k - 1);
        Collects(max, records, source, id, start, i, k - 1);
      }
      CollectsPart(max, records, source, id, start, k - 1);
    }
  }

  /** A split record is handed out with its last part, as the concatenation of its parts: wherever the
      read began, whatever other writers send in between and whatever is repeated. */
  lemma SplitIsHandedOut(max: nat, records: seq<ReadRecord>, source: seq<nat>, id: WriterId, start: nat)
    requires Arrives(max, records, source, id, start) && |source| > 1
    ensures var answer := AnswerTo(max, records, source[|source| - 1]);
      answer.Ok? && answer.value.Some? && answer.value.value.Content() == Concat(Payloads(records, source))
  {
    var k := |source| - 1;
    assert Payloads(records, source)[..k + 1] == Payloads(records, source);
    assert FirstParts(records, source, k + 1) == Concat(Payloads(records, source));
    hide *;
    PartAt(max, records, source, id, start, k);
    Collects(max, records, source, id, start, source[k], k);
    OneMorePushed(max, records, source[k]);
    PushContinues(max, After(max, records[..source[k]]), records[source[k]], start, k, FirstParts(records, source, k));
  }

  // ----- limits -----

  /** Payload bytes of the split records that arrived, and their number. */
  ghost function SplitBytes(records: seq<ReadRecord>): nat {
    if records == [] then 0
    else
      var last := records[|records| - 1];
      SplitBytes(records[..|records| - 1]) + if last.part == UNSPLIT then 0 else |last.data|
  }

  ghost function SplitParts(records: seq<ReadRecord>): nat {
    if records == [] then 0
    else SplitParts(records[..|records| - 1]) + if records[|records| - 1].part == UNSPLIT then 0 else 1
  }

  /** One record adds at most itself to what is retained, and is refused only if that is too much. */
  lemma PushAddsItself(max: nat, state: State, record: ReadRecord)
    requires Accounted(max, state)
    ensures TotalsCover(state, record.writerId)
    ensures var (after, answer) := Push(max, state, record);
      var (size, parts) := if record.part == UNSPLIT then (0, 0) else (|record.data|, 1);
      && after.bytes <= state.bytes + size && after.parts <= state.parts + parts
      && (answer.Err? ==>
            || (answer.error.WriterStateLimitExceeded? && !Admits(state, record))
            || state.bytes + size > max || state.parts + parts > MAX_RECORD_TOTAL_PENDING_PARTS)
  {
    AccountedCovers(max, state, record.writerId);
    hide Accounted, Concat, WithChunk, FromOrderedChunks;
  }

  lemma {:induction false} RetainedWithinArrived(max: nat, records: seq<ReadRecord>)
    ensures After(max, records).bytes <= SplitBytes(records) && After(max, records).parts <= SplitParts(records)
  {
    if records != [] {
      var before, record := records[..|records| - 1], records[|records| - 1];
      RetainedWithinArrived(max, before);
      PushAddsItself(max, After(max, before), record);
      hide Accounted, Push;
    }
  }

  /** No record is refused while the split parts that arrived are within the limits all together and
      there is room for every writer. */
  lemma RefusedOnlyOverLimits(max: nat, records: seq<ReadRecord>, n: nat)
    requires n < |records| && HasRoom(records[..n], records[n])
    requires SplitBytes(records[..n + 1]) <= max
    requires SplitParts(records[..n + 1]) <= MAX_RECORD_TOTAL_PENDING_PARTS
    ensures AnswerTo(max, records, n).Ok?
  {
    var before, record := records[..n], records[n];
    assert records[..n + 1][..n] == before;
    RetainedWithinArrived(max, before);
    RunMarksAreSeen(max, before);
    RoomIsKept(before, record, After(max, before));
    PushAddsItself(max, After(max, before), record);
    hide Accounted, Push, After, MarksAreSeen, HasRoom;
  }

  /** A refusal names what would have been retained, or how many writers there would have been. */
  lemma RefusalsNameTheExcess(max: nat, state: State, record: ReadRecord)
    requires Accounted(max, state)
    ensures TotalsCover(state, record.writerId)
    ensures var answer := Push(max, state, record).1;
      answer.Err? ==>
        match answer.error
        case ReassemblyLimitExceeded(actual) => max < actual <= state.bytes + |record.data|
        case WriterStateLimitExceeded(actual) => MAX_RECORD_WRITER_STATES < actual == |state.writers| + 1
        case TotalPendingPartsLimitExceeded(actual) => MAX_RECORD_TOTAL_PENDING_PARTS < actual <= state.parts + 1
  {
    AccountedCovers(max, state, record.writerId);
    hide Accounted, Concat, WithChunk, FromOrderedChunks;
  }
}
