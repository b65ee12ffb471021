/**
 * Writing standard input as records and printing them back: line framing, byte framing, and what a
 * reader of the whole stream prints.
 */
module Transcript {
  import opened Wrappers
  import opened Protocol
  import opened Assembly
  import opened AssemblyRuns
  import opened RoundTrip
  import opened Delivery
  import RustAssembler

  // ----- writing -----

  /** The command's write session: every append is split and submitted as one batch. */
  class WriterSession {
    var submitted: seq<RecordPayload>
    ghost var logical: seq<Bytes>

    ghost predicate Valid()
      reads this
    {
      AllSplittable(logical) && submitted == Layout(logical)
    }

    constructor ()
      ensures Valid() && logical == []
    {
      submitted, logical := [], [];
    }

    /** `append_logical_record`: fails only when the part index would not fit. */
    method AppendLogicalRecord(data: Bytes) returns (ok: bool)
      requires Valid()
      modifies this
      ensures Valid() && (ok <==> Splittable(data))
      ensures logical == if ok then old(logical) + [data] else old(logical)
    {
      var parts := SplitRecordPayloads(data);
      if parts.Err? {
        return false;
      }
      SplitIsPartsOf(data, parts.value);
      assert (logical + [data])[..|logical|] == logical;
      submitted := submitted + parts.value;
      logical := logical + [data];
      return true;
    }

    /** `append_physical_record` with the unsplit header. */
    method AppendUnsplitRecord(data: Bytes) returns (ok: bool)
      requires Valid()
      modifies this
      ensures Valid() && (ok <==> |data| <= MAX_RECORD_PAYLOAD_BYTES)
      ensures logical == if ok then old(logical) + [data] else old(logical)
    {
      if |data| > MAX_RECORD_PAYLOAD_BYTES {
        return false;
      }
      assert IsSplit(data, [RecordPayload(UNSPLIT, data)]) by {
        assert PartData(data, 0) == data;
      }
      SplitIsPartsOf(data, [RecordPayload(UNSPLIT, data)]);
      assert (logical + [data])[..|logical|] == logical;
      submitted := submitted + [RecordPayload(UNSPLIT, data)];
      logical := logical + [data];
      return true;
    }
  }

  /** Records as printed: each followed by a line feed. */
  function Print(lines: seq<Bytes>): Bytes {
    if |lines| == 0 then [] else Print(lines[..|lines| - 1]) + lines[|lines| - 1] + [LF]
  }

  /** `lines` are the complete lines of `consumed`, `pending` the beginning of the next one. */
  ghost predicate Framed(consumed: Bytes, lines: seq<Bytes>, pending: Bytes) {
    && consumed == Print(lines) + pending
    && (forall line <- lines :: LF !in line)
    && LF !in pending
  }

  /** Reading byte by byte: the complete lines and the beginning of the next one. */
  function Frame(input: Bytes): (seq<Bytes>, Bytes)
    decreases |input|
  {
    if |input| == 0 then ([], [])
    else
      var (lines, pending) := Frame(input[..|input| - 1]);
      var c := input[|input| - 1];
      if c == LF then (lines + [pending], []) else (lines, pending + [c])
  }

  /** The transcript records of an input: an unterminated last line is one too. */
  function Lines(input: Bytes): seq<Bytes> {
    var (lines, pending) := Frame(input);
    if |pending| == 0 then lines else lines + [pending]
  }

  predicate Terminated(input: Bytes) {
    |input| == 0 || input[|input| - 1] == LF
  }

  /** What tailing prints: the input, with a final line feed if it lacks one. */
  function Tailed(input: Bytes): Bytes {
    if Terminated(input) then input else input + [LF]
  }

  lemma FramedByLine(consumed: Bytes, lines: seq<Bytes>, pending: Bytes, more: Bytes)
    requires Framed(consumed, lines, pending) && LF !in more
    ensures Framed(consumed + more, lines, pending + more)
    ensures Framed(consumed + more + [LF], lines + [pending + more], [])
  {
    var line := pending + more;
    assert (lines + [line])[..|lines|] == lines;
    assert consumed + more == Print(lines) + line;
    assert consumed + more + [LF] == Print(lines + [line]) + [];
  }

  lemma ShorterIsSplittable(shorter: Bytes, longer: Bytes)
    requires |shorter| <= |longer|
    ensures Splittable(longer) ==> Splittable(shorter)
  {
  }

  /** The bytes up to the next line feed, or up to the end. */
  lemma NextSegment(before: Bytes, bytes: Bytes, lo: nat, hi: nat)
    requires lo <= hi <= |bytes|
    ensures (before + bytes[..lo]) + bytes[lo..hi] == before + bytes[..hi]
    ensures hi == |bytes| ==> bytes[..hi] == bytes
    ensures hi < |bytes| ==> before + bytes[..hi] + [bytes[hi]] == before + bytes[..hi + 1]
    ensures (forall i :: lo <= i < hi ==> bytes[i] != LF) ==> LF !in bytes[lo..hi]
  {
  }

  /** Framing is unique: whoever keeps `Framed` has the lines of the input. */
  lemma {:induction false} FramedIsFrame(input: Bytes, lines: seq<Bytes>, pending: Bytes)
    requires Framed(input, lines, pending)
    ensures Frame(input) == (lines, pending)
    decreases |input|
  {
    if |input| > 0 {
      var before, c := input[..|input| - 1], input[|input| - 1];
      if |pending| > 0 {
        assert c == pending[|pending| - 1] && c in pending;
        assert pending == pending[..|pending| - 1] + [c];
        assert before == Print(lines) + pending[..|pending| - 1];
        FramedIsFrame(before, lines, pending[..|pending| - 1]);
      } else {
        var last := lines[|lines| - 1];
        assert input == Print(lines[..|lines| - 1]) + last + [LF];
        assert before == Print(lines[..|lines| - 1]) + last;
        FramedIsFrame(before, lines[..|lines| - 1], last);
        assert lines == lines[..|lines| - 1] + [last];
      }
    }
  }

  lemma {:induction false} FrameIsFramed(input: Bytes)
    ensures Framed(input, Frame(input).0, Frame(input).1)
    decreases |input|
  {
    if |input| > 0 {
      var before, c := input[..|input| - 1], input[|input| - 1];
      var (lines, pending) := Frame(before);
      FrameIsFramed(before);
      if c == LF {
        FramedByLine(before, lines, pending, []);
        assert pending + [] == pending && before + [] + [LF] == input;
      } else {
        FramedByLine(before, lines, pending, [c]);
        assert before + [c] == input;
      }
    }
  }

  /** The lines print as the input with a final line feed, and no line holds one. */
  lemma LinesPrintAsTailed(input: Bytes)
    ensures Print(Lines(input)) == Tailed(input)
    ensures forall line <- Lines(input) :: LF !in line
  {
    FrameIsFramed(input);
    FramedToTheEnd(input, Frame(input).0, Frame(input).1);
  }

  /** A line too long to be split stays so, however the input goes on. */
  lemma {:induction false} LongLinesStay(input: Bytes, more: Bytes)
    requires !AllSplittable(Lines(input))
    ensures !AllSplittable(Lines(input + more))
    decreases |more|
  {
    if |more| == 0 {
      assert input + more == input;
    } else {
      var before, c := input + more[..|more| - 1], more[|more| - 1];
      LongLinesStay(input, more[..|more| - 1]);
      assert input + more == before + [c] && (before + [c])[..|before|] == before;
      var (lines, pending) := Frame(before);
      var m :| 0 <= m < |Lines(before)| && !Splittable(Lines(before)[m]);
      ShorterIsSplittable(Lines(before)[m], if c == LF || m < |lines| then Lines(before)[m] else pending + [c]);
      assert !Splittable(Lines(before + [c])[m]);
    }
  }

  lemma FramedToTheEnd(input: Bytes, lines: seq<Bytes>, pending: Bytes)
    requires Framed(input, lines, pending)
    ensures pending == [] <==> Terminated(input)
    ensures Print(if pending == [] then lines else lines + [pending]) == Tailed(input)
  {
    if pending == [] {
      assert input == Print(lines);
    } else {
      assert input[|input| - 1] == pending[|pending| - 1];
      assert pending[|pending| - 1] in pending;
      assert (lines + [pending])[..|lines|] == lines;
    }
  }

  /** A complete line that cannot be split is a line of the whole input. */
  lemma LongLineFound(consumed: Bytes, lines: seq<Bytes>, line: Bytes, more: Bytes)
    requires Framed(consumed, lines + [line], []) && !Splittable(line)
    ensures !AllSplittable(Lines(consumed + more))
  {
    FramedIsFrame(consumed, lines + [line], []);
    assert (lines + [line])[|lines|] == line;
    LongLinesStay(consumed, more);
  }

  /** Splits input into transcript records on line feeds. */
  class LineRecordAppender {
    var pending: Bytes
    ghost var consumed: Bytes

    ghost predicate Valid(session: WriterSession)
      reads this, session
    {
      session.Valid() && Framed(consumed, session.logical, pending)
    }

    constructor ()
      ensures pending == [] && consumed == []
    {
      pending, consumed := [], [];
    }

    /** `push_bytes`. */
    method PushBytes(session: WriterSession, bytes: Bytes) returns (ok: bool)
      requires Valid(session)
      modifies this, session
      ensures ok ==> Valid(session) && consumed == old(consumed) + bytes
      ensures !ok ==> !AllSplittable(Lines(old(consumed) + bytes))
    {
      hide Framed, AllSplittable, Layout, Splittable, Lines;
      var lo := 0;
      assert consumed == old(consumed) + bytes[..0];
      while lo < |bytes|
        invariant 0 <= lo <= |bytes|
        invariant Valid(session) && consumed == old(consumed) + bytes[..lo]
      {
        var index := IndexOf(LF, bytes, lo);
        var hi := if index.Some? then index.value else |bytes|;
        var segment := bytes[lo..hi];
        NextSegment(old(consumed), bytes, lo, hi);
        FramedByLine(consumed, session.logical, pending, segment);
        pending := pending + segment;
        consumed := consumed + segment;
        if index.None? {
          return true;
        }
        consumed := consumed + [LF];
        lo := hi + 1;
        ghost var line, before := pending, session.logical;
        ok := SendLine(session);
        if !ok {
          LongLineFound(consumed, before, line, bytes[lo..]);
          assert consumed + bytes[lo..] == old(consumed) + bytes by {
            assert bytes[..lo] + bytes[lo..] == bytes;
          }
          return;
        }
      }
      assert bytes[..|bytes|] == bytes;
      return true;
    }

    method SendLine(session: WriterSession) returns (ok: bool)
      requires session.Valid()
      modifies this`pending, session
      ensures session.Valid() && pending == [] && (ok <==> Splittable(old(pending)))
      ensures session.logical == if ok then old(session.logical) + [old(pending)] else old(session.logical)
    {
      ok := session.AppendLogicalRecord(pending);
      pending := [];
    }

    /** `finish`: an unterminated last line is a record too. */
    method Finish(session: WriterSession) returns (ok: bool)
      requires Valid(session)
      modifies this`pending, session
      ensures session.Valid()
      ensures ok ==> session.logical == Lines(consumed)
      ensures !ok ==> !AllSplittable(Lines(consumed))
    {
      FramedIsFrame(consumed, session.logical, pending);
      assert |pending| > 0 ==> Lines(consumed)[|session.logical|] == pending;
      if |pending| > 0 {
        ok := SendLine(session);
      } else {
        ok := true;
      }
    }
  }

  /** Collecting byte by byte: the records filled so far and the beginning of the next one. */
  function Fill(pending: Bytes, bytes: Bytes): (seq<Bytes>, Bytes)
    decreases |bytes|
  {
    if |bytes| == 0 then ([], pending)
    else
      var (records, rest) := Fill(pending, bytes[..|bytes| - 1]);
      var more := rest + [bytes[|bytes| - 1]];
      if |more| == MAX_RECORD_PAYLOAD_BYTES then (records + [more], []) else (records, more)
  }

  /** A whole segment that ends at the latest where the record is full. */
  lemma {:induction false} FillBySegment(pending: Bytes, bytes: Bytes, segment: Bytes)
    requires |Fill(pending, bytes).1| + |segment| <= MAX_RECORD_PAYLOAD_BYTES
    requires |Fill(pending, bytes).1| < MAX_RECORD_PAYLOAD_BYTES
    ensures var (records, rest) := Fill(pending, bytes);
      Fill(pending, bytes + segment)
      == if |rest + segment| == MAX_RECORD_PAYLOAD_BYTES then (records + [rest + segment], [])
         else (records, rest + segment)
    decreases |segment|
  {
    if |segment| == 0 {
      assert bytes + segment == bytes && Fill(pending, bytes).1 + segment == Fill(pending, bytes).1;
    } else {
      var before := segment[..|segment| - 1];
      FillBySegment(pending, bytes, before);
      assert (bytes + segment)[..|bytes + segment| - 1] == bytes + before;
      assert Fill(pending, bytes).1 + segment == Fill(pending, bytes).1 + before + [segment[|segment| - 1]];
    }
  }

  lemma NextFill(before: Bytes, pending: Bytes, bytes: Bytes, lo: nat, hi: nat)
    requires lo <= hi <= |bytes| && |Fill(pending, bytes[..lo]).1| < MAX_RECORD_PAYLOAD_BYTES
    requires |Fill(pending, bytes[..lo]).1| + (hi - lo) <= MAX_RECORD_PAYLOAD_BYTES
    ensures (before + bytes[..lo]) + bytes[lo..hi] == before + bytes[..hi]
    ensures var (records, rest) := Fill(pending, bytes[..lo]);
      var more := rest + bytes[lo..hi];
      Fill(pending, bytes[..hi])
      == if |more| == MAX_RECORD_PAYLOAD_BYTES then (records + [more], []) else (records, more)
  {
    assert bytes[..lo] + bytes[lo..hi] == bytes[..hi];
    FillBySegment(pending, bytes[..lo], bytes[lo..hi]);
  }

  lemma ConcatWithLast(records: seq<Bytes>, last: Bytes)
    ensures Concat(records + [last]) == Concat(records) + last
  {
    assert (records + [last])[..|records|] == records;
  }

  /** What a flush makes of the pending bytes. */
  function Flushed(pending: Bytes): seq<Bytes> {
    if |pending| == 0 then [] else [pending]
  }

  /** Collects bytes into records of at most 512 KiB, flushed when full or when a timer fires. */
  class ByteRecordAppender {
    var pending: Bytes
    ghost var consumed: Bytes

    ghost predicate Valid(session: WriterSession)
      reads this, session
    {
      && session.Valid()
      && consumed == Concat(session.logical) + pending
      && |pending| < MAX_RECORD_PAYLOAD_BYTES
      && forall record <- session.logical :: 1 <= |record| <= MAX_RECORD_PAYLOAD_BYTES
    }

    constructor ()
      ensures pending == [] && consumed == []
    {
      pending, consumed := [], [];
    }

    /** `push_bytes`. */
    method PushBytes(session: WriterSession, bytes: Bytes)
      requires Valid(session)
      modifies this, session
      ensures Valid(session) && consumed == old(consumed) + bytes
      ensures session.logical == old(session.logical) + Fill(old(pending), bytes).0
      ensures pending == Fill(old(pending), bytes).1
    {
      hide AllSplittable, Layout, Concat, Fill, WriterSession.Valid;
      var lo := 0;
      assert consumed == old(consumed) + bytes[..0];
      NothingFilled(pending, bytes);
      while lo < |bytes|
        invariant 0 <= lo <= |bytes|
        invariant Valid(session) && consumed == old(consumed) + bytes[..lo]
        invariant session.logical == old(session.logical) + Fill(old(pending), bytes[..lo]).0
        invariant pending == Fill(old(pending), bytes[..lo]).1
      {
        var take := Min(MAX_RECORD_PAYLOAD_BYTES - |pending|, |bytes| - lo);
        var segment := bytes[lo..lo + take];
        NextFill(old(consumed), old(pending), bytes, lo, lo + take);
        assert Concat(session.logical) + (pending + segment) == (Concat(session.logical) + pending) + segment;
        pending := pending + segment;
        consumed := consumed + segment;
        lo := lo + take;
        if |pending| == MAX_RECORD_PAYLOAD_BYTES {
          Flush(session);
        }
      }
      assert bytes[..|bytes|] == bytes;
    }

    /** `flush`: may come at any time, from a full record, the timer or the end of input. */
    method Flush(session: WriterSession)
      requires session.Valid() && consumed == Concat(session.logical) + pending
      requires |pending| <= MAX_RECORD_PAYLOAD_BYTES
      requires forall record <- session.logical :: 1 <= |record| <= MAX_RECORD_PAYLOAD_BYTES
      modifies this`pending, session
      ensures Valid(session) && pending == [] && consumed == Concat(session.logical)
      ensures session.logical == old(session.logical) + Flushed(old(pending))
    {
      hide Concat, Layout, AllSplittable, WriterSession.Valid;
      if |pending| > 0 {
        var data := pending;
        pending := [];
        ConcatWithLast(session.logical, data);
        var ok := session.AppendUnsplitRecord(data);
      }
      assert Concat(session.logical) + [] == Concat(session.logical);
    }
  }

  /** `stream_line_chunks_to_writer`: whatever the chunking, the lines of the input are submitted, unless
      one cannot be split. */
  method StreamLines(chunks: seq<Bytes>) returns (ok: bool, session: WriterSession)
    ensures fresh(session)
    ensures ok <==> AllSplittable(Lines(Concat(chunks)))
    ensures ok ==> session.logical == Lines(Concat(chunks)) && session.submitted == Layout(session.logical)
  {
    hide Framed, Layout, Lines, Splittable;
    session := new WriterSession();
    var appender := new LineRecordAppender();
    NothingFramed();
    for i := 0 to |chunks|
      invariant fresh(session) && fresh(appender) && appender.Valid(session)
      invariant appender.consumed == Concat(chunks[..i])
    {
      assert chunks[..i + 1][..i] == chunks[..i];
      ok := appender.PushBytes(session, chunks[i]);
      if !ok {
        ConcatMonotone(chunks, i + 1);
        var sofar := Concat(chunks[..i + 1]);
        assert Concat(chunks) == sofar + Concat(chunks)[|sofar|..];
        LongLinesStay(sofar, Concat(chunks)[|sofar|..]);
        return;
      }
    }
    assert chunks[..|chunks|] == chunks;
    ok := appender.Finish(session);
  }

  lemma NothingFramed()
    ensures Framed([], [], [])
  {
  }

  datatype ByteEvent = Chunk(bytes: Bytes) | TimerFires

  function Received(events: seq<ByteEvent>): Bytes {
    if |events| == 0 then []
    else Received(events[..|events| - 1])
         + (if events[|events| - 1].Chunk? then events[|events| - 1].bytes else [])
  }

  lemma NothingFilled(pending: Bytes, bytes: Bytes)
    ensures Fill(pending, bytes[..0]) == ([], pending)
  {
  }

  /** The records sent and the bytes pending after `events`. */
  function ByteRecords(events: seq<ByteEvent>): (seq<Bytes>, Bytes) {
    if |events| == 0 then ([], [])
    else
      var (records, pending) := ByteRecords(events[..|events| - 1]);
      match events[|events| - 1]
      case Chunk(bytes) => (records + Fill(pending, bytes).0, Fill(pending, bytes).1)
      case TimerFires => (records + Flushed(pending), [])
  }

  lemma OneMoreEvent(events: seq<ByteEvent>, i: nat)
    requires i < |events|
    ensures var (records, pending) := ByteRecords(events[..i]);
      match events[i]
      case Chunk(bytes) =>
        && Received(events[..i + 1]) == Received(events[..i]) + bytes
        && ByteRecords(events[..i + 1]) == (records + Fill(pending, bytes).0, Fill(pending, bytes).1)
      case TimerFires =>
        && Received(events[..i + 1]) == Received(events[..i])
        && ByteRecords(events[..i + 1]) == (records + Flushed(pending), [])
  {
    assert events[..i + 1][..i] == events[..i];
    assert Received(events[..i]) + [] == Received(events[..i]);
  }

  lemma NoEvents(events: seq<ByteEvent>)
    ensures Received(events[..0]) == [] && ByteRecords(events[..0]) == ([], []) && Concat([]) == []
  {
  }

  /** `stream_byte_chunks_to_writer`: whatever the chunking and whenever the timer fires, no byte is
      lost or moved, and every record holds 1 byte to 512 KiB. */
  method StreamBytes(events: seq<ByteEvent>) returns (session: WriterSession)
    ensures fresh(session) && session.Valid()
    ensures session.logical == ByteRecords(events).0 + Flushed(ByteRecords(events).1)
    ensures Concat(session.logical) == Received(events)
    ensures forall record <- session.logical :: 1 <= |record| <= MAX_RECORD_PAYLOAD_BYTES
  {
    hide Fill, Flushed, Concat, Layout, AllSplittable, WriterSession.Valid, Received, ByteRecords;
    NoEvents(events);
    session := new WriterSession();
    var appender := new ByteRecordAppender();
    for i := 0 to |events|
      invariant fresh(session) && fresh(appender) && appender.Valid(session)
      invariant appender.consumed == Received(events[..i])
      invariant (session.logical, appender.pending) == ByteRecords(events[..i])
    {
      OneMoreEvent(events, i);
      match events[i] {
        case Chunk(bytes) => appender.PushBytes(session, bytes);
        case TimerFires => appender.Flush(session);
      }
    }
    assert events[..|events|] == events;
    appender.Flush(session);
  }

  // ----- reading back -----

  /** Reading goes through: one part, or small enough to be reassembled. */
  predicate Fits(max: nat, data: Bytes) {
    || PartCount(|data|) == 1
    || (|data| <= max && PartCount(|data|) <= MAX_RECORD_TOTAL_PENDING_PARTS + 1)
  }

  /** Part `j` of `data` is refused. */
  predicate Breaks(max: nat, data: Bytes, j: nat) {
    var count := PartCount(|data|);
    && count > 1
    && (Min((j + 1) * MAX_RECORD_PAYLOAD_BYTES, |data|) > max
        || (j < count - 1 && j + 1 > MAX_RECORD_TOTAL_PENDING_PARTS))
  }

  lemma FitsIfNoPartBreaks(max: nat, data: Bytes)
    ensures Fits(max, data) <==> forall j :: 0 <= j < PartCount(|data|) ==> !Breaks(max, data, j)
  {
    var count := PartCount(|data|);
    if count > 1 {
      assert Min(((count - 1) + 1) * MAX_RECORD_PAYLOAD_BYTES, |data|) == |data|;
      if |data| > max {
        assert Breaks(max, data, count - 1);
      } else if count > MAX_RECORD_TOTAL_PENDING_PARTS + 1 {
        assert Breaks(max, data, MAX_RECORD_TOTAL_PENDING_PARTS);
      }
    }
  }

  /** Every record of the log is of one writer. */
  ghost predicate OneWriter(id: WriterId, log: seq<ReadRecord>) {
    forall r <- log :: r.writerId == id
  }

  lemma {:induction false} OnlyOneWriter(id: WriterId, log: seq<ReadRecord>)
    requires OneWriter(id, log)
    ensures Only(id, log) == log
  {
    if log != [] {
      OnlyOneWriter(id, log[..|log| - 1]);
    }
  }

  /** The totals of an assembler that has seen one writer are that writer's. */
  lemma {:induction false} TotalsOfOneWriter(max: nat, id: WriterId, log: seq<ReadRecord>)
    requires OneWriter(id, log)
    ensures var state := After(max, log);
      && state.writers.Keys <= {id}
      && state.bytes == PendingBytes(WriterOf(state, id)) && state.parts == PendingParts(WriterOf(state, id))
  {
    if log != [] {
      var before, record := log[..|log| - 1], log[|log| - 1];
      TotalsOfOneWriter(max, id, before);
      PushKeepsAccounts(max, After(max, before), record);
      hide Limited, Accounted;
    }
  }

  /** The limits met by the next part of a record, when nothing else is retained. */
  lemma PartMeetsLimits(max: nat, writer: WriterState, id: WriterId, data: Bytes, start: nat, j: nat)
    requires start + j <= U64_MAX
    requires Splittable(data) && j < PartCount(|data|) && Retains(writer, data, start, j)
    ensures var record := ReadRecord(id, start + j, PartHeader(j, j == PartCount(|data|) - 1), PartData(data, j));
      writer.highestSeq == (if start + j == 0 then None else Some(start + j - 1)) ==>
        (Limited(max, writer, record, 0, 0).1.Err? <==> Breaks(max, data, j))
  {
    hide Concat;
  }

  /** An at-least-once log of the records `lines` of one writer, complete to the last part. */
  ghost predicate CompleteLog(id: WriterId, lines: seq<Bytes>, log: seq<ReadRecord>) {
    && AllSplittable(lines) && |Layout(lines)| <= U64_MAX
    && OneWriter(id, log)
    && AtLeastOnce(id, Layout(lines), log) && Durable(log) == |Layout(lines)|
  }

  lemma {:induction false} PrefixOfLog(id: WriterId, history: seq<RecordPayload>, log: seq<ReadRecord>, n: nat)
    requires |history| <= U64_MAX && n <= |log| && AtLeastOnce(id, history, log)
    ensures AtLeastOnce(id, history, log[..n]) && Durable(log[..n]) <= Durable(log)
    ensures n < |log| ==> log[n].writerSeqNum < |history| && log[n].writerSeqNum <= Durable(log[..n])
                          && log[n] == Physical(id, history, log[n].writerSeqNum)
    decreases |log|
  {
    if n < |log| - 1 {
      PrefixOfLog(id, history, log[..|log| - 1], n);
      assert log[..|log| - 1][..n] == log[..n];
    } else if n == |log| {
      assert log[..n] == log;
    }
  }

  /** Every durable number has a first copy, right after everything below it. */
  lemma {:induction false} FirstCopy(id: WriterId, history: seq<RecordPayload>, log: seq<ReadRecord>, d: nat)
    returns (n: nat)
    requires |history| <= U64_MAX && AtLeastOnce(id, history, log) && d < Durable(log)
    ensures n < |log| && log[n].writerSeqNum == d == Durable(log[..n])
    decreases |log|
  {
    var before := log[..|log| - 1];
    if d < Durable(before) {
      n := FirstCopy(id, history, before, d);
      assert before[..n] == log[..n];
    } else {
      n := |log| - 1;
    }
  }

  /** The assembler behind an accepted prefix of the log. */
  lemma AssemblerBehind(max: nat, id: WriterId, history: seq<RecordPayload>, before: seq<ReadRecord>)
    requires |history| <= U64_MAX && OneWriter(id, before) && AtLeastOnce(id, history, before)
    requires NoLimitBroken(max, before)
    ensures Durable(before) <= |history|
    ensures var state, d := After(max, before), Durable(before);
      && state.writers.Keys <= {id}
      && WriterOf(state, id) == WriterAfter(Once(id, history, d))
      && WriterOf(state, id).highestSeq == (if d == 0 then None else Some(d - 1))
      && state.bytes == PendingBytes(WriterOf(state, id)) && state.parts == PendingParts(WriterOf(state, id))
  {
    TotalsOfOneWriter(max, id, before);
    WritersAssembleAlone(max, before, id);
    OnlyOneWriter(id, before);
    DuplicatesDoNotMatter(id, history, before);
    OnceMarksHighest(id, history, Durable(before));
  }

  /** With one writer known, only its own limits can be met. */
  lemma AnswerOfOneWriter(max: nat, state: State, record: ReadRecord)
    requires state.writers.Keys <= {record.writerId}
    requires var writer := WriterOf(state, record.writerId);
      state.bytes == PendingBytes(writer) && state.parts == PendingParts(writer)
    ensures TotalsCover(state, record.writerId)
    ensures var writer := WriterOf(state, record.writerId);
      Push(max, state, record).1 == if IsDuplicate(writer, record) then Ok(None)
                                    else Limited(max, writer, record, 0, 0).1
  {
    hide Limited;
    assert record.writerId !in state.writers ==> state.writers.Keys == {};
  }

  /** A repeat is never refused, and a first copy exactly when its part breaks a limit. */
  lemma AnswerToCopy(max: nat, id: WriterId, lines: seq<Bytes>, log: seq<ReadRecord>, n: nat)
    returns (m: nat, j: nat)
    requires AllSplittable(lines) && |Layout(lines)| <= U64_MAX
    requires OneWriter(id, log) && AtLeastOnce(id, Layout(lines), log)
    requires n < |log| && NoLimitBroken(max, log[..n])
    ensures log[n].writerSeqNum < Durable(log[..n]) ==> AnswerTo(max, log, n).Ok?
    ensures log[n].writerSeqNum == Durable(log[..n]) ==>
              && m < |lines| && Complete(lines, Durable(log[..n]), m, j)
              && (AnswerTo(max, log, n).Err? <==> Breaks(max, lines[m], j))
  {
    hide Accept, Limited, Concat, Layout, Breaks, Retains, PartCount, PartData, Splittable, Accounted;
    var history, before, record := Layout(lines), log[..n], log[n];
    m, j := 0, 0;
    PrefixOfLog(id, history, log, n);
    AssemblerBehind(max, id, history, before);
    AnswerOfOneWriter(max, After(max, before), record);
    var d := Durable(before);
    if record.writerSeqNum == d {
      m, j := AssemblingUndoesSplitting(id, lines, d);
      NextPart(id, lines, d, m, j);
      PartMeetsLimits(max, WriterOf(After(max, before), id), id, lines[m], d - j, j);
    }
  }

  /** The record at position `d` of a layout is the part that completes `d` records by one. */
  lemma NextPart(id: WriterId, lines: seq<Bytes>, d: nat, m: nat, j: nat)
    requires AllSplittable(lines) && d < |Layout(lines)| <= U64_MAX && Complete(lines, d, m, j)
    ensures m < |lines| && j < PartCount(|lines[m]|)
    ensures Physical(id, Layout(lines), d)
            == ReadRecord(id, d, PartHeader(j, j == PartCount(|lines[m]|) - 1), PartData(lines[m], j))
  {
    hide PartData, PartCount, Layout;
    assert lines[..|lines|] == lines;
    LayoutAt(lines, m, j);
  }

  lemma {:induction false} FittingLinesAreRead(max: nat, id: WriterId, lines: seq<Bytes>, log: seq<ReadRecord>, n: nat)
    requires AllSplittable(lines) && |Layout(lines)| <= U64_MAX
    requires OneWriter(id, log) && AtLeastOnce(id, Layout(lines), log) && n <= |log|
    requires forall line <- lines :: Fits(max, line)
    ensures NoLimitBroken(max, log[..n])
  {
    hide Fits, Layout, Splittable, AnswerTo, Breaks;
    if n > 0 {
      FittingLinesAreRead(max, id, lines, log, n - 1);
      PrefixOfLog(id, Layout(lines), log, n - 1);
      var m, j := AnswerToCopy(max, id, lines, log, n - 1);
      if log[n - 1].writerSeqNum == Durable(log[..n - 1]) {
        assert Fits(max, lines[m]);
        FitsIfNoPartBreaks(max, lines[m]);
      }
      LongerPrefix(max, log, n - 1);
    }
  }

  lemma LongerPrefix(max: nat, log: seq<ReadRecord>, n: nat)
    requires n < |log| && NoLimitBroken(max, log[..n]) && AnswerTo(max, log, n).Ok?
    ensures NoLimitBroken(max, log[..n + 1])
  {
    hide Push, After;
    var longer := log[..n + 1];
    assert longer[..n] == log[..n];
    forall i | 0 <= i < |longer|
      ensures AnswerTo(max, longer, i).Ok?
    {
      assert longer[..i] == log[..i];
      if i < n {
        assert log[..n][..i] == log[..i];
        assert AnswerTo(max, log[..n], i).Ok?;
      }
    }
  }

  lemma EarlierAnswers(max: nat, log: seq<ReadRecord>, n: nat)
    requires NoLimitBroken(max, log) && n <= |log|
    ensures NoLimitBroken(max, log[..n])
  {
    forall i | 0 <= i < |log[..n]|
      ensures AnswerTo(max, log[..n], i).Ok?
    {
      assert log[..n][..i] == log[..i];
      assert AnswerTo(max, log, i).Ok?;
    }
  }

  /** Reading the whole stream meets no limit if and only if every record fits. */
  lemma ReadableIffEveryRecordFits(max: nat, id: WriterId, lines: seq<Bytes>, log: seq<ReadRecord>)
    requires CompleteLog(id, lines, log)
    ensures NoLimitBroken(max, log) <==> forall line <- lines :: Fits(max, line)
  {
    hide Fits, Layout, Splittable, AnswerTo, Breaks, PartCount;
    if forall line <- lines :: Fits(max, line) {
      FittingLinesAreRead(max, id, lines, log, |log|);
      assert log[..|log|] == log;
    }
    if NoLimitBroken(max, log) {
      forall m, j | 0 <= m < |lines| && 0 <= j < PartCount(|lines[m]|)
        ensures !Breaks(max, lines[m], j)
      {
        PartWasAccepted(max, id, lines, log, m, j);
      }
      forall line | line in lines
        ensures Fits(max, line)
      {
        FitsIfNoPartBreaks(max, line);
      }
    }
  }

  lemma PartWasAccepted(max: nat, id: WriterId, lines: seq<Bytes>, log: seq<ReadRecord>, m: nat, j: nat)
    requires CompleteLog(id, lines, log) && NoLimitBroken(max, log)
    requires m < |lines| && j < PartCount(|lines[m]|)
    ensures !Breaks(max, lines[m], j)
  {
    hide Layout, Splittable, AnswerTo, Breaks, PartCount, PartData;
    LayoutAt(lines, m, j);
    var d := |Layout(lines[..m])| + j;
    var n := FirstCopy(id, Layout(lines), log, d);
    EarlierAnswers(max, log, n);
    var m', j' := AnswerToCopy(max, id, lines, log, n);
    CompleteUnique(lines, d, m, j, m', j');
    assert AnswerTo(max, log, n).Ok?;
  }

  /** What reading the whole stream yields, if it goes through. */
  lemma ReadsBackEveryRecord(max: nat, id: WriterId, lines: seq<Bytes>, log: seq<ReadRecord>)
    requires CompleteLog(id, lines, log) && NoLimitBroken(max, log)
    ensures Emissions(max, log) == lines
  {
    hide Layout, Splittable;
    EmissionsOfOneWriter(max, id, log);
    OnlyOneWriter(id, log);
    WritersAssembleAlone(max, log, id);
    DuplicatesDoNotMatter(id, Layout(lines), log);
    var n := |Layout(lines)|;
    var m, j := AssemblingUndoesSplitting(id, lines, n);
    assert lines[..|lines|] == lines;
    CompleteUnique(lines, n, m, j, |lines|, 0);
  }

  /** Every record that reading `log` emits, of any writer, in log order. */
  ghost function Emissions(max: nat, log: seq<ReadRecord>): seq<Bytes> {
    if log == [] then []
    else
      var n := |log| - 1;
      Emissions(max, log[..n]) + (match AnswerTo(max, log, n)
                                  case Ok(Some(data)) => [data.Content()]
                                  case _ => [])
  }

  lemma {:induction false} EmissionsOfOneWriter(max: nat, id: WriterId, log: seq<ReadRecord>)
    requires OneWriter(id, log)
    ensures Emissions(max, log) == OutputOf(max, log, id)
  {
    hide Push, After, AnswerTo;
    if log != [] {
      EmissionsOfOneWriter(max, id, log[..|log| - 1]);
      assert log[|log| - 1] in log;
    }
  }

  /** Write, then tail: for every input, every chunking and every resend, tailing a transcript goes
      through if and only if each line fits, and then prints the input up to a final line feed. */
  lemma WriteThenTail(max: nat, id: WriterId, input: Bytes, log: seq<ReadRecord>)
    requires CompleteLog(id, Lines(input), log)
    ensures NoLimitBroken(max, log) <==> forall line <- Lines(input) :: Fits(max, line)
    ensures NoLimitBroken(max, log) ==> Print(Emissions(max, log)) == Tailed(input)
  {
    hide Fits, Layout, Splittable, Print, Tailed, Lines;
    ReadableIffEveryRecordFits(max, id, Lines(input), log);
    LinesPrintAsTailed(input);
    if NoLimitBroken(max, log) {
      ReadsBackEveryRecord(max, id, Lines(input), log);
    }
  }

  /** Bytes are read back exactly whatever the limit, since no record is split. */
  lemma WriteBytesThenTail(max: nat, id: WriterId, records: seq<Bytes>, log: seq<ReadRecord>)
    requires CompleteLog(id, records, log)
    requires forall record <- records :: 1 <= |record| <= MAX_RECORD_PAYLOAD_BYTES
    ensures NoLimitBroken(max, log) && Concat(Emissions(max, log)) == Concat(records)
  {
    ReadableIffEveryRecordFits(max, id, records, log);
    assert NoLimitBroken(max, log);
    hide Layout, Splittable, Concat;
    ReadsBackEveryRecord(max, id, records, log);
  }

  /** A run of writer, sockets and service that wrote `records` and nothing else, and has every one of
      them acknowledged. */
  ghost predicate WroteAll(
    id: WriterId, states: seq<Sys>, events: seq<Event>, records: seq<Bytes>, log: seq<ReadRecord>)
  {
    && Runs(id, states, events) && AllSplittable(records)
    && var end := states[|events|];
    && end.view.history == Layout(records) && end.view.acked == |end.view.history|
    && end.log == log && OneWriter(id, log)
  }

  /** However many sockets were lost on the way, such a run leaves a complete log. */
  lemma AcknowledgedLogIsComplete(
    id: WriterId, states: seq<Sys>, events: seq<Event>, records: seq<Bytes>, log: seq<ReadRecord>)
    requires WroteAll(id, states, events, records, log)
    ensures CompleteLog(id, records, log)
  {
    hide Layout, Next, AtLeastOnce, Durable, Carries, Only, Load;
    RunKeepsInvariant(id, states, events);
    OnlyOneWriter(id, log);
    ValidHistoryIsNumbered(states[|events|].view);
    DuplicatesDoNotMatter(id, Layout(records), log);
  }

  /** From standard input to standard output: if the lines a session submitted were written by a run
      with everything acknowledged, tailing the stream goes through if and only if every line of the
      input fits, and prints the input up to a final line feed. */
  method WriteAndTail(
    chunks: seq<Bytes>, max: nat, id: WriterId, log: seq<ReadRecord>,
    ghost states: seq<Sys>, ghost events: seq<Event>)
    returns (written: bool, read: bool, output: Bytes)
    requires AllSplittable(Lines(Concat(chunks))) ==> WroteAll(id, states, events, Lines(Concat(chunks)), log)
    ensures written <==> AllSplittable(Lines(Concat(chunks)))
    ensures written ==> (read <==> forall line <- Lines(Concat(chunks)) :: Fits(max, line))
    ensures written && read ==> output == Tailed(Concat(chunks))
  {
    hide Fits, Layout, Splittable, Print, Tailed, Lines, WroteAll, NoLimitBroken, Emissions, CompleteLog;
    read, output := false, [];
    var session;
    written, session := StreamLines(chunks);
    if written {
      AcknowledgedLogIsComplete(id, states, events, Lines(Concat(chunks)), log);
      WriteThenTail(max, id, Concat(chunks), log);
      var count;
      read, output, count := WriteRecordBatches(max, log, true);
    }
  }

  /** The same for a byte stream, under every limit. */
  method WriteAndReadBytes(
    inputs: seq<ByteEvent>, max: nat, id: WriterId, log: seq<ReadRecord>,
    ghost states: seq<Sys>, ghost events: seq<Event>)
    returns (session: WriterSession, ghost written: bool, read: bool, output: Bytes)
    ensures fresh(session) && session.Valid()
    ensures written <==> WroteAll(id, states, events, session.logical, log)
    ensures written ==> read && output == Received(inputs)
  {
    hide Layout, Splittable, WroteAll, NoLimitBroken, Emissions, CompleteLog;
    session := StreamBytes(inputs);
    written := WroteAll(id, states, events, session.logical, log);
    if written {
      AcknowledgedLogIsComplete(id, states, events, session.logical, log);
      WriteBytesThenTail(max, id, session.logical, log);
    }
    var count;
    read, output, count := WriteRecordBatches(max, log, false);
  }

  const DEFAULT_MAX_RECORD_REASSEMBLY_BYTES := 32 * MAX_RECORD_PAYLOAD_BYTES

  /** Under the default limit some line can be written, with a complete log, and reading it fails. */
  lemma SomeLinesCannotBeTailed(id: WriterId)
    returns (line: Bytes, log: seq<ReadRecord>)
    ensures |line| == DEFAULT_MAX_RECORD_REASSEMBLY_BYTES + 1 && Lines(line) == [line]
    ensures CompleteLog(id, [line], log) && !NoLimitBroken(DEFAULT_MAX_RECORD_REASSEMBLY_BYTES, log)
  {
    line := seq(DEFAULT_MAX_RECORD_REASSEMBLY_BYTES + 1, _ => 0);
    assert LF !in line;
    NothingFramed();
    FramedByLine([], [], [], line);
    assert [] + line == line;
    FramedIsFrame(line, [], line);
    assert Splittable(line) && !Fits(DEFAULT_MAX_RECORD_REASSEMBLY_BYTES, line);
    LayoutOfOne(line);
    hide Layout, Splittable, Fits, NoLimitBroken, Frame;
    log := Once(id, Layout([line]), |Layout([line])|);
    OnceIsAtLeastOnce(id, Layout([line]), |Layout([line])|);
    assert line in [line];
    ReadableIffEveryRecordFits(DEFAULT_MAX_RECORD_REASSEMBLY_BYTES, id, [line], log);
  }

  lemma LayoutOfOne(line: Bytes)
    requires Splittable(line)
    ensures AllSplittable([line]) && |Layout([line])| == PartCount(|line|) <= U64_MAX
  {
    assert [line][..0] == [];
  }

  function Printed(transcript: bool, records: seq<Bytes>): Bytes {
    if transcript then Print(records) else Concat(records)
  }

  lemma PrintedOneMore(transcript: bool, records: seq<Bytes>, data: Bytes)
    ensures transcript ==> Printed(transcript, records + [data]) == Printed(transcript, records) + data + [LF]
    ensures !transcript ==> Printed(transcript, records + [data]) == Printed(transcript, records) + data
    ensures Printed(transcript, []) == []
  {
    assert (records + [data])[..|records|] == records;
  }

  /** `write_record_batches`: assembles the records of all writers and prints what comes out. It stops at
      the first refused record, after printing everything before it. */
  method WriteRecordBatches(max: nat, log: seq<ReadRecord>, transcript: bool)
    returns (ok: bool, output: Bytes, count: nat)
    ensures ok <==> NoLimitBroken(max, log)
    ensures count <= |log| && (ok <==> count == |log|)
    ensures NoLimitBroken(max, log[..count]) && output == Printed(transcript, Emissions(max, log[..count]))
    ensures ok ==> output == Printed(transcript, Emissions(max, log))
    ensures !ok ==> AnswerTo(max, log, count).Err?
  {
    hide Push, Printed, Accounted;
    var records := new RustAssembler.LogicalRecordAssembler(max);
    output := [];
    PrintedOneMore(transcript, [], []);
    for i := 0 to |log|
      invariant fresh(records) && records.Valid() && records.maxReassemblyBytes == max
      invariant records.View() == After(max, log[..i]) && NoLimitBroken(max, log[..i])
      invariant output == Printed(transcript, Emissions(max, log[..i]))
    {
      assert log[..i + 1][..i] == log[..i];
      var answer := records.PushRecord(log[i]);
      assert answer == AnswerTo(max, log, i);
      if answer.Err? {
        return false, output, i;
      }
      LongerPrefix(max, log, i);
      if answer.value.Some? {
        var data := answer.value.value.Content();
        PrintedOneMore(transcript, Emissions(max, log[..i]), data);
        output := output + data;
        if transcript {
          output := output + [LF];
        }
      }
      EmitOneMore(max, log, i);
    }
    assert log[..|log|] == log;
    return true, output, |log|;
  }

  lemma EmitOneMore(max: nat, log: seq<ReadRecord>, i: nat)
    requires i < |log|
    ensures match AnswerTo(max, log, i)
      case Ok(Some(data)) => Emissions(max, log[..i + 1]) == Emissions(max, log[..i]) + [data.Content()]
      case _ => Emissions(max, log[..i + 1]) == Emissions(max, log[..i])
  {
    hide Push, After;
    assert log[..i + 1][..i] == log[..i];
  }
}
