/**
 * Positions of a resumable read: what a batch must conform to, how it advances the request, and what
 * the records delivered so far amount to.
 */
module ReadSpec {
  import opened Wrappers
  import opened Protocol

  datatype ReadStart = SeqNum(seqNum: U64) | TimestampMs(timestampMs: U64) | TailOffset(offset: U64)

  /** The part of the request that a session moves along, with its stop conditions. */
  datatype ReadOptions = ReadOptions(start: Option<ReadStart>, count: Option<U64>, until: Option<U64>)

  /** What a socket can produce next. Heartbeats are skipped below this level. */
  datatype Outcome =
    | Records(batch: seq<PositionedRecord>)
    | CaughtUp(nextSeqNum: U64)
    | Closed
    | Interrupted(reconnected: bool)
    | Broken

  /** A session as its caller sees it: the request as it stands, and everything handed out. */
  datatype Session = Session(options: ReadOptions, finished: bool, delivered: seq<PositionedRecord>)

  ghost predicate Contiguous(records: seq<PositionedRecord>) {
    forall i :: 0 <= i < |records| ==> records[i].seqNum == records[0].seqNum + i
  }

  /** What the frame codec guarantees of a batch. */
  ghost predicate IsBatch(batch: seq<PositionedRecord>) {
    |batch| > 0 && Contiguous(batch)
  }

  function Last(records: seq<PositionedRecord>): PositionedRecord
    requires |records| > 0
  {
    records[|records| - 1]
  }

  /** The last sequence number there is: nothing can follow it. */
  predicate EndsAtMax(records: seq<PositionedRecord>) {
    |records| > 0 && Last(records).seqNum == U64_MAX
  }

  predicate Exhausted(options: ReadOptions) {
    || options.count == Some(0)
    || (options.start.Some? && options.start.value.TimestampMs? && options.until.Some?
        && options.start.value.timestampMs >= options.until.value)
  }

  /** A time the request asks for. */
  predicate InWindow(options: ReadOptions, time: nat) {
    && (options.start.Some? && options.start.value.TimestampMs? ==> options.start.value.timestampMs <= time)
    && (options.until.Some? ==> time < options.until.value)
  }

  /** A session ends without reading exactly when no record is asked for, or none between two times. */
  lemma ExhaustedIffNothingAsked(options: ReadOptions)
    ensures Exhausted(options) <==>
              || options.count == Some(0)
              || (options.start.Some? && options.start.value.TimestampMs?
                  && forall time: nat :: !InWindow(options, time))
  {
    if options.start.Some? && options.start.value.TimestampMs? {
      assert InWindow(options, options.start.value.timestampMs)
        <==> options.until.None? || options.start.value.timestampMs < options.until.value;
    }
  }

  predicate StartsAsRequested(first: PositionedRecord, start: Option<ReadStart>) {
    match start
    case Some(SeqNum(seqNum)) => first.seqNum == seqNum
    case Some(TimestampMs(timestampMs)) => first.timestampMs >= timestampMs
    case _ => true
  }

  predicate StopsAsRequested(batch: seq<PositionedRecord>, options: ReadOptions) {
    && (options.count.Some? ==> |batch| <= options.count.value)
    && (options.until.Some? ==> forall r <- batch :: r.timestampMs < options.until.value)
  }

  predicate Conforms(batch: seq<PositionedRecord>, options: ReadOptions) {
    |batch| > 0 && StartsAsRequested(batch[0], options.start) && StopsAsRequested(batch, options)
  }

  predicate CaughtUpConforms(nextSeqNum: U64, options: ReadOptions) {
    options.start.Some? && options.start.value.SeqNum? ==> options.start.value.seqNum == nextSeqNum
  }

  datatype Advanced = Advanced(options: ReadOptions, finished: bool)

  /** `advance_read_options_for_batch`: one step over a whole batch. */
  function AdvanceForBatch(options: ReadOptions, batch: seq<PositionedRecord>): Advanced
    requires |batch| > 0
  {
    if EndsAtMax(batch) then Advanced(options, true)
    else
      var count := if options.count.Some? then Some(Max(0, options.count.value - |batch|)) else None;
      Advanced(ReadOptions(Some(SeqNum(Last(batch).seqNum + 1)), count, options.until), count == Some(0))
  }

  /** The TypeScript step over one record. */
  function AdvanceForRecord(options: ReadOptions, record: PositionedRecord): Advanced
    requires options.count != Some(0)
  {
    if record.seqNum == U64_MAX then Advanced(options, true)
    else
      var count := if options.count.Some? then Some(options.count.value - 1) else None;
      var advanced := ReadOptions(Some(SeqNum(record.seqNum + 1)), count, options.until);
      Advanced(advanced, Exhausted(advanced))
  }

  function AdvanceForRecords(from: Advanced, records: seq<PositionedRecord>): Advanced
    requires from.options.count.Some? ==> |records| <= from.options.count.value
    decreases |records|
  {
    if |records| == 0 then from
    else AdvanceForRecords(AdvanceForRecord(from.options, records[0]), records[1..])
  }

  function AfterRecords(options: ReadOptions, last: PositionedRecord, number: nat): ReadOptions
    requires last.seqNum < U64_MAX && (options.count.Some? ==> number <= options.count.value)
  {
    var count := if options.count.Some? then Some(options.count.value - number) else None;
    ReadOptions(Some(SeqNum(last.seqNum + 1)), count, options.until)
  }

  lemma {:induction false} RecordsAdvance(from: Advanced, records: seq<PositionedRecord>)
    requires IsBatch(records) && Last(records).seqNum < U64_MAX
    requires from.options.count.Some? ==> |records| <= from.options.count.value
    ensures var options := AfterRecords(from.options, Last(records), |records|);
            AdvanceForRecords(from, records) == Advanced(options, options.count == Some(0))
    decreases |records|
  {
    assert records[0].seqNum < U64_MAX;
    if |records| > 1 {
      RecordsAdvance(AdvanceForRecord(from.options, records[0]), records[1..]);
    }
  }

  lemma {:induction false} RecordsAdvanceToMax(from: Advanced, records: seq<PositionedRecord>)
    requires IsBatch(records) && EndsAtMax(records)
    requires from.options.count.Some? ==> |records| <= from.options.count.value
    ensures AdvanceForRecords(from, records)
            == Advanced(if |records| == 1 then from.options
                        else AfterRecords(from.options, records[|records| - 2], |records| - 1), true)
    decreases |records|
  {
    if |records| > 1 {
      RecordsAdvanceToMax(AdvanceForRecord(from.options, records[0]), records[1..]);
    }
  }

  /** The two advances agree, except when a batch of several records reaches the last sequence
      number: then the batch step leaves the request alone and the record steps do not. */
  lemma AdvancesAgree(options: ReadOptions, batch: seq<PositionedRecord>, finished: bool)
    requires IsBatch(batch) && Conforms(batch, options)
    ensures AdvanceForRecords(Advanced(options, finished), batch) == AdvanceForBatch(options, batch)
            <==> !EndsAtMax(batch) || |batch| == 1
    ensures AdvanceForRecords(Advanced(options, finished), batch).finished
            == AdvanceForBatch(options, batch).finished
  {
    if EndsAtMax(batch) {
      RecordsAdvanceToMax(Advanced(options, finished), batch);
      if |batch| > 1 {
        var behind := AfterRecords(options, batch[|batch| - 2], |batch| - 1);
        assert behind.start == Some(SeqNum(U64_MAX));
        assert options.count.Some? ==> behind.count != options.count;
      }
    } else {
      RecordsAdvance(Advanced(options, finished), batch);
    }
  }

  /** The request after `delivered` records. A read that ended at the last sequence number is finished
      and its request is stale, so only there `delivered` and `remaining` do not add up. */
  ghost predicate Delivered(requested: ReadOptions, s: Session) {
    && Contiguous(s.delivered)
    && s.options.until == requested.until
    && (s.options.until.Some? ==> forall r <- s.delivered :: r.timestampMs < s.options.until.value)
    && (s.options.count.Some? <==> requested.count.Some?)
    && (requested.count.Some? ==> |s.delivered| <= requested.count.value)
    && (requested.count.Some? ==>
          (|s.delivered| + s.options.count.value == requested.count.value <==> !EndsAtMax(s.delivered)))
    && (EndsAtMax(s.delivered) ==> s.finished)
    && (|s.delivered| > 0 && !EndsAtMax(s.delivered) ==>
          s.options.start == Some(SeqNum(Last(s.delivered).seqNum + 1)))
    && (requested.start.Some? && requested.start.value.SeqNum? ==>
          if |s.delivered| == 0 then s.options.start == requested.start
          else s.delivered[0].seqNum == requested.start.value.seqNum)
  }

  /** How one outcome moves a session that steps over whole batches. Errors are reported and change
      nothing; a session that is done reads nothing more. */
  function Feed(s: Session, outcome: Outcome): Session {
    if s.finished || Exhausted(s.options) then s
    else match outcome
      case Records(batch) =>
        if Conforms(batch, s.options)
        then var next := AdvanceForBatch(s.options, batch); Session(next.options, next.finished, s.delivered + batch)
        else s
      case CaughtUp(nextSeqNum) =>
        if CaughtUpConforms(nextSeqNum, s.options)
        then s.(options := s.options.(start := Some(SeqNum(nextSeqNum))))
        else s
      case Closed => s.(finished := true)
      case Interrupted(_) => s
      case Broken => s
  }

  /** Whether an outcome is taken or reported as an error. */
  predicate Takes(options: ReadOptions, outcome: Outcome) {
    match outcome
    case Records(batch) => Conforms(batch, options)
    case CaughtUp(nextSeqNum) => CaughtUpConforms(nextSeqNum, options)
    case Closed => true
    case Interrupted(reconnected) => reconnected
    case Broken => false
  }

  /** The same for a session that steps record by record. */
  function FeedByRecord(s: Session, outcome: Outcome): Session {
    if !s.finished && !Exhausted(s.options) && outcome.Records? && Conforms(outcome.batch, s.options) then
      var next := AdvanceForRecords(Advanced(s.options, s.finished), outcome.batch);
      Session(next.options, next.finished, s.delivered + outcome.batch)
    else Feed(s, outcome)
  }

  function FeedAll(s: Session, outcomes: seq<Outcome>): Session
    decreases |outcomes|
  {
    if |outcomes| == 0 then s else Feed(FeedAll(s, outcomes[..|outcomes| - 1]), outcomes[|outcomes| - 1])
  }

  function FeedAllByRecord(s: Session, outcomes: seq<Outcome>): Session
    decreases |outcomes|
  {
    if |outcomes| == 0 then s
    else FeedByRecord(FeedAllByRecord(s, outcomes[..|outcomes| - 1]), outcomes[|outcomes| - 1])
  }

  ghost predicate AreBatches(outcomes: seq<Outcome>) {
    forall o <- outcomes :: o.Records? ==> IsBatch(o.batch)
  }

  lemma JoinContiguous(delivered: seq<PositionedRecord>, batch: seq<PositionedRecord>)
    requires Contiguous(delivered) && IsBatch(batch)
    requires |delivered| > 0 ==> batch[0].seqNum == Last(delivered).seqNum + 1
    ensures Contiguous(delivered + batch) && Last(delivered + batch) == Last(batch)
  {
  }

  lemma FeedKeepsDelivered(requested: ReadOptions, s: Session, outcome: Outcome)
    requires Delivered(requested, s) && (outcome.Records? ==> IsBatch(outcome.batch))
    ensures Delivered(requested, Feed(s, outcome))
  {
    if !s.finished && !Exhausted(s.options) && outcome.Records? && Conforms(outcome.batch, s.options) {
      JoinContiguous(s.delivered, outcome.batch);
    }
  }

  /** Unless a batch of several records ends at the last sequence number, the two sessions move alike. */
  lemma FeedsAgree(s: Session, batch: seq<PositionedRecord>)
    requires IsBatch(batch) && Conforms(batch, s.options) && (!EndsAtMax(batch) || |batch| == 1)
    ensures FeedByRecord(s, Records(batch)) == Feed(s, Records(batch))
  {
    AdvancesAgree(s.options, batch, s.finished);
    hide AdvanceForRecords, AdvanceForBatch, Conforms, EndsAtMax, Exhausted;
  }

  /** A batch of several records that ends at the last sequence number. */
  lemma LastBatchKeepsDelivered(requested: ReadOptions, s: Session, batch: seq<PositionedRecord>)
    requires Delivered(requested, s) && !s.finished && !Exhausted(s.options)
    requires IsBatch(batch) && Conforms(batch, s.options) && EndsAtMax(batch) && |batch| > 1
    ensures var options := AfterRecords(s.options, batch[|batch| - 2], |batch| - 1);
            Delivered(requested, Session(options, true, s.delivered + batch))
  {
    JoinContiguous(s.delivered, batch);
    hide Contiguous, Exhausted;
  }

  lemma ConformingFitsCount(batch: seq<PositionedRecord>, options: ReadOptions)
    requires Conforms(batch, options)
    ensures options.count.Some? ==> |batch| <= options.count.value
  {
  }

  lemma FeedByRecordKeepsDelivered(requested: ReadOptions, s: Session, outcome: Outcome)
    requires Delivered(requested, s) && (outcome.Records? ==> IsBatch(outcome.batch))
    ensures Delivered(requested, FeedByRecord(s, outcome))
  {
    hide Delivered, Contiguous, Conforms, Exhausted, EndsAtMax, Feed, AfterRecords, AdvanceForRecords;
    FeedKeepsDelivered(requested, s, outcome);
    if !s.finished && !Exhausted(s.options) && outcome.Records? && Conforms(outcome.batch, s.options) {
      ConformingFitsCount(outcome.batch, s.options);
      if EndsAtMax(outcome.batch) && |outcome.batch| > 1 {
        RecordsAdvanceToMax(Advanced(s.options, s.finished), outcome.batch);
        LastBatchKeepsDelivered(requested, s, outcome.batch);
      } else {
        FeedsAgree(s, outcome.batch);
      }
    }
  }

  lemma FinishingKeepsDelivered(requested: ReadOptions, s: Session)
    requires Delivered(requested, s)
    ensures Delivered(requested, s.(finished := true))
  {
  }

  /** Whatever a socket does, and however often it is replaced, the records handed out are one
      contiguous run within the stop conditions. */
  lemma {:induction false} RunDelivers(requested: ReadOptions, outcomes: seq<Outcome>)
    requires AreBatches(outcomes)
    ensures Delivered(requested, FeedAll(Session(requested, false, []), outcomes))
    decreases |outcomes|
  {
    if |outcomes| > 0 {
      RunDelivers(requested, outcomes[..|outcomes| - 1]);
      FeedKeepsDelivered(requested, FeedAll(Session(requested, false, []), outcomes[..|outcomes| - 1]),
                         outcomes[|outcomes| - 1]);
    }
  }

  /** No caught-up frame comes before the first record is handed out. */
  ghost predicate RecordsFirst(requested: ReadOptions, outcomes: seq<Outcome>) {
    forall i :: 0 <= i < |outcomes| && outcomes[i].CaughtUp? ==>
      |FeedAll(Session(requested, false, []), outcomes[..i]).delivered| > 0
  }

  /** A read from a time starts no earlier than asked, unless it is caught up before its first record. */
  lemma {:induction false} RunStartsInTime(requested: ReadOptions, outcomes: seq<Outcome>)
    requires requested.start.Some? && requested.start.value.TimestampMs? && RecordsFirst(requested, outcomes)
    ensures var s := FeedAll(Session(requested, false, []), outcomes);
      if |s.delivered| == 0 then s.options.start == requested.start
      else s.delivered[0].timestampMs >= requested.start.value.timestampMs
    decreases |outcomes|
  {
    if |outcomes| > 0 {
      var before := outcomes[..|outcomes| - 1];
      forall i | 0 <= i < |before| && before[i].CaughtUp?
        ensures |FeedAll(Session(requested, false, []), before[..i]).delivered| > 0
      {
        assert before[..i] == outcomes[..i] && outcomes[i].CaughtUp?;
      }
      RunStartsInTime(requested, before);
    }
  }

  /** Once it is caught up, the time is forgotten: the session takes an earlier record. */
  lemma CaughtUpForgetsTime() returns (outcomes: seq<Outcome>)
    ensures AreBatches(outcomes)
    ensures var s := FeedAll(Session(ReadOptions(Some(TimestampMs(10)), None, None), false, []), outcomes);
      |s.delivered| > 0 && s.delivered[0].timestampMs < 10
  {
    var start := Session(ReadOptions(Some(TimestampMs(10)), None, None), false, []);
    var record := PositionedRecord(5, 0, ReadRecord(0, 0, UNSPLIT, []));
    outcomes := [CaughtUp(5), Records([record])];
    assert outcomes[..1] == [CaughtUp(5)] && outcomes[..1][..0] == [];
    assert FeedAll(start, outcomes[..1]) == Feed(start, CaughtUp(5));
    assert FeedAll(start, outcomes) == Feed(Feed(start, CaughtUp(5)), Records([record]));
  }

  /** The two sessions deliver the same records and finish at the same outcome; their requests differ
      only once a read has ended at the last sequence number. */
  lemma {:induction false} SessionsAgree(requested: ReadOptions, outcomes: seq<Outcome>)
    requires AreBatches(outcomes)
    ensures var rust := FeedAll(Session(requested, false, []), outcomes);
            var ts := FeedAllByRecord(Session(requested, false, []), outcomes);
            rust.delivered == ts.delivered && rust.finished == ts.finished
            && (rust.options == ts.options || EndsAtMax(rust.delivered))
    decreases |outcomes|
  {
    if |outcomes| > 0 {
      var before, outcome := outcomes[..|outcomes| - 1], outcomes[|outcomes| - 1];
      SessionsAgree(requested, before);
      RunDelivers(requested, before);
      var s := FeedAll(Session(requested, false, []), before);
      if !s.finished && !Exhausted(s.options) && outcome.Records? && Conforms(outcome.batch, s.options) {
        AdvancesAgree(s.options, outcome.batch, s.finished);
        JoinContiguous(s.delivered, outcome.batch);
      }
    }
  }
}
