/**
 * The resumable event-stream reader: every batch and every caught-up event carries a cursor, which
 * must continue the previous one, and which the next connection resumes from.
 */
module SseReader {
  import opened Wrappers
  import opened Protocol
  import opened ReadSpec

  /** A cursor that parsed: both numbers are safe integers and no more was consumed than exists. */
  datatype CursorRaw = Cursor(nextSeqNum: U64, consumed: U64)
  type Cursor = c: CursorRaw | c.consumed <= c.nextSeqNum <= MAX_SAFE_INTEGER_U64 witness Cursor(0, 0)

  datatype Reopened = Opened(resume: Option<Cursor>) | NoContent | OpenFailed

  /** What a body can produce next, and what reconnecting gives if that is what follows. A cursor is
      missing when the event carries none that parses. */
  datatype SseOutcome =
    | ReadBatchEvent(batch: seq<PositionedRecord>, cursor: Option<Cursor>)
    | CaughtUpEvent(nextSeqNum: U64, cursor: Option<Cursor>)
    | Interrupted(reopened: Reopened)
    | Ended(reopened: Reopened)
    | Other(fatal: bool)

  datatype SseSession = SseSession(options: ReadOptions, finished: bool, lastEvent: Option<Cursor>,
                                   retries: nat, delivered: seq<PositionedRecord>)

  function Project(s: SseSession): Session {
    Session(s.options, s.finished, s.delivered)
  }

  predicate Done(s: SseSession) {
    s.finished || Exhausted(s.options)
  }

  /** `validate_sse_read_batch_cursor`. */
  predicate BatchCursorFollows(
    batch: seq<PositionedRecord>, cursor: Cursor, previous: Option<Cursor>, options: ReadOptions)
    requires |batch| > 0
  {
    var consumed := if previous.Some? then previous.value.consumed else 0;
    && Last(batch).seqNum < U64_MAX
    && cursor.nextSeqNum == Last(batch).seqNum + 1
    && (previous.Some? ==> batch[0].seqNum == previous.value.nextSeqNum)
    && (previous.None? ==> StartsAsRequested(batch[0], options.start))
    && consumed + |batch| <= U64_MAX
    && cursor.consumed == consumed + |batch|
  }

  /** `validate_sse_caught_up_cursor`. */
  predicate CaughtUpCursorFollows(nextSeqNum: U64, cursor: Cursor, previous: Option<Cursor>, options: ReadOptions) {
    && cursor.nextSeqNum == nextSeqNum
    && (previous.Some? ==> cursor == previous.value)
    && (previous.None? ==> cursor.consumed == 0 && CaughtUpConforms(cursor.nextSeqNum, options))
  }

  predicate BatchIsAccepted(s: SseSession, batch: seq<PositionedRecord>, cursor: Option<Cursor>) {
    && |batch| > 0 && StopsAsRequested(batch, s.options)
    && cursor.Some? && BatchCursorFollows(batch, cursor.value, s.lastEvent, s.options)
  }

  predicate CaughtUpIsAccepted(s: SseSession, nextSeqNum: U64, cursor: Option<Cursor>) {
    cursor.Some? && CaughtUpCursorFollows(nextSeqNum, cursor.value, s.lastEvent, s.options)
  }

  /** How one outcome moves the session. Errors are reported and change nothing else than the number
      of connections tried. */
  function SseFeed(s: SseSession, outcome: SseOutcome, finite: bool, attempts: nat): SseSession {
    if Done(s) then s
    else match outcome
      case ReadBatchEvent(batch, cursor) =>
        if BatchIsAccepted(s, batch, cursor)
        then
          var next := AdvanceForBatch(s.options, batch);
          SseSession(next.options, next.finished, cursor, 0, s.delivered + batch)
        else s
      case CaughtUpEvent(nextSeqNum, cursor) =>
        if CaughtUpIsAccepted(s, nextSeqNum, cursor)
        then s.(options := s.options.(start := Some(SeqNum(nextSeqNum))), lastEvent := cursor, retries := 0)
        else s
      case Interrupted(reopened) => Reopen(s, reopened, attempts)
      case Ended(reopened) => if finite then s.(finished := true) else Reopen(s, reopened, attempts)
      case Other(_) => s
  }

  /** Up to `attempts` connections in a row; a handshake may carry a cursor, which is adopted. */
  function Reopen(s: SseSession, reopened: Reopened, attempts: nat): SseSession {
    if s.retries + 1 >= attempts then s
    else match reopened
      case Opened(resume) => s.(lastEvent := if resume.Some? then resume else s.lastEvent, retries := s.retries + 1)
      case NoContent => s.(finished := true, retries := s.retries + 1)
      case OpenFailed => s.(retries := s.retries + 1)
  }

  /** Whether an outcome is taken or reported as an error. */
  predicate SseTakes(s: SseSession, outcome: SseOutcome, finite: bool, attempts: nat) {
    match outcome
    case ReadBatchEvent(batch, cursor) => BatchIsAccepted(s, batch, cursor)
    case CaughtUpEvent(nextSeqNum, cursor) => CaughtUpIsAccepted(s, nextSeqNum, cursor)
    case Interrupted(reopened) => s.retries + 1 < attempts && !reopened.OpenFailed?
    case Ended(reopened) => finite || (s.retries + 1 < attempts && !reopened.OpenFailed?)
    case Other(fatal) => !fatal
  }

  function SseFeedAll(s: SseSession, outcomes: seq<SseOutcome>, finite: bool, attempts: nat): SseSession
    decreases |outcomes|
  {
    if |outcomes| == 0 then s
    else
      var before := SseFeedAll(s, outcomes[..|outcomes| - 1], finite, attempts);
      SseFeed(before, outcomes[|outcomes| - 1], finite, attempts)
  }

  /** A session starts with the cursor of its opening handshake, if that carries one. */
  function SseStart(requested: ReadOptions, opening: Option<Cursor>): SseSession {
    SseSession(requested, false, opening, 0, [])
  }

  /** The cursor says where the session stands: the request resumes at its sequence number and its
      count is the number of records handed out. */
  ghost predicate CursorAgrees(s: SseSession) {
    match s.lastEvent
    case None => s.delivered == []
    case Some(cursor) => s.options.start == Some(SeqNum(cursor.nextSeqNum)) && cursor.consumed == |s.delivered|
  }

  /** A handshake cursor that may be adopted: the current one or, before there is one, a zero count at
      the requested sequence number. */
  predicate Fits(s: SseSession, resume: Option<Cursor>) {
    || resume.None?
    || (s.lastEvent.Some? && resume == s.lastEvent)
    || (s.lastEvent.None? && resume.value.consumed == 0
        && s.options.start == Some(SeqNum(resume.value.nextSeqNum)))
  }

  predicate Adopts(s: SseSession, outcome: SseOutcome, finite: bool, attempts: nat) {
    && !Done(s) && (outcome.Interrupted? || (outcome.Ended? && !finite))
    && outcome.reopened.Opened? && s.retries + 1 < attempts
  }

  ghost predicate Tracks(requested: ReadOptions, s: SseSession) {
    Delivered(requested, Project(s)) && !EndsAtMax(s.delivered) && CursorAgrees(s)
  }

  ghost predicate AreBatchEvents(outcomes: seq<SseOutcome>) {
    forall o <- outcomes :: o.ReadBatchEvent? ==> IsBatch(o.batch)
  }

  lemma BatchKeepsTrack(
    requested: ReadOptions, s: SseSession, batch: seq<PositionedRecord>, cursor: Option<Cursor>, finite: bool,
    attempts: nat)
    requires Tracks(requested, s) && IsBatch(batch)
    ensures Tracks(requested, SseFeed(s, ReadBatchEvent(batch, cursor), finite, attempts))
  {
    if !Done(s) && BatchIsAccepted(s, batch, cursor) {
      FeedKeepsDelivered(requested, Project(s), Records(batch));
      assert StartsAsRequested(batch[0], s.options.start);
      JoinContiguous(s.delivered, batch);
    }
    hide Contiguous, Delivered, StopsAsRequested;
  }

  lemma OtherKeepsTrack(requested: ReadOptions, s: SseSession, outcome: SseOutcome, finite: bool, attempts: nat)
    requires Tracks(requested, s) && !outcome.ReadBatchEvent?
    ensures Tracks(requested, SseFeed(s, outcome, finite, attempts))
            <==> (Adopts(s, outcome, finite, attempts) ==> Fits(s, outcome.reopened.resume))
  {
    if outcome.CaughtUpEvent? {
      FeedKeepsDelivered(requested, Project(s), CaughtUp(outcome.nextSeqNum));
    }
    FinishingKeepsDelivered(requested, Project(s));
    hide Contiguous, Delivered, BatchIsAccepted, Exhausted;
  }

  /** Every outcome keeps cursor, request and records together, if and only if a handshake cursor that
      is adopted fits. */
  lemma CursorKeepsTrack(requested: ReadOptions, s: SseSession, outcome: SseOutcome, finite: bool, attempts: nat)
    requires Tracks(requested, s)
    requires outcome.ReadBatchEvent? ==> IsBatch(outcome.batch)
    ensures Tracks(requested, SseFeed(s, outcome, finite, attempts))
            <==> (Adopts(s, outcome, finite, attempts) ==> Fits(s, outcome.reopened.resume))
  {
    hide Tracks, SseFeed, Fits;
    if outcome.ReadBatchEvent? {
      BatchKeepsTrack(requested, s, outcome.batch, outcome.cursor, finite, attempts);
    } else {
      OtherKeepsTrack(requested, s, outcome, finite, attempts);
    }
  }

  /** At the start they are together if and only if the opening cursor fits. */
  lemma OpeningKeepsTrack(requested: ReadOptions, opening: Option<Cursor>)
    ensures Tracks(requested, SseStart(requested, opening)) <==> Fits(SseStart(requested, None), opening)
  {
  }

  /** Every handshake of a run carries a cursor that fits, or none. */
  predicate AllFit(
    requested: ReadOptions, opening: Option<Cursor>, outcomes: seq<SseOutcome>, finite: bool, attempts: nat)
    decreases |outcomes|
  {
    if |outcomes| == 0 then Fits(SseStart(requested, None), opening)
    else
      var before := SseFeedAll(SseStart(requested, opening), outcomes[..|outcomes| - 1], finite, attempts);
      var last := outcomes[|outcomes| - 1];
      && AllFit(requested, opening, outcomes[..|outcomes| - 1], finite, attempts)
      && (Adopts(before, last, finite, attempts) ==> Fits(before, last.reopened.resume))
  }

  /** Over every mix of batches, caught-up events and reconnects the records are one contiguous run,
      counted by the cursor. */
  lemma {:induction false} SseRunDelivers(
    requested: ReadOptions, opening: Option<Cursor>, outcomes: seq<SseOutcome>, finite: bool, attempts: nat)
    requires AreBatchEvents(outcomes) && AllFit(requested, opening, outcomes, finite, attempts)
    ensures Tracks(requested, SseFeedAll(SseStart(requested, opening), outcomes, finite, attempts))
    decreases |outcomes|
  {
    if |outcomes| == 0 {
      OpeningKeepsTrack(requested, opening);
    } else {
      var before := outcomes[..|outcomes| - 1];
      SseRunDelivers(requested, opening, before, finite, attempts);
      CursorKeepsTrack(requested, SseFeedAll(SseStart(requested, opening), before, finite, attempts),
                       outcomes[|outcomes| - 1], finite, attempts);
    }
  }

  /** What holds whatever the handshakes say: the stop conditions. */
  ghost predicate Stops(requested: ReadOptions, s: SseSession) {
    && s.options.until == requested.until
    && (s.options.until.Some? ==> forall r <- s.delivered :: r.timestampMs < s.options.until.value)
    && (s.options.count.Some? <==> requested.count.Some?)
    && (requested.count.Some? ==> |s.delivered| + s.options.count.value == requested.count.value)
  }

  lemma {:induction false} SseRunStops(
    requested: ReadOptions, opening: Option<Cursor>, outcomes: seq<SseOutcome>, finite: bool, attempts: nat)
    ensures Stops(requested, SseFeedAll(SseStart(requested, opening), outcomes, finite, attempts))
    ensures attempts > 0 ==>
              SseFeedAll(SseStart(requested, opening), outcomes, finite, attempts).retries < attempts
    decreases |outcomes|
  {
    if |outcomes| > 0 {
      SseRunStops(requested, opening, outcomes[..|outcomes| - 1], finite, attempts);
    }
  }

  // ----- contiguity alone -----

  /** The cursor in force names the record after the last one handed out. Its count does not matter. */
  ghost predicate CursorContinues(s: SseSession) {
    |s.delivered| > 0 ==> s.lastEvent.Some? && s.lastEvent.value.nextSeqNum == Last(s.delivered).seqNum + 1
  }

  /** A handshake cursor that skips and repeats nothing. */
  predicate Continues(s: SseSession, resume: Option<Cursor>) {
    |s.delivered| > 0 && resume.Some? ==> resume.value.nextSeqNum == Last(s.delivered).seqNum + 1
  }

  predicate TakesBatch(s: SseSession, outcome: SseOutcome) {
    !Done(s) && outcome.ReadBatchEvent? && BatchIsAccepted(s, outcome.batch, outcome.cursor)
  }

  /** Only an adopted handshake cursor can take the cursor off the records. */
  lemma CursorGoesOnContinuing(s: SseSession, outcome: SseOutcome, finite: bool, attempts: nat)
    requires CursorContinues(s)
    ensures CursorContinues(SseFeed(s, outcome, finite, attempts))
            <==> (Adopts(s, outcome, finite, attempts) ==> Continues(s, outcome.reopened.resume))
  {
  }

  /** At every batch a run takes, the cursor in force continues the records. */
  ghost predicate BatchesContinue(s: SseSession, outcomes: seq<SseOutcome>, finite: bool, attempts: nat)
    decreases |outcomes|
  {
    |outcomes| > 0 ==>
      var before := SseFeedAll(s, outcomes[..|outcomes| - 1], finite, attempts);
      && BatchesContinue(s, outcomes[..|outcomes| - 1], finite, attempts)
      && (TakesBatch(before, outcomes[|outcomes| - 1]) ==> CursorContinues(before))
  }

  /** A batch that is taken extends the run of records if and only if the cursor in force continues it. */
  lemma BatchExtendsRun(s: SseSession, outcome: SseOutcome)
    requires TakesBatch(s, outcome) && IsBatch(outcome.batch)
    requires |s.delivered| > 0 ==> s.lastEvent.Some?
    ensures Contiguous(s.delivered + outcome.batch) <==> Contiguous(s.delivered) && CursorContinues(s)
  {
    var joined := s.delivered + outcome.batch;
    if |s.delivered| == 0 {
      assert joined == outcome.batch;
    } else {
      assert joined[|s.delivered|] == outcome.batch[0];
      assert outcome.batch[0].seqNum == s.lastEvent.value.nextSeqNum;
      if Contiguous(joined) {
        assert joined[|s.delivered| - 1] == Last(s.delivered);
        forall i | 0 <= i < |s.delivered|
          ensures s.delivered[i].seqNum == s.delivered[0].seqNum + i
        {
          assert joined[i] == s.delivered[i];
        }
      }
      if Contiguous(s.delivered) && CursorContinues(s) {
        JoinContiguous(s.delivered, outcome.batch);
      }
    }
  }

  /** Whatever the handshakes say, the records of a run are contiguous if and only if the cursor in force
      continued them at every batch taken. */
  lemma {:induction false} SseRunIsContiguous(
    requested: ReadOptions, opening: Option<Cursor>, outcomes: seq<SseOutcome>, finite: bool, attempts: nat)
    requires AreBatchEvents(outcomes)
    ensures var end := SseFeedAll(SseStart(requested, opening), outcomes, finite, attempts);
      && (|end.delivered| > 0 ==> end.lastEvent.Some?)
      && (Contiguous(end.delivered) <==> BatchesContinue(SseStart(requested, opening), outcomes, finite, attempts))
    decreases |outcomes|
  {
    if |outcomes| > 0 {
      var before, last := outcomes[..|outcomes| - 1], outcomes[|outcomes| - 1];
      SseRunIsContiguous(requested, opening, before, finite, attempts);
      var s := SseFeedAll(SseStart(requested, opening), before, finite, attempts);
      assert last in outcomes;
      if TakesBatch(s, last) {
        BatchExtendsRun(s, last);
      }
      hide Contiguous, CursorContinues, BatchIsAccepted, CaughtUpIsAccepted;
    }
  }

  lemma OneMore(s: SseSession, outcomes: seq<SseOutcome>, outcome: SseOutcome, finite: bool, attempts: nat)
    ensures SseFeedAll(s, outcomes + [outcome], finite, attempts)
            == SseFeed(SseFeedAll(s, outcomes, finite, attempts), outcome, finite, attempts)
  {
    assert (outcomes + [outcome])[..|outcomes|] == outcomes;
  }

  /** A handshake cursor ahead of the current one makes the session skip records unnoticed. */
  lemma HandshakeCanSkipRecords() returns (outcomes: seq<SseOutcome>)
    ensures AreBatchEvents(outcomes)
    ensures var start := SseStart(ReadOptions(Some(SeqNum(0)), None, None), None);
            !Contiguous(SseFeedAll(start, outcomes, false, 2).delivered)
  {
    var start := SseStart(ReadOptions(Some(SeqNum(0)), None, None), None);
    var record := ReadRecord(0, 0, UNSPLIT, []);
    var first, skipped := PositionedRecord(0, 0, record), PositionedRecord(5, 0, record);
    var one := ReadBatchEvent([first], Some(Cursor(1, 1)));
    var two := SseOutcome.Interrupted(Opened(Some(Cursor(5, 1))));
    var three := ReadBatchEvent([skipped], Some(Cursor(6, 2)));
    var afterOne := SseFeed(start, one, false, 2);
    assert afterOne == SseSession(ReadOptions(Some(SeqNum(1)), None, None), false, Some(Cursor(1, 1)), 0, [first]);
    var afterTwo := SseFeed(afterOne, two, false, 2);
    assert afterTwo == afterOne.(lastEvent := Some(Cursor(5, 1)), retries := 1);
    var end := SseFeed(afterTwo, three, false, 2);
    assert end.delivered == [first, skipped];
    hide SseFeed;
    OneMore(start, [], one, false, 2);
    OneMore(start, [] + [one], two, false, 2);
    OneMore(start, [] + [one] + [two], three, false, 2);
    outcomes := [] + [one] + [two] + [three];
    assert end == SseFeedAll(start, outcomes, false, 2);
    assert end.delivered[1].seqNum != end.delivered[0].seqNum + 1;
    assert AreBatchEvents(outcomes);
  }

  datatype NextBatchResult = Batch(records: seq<PositionedRecord>) | End | Failed | Waiting

  /** The session, fed with the outcomes before it, takes the `i`-th. */
  ghost predicate TakesAt(s: SseSession, outcomes: seq<SseOutcome>, i: nat, finite: bool, attempts: nat)
    requires i < |outcomes|
  {
    SseTakes(SseFeedAll(s, outcomes[..i], finite, attempts), outcomes[i], finite, attempts)
  }

  class TsfSseReadSession {
    const finite: bool
    const attempts: nat
    var options: ReadOptions
    var lastEvent: Option<Cursor>
    var finished: bool
    var retries: nat
    var lastCaughtUp: Option<U64>
    ghost var delivered: seq<PositionedRecord>

    ghost function State(): SseSession
      reads this
    {
      SseSession(options, finished, lastEvent, retries, delivered)
    }

    /** The session after its opening handshake. */
    constructor (request: ReadOptions, opening: Option<Cursor>, isFinite: bool, connectionAttempts: nat)
      ensures State() == SseStart(request, opening) && finite == isFinite && attempts == connectionAttempts
    {
      finite, attempts := isFinite, connectionAttempts;
      options, lastEvent, finished, retries, lastCaughtUp := request, opening, false, 0, None;
      delivered := [];
    }

    /** `next_batch`: leaves the session where feeding it the outcomes one by one leaves it. */
    method NextBatch(outcomes: seq<SseOutcome>) returns (result: NextBatchResult, used: nat)
      modifies `options, `lastEvent, `finished, `retries, `lastCaughtUp, `delivered
      ensures used <= |outcomes|
      ensures State() == SseFeedAll(old(State()), outcomes[..used], finite, attempts)
      ensures delivered == old(delivered) + (if result.Batch? then result.records else [])
      ensures match result
        case Batch(records) => used > 0 && outcomes[used - 1].ReadBatchEvent? && outcomes[used - 1].batch == records
        case End => Done(State())
        case Failed => used > 0
        case Waiting => used == |outcomes| && !Done(State())
      ensures forall i :: 0 <= i < used - 1 ==>
        TakesAt(old(State()), outcomes, i, finite, attempts) && !outcomes[i].ReadBatchEvent?
      ensures used > 0 ==> (result.Failed? <==> !TakesAt(old(State()), outcomes, used - 1, finite, attempts))
      ensures used > 0 && outcomes[used - 1].ReadBatchEvent? ==> result.Batch? || result.Failed?
    {
      hide SseTakes, SseFeed, Exhausted;
      used := 0;
      ghost var start := State();
      while true
        invariant used <= |outcomes| && delivered == old(delivered)
        invariant State() == SseFeedAll(start, outcomes[..used], finite, attempts)
        invariant forall i :: 0 <= i < used ==>
          TakesAt(start, outcomes, i, finite, attempts) && !outcomes[i].ReadBatchEvent?
        decreases |outcomes| - used
      {
        if finished || Exhausted(options) {
          return End, used;
        }
        if used == |outcomes| {
          return Waiting, used;
        }
        var outcome := outcomes[used];
        assert outcomes[..used + 1][..used] == outcomes[..used];
        used := used + 1;
        var failed := Receive(outcome);
        if failed {
          return Failed, used;
        }
        if outcome.ReadBatchEvent? {
          return Batch(outcome.batch), used;
        }
      }
    }

    /** One outcome of the body: what the loop of `next_batch` does with it. */
    method Receive(outcome: SseOutcome) returns (failed: bool)
      requires !Done(State())
      modifies `options, `lastEvent, `finished, `retries, `lastCaughtUp, `delivered
      ensures State() == SseFeed(old(State()), outcome, finite, attempts)
      ensures lastCaughtUp == if !failed && outcome.CaughtUpEvent? then Some(outcome.nextSeqNum) else old(lastCaughtUp)
      ensures failed <==> !SseTakes(old(State()), outcome, finite, attempts)
      ensures delivered == old(delivered) + (if !failed && outcome.ReadBatchEvent? then outcome.batch else [])
    {
      hide BatchIsAccepted, CaughtUpIsAccepted, Exhausted;
      match outcome {
        case ReadBatchEvent(batch, cursor) =>
          failed := TakeBatch(batch, cursor);
        case CaughtUpEvent(nextSeqNum, cursor) =>
          failed := TakeCaughtUp(nextSeqNum, cursor);
        case Interrupted(reopened) =>
          failed := Reconnect(reopened);
        case Ended(reopened) =>
          if finite {
            finished := true;
            failed := false;
          } else {
            failed := Reconnect(reopened);
          }
        case Other(fatal) =>
          failed := fatal;
      }
    }

    method TakeBatch(batch: seq<PositionedRecord>, cursor: Option<Cursor>) returns (failed: bool)
      requires !Done(State())
      modifies `options, `lastEvent, `finished, `retries, `delivered
      ensures State() == SseFeed(old(State()), ReadBatchEvent(batch, cursor), finite, attempts)
      ensures failed <==> !BatchIsAccepted(old(State()), batch, cursor)
      ensures delivered == if failed then old(delivered) else old(delivered) + batch
    {
      if |batch| == 0 || !StopsAsRequested(batch, options) || cursor.None?
         || !BatchCursorFollows(batch, cursor.value, lastEvent, options)
      {
        return true;
      }
      lastEvent := cursor;
      retries := 0;
      var next := AdvanceForBatch(options, batch);
      options, finished := next.options, next.finished;
      delivered := delivered + batch;
      return false;
    }

    method TakeCaughtUp(nextSeqNum: U64, cursor: Option<Cursor>) returns (failed: bool)
      requires !Done(State())
      modifies `options, `lastEvent, `retries, `lastCaughtUp
      ensures lastCaughtUp == if failed then old(lastCaughtUp) else Some(nextSeqNum)
      ensures State() == SseFeed(old(State()), CaughtUpEvent(nextSeqNum, cursor), finite, attempts)
      ensures failed <==> !CaughtUpIsAccepted(old(State()), nextSeqNum, cursor)
    {
      if cursor.None? || !CaughtUpCursorFollows(nextSeqNum, cursor.value, lastEvent, options) {
        return true;
      }
      lastEvent := cursor;
      options := options.(start := Some(SeqNum(nextSeqNum)));
      lastCaughtUp := Some(nextSeqNum);
      retries := 0;
      return false;
    }

    method Reconnect(reopened: Reopened) returns (failed: bool)
      requires !Done(State())
      modifies `lastEvent, `finished, `retries
      ensures State() == SseFeed(old(State()), SseOutcome.Interrupted(reopened), finite, attempts)
      ensures failed <==> old(retries) + 1 >= attempts || reopened.OpenFailed?
    {
      if retries + 1 >= attempts {
        return true;
      }
      retries := retries + 1;
      match reopened {
        case Opened(resume) =>
          if resume.Some? {
            lastEvent := resume;
          }
          return false;
        case NoContent =>
          finished := true;
          return false;
        case OpenFailed =>
          return true;
      }
    }
  }
}
