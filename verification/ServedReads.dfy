/**
 * The converse of what the sessions guarantee: everything a correct service sends is handed out.
 *
 * What a correct service sends is said on sequence numbers, times and counts alone.
 */
module ServedReads {
  import opened Wrappers
  import opened Protocol
  import opened ReadSpec
  import Sse = SseReader

  /** All the records sent. */
  ghost function Sent(outcomes: seq<Outcome>): seq<PositionedRecord> {
    if |outcomes| == 0 then []
    else
      var last := outcomes[|outcomes| - 1];
      Sent(outcomes[..|outcomes| - 1]) + (if last.Records? then last.batch else [])
  }

  /** The sequence number the next record must have, once the service has said or shown where it is. */
  ghost function NextNumber(requested: ReadOptions, outcomes: seq<Outcome>): Option<nat> {
    if |outcomes| == 0 then
      if BeginsAtNumber(requested) then Some(requested.start.value.seqNum) else None
    else match outcomes[|outcomes| - 1]
      case Records(batch) => if |batch| == 0 then None else Some(Last(batch).seqNum + 1)
      case CaughtUp(nextSeqNum) => Some(nextSeqNum)
      case _ => NextNumber(requested, outcomes[..|outcomes| - 1])
  }

  /** A batch that follows `sent` records of a read: it goes on where they ended, within the request. */
  ghost predicate MayFollow(requested: ReadOptions, next: Option<nat>, sent: nat, batch: seq<PositionedRecord>) {
    && |batch| > 0
    && (forall i :: 0 <= i < |batch| ==> batch[i].seqNum == batch[0].seqNum + i)
    && (next.Some? ==> batch[0].seqNum == next.value)
    && (requested.start.Some? && requested.start.value.TimestampMs? ==>
          batch[0].timestampMs >= requested.start.value.timestampMs)
    && (requested.until.Some? ==> forall i :: 0 <= i < |batch| ==> batch[i].timestampMs < requested.until.value)
    && (requested.count.Some? ==> sent + |batch| <= requested.count.value)
  }

  /** A service that answers the request: its records run on without a gap from where they must begin,
      within the stop conditions, and a caught-up frame names the next one. Sockets may break at any time. */
  ghost predicate Serves(requested: ReadOptions, outcomes: seq<Outcome>) {
    |outcomes| > 0 ==>
      var before, last := outcomes[..|outcomes| - 1], outcomes[|outcomes| - 1];
      var next := NextNumber(requested, before);
      && Serves(requested, before)
      && match last
         case Records(batch) => MayFollow(requested, next, |Sent(before)|, batch)
         case CaughtUp(nextSeqNum) => next.None? || next == Some(nextSeqNum)
         case Closed => false
         case _ => true
  }

  /** Nothing can follow: the count is reached, or the last sequence number. */
  ghost predicate IsOver(requested: ReadOptions, sent: seq<PositionedRecord>) {
    |sent| > 0 && (Last(sent).seqNum == U64_MAX || requested.count == Some(|sent|))
  }

  predicate BeginsAtNumber(requested: ReadOptions) {
    requested.start.Some? && requested.start.value.SeqNum?
  }

  /** The request of a session that has handed out `sent` records and may go on. */
  ghost predicate IsAt(requested: ReadOptions, next: Option<nat>, sent: nat, options: ReadOptions) {
    && options.until == requested.until
    && (options.count.Some? <==> requested.count.Some?)
    && (requested.count.Some? ==> options.count.value + sent == requested.count.value)
    && match next
       case None => sent == 0 && options.start == requested.start && !BeginsAtNumber(requested)
       case Some(n) =>
         n <= U64_MAX && (options.start == Some(SeqNum(n)) || (options == requested && Exhausted(requested)))
  }

  /** The session has handed out all there is so far, and asks for exactly what comes next. */
  ghost predicate IsThere(requested: ReadOptions, next: Option<nat>, sent: seq<PositionedRecord>, s: Session) {
    && s.delivered == sent
    && (s.finished <==> IsOver(requested, sent))
    && (if |sent| > 0 && Last(sent).seqNum == U64_MAX then next == Some(U64_MAX + 1)
        else IsAt(requested, next, |sent|, s.options))
  }

  lemma BatchIsTaken(
    requested: ReadOptions, next: Option<nat>, sent: seq<PositionedRecord>, s: Session, batch: seq<PositionedRecord>)
    requires IsThere(requested, next, sent, s) && MayFollow(requested, next, |sent|, batch)
    ensures !s.finished && !Exhausted(s.options) && Conforms(batch, s.options)
    ensures IsThere(requested, Some(Last(batch).seqNum + 1), sent + batch, Feed(s, Records(batch)))
  {
    assert batch[0] in batch;
    assert Last(sent + batch) == Last(batch);
  }

  lemma OtherIsTaken(
    requested: ReadOptions, next: Option<nat>, sent: seq<PositionedRecord>, s: Session, outcome: Outcome)
    requires IsThere(requested, next, sent, s) && !outcome.Records? && !outcome.Closed?
    requires outcome.CaughtUp? ==> next.None? || next == Some(outcome.nextSeqNum)
    ensures IsThere(requested, if outcome.CaughtUp? then Some(outcome.nextSeqNum) else next, sent, Feed(s, outcome))
  {
  }

  lemma {:induction false} ServedIsThere(requested: ReadOptions, outcomes: seq<Outcome>)
    requires Serves(requested, outcomes)
    ensures IsThere(requested, NextNumber(requested, outcomes), Sent(outcomes),
                    FeedAll(Session(requested, false, []), outcomes))
    decreases |outcomes|
  {
    if |outcomes| > 0 {
      var before, last := outcomes[..|outcomes| - 1], outcomes[|outcomes| - 1];
      ServedIsThere(requested, before);
      var s := FeedAll(Session(requested, false, []), before);
      var next := NextNumber(requested, before);
      hide IsThere, Feed, IsOver, IsAt, Exhausted;
      if last.Records? {
        BatchIsTaken(requested, next, Sent(before), s, last.batch);
      } else {
        OtherIsTaken(requested, next, Sent(before), s, last);
        assert Sent(before) + [] == Sent(before);
      }
    }
  }

  lemma {:induction false} ServesBatches(requested: ReadOptions, outcomes: seq<Outcome>)
    requires Serves(requested, outcomes)
    ensures AreBatches(outcomes)
    decreases |outcomes|
  {
    if |outcomes| > 0 {
      ServesBatches(requested, outcomes[..|outcomes| - 1]);
      forall o | o in outcomes && o.Records?
        ensures IsBatch(o.batch)
      {
        if o in outcomes[..|outcomes| - 1] {
        } else {
          assert o == outcomes[|outcomes| - 1];
        }
      }
    }
  }

  /** Both sessions hand out everything a correct service sends, however often sockets break in between, and
      finish exactly when nothing can follow. */
  lemma ServedInFull(requested: ReadOptions, outcomes: seq<Outcome>)
    requires Serves(requested, outcomes)
    ensures var rust := FeedAll(Session(requested, false, []), outcomes);
            var ts := FeedAllByRecord(Session(requested, false, []), outcomes);
      && rust.delivered == ts.delivered == Sent(outcomes)
      && (rust.finished <==> IsOver(requested, Sent(outcomes))) && ts.finished == rust.finished
  {
    ServedIsThere(requested, outcomes);
    ServesBatches(requested, outcomes);
    SessionsAgree(requested, outcomes);
    hide FeedAll, FeedAllByRecord, Serves, AreBatches, IsAt, IsOver;
  }

  // ----- event streams -----

  ghost function SseSent(outcomes: seq<Sse.SseOutcome>): seq<PositionedRecord> {
    if |outcomes| == 0 then []
    else
      var last := outcomes[|outcomes| - 1];
      SseSent(outcomes[..|outcomes| - 1]) + (if last.ReadBatchEvent? then last.batch else [])
  }

  ghost function SseNextNumber(requested: ReadOptions, outcomes: seq<Sse.SseOutcome>): Option<nat> {
    if |outcomes| == 0 then NextNumber(requested, [])
    else match outcomes[|outcomes| - 1]
      case ReadBatchEvent(batch, _) => if |batch| == 0 then None else Some(Last(batch).seqNum + 1)
      case CaughtUpEvent(nextSeqNum, _) => Some(nextSeqNum)
      case _ => SseNextNumber(requested, outcomes[..|outcomes| - 1])
  }

  /** Connections lost since the last batch or caught-up event. */
  ghost function Streak(outcomes: seq<Sse.SseOutcome>): nat {
    if |outcomes| == 0 then 0
    else StreakAfter(Streak(outcomes[..|outcomes| - 1]), outcomes[|outcomes| - 1])
  }

  ghost function StreakAfter(streak: nat, outcome: Sse.SseOutcome): nat {
    match outcome
    case ReadBatchEvent(_, _) => 0
    case CaughtUpEvent(_, _) => 0
    case Other(_) => streak
    case _ => streak + 1
  }

  /** The cursor in front of the next record, if there is one. */
  ghost predicate CursorNames(cursor: Option<Sse.Cursor>, next: Option<nat>, sent: nat) {
    cursor.Some? && next.Some? && cursor.value.nextSeqNum == next.value && cursor.value.consumed == sent
  }

  /** A handshake after a lost connection: without a cursor, or with the one in front of the next record. */
  ghost predicate MayReopen(reopened: Sse.Reopened, next: Option<nat>, sent: nat) {
    reopened.Opened? && (reopened.resume.None? || CursorNames(reopened.resume, next, sent))
  }

  /** A service that answers the request with cursors that count, on at most `attempts` connections in a row
      that show nothing. */
  ghost predicate SseServes(
    requested: ReadOptions, opening: Option<Sse.Cursor>, outcomes: seq<Sse.SseOutcome>, finite: bool, attempts: nat)
  {
    if |outcomes| == 0 then opening.None? || CursorNames(opening, NextNumber(requested, []), 0)
    else
      var before, last := outcomes[..|outcomes| - 1], outcomes[|outcomes| - 1];
      var next, sent := SseNextNumber(requested, before), |SseSent(before)|;
      && SseServes(requested, opening, before, finite, attempts)
      && Streak(outcomes) < attempts
      && match last
         case ReadBatchEvent(batch, cursor) =>
           && MayFollow(requested, next, sent, batch)
           && CursorNames(cursor, Some(Last(batch).seqNum + 1), sent + |batch|)
         case CaughtUpEvent(nextSeqNum, cursor) =>
           (next.None? || next == Some(nextSeqNum)) && CursorNames(cursor, Some(nextSeqNum), sent)
         case Interrupted(reopened) => MayReopen(reopened, next, sent)
         case Ended(reopened) => !finite && MayReopen(reopened, next, sent)
         case Other(_) => true
  }

  ghost predicate SseIsThere(
    requested: ReadOptions, next: Option<nat>, sent: seq<PositionedRecord>, streak: nat, s: Sse.SseSession)
  {
    && s.delivered == sent
    && (s.finished <==> |sent| > 0 && requested.count == Some(|sent|))
    && IsAt(requested, next, |sent|, s.options)
    && (|sent| > 0 ==> s.lastEvent.Some?)
    && (s.lastEvent.Some? ==> CursorNames(s.lastEvent, next, |sent|))
    && (Sse.Done(s) || s.retries == streak)
  }

  lemma SseBatchIsTaken(
    requested: ReadOptions, next: Option<nat>, sent: seq<PositionedRecord>, streak: nat, s: Sse.SseSession,
    batch: seq<PositionedRecord>, cursor: Option<Sse.Cursor>, finite: bool, attempts: nat)
    requires SseIsThere(requested, next, sent, streak, s) && MayFollow(requested, next, |sent|, batch)
    requires CursorNames(cursor, Some(Last(batch).seqNum + 1), |sent| + |batch|)
    ensures SseIsThere(requested, Some(Last(batch).seqNum + 1), sent + batch, 0,
                       Sse.SseFeed(s, Sse.ReadBatchEvent(batch, cursor), finite, attempts))
  {
    assert batch[0] in batch;
    assert !Exhausted(s.options) && Conforms(batch, s.options);
  }

  lemma SseOtherIsTaken(
    requested: ReadOptions, next: Option<nat>, sent: seq<PositionedRecord>, streak: nat, s: Sse.SseSession,
    outcome: Sse.SseOutcome, finite: bool, attempts: nat)
    requires SseIsThere(requested, next, sent, streak, s) && !outcome.ReadBatchEvent?
    requires match outcome
      case CaughtUpEvent(nextSeqNum, cursor) =>
        (next.None? || next == Some(nextSeqNum)) && CursorNames(cursor, Some(nextSeqNum), |sent|)
      case Interrupted(reopened) => MayReopen(reopened, next, |sent|) && streak + 1 < attempts
      case Ended(reopened) => !finite && MayReopen(reopened, next, |sent|) && streak + 1 < attempts
      case _ => true
    ensures SseIsThere(requested, if outcome.CaughtUpEvent? then Some(outcome.nextSeqNum) else next, sent,
                       StreakAfter(streak, outcome), Sse.SseFeed(s, outcome, finite, attempts))
  {
  }

  lemma {:induction false} SseServedIsThere(
    requested: ReadOptions, opening: Option<Sse.Cursor>, outcomes: seq<Sse.SseOutcome>, finite: bool, attempts: nat)
    requires SseServes(requested, opening, outcomes, finite, attempts)
    ensures SseIsThere(requested, SseNextNumber(requested, outcomes), SseSent(outcomes), Streak(outcomes),
                       Sse.SseFeedAll(Sse.SseStart(requested, opening), outcomes, finite, attempts))
    decreases |outcomes|
  {
    if |outcomes| > 0 {
      var before, last := outcomes[..|outcomes| - 1], outcomes[|outcomes| - 1];
      SseServedIsThere(requested, opening, before, finite, attempts);
      var s := Sse.SseFeedAll(Sse.SseStart(requested, opening), before, finite, attempts);
      var next := SseNextNumber(requested, before);
      hide SseIsThere, Sse.SseFeed, MayFollow, CursorNames, MayReopen;
      if last.ReadBatchEvent? {
        SseBatchIsTaken(requested, next, SseSent(before), Streak(before), s, last.batch, last.cursor, finite, attempts);
      } else {
        SseOtherIsTaken(requested, next, SseSent(before), Streak(before), s, last, finite, attempts);
        assert SseSent(before) + [] == SseSent(before);
      }
    }
  }

  /** The event-stream session hands out everything such a service sends, and finishes exactly when the count
      is reached. */
  lemma SseServedInFull(
    requested: ReadOptions, opening: Option<Sse.Cursor>, outcomes: seq<Sse.SseOutcome>, finite: bool, attempts: nat)
    requires SseServes(requested, opening, outcomes, finite, attempts)
    ensures var end := Sse.SseFeedAll(Sse.SseStart(requested, opening), outcomes, finite, attempts);
      && end.delivered == SseSent(outcomes)
      && (end.finished <==> |SseSent(outcomes)| > 0 && requested.count == Some(|SseSent(outcomes)|))
  {
    SseServedIsThere(requested, opening, outcomes, finite, attempts);
  }
}
