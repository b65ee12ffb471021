/** The TypeScript WebSocket read session: it keeps the current batch and steps record by record. */
module TsReader {
  import opened Wrappers
  import opened Protocol
  import opened ReadSpec

  datatype NextRecordResult = Record(record: PositionedRecord) | End | Failed | Waiting

  /** A session whose pending records have all been handed out. */
  ghost predicate CanHandOut(options: ReadOptions, finished: bool, pending: seq<PositionedRecord>) {
    |pending| > 0 ==> !finished && !Exhausted(options) && IsBatch(pending) && Conforms(pending, options)
  }

  /** Handing out one record leaves the rest to be handed out, to the same effect. */
  lemma HandOutOne(s: Session, pending: seq<PositionedRecord>)
    requires |pending| > 0 && CanHandOut(s.options, s.finished, pending)
    ensures var next := AdvanceForRecord(s.options, pending[0]);
            && CanHandOut(next.options, next.finished, pending[1..])
            && AdvanceForRecords(Advanced(s.options, s.finished), pending)
               == AdvanceForRecords(next, pending[1..])
    ensures s.delivered + pending == (s.delivered + [pending[0]]) + pending[1..]
  {
    RestCanBeHandedOut(s.options, s.finished, pending);
    hide IsBatch, StartsAsRequested, Exhausted;
  }

  lemma RestCanBeHandedOut(options: ReadOptions, finished: bool, pending: seq<PositionedRecord>)
    requires |pending| > 0 && CanHandOut(options, finished, pending)
    ensures var next := AdvanceForRecord(options, pending[0]);
            CanHandOut(next.options, next.finished, pending[1..])
  {
    if |pending| > 1 {
      assert pending[1].seqNum == pending[0].seqNum + 1;
      assert Contiguous(pending[1..]);
    }
  }

  lemma OneRecordDelivered(requested: ReadOptions, s: Session, record: PositionedRecord)
    requires Delivered(requested, s) && !s.finished && !Exhausted(s.options) && Conforms([record], s.options)
    ensures var next := AdvanceForRecord(s.options, record);
            Delivered(requested, Session(next.options, next.finished, s.delivered + [record]))
  {
    FeedByRecordKeepsDelivered(requested, s, Records([record]));
    hide Delivered, AdvanceForRecord, Conforms, Exhausted;
    assert [record][1..] == [];
  }

  /** The session, fed with the outcomes before it, takes the `i`-th. */
  ghost predicate TakesAt(s: Session, outcomes: seq<Outcome>, i: nat)
    requires i < |outcomes|
  {
    Takes(FeedAllByRecord(s, outcomes[..i]).options, outcomes[i])
  }

  class DefaultTsfReadSession {
    var options: ReadOptions
    var pendingRecords: seq<PositionedRecord>
    var pendingRecordIndex: nat
    var finished: bool
    var lastCaughtUp: Option<U64>

    /** What the caller asked for and has been given. */
    ghost var requested: ReadOptions
    ghost var delivered: seq<PositionedRecord>

    ghost function State(): Session
      reads this
    {
      Session(options, finished, delivered)
    }

    ghost function Pending(): seq<PositionedRecord>
      requires pendingRecordIndex <= |pendingRecords|
      reads this
    {
      pendingRecords[pendingRecordIndex..]
    }

    ghost predicate Valid()
      reads this
    {
      && pendingRecordIndex <= |pendingRecords|
      && (|pendingRecords| > 0 ==> pendingRecordIndex < |pendingRecords|)
      && Delivered(requested, State())
      && CanHandOut(options, finished, Pending())
    }

    /** The state once the pending records are handed out. */
    ghost function Settled(): Session
      requires Valid()
      reads this
    {
      var next := AdvanceForRecords(Advanced(options, finished), Pending());
      Session(next.options, next.finished, delivered + Pending())
    }

    constructor (request: ReadOptions)
      ensures Valid() && requested == request && Settled() == Session(request, false, [])
    {
      options, pendingRecords, pendingRecordIndex, finished, lastCaughtUp := request, [], 0, false, None;
      requested, delivered := request, [];
    }

    /** `nextPendingRecord`. */
    method NextPendingRecord() returns (record: Option<PositionedRecord>)
      requires Valid()
      modifies `options, `pendingRecords, `pendingRecordIndex, `finished, `delivered
      ensures Valid() && Settled() == old(Settled())
      ensures match record
        case Some(r) => old(Pending()) == [r] + Pending() && delivered == old(delivered) + [r]
        case None => old(Pending()) == [] == Pending() && State() == old(State())
    {
      if pendingRecordIndex >= |pendingRecords| {
        return None;
      }
      ghost var pending := Pending();
      HandOutOne(State(), pending);
      OneRecordDelivered(requested, State(), pending[0]);
      hide Delivered, CanHandOut, AdvanceForRecords;
      var next := pendingRecords[pendingRecordIndex];
      pendingRecordIndex := pendingRecordIndex + 1;
      if pendingRecordIndex == |pendingRecords| {
        pendingRecords, pendingRecordIndex := [], 0;
      }
      assert Pending() == pending[1..];
      if next.seqNum == U64_MAX {
        finished := true;
      } else {
        var count := if options.count.Some? then Some(options.count.value - 1) else None;
        options := ReadOptions(Some(SeqNum(next.seqNum + 1)), count, options.until);
        finished := Exhausted(options);
      }
      delivered := delivered + [next];
      return Some(next);
    }

    /** One outcome, with no record pending: `pump` after `nextFrame`. */
    method Receive(outcome: Outcome) returns (ok: bool)
      requires Valid() && !finished && !Exhausted(options) && Pending() == []
      requires outcome.Records? ==> IsBatch(outcome.batch)
      modifies `options, `pendingRecords, `pendingRecordIndex, `finished, `lastCaughtUp
      ensures Valid() && Settled() == FeedByRecord(old(Settled()), outcome)
      ensures ok && outcome.Records? ==> Pending() == outcome.batch != []
      ensures ok <==> Takes(old(options), outcome)
      ensures lastCaughtUp == if ok && outcome.CaughtUp? then Some(outcome.nextSeqNum) else old(lastCaughtUp)
      ensures outcome.Records? || !ok ==> State() == old(State())
      ensures !outcome.Records? || !ok ==> Pending() == []
    {
      FeedByRecordKeepsDelivered(requested, State(), outcome);
      hide Delivered;
      assert delivered + [] == delivered;
      match outcome {
        case Records(batch) =>
          if !Conforms(batch, options) {
            return false;
          }
          pendingRecords, pendingRecordIndex := batch, 0;
          assert Pending() == batch;
          return true;
        case CaughtUp(nextSeqNum) =>
          if !CaughtUpConforms(nextSeqNum, options) {
            return false;
          }
          lastCaughtUp := Some(nextSeqNum);
          options := options.(start := Some(SeqNum(nextSeqNum)));
          return true;
        case Closed =>
          finished := true;
          return true;
        case Interrupted(reconnected) =>
          return reconnected;
        case Broken =>
          return false;
      }
    }

    /** `pump`: hands out the next record, reading outcomes while none is pending. Counting pending
        records as handed out, each outcome moves the session as `FeedByRecord` says. */
    method Pump(outcomes: seq<Outcome>) returns (result: NextRecordResult, used: nat)
      requires Valid() && AreBatches(outcomes)
      modifies `options, `pendingRecords, `pendingRecordIndex, `finished, `lastCaughtUp, `delivered
      ensures Valid() && used <= |outcomes|
      ensures Settled() == if result.End? then FeedAllByRecord(old(Settled()), outcomes[..used]).(finished := true)
                           else FeedAllByRecord(old(Settled()), outcomes[..used])
      ensures delivered == old(delivered) + (if result.Record? then [result.record] else [])
      ensures match result
        case Record(record) =>
          if used == 0 then old(Pending()) == [record] + Pending()
          else outcomes[used - 1] == Records([record] + Pending())
        case End =>
          Pending() == [] && (Exhausted(options) || FeedAllByRecord(old(Settled()), outcomes[..used]).finished)
        case Failed => used > 0
        case Waiting => used == |outcomes| && Pending() == [] && !finished && !Exhausted(options)
      ensures old(Pending()) != [] ==> used == 0 && result.Record?
      ensures forall i :: 0 <= i < used - 1 ==> TakesAt(old(Settled()), outcomes, i) && !outcomes[i].Records?
      ensures used > 0 ==> (result.Failed? <==> !TakesAt(old(Settled()), outcomes, used - 1))
      ensures used > 0 && outcomes[used - 1].Records? ==> result.Record? || result.Failed?
    {
      hide Delivered, IsBatch, Conforms, FeedByRecord, Exhausted, Takes;
      used := 0;
      ghost var start := Settled();
      while true
        invariant used <= |outcomes| && Valid() && delivered == old(delivered)
        invariant Settled() == FeedAllByRecord(start, outcomes[..used])
        invariant if used == 0 then Pending() == old(Pending())
                  else if outcomes[used - 1].Records? then outcomes[used - 1] == Records(Pending()) && Pending() != []
                  else Pending() == []
        invariant used > 0 ==> old(Pending()) == []
        invariant forall i :: 0 <= i < used ==> TakesAt(start, outcomes, i)
        invariant forall i :: 0 <= i < used - 1 ==> !outcomes[i].Records?
        decreases |outcomes| - used
      {
        if finished || Exhausted(options) {
          SettledWhenDone();
          finished := true;
          return End, used;
        }
        var pending := NextPendingRecord();
        if pending.Some? {
          return Record(pending.value), used;
        }
        if used == |outcomes| {
          return Waiting, used;
        }
        var outcome := outcomes[used];
        assert outcomes[..used + 1][..used] == outcomes[..used];
        used := used + 1;
        var ok := Receive(outcome);
        if !ok {
          return Failed, used;
        }
      }
    }

    /** Nothing is pending in a session that is done, and marking it finished changes nothing else. */
    lemma SettledWhenDone()
      requires Valid() && (finished || Exhausted(options))
      ensures Pending() == [] && Settled() == State()
      ensures Delivered(requested, State().(finished := true))
    {
    }
  }
}
