/** The Rust WebSocket read session: it hands out whole batches and steps over each at once. */
module RustReader {
  import opened Wrappers
  import opened Protocol
  import opened ReadSpec

  datatype NextBatchResult = Batch(records: seq<PositionedRecord>) | End | Failed | Waiting

  /** The session, fed with the outcomes before it, takes the `i`-th. */
  ghost predicate TakesAt(s: Session, outcomes: seq<Outcome>, i: nat)
    requires i < |outcomes|
  {
    Takes(FeedAll(s, outcomes[..i]).options, outcomes[i])
  }

  class TsfReadSession {
    var options: ReadOptions
    var finished: bool
    var lastCaughtUp: Option<U64>

    /** What the caller asked for and has been given. */
    ghost var requested: ReadOptions
    ghost var delivered: seq<PositionedRecord>

    ghost function State(): Session
      reads this
    {
      Session(options, finished, delivered)
    }

    ghost predicate Valid()
      reads this
    {
      Delivered(requested, State())
    }

    constructor (request: ReadOptions)
      ensures Valid() && requested == request && State() == Session(request, false, [])
    {
      options, finished, lastCaughtUp := request, false, None;
      requested, delivered := request, [];
    }

    /** One outcome of the socket: the body of the loop in `next_batch`. */
    method Receive(outcome: Outcome) returns (ok: bool)
      requires Valid() && !finished && !Exhausted(options)
      requires outcome.Records? ==> IsBatch(outcome.batch)
      modifies `options, `finished, `lastCaughtUp, `delivered
      ensures Valid() && State() == Feed(old(State()), outcome)
      ensures delivered == old(delivered) + (if ok && outcome.Records? then outcome.batch else [])
      ensures ok <==> Takes(old(options), outcome)
      ensures lastCaughtUp == if ok && outcome.CaughtUp? then Some(outcome.nextSeqNum) else old(lastCaughtUp)
    {
      FeedKeepsDelivered(requested, State(), outcome);
      hide Delivered, IsBatch, Exhausted;
      match outcome {
        case Records(batch) =>
          if !Conforms(batch, options) {
            return false;
          }
          BatchDelivered(batch);
          return true;
        case CaughtUp(nextSeqNum) =>
          if !CaughtUpConforms(nextSeqNum, options) {
            return false;
          }
          options := options.(start := Some(SeqNum(nextSeqNum)));
          lastCaughtUp := Some(nextSeqNum);
          return true;
        case Closed =>
          finished := true;
          return true;
        case Interrupted(reconnected) =>
          return reconnected;
        case Broken =>
          return false;
      }
    }

    /** `next_batch`: runs the socket's outcomes until there is something to return. The session is
        left where feeding it those outcomes one by one leaves it. */
    method NextBatch(outcomes: seq<Outcome>) returns (result: NextBatchResult, used: nat)
      requires Valid() && AreBatches(outcomes)
      modifies `options, `finished, `lastCaughtUp, `delivered
      ensures Valid()
      ensures used <= |outcomes|
      ensures State() == if result.End? then FeedAll(old(State()), outcomes[..used]).(finished := true)
                         else FeedAll(old(State()), outcomes[..used])
      ensures delivered == old(delivered) + (if result.Batch? then result.records else [])
      ensures match result
        case Batch(records) => used > 0 && outcomes[used - 1] == Records(records)
        case End => Exhausted(options) || FeedAll(old(State()), outcomes[..used]).finished
        case Failed => used > 0
        case Waiting => used == |outcomes| && !finished && !Exhausted(options)
      ensures forall i :: 0 <= i < used - 1 ==> TakesAt(old(State()), outcomes, i) && !outcomes[i].Records?
      ensures used > 0 ==> (result.Failed? <==> !TakesAt(old(State()), outcomes, used - 1))
      ensures used > 0 && outcomes[used - 1].Records? ==> result.Batch? || result.Failed?
    {
      hide IsBatch, Exhausted, Feed, Delivered, Takes;
      used := 0;
      ghost var start := State();
      while true
        invariant used <= |outcomes| && Valid() && delivered == old(delivered)
        invariant State() == FeedAll(start, outcomes[..used])
        invariant forall i :: 0 <= i < used ==> TakesAt(start, outcomes, i) && !outcomes[i].Records?
        decreases |outcomes| - used
      {
        if finished || Exhausted(options) {
          FinishingKeepsDelivered(requested, State());
          finished := true;
          return End, used;
        }
        if used == |outcomes| {
          return Waiting, used;
        }
        var outcome := outcomes[used];
        assert outcomes[..used + 1][..used] == outcomes[..used];
        used := used + 1;
        var ok := Receive(outcome);
        if !ok {
          return Failed, used;
        }
        if outcome.Records? {
          return Batch(outcome.batch), used;
        }
      }
    }

    /** `advance_read_options_for_batch`. */
    method BatchDelivered(batch: seq<PositionedRecord>)
      requires Conforms(batch, options)
      modifies `options, `finished, `delivered
      ensures Advanced(options, finished) == AdvanceForBatch(old(options), batch)
      ensures delivered == old(delivered) + batch
    {
      delivered := delivered + batch;
      if Last(batch).seqNum == U64_MAX {
        finished := true;
        return;
      }
      var count := if options.count.Some? then Some(Max(0, options.count.value - |batch|)) else None;
      options := ReadOptions(Some(SeqNum(Last(batch).seqNum + 1)), count, options.until);
      finished := options.count == Some(0);
    }
  }
}
