/**
 * The TypeScript writer. It picks each frame before marking anything sent, settles an
 * acknowledgement call by call, and remembers whether an append may already be durable.
 */
module TsWriter {
  import opened Wrappers
  import opened Protocol
  import opened WriterSpec
  import opened WriterQueue
  import Runs = WriterRuns

  datatype Receipt = Receipt(writerSeqNum: nat, seqNum: nat)

  datatype SubmissionError = Unavailable | EmptyBatch | RecordTooLarge | SequenceExhausted

  datatype TerminalError = DurabilityUnknown | SequenceMismatch | WriterFailed

  /** What interrupted the drain loop. */
  datatype Failure = MismatchClose | Fatal | Retryable

  /** One selected record: its call and its index in it. */
  datatype Selected = Selected(call: nat, index: nat)

  ghost predicate NumberedFromZero(receipts: seq<Receipt>) {
    forall n :: 0 <= n < |receipts| ==> receipts[n].writerSeqNum == n
  }

  /** `count` receipts with consecutive numbers on both sides. */
  function ReceiptRun(writerSeqNum: nat, seqNum: nat, count: nat): (receipts: seq<Receipt>)
    ensures |receipts| == count
  {
    seq(count, i requires 0 <= i < count => Receipt(writerSeqNum + i, seqNum + i))
  }

  /** The first `count` receipts of `ack`. */
  function AckReceipts(ack: AppendAck, count: nat): (receipts: seq<Receipt>) {
    ReceiptRun(ack.writerStartSeqNum, ack.startSeqNum, count)
  }

  lemma ReceiptRunsJoin(writerSeqNum: nat, seqNum: nat, count: nat, more: nat)
    ensures ReceiptRun(writerSeqNum, seqNum, count) + ReceiptRun(writerSeqNum + count, seqNum + count, more)
            == ReceiptRun(writerSeqNum, seqNum, count + more)
    ensures ReceiptRun(writerSeqNum, seqNum, 1) == [Receipt(writerSeqNum, seqNum)]
  {
  }

  /** The receipts of both implementations name the same numbers. */
  lemma ReceiptsAgree(ack: AppendAck, count: nat, i: nat)
    requires i < count
    ensures var receipt, other := AckReceipts(ack, count)[i], ReceiptsFor(ack, count)[i];
      receipt.writerSeqNum == other.writerSeqNum && receipt.seqNum == other.seqNum
  {
  }

  class DefaultTsfWriter {
    var queue: seq<PendingSubmission<Receipt>>
    var nextWriterSeqNum: nat
    var inFlightRecords: nat
    var inFlightPayloadBytes: nat
    var ambiguousWriterEndSeqNum: Option<nat>
    var closing: bool
    var closed: bool
    var terminalError: Option<TerminalError>
    var resolved: seq<Delivery<Receipt>>

    ghost var view: View
    ghost var receipts: seq<Receipt>
    ghost var batches: seq<Batch>
    /** Every writer sequence number handed to a socket on any connection. */
    ghost var handed: set<nat>
    /** Exclusive end of what earlier connections were handed. */
    ghost var past: nat

    ghost predicate Valid()
      reads this
    {
      && !closed && terminalError.None?
      && Consistent()
      && FrontUnfinished(queue, view)
      && inFlightRecords == view.sent - view.acked
      && inFlightPayloadBytes == Load(view.history, view.acked, view.sent)
      && TracksAmbiguity()
    }

    ghost predicate Consistent()
      reads this
    {
      && view.Valid() && view.acked <= view.sent <= |view.history|
      && Tiles(queue, view)
      && nextWriterSeqNum == |view.history|
      && |receipts| == view.acked && NumberedFromZero(receipts)
      && BackToBack(batches, |view.history|)
      && Resolves(batches, resolved, queue, receipts)
    }

    /** The retained end marks exactly the unacknowledged records earlier sockets were handed. */
    ghost predicate TracksAmbiguity()
      reads this
    {
      && past <= |view.history|
      && (forall n: nat :: n in handed <==> n < past || n < view.sent)
      && (match ambiguousWriterEndSeqNum
          case None => past <= view.acked
          case Some(end) => end == past && view.acked < end)
    }

    /** Some record whose acknowledgement never arrived was handed to a socket. */
    ghost predicate MayBeDurable()
      reads this
    {
      exists n :: n in handed && view.acked <= n
    }

    constructor ()
      ensures Valid()
      ensures view == View([], 0, 0) && handed == {} && resolved == [] && batches == []
      ensures !closing
    {
      queue, resolved := [], [];
      nextWriterSeqNum, inFlightRecords, inFlightPayloadBytes := 0, 0, 0;
      ambiguousWriterEndSeqNum, terminalError := None, None;
      closing, closed := false, false;
      view, receipts, batches := View([], 0, 0), [], [];
      handed, past := {}, 0;
    }

    /** `appendBatch`: rejects without any effect, or queues the batch under the next numbers. */
    method AppendBatch(inputs: seq<RecordPayload>, ticket: nat) returns (error: Option<SubmissionError>)
      requires closed || Valid()
      modifies `queue, `nextWriterSeqNum, `view, `batches
      ensures !closed ==> Valid()
      ensures error.None? <==>
        && !closed && !closing && ValidBatch(inputs) && |old(view).history| + |inputs| <= U64_MAX
      ensures (closed || closing) <==> error == Some(Unavailable)
      ensures !closed && !closing && ValidBatch(inputs) ==>
        Runs.Steps(old(view), Runs.Step(Runs.Admit(inputs), Runs.Admission(error.None?), view))
      ensures error.None? ==>
        && view == old(view).(history := old(view).history + inputs)
        && batches == old(batches) + [Batch(ticket, |old(view).history|, |inputs|)]
      ensures error.Some? ==> view == old(view) && queue == old(queue) && batches == old(batches)
    {
      hide Tiles, FrontUnfinished, Resolves, BackToBack, NumberedFromZero, View.Valid, Load;
      if closed || closing {
        return Some(Unavailable);
      }
      if inputs == [] {
        return Some(EmptyBatch);
      }
      for i := 0 to |inputs|
        invariant forall j :: 0 <= j < i ==> |inputs[j].data| <= MAX_RECORD_PAYLOAD_BYTES
        modifies {}
      {
        if |inputs[i].data| > MAX_RECORD_PAYLOAD_BYTES {
          assert inputs[i] in inputs;
          return Some(RecordTooLarge);
        }
      }
      if nextWriterSeqNum + |inputs| > U64_MAX {
        return Some(SequenceExhausted);
      }
      var call := PendingSubmission(inputs, nextWriterSeqNum, 0, 0, [], ticket);
      AdmitKeepsTiles(queue, view, call);
      AdmitKeepsResolves(batches, resolved, queue, receipts, call);
      AdmitKeepsBackToBack(batches, |view.history|, ticket, |inputs|);
      AdmitKeepsView(view, inputs);
      TilesStart(queue, view);
      AdmitKeepsFront(queue, view, call);
      batches := batches + [Batch(ticket, nextWriterSeqNum, |inputs|)];
      nextWriterSeqNum := nextWriterSeqNum + |inputs|;
      queue := queue + [call];
      view := view.(history := view.history + inputs);
      return None;
    }

    /** Chooses the longest frame that fits the window, without marking anything. */
    method SelectFrame() returns (selected: seq<Selected>, frame: seq<AppendRecord>, payloadBytes: nat)
      requires Valid()
      ensures IsFrameEnd(view, view.sent + |selected|)
      ensures Chosen(queue, view, selected, frame, payloadBytes)
    {
      hide Tiles, FrontUnfinished, Resolves, BackToBack, NumberedFromZero, View.Valid, Load, IsFrameEnd, Chosen;
      ChooseNothing(queue, view);
      TilesStart(queue, view);
      selected, frame, payloadBytes := [], [], 0;
      var availableRecords := MAX_WRITER_IN_FLIGHT_RECORDS - inFlightRecords;
      var availablePayloadBytes := MAX_WRITER_IN_FLIGHT_PAYLOAD_BYTES - inFlightPayloadBytes;
      if availableRecords == 0 {
        return;
      }
      var i := 0;
      while i < |queue|
        invariant 0 <= i <= |queue|
        invariant Chosen(queue, view, selected, frame, payloadBytes)
        invariant if i == |queue| then view.sent + |selected| == |view.history| else
          && queue[i].startSeqNum <= view.sent + |selected|
          && (selected != [] ==> queue[i].startSeqNum == view.sent + |selected|)
      {
        UnsentStart(queue, view, i);
        var index := queue[i].sent;
        while index < |queue[i].payloads|
          invariant queue[i].sent <= index <= |queue[i].payloads|
          invariant index > queue[i].sent || index < |queue[i].payloads| ==>
                      queue[i].startSeqNum + index == view.sent + |selected|
          invariant index == queue[i].sent == |queue[i].payloads| ==>
                      selected == [] && End(queue[i]) <= view.sent
          invariant Chosen(queue, view, selected, frame, payloadBytes)
        {
          var record := queue[i].payloads[index];
          ChooseNext(queue, view, i, index, selected, frame, payloadBytes);
          if |selected| >= Min(MAX_APPEND_FRAME_RECORDS, availableRecords)
            || |record.data| > availablePayloadBytes - payloadBytes
            || (selected != [] && |record.data| > MAX_FRAME_PAYLOAD_BYTES - payloadBytes)
          {
            return;
          }
          frame := frame + [AppendRecord(queue[i].startSeqNum + index, record.part, record.data)];
          selected := selected + [Selected(i, index)];
          payloadBytes := payloadBytes + |record.data|;
          index := index + 1;
        }
        i := i + 1;
      }
      ChooseAll(queue, view, selected, frame, payloadBytes);
    }

    /** `#sendNextFrame`: marks the selected records sent only after the socket took the frame. A
        closed socket throws and leaves every marker alone. */
    method SendNextFrame(open: bool) returns (frame: seq<AppendRecord>, thrown: bool)
      requires Valid()
      modifies `queue, `inFlightRecords, `inFlightPayloadBytes, `view, `handed
      ensures Valid() && |queue| == |old(queue)|
      ensures thrown <==> !open && frame != []
      ensures thrown ==>
        && view == old(view) && handed == old(handed) && queue == old(queue)
        && SendsFrame(view, view.(sent := view.sent + |frame|), frame)
      ensures !thrown ==> SendsFrame(old(view), view, frame)
      ensures !thrown ==> Runs.Steps(old(view), Runs.Step(Runs.TakeFrame, Runs.Frame(frame), view))
      ensures !thrown ==> handed == old(handed) + SeqNums(frame)
    {
      hide Tiles, FrontUnfinished, Resolves, BackToBack, NumberedFromZero, View.Valid, Load, IsFrameEnd, FitsFrame;
      var selected, chosen, payloadBytes := SelectFrame();
      frame, thrown := chosen, false;
      if selected == [] {
        return;
      }
      if !open {
        thrown := true;
        return;
      }
      SentFramesAreValid(view, view.(sent := view.sent + |selected|), chosen);
      LoadSplit(view.history, view.acked, view.sent, view.sent + |selected|);
      MarkSent(selected);
      inFlightRecords := inFlightRecords + |selected|;
      inFlightPayloadBytes := inFlightPayloadBytes + payloadBytes;
      handed := handed + SeqNums(chosen);
      SeqNumsOfStretch(view.history, old(view).sent, view.sent);
    }

    /** Every selected record advances the marker of its call. */
    method MarkSent(selected: seq<Selected>)
      requires Consistent() && FrontUnfinished(queue, view)
      requires SelectsFrom(queue, view.sent, selected)
      requires view.(sent := view.sent + |selected|).Valid()
      modifies `queue, `view
      ensures Consistent() && FrontUnfinished(queue, view) && |queue| == |old(queue)|
      ensures view == old(view).(sent := old(view).sent + |selected|)
    {
      hide Tiles, FrontUnfinished, Resolves, BackToBack, NumberedFromZero, View.Valid;
      for k := 0 to |selected|
        invariant |queue| == |old(queue)| && Tiles(queue, view)
        invariant view == old(view).(sent := old(view).sent + k)
        invariant view.acked <= view.sent <= |view.history|
        invariant SelectsFrom(queue, old(view).sent, selected)
        invariant Resolves(batches, resolved, queue, receipts)
        invariant FrontUnfinished(queue, view)
      {
        var call := selected[k].call;
        UnsentStart(queue, view, call);
        SendKeepsTiles(queue, view, call);
        SendKeepsResolves(batches, resolved, queue, receipts, call);
        SendKeepsFront(queue, view, call);
        queue := OneMoreSent(queue, call);
        view := view.(sent := view.sent + 1);
      }
    }

    /** `#fillSocketWindow` on a socket that closes after `accepts` frames. When it does not throw,
        the window is full and anything retained has a record in flight, so the drain loop's
        `invalid_writer_state` error cannot arise. */
    method FillSocketWindow(accepts: nat) returns (frames: seq<seq<AppendRecord>>, thrown: bool)
      requires Valid()
      modifies `queue, `inFlightRecords, `inFlightPayloadBytes, `view, `handed
      ensures Valid() && |queue| == |old(queue)|
      ensures old(view).sent <= view.sent && view == old(view).(sent := view.sent)
      ensures Join(frames) == Numbered(view.history, old(view).sent, view.sent)
      ensures forall frame <- frames :: frame != [] && WithinFrameLimits(frame)
      ensures handed == old(handed) + SeqNums(Join(frames))
      ensures thrown <==> !IsFrameEnd(view, view.sent)
      ensures |frames| <= accepts && (thrown ==> |frames| == accepts)
      ensures !thrown && queue != [] ==> inFlightRecords > 0
    {
      hide Tiles, FrontUnfinished, Resolves, BackToBack, NumberedFromZero, View.Valid, Load, IsFrameEnd,
        TracksAmbiguity;
      frames := [];
      while true
        invariant Valid() && |queue| == |old(queue)| && view.acked <= view.sent <= |view.history|
        invariant old(view).sent <= view.sent && view == old(view).(sent := view.sent)
        invariant Join(frames) == Numbered(view.history, old(view).sent, view.sent)
        invariant forall frame <- frames :: frame != [] && WithinFrameLimits(frame)
        invariant handed == old(handed) + SeqNums(Join(frames))
        invariant |frames| <= accepts
        decreases |view.history| - view.sent
      {
        ghost var before := view;
        var frame;
        frame, thrown := SendNextFrame(|frames| < accepts);
        if thrown {
          LongerFrameFits(view, view.sent + |frame|);
          return;
        }
        SentFramesAreValid(before, view, frame);
        if frame == [] {
          if queue != [] {
            UnacknowledgedStart(queue, view, 0);
          }
          return;
        }
        assert Join(frames + [frame]) == Join(frames) + frame by {
          assert (frames + [frame])[..|frames|] == frames;
        }
        frames := frames + [frame];
      }
    }

    /** `#sentRange`: the stretch in flight, read off the calls. */
    method SentRange() returns (range: Option<(nat, nat)>)
      requires Valid()
      ensures range == if view.acked == view.sent then None else Some((view.acked, view.sent))
    {
      hide Tiles, FrontUnfinished, Resolves, BackToBack, NumberedFromZero, View.Valid, Load;
      var start: Option<nat> := None;
      var end := 0;
      var i := 0;
      TilesStart(queue, view);
      while i < |queue|
        invariant 0 <= i <= |queue|
        invariant view.acked == view.sent ==> start == None
        invariant view.acked < view.sent ==> if i == 0 then start == None else
          && start == Some(view.acked)
          && end == Min(view.sent, End(queue[i - 1]))
        invariant i == |queue| > 0 ==> End(queue[i - 1]) == |view.history|
      {
        SentStretch(queue, view, i);
        if i == 0 && view.acked < view.sent {
          UnacknowledgedStart(queue, view, 0);
        }
        if queue[i].acked < queue[i].sent {
          if start == None {
            start := Some(queue[i].startSeqNum + queue[i].acked);
          }
          end := queue[i].startSeqNum + queue[i].sent;
        } else if start != None {
          break;
        }
        i := i + 1;
      }
      return if start == None then None else Some((start.value, end));
    }

    /** `#dispatchAck`: accepts exactly the acknowledgements the reference accepts, and settles
        them call by call. */
    method DispatchAck(ack: AppendAck) returns (ok: bool)
      requires Valid()
      modifies `queue, `inFlightRecords, `inFlightPayloadBytes, `ambiguousWriterEndSeqNum, `resolved,
        `view, `receipts
      ensures Valid()
      ensures ok <==> Acceptable(old(view), ack)
      ensures ok ==>
        && view == Acknowledged(old(view), ack)
        && receipts == old(receipts) + AckReceipts(ack, ack.writerEndSeqNum - ack.writerStartSeqNum)
      ensures !ok ==>
        && view == old(view) && queue == old(queue) && resolved == old(resolved)
        && ambiguousWriterEndSeqNum == old(ambiguousWriterEndSeqNum)
      ensures Runs.Steps(old(view), Runs.Step(Runs.Receive(ack), Runs.Verdict(ok), view))
    {
      hide Tiles, FrontUnfinished, Resolves, BackToBack, NumberedFromZero, View.Valid, Load, ReceiptRun;
      var sentRange := SentRange();
      var writerCount := ack.writerEndSeqNum - ack.writerStartSeqNum;
      if sentRange == None
        || ack.writerStartSeqNum != sentRange.value.0
        || ack.writerEndSeqNum > sentRange.value.1
        || writerCount <= 0
        || ack.endSeqNum - ack.startSeqNum != writerCount
      {
        return false;
      }
      var remaining: nat := writerCount;
      while remaining > 0
        invariant 0 <= remaining <= writerCount
        invariant Consistent() && FrontUnfinished(queue, view)
        invariant view == old(view).(acked := ack.writerEndSeqNum - remaining)
        invariant inFlightRecords == view.sent - view.acked
        invariant inFlightPayloadBytes == Load(view.history, view.acked, view.sent)
        invariant receipts == old(receipts) + AckReceipts(ack, writerCount - remaining)
        modifies `queue, `inFlightRecords, `inFlightPayloadBytes, `resolved, `view, `receipts
      {
        ghost var before := remaining;
        remaining := SettleFront(ack, remaining);
        ReceiptRunsJoin(ack.writerStartSeqNum, ack.startSeqNum, writerCount - before, before - remaining);
      }
      if ambiguousWriterEndSeqNum.Some? && queue != [] {
        UnacknowledgedStart(queue, view, 0);
      } else if queue == [] {
        TilesStart(queue, view);
      }
      if queue == []
        || (ambiguousWriterEndSeqNum.Some?
            && queue[0].startSeqNum + queue[0].acked >= ambiguousWriterEndSeqNum.value)
      {
        ambiguousWriterEndSeqNum := None;
      }
      return true;
    }

    /** One round of the settling loop: the front call takes as many receipts as it has records in
        flight. A front call always has some, so "exceeds the sent writer range" cannot arise. */
    method SettleFront(ack: AppendAck, remaining: nat) returns (left: nat)
      requires Consistent() && FrontUnfinished(queue, view)
      requires 0 < remaining <= ack.writerEndSeqNum - ack.writerStartSeqNum
      requires ack.endSeqNum - ack.startSeqNum == ack.writerEndSeqNum - ack.writerStartSeqNum
      requires view.acked == ack.writerEndSeqNum - remaining && ack.writerEndSeqNum <= view.sent
      requires inFlightRecords == view.sent - view.acked
      requires inFlightPayloadBytes == Load(view.history, view.acked, view.sent)
      modifies `queue, `inFlightRecords, `inFlightPayloadBytes, `resolved, `view, `receipts
      ensures left < remaining
      ensures Consistent() && FrontUnfinished(queue, view)
      ensures view == old(view).(acked := ack.writerEndSeqNum - left)
      ensures inFlightRecords == view.sent - view.acked
      ensures inFlightPayloadBytes == Load(view.history, view.acked, view.sent)
      ensures receipts == old(receipts)
                + ReceiptRun(ack.writerEndSeqNum - remaining, ack.endSeqNum - remaining, remaining - left)
    {
      hide Tiles, FrontUnfinished, Resolves, BackToBack, NumberedFromZero, View.Valid, Load, ReceiptRun;
      PendingRetained(queue, view);
      SentStretch(queue, view, 0);
      UnacknowledgedStart(queue, view, 0);
      var acknowledged := Min(remaining, queue[0].sent - queue[0].acked);
      assert acknowledged > 0;
      var writerSeqNum := queue[0].startSeqNum + queue[0].acked;
      var streamSeqNum := ack.endSeqNum - remaining;
      // The calls as they would stand had each receipt been settled on its own.
      ghost var stepped := queue;
      for offset := 0 to acknowledged
        invariant |queue| == |old(queue)| > 0
        invariant queue[0].acked == old(queue)[0].acked && queue[0].payloads == old(queue)[0].payloads
        invariant stepped == queue[0 := queue[0].(acked := queue[0].acked + offset)]
        invariant view == old(view).(acked := old(view).acked + offset) && view.Valid()
        invariant Tiles(stepped, view) && Resolves(batches, resolved, stepped, receipts)
        invariant |receipts| == view.acked && NumberedFromZero(receipts)
        invariant inFlightPayloadBytes == Load(view.history, view.acked, view.sent)
        invariant receipts == old(receipts) + ReceiptRun(writerSeqNum, streamSeqNum, offset)
        modifies `queue, `inFlightPayloadBytes, `view, `receipts
      {
        var record := queue[0].payloads[queue[0].acked + offset];
        var receipt := Receipt(writerSeqNum + offset, streamSeqNum + offset);
        OneMoreSettled(batches, resolved, stepped, view, receipts, receipt);
        ReceiptRunsJoin(writerSeqNum, streamSeqNum, offset, 1);
        ReceiptRunsJoin(writerSeqNum + offset, streamSeqNum + offset, 0, 1);
        stepped := OneMoreAcked(stepped, receipt);
        queue := queue[0 := queue[0].(receipts := queue[0].receipts + [receipt])];
        inFlightPayloadBytes := inFlightPayloadBytes - |record.data|;
        receipts := receipts + [receipt];
        view := view.(acked := view.acked + 1);
      }
      inFlightRecords := inFlightRecords - acknowledged;
      queue := queue[0 := queue[0].(acked := queue[0].acked + acknowledged)];
      left := remaining - acknowledged;
      if queue[0].acked == |queue[0].payloads| {
        PopFront(batches, resolved, queue, receipts, view);
        resolved := resolved + [Delivery(queue[0].ticket, queue[0].receipts)];
        queue := queue[1..];
      } else {
        FrontStays(queue, view);
      }
    }

    /** The drain loop's `catch`: records what the lost socket was handed, then either rewinds for
        the next connection or ends the writer. A fatal end reports durability unknown exactly
        when an unacknowledged record was handed to some socket. */
    method Interrupt(failure: Failure)
      requires Valid()
      modifies this
      ensures failure.Retryable? ==>
        && Valid() && view == Reconnected(old(view))
        && Runs.Steps(old(view), Runs.Step(Runs.LoseConnection, Runs.Rewound, view))
        && handed == old(handed) && resolved == old(resolved) && batches == old(batches)
      ensures !failure.Retryable? ==>
        && closed && queue == [] && resolved == old(resolved)
        && terminalError == Some(
             if failure.MismatchClose? then SequenceMismatch
             else if old(MayBeDurable()) then DurabilityUnknown else WriterFailed)
    {
      hide Tiles, FrontUnfinished, Resolves, BackToBack, NumberedFromZero, View.Valid, Load;
      var sentRange := SentRange();
      if sentRange.Some?
        && (ambiguousWriterEndSeqNum.None? || sentRange.value.1 > ambiguousWriterEndSeqNum.value)
      {
        ambiguousWriterEndSeqNum := Some(sentRange.value.1);
      }
      past := if view.sent > past then view.sent else past;
      var durabilityAmbiguous := ambiguousWriterEndSeqNum.Some?;
      assert durabilityAmbiguous == old(MayBeDurable()) by {
        if durabilityAmbiguous {
          assert view.acked in handed;
        }
      }
      match failure {
      case MismatchClose =>
        Finish(SequenceMismatch);
      case Fatal =>
        Finish(if durabilityAmbiguous then DurabilityUnknown else WriterFailed);
      case Retryable =>
        ResetSentToAcknowledged();
      }
    }

    /** A reconnect that cannot succeed ends the writer the same way. */
    method ReconnectFailed(mismatch: bool)
      requires Valid() && view.sent == view.acked
      modifies this
      ensures closed && queue == [] && resolved == old(resolved)
      ensures terminalError == Some(
                if mismatch then SequenceMismatch
                else if old(MayBeDurable()) then DurabilityUnknown else WriterFailed)
    {
      hide Tiles, FrontUnfinished, Resolves, BackToBack, NumberedFromZero, View.Valid, Load;
      if ambiguousWriterEndSeqNum.Some? {
        assert view.acked in handed;
      }
      Finish(if mismatch then SequenceMismatch
             else if ambiguousWriterEndSeqNum.Some? then DurabilityUnknown else WriterFailed);
    }

    /** `abort`: reports durability unknown exactly when some unacknowledged record was handed to a
        socket on any connection, however many reconnects and partial acknowledgements came
        before. On a closed writer it does nothing. */
    method Abort()
      requires closed || Valid()
      modifies `terminalError, `closed, `queue
      ensures closed && resolved == old(resolved)
      ensures old(closed) ==> queue == old(queue) && terminalError == old(terminalError)
      ensures !old(closed) ==>
        && queue == []
        && terminalError == Some(if old(MayBeDurable()) then DurabilityUnknown else WriterFailed)
    {
      hide Tiles, FrontUnfinished, Resolves, BackToBack, NumberedFromZero, View.Valid, Load;
      if closed {
        return;
      }
      var durabilityAmbiguous := ambiguousWriterEndSeqNum.Some? || inFlightRecords > 0;
      if durabilityAmbiguous {
        assert view.acked in handed;
      }
      Finish(if durabilityAmbiguous then DurabilityUnknown else WriterFailed);
    }

    /** The first half of `close`: no batch is accepted any more. */
    method BeginClose()
      requires closed || Valid()
      modifies `closing
      ensures !closed ==> Valid() && closing
      ensures closed ==> closing == old(closing)
    {
      if closed {
        return;
      }
      closing := true;
    }

    /** The second half of `close`, once the drain loop has emptied the queue: it ends without an error
        only with every record ever accepted acknowledged and every call resolved. */
    method FinishClose()
      requires Valid() && queue == []
      modifies `closed
      ensures closed && terminalError.None?
      ensures view.acked == |view.history| && |resolved| == |batches|
    {
      TilesStart(queue, view);
      AllResolved(batches, resolved, queue, receipts);
      closed := true;
    }

    /** `#setTerminal` and `#finish`: the first terminal error stays and every retained call is
        rejected with it. */
    method Finish(error: TerminalError)
      requires terminalError.None?
      modifies `terminalError, `closed, `queue
      ensures terminalError == Some(error) && closed && queue == []
    {
      terminalError := Some(error);
      closed := true;
      queue := [];
    }

    /** A fresh connection has nothing in flight. */
    method ResetSentToAcknowledged()
      requires Consistent() && FrontUnfinished(queue, view)
      modifies `queue, `inFlightRecords, `inFlightPayloadBytes, `view
      ensures Consistent() && FrontUnfinished(queue, view)
      ensures view == Reconnected(old(view))
      ensures inFlightRecords == 0 && inFlightPayloadBytes == 0
      ensures Load(view.history, view.acked, view.sent) == 0
    {
      hide Tiles, FrontUnfinished, Resolves, BackToBack, NumberedFromZero;
      ghost var before := queue;
      for i := 0 to |queue|
        invariant |queue| == |before|
        invariant forall j :: 0 <= j < i ==> queue[j] == before[j].(sent := before[j].acked)
        invariant forall j :: i <= j < |queue| ==> queue[j] == before[j]
        modifies `queue
      {
        queue := queue[i := queue[i].(sent := queue[i].acked)];
      }
      RewindKeepsTiles(before, view, queue);
      RewindKeepsResolves(batches, resolved, before, receipts, queue);
      FrontStaysUnfinished(before, queue, view);
      inFlightRecords, inFlightPayloadBytes := 0, 0;
      view := Reconnected(view);
    }
  }

  /** One receipt more for the front call. */
  lemma OneMoreSettled(
    batches: seq<Batch>, resolved: seq<Delivery<Receipt>>, queue: seq<PendingSubmission<Receipt>>, v: View,
    receipts: seq<Receipt>, receipt: Receipt)
    requires v.Valid() && v.acked < v.sent <= |v.history| && Tiles(queue, v)
    requires Resolves(batches, resolved, queue, receipts)
    requires |receipts| == v.acked && NumberedFromZero(receipts) && receipt.writerSeqNum == v.acked
    requires queue != [] && queue[0].acked < |queue[0].payloads|
    ensures var after := v.(acked := v.acked + 1);
      && after.Valid() && Tiles(OneMoreAcked(queue, receipt), after)
      && Resolves(batches, resolved, OneMoreAcked(queue, receipt), receipts + [receipt])
      && NumberedFromZero(receipts + [receipt])
      && Load(v.history, v.acked, v.sent)
         == |queue[0].payloads[queue[0].acked].data| + Load(v.history, v.acked + 1, v.sent)
  {
    hide Tiles, Resolves, View.Valid, Load, NumberedFromZero;
    AckKeepsView(v);
    AckKeepsTiles(queue, v, receipt);
    AckKeepsResolves(batches, resolved, queue, receipts, receipt);
    AckKeepsNumbering(receipts, receipt);
  }

  /** The `k`-th selected record is the one numbered `sent + k`. */
  ghost predicate SelectsFrom(queue: seq<PendingSubmission<Receipt>>, sent: nat, selected: seq<Selected>) {
    forall k :: 0 <= k < |selected| ==>
      && selected[k].call < |queue|
      && selected[k].index < |queue[selected[k].call].payloads|
      && queue[selected[k].call].startSeqNum + selected[k].index == sent + k
  }

  /** What `selected` stands for while a frame is being chosen. */
  ghost predicate Chosen(
    queue: seq<PendingSubmission<Receipt>>, v: View,
    selected: seq<Selected>, frame: seq<AppendRecord>, payloadBytes: nat)
  {
    && FitsFrame(v, v.sent + |selected|)
    && frame == Numbered(v.history, v.sent, v.sent + |selected|)
    && payloadBytes == Load(v.history, v.sent, v.sent + |selected|)
    && SelectsFrom(queue, v.sent, selected)
  }

  lemma ChooseNothing(queue: seq<PendingSubmission<Receipt>>, v: View)
    requires v.Valid()
    ensures Chosen(queue, v, [], [], 0)
    ensures v.sent - v.acked == MAX_WRITER_IN_FLIGHT_RECORDS ==> IsFrameEnd(v, v.sent)
    ensures v.sent - v.acked <= MAX_WRITER_IN_FLIGHT_RECORDS
    ensures Load(v.history, v.acked, v.sent) <= MAX_WRITER_IN_FLIGHT_PAYLOAD_BYTES
  {
    EmptyFrameFits(v);
  }

  /** The limits tested against the space that is left decide whether one more record fits. */
  lemma ChooseNext(
    queue: seq<PendingSubmission<Receipt>>, v: View, i: nat, index: nat,
    selected: seq<Selected>, frame: seq<AppendRecord>, payloadBytes: nat)
    requires v.Valid() && Chosen(queue, v, selected, frame, payloadBytes)
    requires i < |queue| && index < |queue[i].payloads|
    requires SliceAt(queue[i].payloads, v.history, queue[i].startSeqNum)
    requires queue[i].startSeqNum + index == v.sent + |selected|
    ensures var record := queue[i].payloads[index];
      var blocked :=
        || |selected| >= Min(MAX_APPEND_FRAME_RECORDS, MAX_WRITER_IN_FLIGHT_RECORDS - (v.sent - v.acked))
        || |record.data| > MAX_WRITER_IN_FLIGHT_PAYLOAD_BYTES - Load(v.history, v.acked, v.sent) - payloadBytes
        || (selected != [] && |record.data| > MAX_FRAME_PAYLOAD_BYTES - payloadBytes);
      if blocked then IsFrameEnd(v, v.sent + |selected|) else
        Chosen(queue, v, selected + [Selected(i, index)],
               frame + [AppendRecord(queue[i].startSeqNum + index, record.part, record.data)],
               payloadBytes + |record.data|)
  {
    assert queue[i].payloads[index] == v.history[v.sent + |selected|];
    ExtendFrame(v, v.sent + |selected|);
    LoadSplit(v.history, v.acked, v.sent, v.sent + |selected|);
    hide Load, Numbered;
  }

  lemma ChooseAll(
    queue: seq<PendingSubmission<Receipt>>, v: View,
    selected: seq<Selected>, frame: seq<AppendRecord>, payloadBytes: nat)
    requires Chosen(queue, v, selected, frame, payloadBytes) && v.sent + |selected| == |v.history|
    ensures IsFrameEnd(v, v.sent + |selected|)
  {
  }

  lemma AckKeepsNumbering(receipts: seq<Receipt>, receipt: Receipt)
    requires NumberedFromZero(receipts) && receipt.writerSeqNum == |receipts|
    ensures NumberedFromZero(receipts + [receipt])
  {
  }

  lemma SendKeepsFront(queue: seq<PendingSubmission<Receipt>>, v: View, i: nat)
    requires FrontUnfinished(queue, v) && i < |queue|
    ensures FrontUnfinished(OneMoreSent(queue, i), v.(sent := v.sent + 1))
  {
  }

  lemma AdmitKeepsFront(queue: seq<PendingSubmission<Receipt>>, v: View, call: PendingSubmission<Receipt>)
    requires v.acked <= |v.history| && FrontUnfinished(queue, v)
    requires queue == [] ==> v.acked == |v.history| == call.startSeqNum && call.payloads != []
    ensures FrontUnfinished(queue + [call], v.(history := v.history + call.payloads))
  {
  }
}
