/**
 * The Rust writer actor: a deque of numbered submissions, the in-flight window and the
 * writer-sequence cursor. Every method is proved to be one step of `WriterSpec`.
 */
module RustWriter {
  import opened Wrappers
  import opened Protocol
  import opened WriterSpec
  import opened WriterQueue
  import Runs = WriterRuns

  datatype WriterCommand = Submit(batch: seq<RecordPayload>, ticket: nat) | Close

  datatype AckError = InvalidAppendAck | AppendNotAcknowledged(writerSeqNum: nat)

  /** How one attempt to reconnect may end, and how recovery as a whole does. */
  datatype Attempt = Connected(sameKind: bool) | RetryableFailure | FatalFailure

  datatype Recovery = Recovered | GaveUp | StillTrying

  /** One receipt per acknowledged record, in writer order. */
  ghost predicate InOrder(receipts: seq<AppendReceipt>) {
    forall n :: 0 <= n < |receipts| ==> receipts[n].writerSeqNum == n && ReceiptFits(receipts[n])
  }

  /** The records the submissions among `commands` carry, in order. */
  function Submitted(commands: seq<WriterCommand>): seq<RecordPayload> {
    if commands == [] then []
    else Submitted(commands[..|commands| - 1]) +
         (match commands[|commands| - 1] case Submit(batch, _) => batch case Close => [])
  }

  function BatchBytes(batch: seq<RecordPayload>): nat {
    if batch == [] then 0 else BatchBytes(batch[..|batch| - 1]) + |batch[|batch| - 1].data|
  }

  function SubmittedBytes(commands: seq<WriterCommand>): nat {
    if commands == [] then 0
    else SubmittedBytes(commands[..|commands| - 1]) +
         (match commands[|commands| - 1] case Submit(batch, _) => BatchBytes(batch) case Close => 0)
  }

  lemma NothingSubmitted(commands: seq<WriterCommand>)
    ensures Submitted(commands[..0]) == [] && SubmittedBytes(commands[..0]) == 0
  {
  }

  lemma SubmittedOneMore(commands: seq<WriterCommand>, n: nat)
    requires n < |commands|
    ensures commands[n].Submit? ==>
              && Submitted(commands[..n + 1]) == Submitted(commands[..n]) + commands[n].batch
              && SubmittedBytes(commands[..n + 1]) == SubmittedBytes(commands[..n]) + BatchBytes(commands[n].batch)
    ensures commands[n].Close? ==>
              && Submitted(commands[..n + 1]) == Submitted(commands[..n])
              && SubmittedBytes(commands[..n + 1]) == SubmittedBytes(commands[..n])
  {
    assert commands[..n + 1][..n] == commands[..n];
  }

  /** The submissions reach one dimension of the socket window. */
  predicate FillsWindow(commands: seq<WriterCommand>) {
    || |Submitted(commands)| >= MAX_WRITER_IN_FLIGHT_RECORDS
    || SubmittedBytes(commands) >= MAX_WRITER_IN_FLIGHT_PAYLOAD_BYTES
  }

  predicate ValidCommand(command: WriterCommand) {
    command.Submit? ==> ValidBatch(command.batch)
  }

  lemma AckKeepsInOrder(receipts: seq<AppendReceipt>, receipt: AppendReceipt)
    requires InOrder(receipts) && receipt.writerSeqNum == |receipts| && ReceiptFits(receipt)
    ensures InOrder(receipts + [receipt])
  {
  }

  class DurableWriter {
    var pending: seq<PendingSubmission<AppendReceipt>>
    var inFlightRecords: nat
    var inFlightPayloadBytes: nat
    var nextSeqNum: nat
    var closeRequested: bool
    var closeAnswer: Option<bool>
    var terminalError: bool
    var delivered: seq<Delivery<AppendReceipt>>

    ghost var view: View
    ghost var receipts: seq<AppendReceipt>
    ghost var batches: seq<Batch>

    ghost predicate Valid()
      reads this
    {
      && Consistent()
      && FrontUnfinished(pending, view)
    }

    /** `Valid`, except that an acknowledgement may just have completed the front submission. */
    ghost predicate Consistent()
      reads this
    {
      && view.Valid() && view.acked <= view.sent <= |view.history|
      && Tiles(pending, view)
      && nextSeqNum == |view.history|
      && inFlightRecords == view.sent - view.acked
      && inFlightPayloadBytes == Load(view.history, view.acked, view.sent)
      && |receipts| == view.acked && InOrder(receipts)
      && BackToBack(batches, |view.history|)
      && Resolves(batches, delivered, pending, receipts)
    }

    constructor ()
      ensures Valid()
      ensures view == View([], 0, 0) && delivered == [] && batches == []
      ensures !closeRequested && closeAnswer.None? && !terminalError
    {
      pending, delivered := [], [];
      inFlightRecords, inFlightPayloadBytes, nextSeqNum := 0, 0, 0;
      closeRequested, closeAnswer, terminalError := false, None, false;
      view, receipts, batches := View([], 0, 0), [], [];
    }

    /** Numbers one batch at admission. Fails, changing nothing, when the exclusive end of its
        range is not representable. */
    method Admit(batch: seq<RecordPayload>, ticket: nat) returns (ok: bool)
      requires Valid() && ValidBatch(batch)
      modifies `pending, `nextSeqNum, `view, `batches
      ensures Valid()
      ensures ok <==> |old(view).history| + |batch| <= U64_MAX
      ensures ok ==> view == old(view).(history := old(view).history + batch)
      ensures ok ==> batches == old(batches) + [Batch(ticket, |old(view).history|, |batch|)]
      ensures !ok ==> view == old(view) && batches == old(batches) && pending == old(pending)
      ensures Runs.Steps(old(view), Runs.Step(Runs.Admit(batch), Runs.Admission(ok), view))
    {
      hide Tiles, Resolves, BackToBack, InOrder;
      if nextSeqNum + |batch| > U64_MAX {
        return false;
      }
      var submission := PendingSubmission(batch, nextSeqNum, 0, 0, [], ticket);
      AdmitKeepsTiles(pending, view, submission);
      AdmitKeepsResolves(batches, delivered, pending, receipts, submission);
      AdmitKeepsBackToBack(batches, |view.history|, ticket, |batch|);
      AdmitKeepsView(view, batch);
      batches := batches + [Batch(ticket, nextSeqNum, |batch|)];
      nextSeqNum := nextSeqNum + |batch|;
      pending := pending + [submission];
      view := view.(history := view.history + batch);
      return true;
    }

    /** Fills one frame with the leading unsent records and charges the in-flight window. */
    method TakeFrame() returns (frame: seq<AppendRecord>)
      requires Valid()
      modifies `pending, `inFlightRecords, `inFlightPayloadBytes, `view
      ensures Valid()
      ensures SendsFrame(old(view), view, frame)
      ensures Runs.Steps(old(view), Runs.Step(Runs.TakeFrame, Runs.Frame(frame), view))
      ensures |pending| == |old(pending)|
    {
      hide Tiles, Resolves, BackToBack, InOrder, View.Valid, FitsFrame, Load, Numbered;
      EmptyFrameFits(view);
      frame := [];
      var frameBytes := 0;
      var i := 0;
      TilesStart(pending, view);
      while i < |pending|
        invariant 0 <= i <= |pending| == |old(pending)|
        invariant Valid() && view == old(view).(sent := view.sent)
          && old(view).sent <= view.sent && FitsFrame(old(view), view.sent)
        invariant frame == Numbered(view.history, old(view).sent, view.sent)
        invariant frameBytes == Load(view.history, old(view).sent, view.sent)
        invariant if i < |pending| then pending[i].startSeqNum <= view.sent
                  else view.sent == |view.history|
      {
        while pending[i].sent < |pending[i].payloads|
          invariant 0 <= i < |pending| == |old(pending)|
          invariant Valid() && view == old(view).(sent := view.sent)
          && old(view).sent <= view.sent && FitsFrame(old(view), view.sent)
          invariant frame == Numbered(view.history, old(view).sent, view.sent)
          invariant frameBytes == Load(view.history, old(view).sent, view.sent)
          invariant pending[i].startSeqNum <= view.sent
          decreases |pending[i].payloads| - pending[i].sent
        {
          SendKeepsTiles(pending, view, i);
          SendKeepsResolves(batches, delivered, pending, receipts, i);
          ExtendFrame(old(view), view.sent);
          var payload := pending[i].payloads[pending[i].sent];
          if inFlightRecords == MAX_WRITER_IN_FLIGHT_RECORDS
            || inFlightPayloadBytes + |payload.data| > MAX_WRITER_IN_FLIGHT_PAYLOAD_BYTES
            || |frame| == MAX_APPEND_FRAME_RECORDS
            || (frame != [] && |payload.data| > MAX_FRAME_PAYLOAD_BYTES - frameBytes)
          {
            return;
          }
          inFlightPayloadBytes := inFlightPayloadBytes + |payload.data|;
          inFlightRecords := inFlightRecords + 1;
          frameBytes := frameBytes + |payload.data|;
          frame := frame + [AppendRecord(pending[i].startSeqNum + pending[i].sent, payload.part, payload.data)];
          pending := OneMoreSent(pending, i);
          view := view.(sent := view.sent + 1);
        }
        SentPosition(pending, view, i);
        i := i + 1;
      }
    }

    /** Matches one acknowledgement against the retained records. Nothing changes unless the whole
        range is valid. */
    method DispatchAck(ack: AppendAck) returns (result: Result<(), AckError>)
      requires Valid()
      modifies `pending, `inFlightRecords, `inFlightPayloadBytes, `delivered, `view, `receipts
      ensures Valid()
      ensures result.Ok? <==> Acceptable(old(view), ack)
      ensures result.Ok? ==>
        && view == Acknowledged(old(view), ack)
        && receipts == old(receipts) + ReceiptsFor(ack, ack.writerEndSeqNum - ack.writerStartSeqNum)
      ensures result.Err? ==>
        && pending == old(pending) && delivered == old(delivered)
        && view == old(view) && receipts == old(receipts)
      ensures result.Err? && result.error.AppendNotAcknowledged? <==>
        && WellFormedAck(ack)
        && ack.writerEndSeqNum - ack.writerStartSeqNum <= old(view).sent - old(view).acked
        && ack.writerStartSeqNum > old(view).acked
      ensures result.Err? && result.error.AppendNotAcknowledged? ==>
        result.error.writerSeqNum == old(view).acked
      ensures Runs.Steps(old(view), Runs.Step(Runs.Receive(ack), Runs.Verdict(result.Ok?), view))
    {
      hide Tiles, FrontUnfinished, Resolves, BackToBack, InOrder, View.Valid, Load;
      if !WellFormedAck(ack) {
        return Err(InvalidAppendAck);
      }
      var recordCount := ack.writerEndSeqNum - ack.writerStartSeqNum;
      if recordCount > inFlightRecords {
        return Err(InvalidAppendAck);
      }
      if view.acked < |view.history| {
        PendingRetained(pending, view);
      }
      var expected := ack.writerStartSeqNum;
      var i := 0;
      while i < |pending|
        invariant 0 <= i <= |pending|
        invariant if i == 0 then expected == ack.writerStartSeqNum else
          && ack.writerStartSeqNum == view.acked
          && expected == End(pending[i - 1]) < ack.writerEndSeqNum
        modifies {}
      {
        UnacknowledgedStart(pending, view, i);
        var start := pending[i].startSeqNum + pending[i].acked;
        var end := End(pending[i]);
        if start < end {
          if start < expected {
            return Err(AppendNotAcknowledged(start));
          }
          if start > expected {
            return Err(InvalidAppendAck);
          }
          if ack.writerEndSeqNum <= end {
            expected := ack.writerEndSeqNum;
            break;
          }
          expected := end;
        }
        i := i + 1;
      }
      if expected != ack.writerEndSeqNum {
        if pending != [] {
          UnacknowledgedStart(pending, view, |pending| - 1);
        }
        return Err(InvalidAppendAck);
      }
      Collect(ack, recordCount);
      return Ok(());
    }

    /** The mutating half of `dispatch_ack`: one receipt per acknowledged record. */
    method Collect(ack: AppendAck, recordCount: nat)
      requires Valid() && Acceptable(view, ack)
      requires recordCount == ack.writerEndSeqNum - ack.writerStartSeqNum
      modifies `pending, `inFlightRecords, `inFlightPayloadBytes, `delivered, `view, `receipts
      ensures Valid()
      ensures view == Acknowledged(old(view), ack)
      ensures receipts == old(receipts) + ReceiptsFor(ack, recordCount)
    {
      hide Tiles, FrontUnfinished, Resolves, BackToBack, InOrder, View.Valid, Load;
      var remaining := recordCount;
      while remaining > 0
        invariant 0 <= remaining <= recordCount
        invariant Valid() && view == old(view).(acked := ack.writerEndSeqNum - remaining)
        invariant receipts == old(receipts) + ReceiptsFor(ack, recordCount - remaining)
      {
        ghost var before := remaining;
        PendingRetained(pending, view);
        UnacknowledgedStart(pending, view, 0);
        while pending[0].acked < |pending[0].payloads| && remaining > 0
          invariant 0 <= remaining <= before <= recordCount && pending != []
          invariant Consistent() && view == old(view).(acked := ack.writerEndSeqNum - remaining)
          invariant receipts == old(receipts) + ReceiptsFor(ack, recordCount - remaining)
          invariant pending[0].acked <= |pending[0].payloads|
          invariant remaining == before ==> pending[0].acked < |pending[0].payloads|
          decreases remaining
        {
          var receipt := AppendReceipt(ack.writerEndSeqNum - remaining, ack.endSeqNum - remaining, ack);
          AckKeepsView(view);
          AckKeepsTiles(pending, view, receipt);
          AckKeepsResolves(batches, delivered, pending, receipts, receipt);
          AckKeepsInOrder(receipts, receipt);
          inFlightPayloadBytes := inFlightPayloadBytes - |pending[0].payloads[pending[0].acked].data|;
          inFlightRecords := inFlightRecords - 1;
          pending := OneMoreAcked(pending, receipt);
          view := view.(acked := view.acked + 1);
          receipts := receipts + [receipt];
          remaining := remaining - 1;
        }
        if pending[0].acked == |pending[0].payloads| {
          PopFront(batches, delivered, pending, receipts, view);
          delivered := delivered + [Delivery(pending[0].ticket, pending[0].receipts)];
          pending := pending[1..];
        } else {
          FrontStays(pending, view);
        }
      }
    }

    /** Sends unsent records frame by frame until the window is full. The socket accepts
        `accepts` frames and then fails; a frame it refuses is charged but not handed over, and only
        such a frame makes the call fail. */
    method SendPending(accepts: nat) returns (frames: seq<seq<AppendRecord>>, ok: bool)
      requires Valid()
      modifies `pending, `inFlightRecords, `inFlightPayloadBytes, `view
      ensures Valid() && |pending| == |old(pending)|
      ensures old(view).sent <= view.sent && view == old(view).(sent := view.sent)
      ensures forall frame <- frames :: frame != [] && WithinFrameLimits(frame)
      ensures ok ==> Join(frames) == Numbered(view.history, old(view).sent, view.sent)
      ensures ok ==> IsFrameEnd(view, view.sent)
      ensures ok && pending != [] ==> inFlightRecords > 0
      ensures |frames| <= accepts
      ensures !ok ==>
        && |frames| == accepts
        && old(view).sent + |Join(frames)| < view.sent
        && IsFrameEnd(old(view).(sent := old(view).sent + |Join(frames)|), view.sent)
        && Join(frames) == Numbered(view.history, old(view).sent, old(view).sent + |Join(frames)|)
    {
      hide Tiles, FrontUnfinished, Resolves, BackToBack, InOrder, View.Valid, Load, IsFrameEnd;
      frames, ok := [], true;
      while true
        invariant Valid() && |pending| == |old(pending)|
        invariant old(view).sent <= view.sent && view == old(view).(sent := view.sent)
        invariant forall frame <- frames :: frame != [] && WithinFrameLimits(frame)
        invariant Join(frames) == Numbered(view.history, old(view).sent, view.sent)
        invariant ok && |frames| <= accepts
        decreases |view.history| - view.sent
      {
        ghost var before := view;
        var frame := TakeFrame();
        SentFramesAreValid(before, view, frame);
        if frame == [] {
          if pending != [] {
            UnacknowledgedStart(pending, view, 0);
          }
          return;
        }
        if |frames| == accepts {
          ok := false;
          return;
        }
        assert Join(frames + [frame]) == Join(frames) + frame by {
          assert (frames + [frame])[..|frames|] == frames;
        }
        frames := frames + [frame];
      }
    }

    /** A fresh session: every sent marker rewinds to its acknowledged prefix and the whole window
        is replaced. */
    method Recover()
      requires Valid()
      modifies `pending, `inFlightRecords, `inFlightPayloadBytes, `view
      ensures Valid()
      ensures view == Reconnected(old(view))
      ensures Runs.Steps(old(view), Runs.Step(Runs.LoseConnection, Runs.Rewound, view))
    {
      hide Tiles, FrontUnfinished, Resolves, BackToBack, InOrder;
      ghost var before := pending;
      var i := 0;
      while i < |pending|
        invariant 0 <= i <= |pending| == |before|
        invariant forall j :: 0 <= j < i ==> pending[j] == before[j].(sent := before[j].acked)
        invariant forall j :: i <= j < |pending| ==> pending[j] == before[j]
        modifies `pending
      {
        pending := pending[i := pending[i].(sent := pending[i].acked)];
        i := i + 1;
      }
      RewindKeepsTiles(before, view, pending);
      RewindKeepsResolves(batches, delivered, before, receipts, pending);
      inFlightRecords, inFlightPayloadBytes := 0, 0;
      view := Reconnected(view);
      assert FrontUnfinished(pending, view) by {
        FrontStaysUnfinished(before, pending, old(view));
      }
    }

    /** `recover_pending_appends`: an error that cannot be retried ends it, otherwise attempts go on
        until one connects to a stream of the same kind or fails for good. Only a recovery rewinds. */
    method RecoverPendingAppends(retryable: bool, attempts: seq<Attempt>) returns (outcome: Recovery, used: nat)
      requires Valid()
      modifies `pending, `inFlightRecords, `inFlightPayloadBytes, `view
      ensures Valid()
      ensures used <= |attempts| && (!retryable ==> used == 0 && outcome.GaveUp?)
      ensures forall i :: 0 <= i < used - 1 ==> attempts[i].RetryableFailure?
      ensures retryable && outcome.StillTrying? ==>
        used == |attempts| && (used > 0 ==> attempts[used - 1].RetryableFailure?)
      ensures retryable && !outcome.StillTrying? ==>
        && used > 0 && !attempts[used - 1].RetryableFailure?
        && (outcome.Recovered? <==> attempts[used - 1] == Connected(true))
      ensures outcome.Recovered? ==>
        Runs.Steps(old(view), Runs.Step(Runs.LoseConnection, Runs.Rewound, view))
      ensures !outcome.Recovered? ==>
        && view == old(view) && pending == old(pending)
        && inFlightRecords == old(inFlightRecords) && inFlightPayloadBytes == old(inFlightPayloadBytes)
    {
      hide Tiles, FrontUnfinished, Resolves, BackToBack, InOrder, View.Valid, Load;
      used := 0;
      if !retryable {
        return GaveUp, used;
      }
      while used < |attempts|
        invariant used <= |attempts|
        invariant forall i :: 0 <= i < used ==> attempts[i].RetryableFailure?
        modifies {}
      {
        var attempt := attempts[used];
        used := used + 1;
        if attempt.Connected? && attempt.sameKind {
          outcome := Recovered;
          break;
        }
        if !attempt.RetryableFailure? {
          return GaveUp, used;
        }
        outcome := StillTrying;
      }
      if used > 0 && attempts[used - 1] == Connected(true) {
        Recover();
        return Recovered, used;
      }
      return StillTrying, used;
    }

    /** A terminal failure is retained, rejects the retained tickets and answers a requested close: with
        the delivered ones, every admitted ticket is resolved exactly once, in submission order. */
    method FinishWriterError() returns (failed: seq<nat>)
      requires Valid()
      modifies `pending, `terminalError, `closeRequested, `closeAnswer
      ensures pending == [] && terminalError && !closeRequested
      ensures closeAnswer == if old(closeRequested) then Some(false) else old(closeAnswer)
      ensures |batches| == |delivered| + |failed|
      ensures forall k :: 0 <= k < |delivered| ==> delivered[k].ticket == batches[k].ticket
      ensures forall k :: 0 <= k < |failed| ==> failed[k] == batches[|delivered| + k].ticket
    {
      hide Tiles, FrontUnfinished, BackToBack, InOrder, View.Valid, Load;
      terminalError := true;
      failed := [];
      while pending != []
        invariant |failed| + |pending| == |old(pending)|
        invariant pending == old(pending)[|failed|..]
        invariant failed == Tickets(old(pending)[..|failed|])
        modifies `pending
      {
        failed := failed + [pending[0].ticket];
        pending := pending[1..];
      }
      if closeRequested {
        closeRequested, closeAnswer := false, Some(false);
      }
    }

    /** The actor's exit on a requested close: success is reported exactly when every record ever
        admitted is acknowledged, and then every ticket has its receipts. */
    method TryFinishClose() returns (done: bool)
      requires Valid()
      modifies `closeRequested, `closeAnswer
      ensures Valid()
      ensures closeAnswer == if done then Some(true) else old(closeAnswer)
      ensures done <==> old(closeRequested) && view.acked == |view.history|
      ensures done ==> |delivered| == |batches| && |receipts| == |view.history|
      ensures closeRequested == (old(closeRequested) && !done)
    {
      hide Resolves, BackToBack, InOrder, View.Valid, Load, Holds;
      TilesStart(pending, view);
      if pending != [] {
        UnacknowledgedStart(pending, view, 0);
      }
      done := pending == [] && closeRequested;
      if done {
        AllResolved(batches, delivered, pending, receipts);
        closeRequested, closeAnswer := false, Some(true);
      }
    }

    /** Moves one received command plus queued commands into `pending`. Stops at a close command,
        at an exhausted writer sequence, or once the submissions fill the socket window. */
    method DrainQueuedCommands(commands: seq<WriterCommand>) returns (taken: nat, ok: bool)
      requires Valid() && !closeRequested
      requires commands != [] && forall c <- commands :: ValidCommand(c)
      modifies `pending, `nextSeqNum, `view, `batches, `closeRequested
      ensures Valid()
      ensures 0 < taken <= |commands|
      ensures forall k :: 0 <= k < taken - 1 ==> commands[k].Submit?
      ensures !FillsWindow(commands[..taken - 1])
      ensures var admitted := if ok then taken else taken - 1;
        view == old(view).(history := old(view).history + Submitted(commands[..admitted]))
      ensures ok ==> closeRequested == commands[taken - 1].Close?
      ensures ok ==> closeRequested || FillsWindow(commands[..taken]) || taken == |commands|
      ensures !ok ==>
        && !closeRequested && commands[taken - 1].Submit?
        && |view.history| + |commands[taken - 1].batch| > U64_MAX
    {
      hide Tiles, FrontUnfinished, Resolves, BackToBack, InOrder, View.Valid, Load, Submitted, SubmittedBytes;
      NothingSubmitted(commands);
      var drainedRecords, drainedPayloadBytes := 0, 0;
      taken := 0;
      while true
        invariant Valid() && !closeRequested
        invariant 0 <= taken < |commands|
        invariant forall k :: 0 <= k < taken ==> commands[k].Submit?
        invariant drainedRecords == |Submitted(commands[..taken])|
        invariant drainedPayloadBytes == SubmittedBytes(commands[..taken])
        invariant !FillsWindow(commands[..taken])
        invariant view == old(view).(history := old(view).history + Submitted(commands[..taken]))
        decreases |commands| - taken
      {
        var command := commands[taken];
        taken := taken + 1;
        SubmittedOneMore(commands, taken - 1);
        assert ValidCommand(command);
        match command {
        case Submit(batch, ticket) =>
          ok := Admit(batch, ticket);
          if !ok {
            return;
          }
          drainedRecords := drainedRecords + |batch|;
          drainedPayloadBytes := drainedPayloadBytes + BatchBytes(batch);
        case Close =>
          closeRequested := true;
          return taken, true;
        }
        if drainedRecords >= MAX_WRITER_IN_FLIGHT_RECORDS
          || drainedPayloadBytes >= MAX_WRITER_IN_FLIGHT_PAYLOAD_BYTES
        {
          return;
        }
        if taken == |commands| {
          return;
        }
      }
    }
  }
}
