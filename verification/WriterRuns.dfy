/**
 * Whole runs of a durable writer. Both implementations are proved step by step against this
 * relation, so what holds of its runs holds of either writer.
 */
module WriterRuns {
  import opened Protocol
  import opened WriterSpec
  import opened WriterQueue

  /** What the outside does to a writer. */
  datatype Input =
    | Admit(batch: seq<RecordPayload>)
    | TakeFrame
    | Receive(ack: AppendAck)
    | LoseConnection

  /** What the writer shows for it. */
  datatype Output =
    | Admission(accepted: bool)
    | Frame(records: seq<AppendRecord>)
    | Verdict(accepted: bool)
    | Rewound

  datatype Step = Step(input: Input, output: Output, after: View)

  /** One step of either writer: every call of `Admit`, `TakeFrame`, `DispatchAck` and `Recover` of the one
      and of their counterparts in the other ensures to be such a step. */
  ghost predicate Steps(v: View, step: Step) {
    match step.input
    case Admit(batch) =>
      && ValidBatch(batch)
      && step.output == Admission(|v.history| + |batch| <= U64_MAX)
      && step.after == (if step.output.accepted then v.(history := v.history + batch) else v)
    case TakeFrame =>
      step.output.Frame? && SendsFrame(v, step.after, step.output.records)
    case Receive(ack) =>
      && step.output == Verdict(Acceptable(v, ack))
      && step.after == (if Acceptable(v, ack) then Acknowledged(v, ack) else v)
    case LoseConnection =>
      step.output == Rewound && step.after == Reconnected(v)
  }

  ghost predicate Run(v: View, steps: seq<Step>)
    decreases |steps|
  {
    steps != [] ==> Steps(v, steps[0]) && Run(steps[0].after, steps[1..])
  }

  function Final(v: View, steps: seq<Step>): View {
    if steps == [] then v else steps[|steps| - 1].after
  }

  lemma StepKeepsValid(v: View, step: Step)
    requires v.Valid() && Steps(v, step)
    ensures step.after.Valid()
    ensures v.acked <= step.after.acked && v.history <= step.after.history
  {
    match step.input
    case Admit(batch) =>
      if step.output.accepted { AdmitKeepsView(v, batch); }
    case TakeFrame =>
      SentFramesAreValid(v, step.after, step.output.records);
    case Receive(ack) =>
      if Acceptable(v, ack) { AcknowledgedIsValid(v, ack); }
    case LoseConnection =>
      assert Load(v.history, v.acked, v.acked) == 0;
  }

  /** Writers in the same state given the same inputs send the same frames, give the same
      verdicts on every acknowledgement and stay in the same state. */
  lemma {:induction false} WritersAgree(v: View, steps: seq<Step>, others: seq<Step>)
    requires Run(v, steps) && Run(v, others) && |steps| == |others|
    requires forall i :: 0 <= i < |steps| ==> steps[i].input == others[i].input
    ensures steps == others
    decreases |steps|
  {
    if steps != [] {
      if steps[0].input.TakeFrame? {
        FrameEndUnique(v, steps[0].after.sent, others[0].after.sent);
      }
      assert steps[0] == others[0];
      forall i | 0 <= i < |steps[1..]|
        ensures steps[1..][i].input == others[1..][i].input
      {
        assert steps[1..][i] == steps[i + 1] && others[1..][i] == others[i + 1];
      }
      WritersAgree(steps[0].after, steps[1..], others[1..]);
      assert steps == [steps[0]] + steps[1..] && others == [others[0]] + others[1..];
    }
  }

  function AcceptedAcks(steps: seq<Step>): nat {
    if steps == [] then 0
    else (if steps[0].output == Verdict(true) then 1 else 0) + AcceptedAcks(steps[1..])
  }

  /** Nothing is admitted while a writer closes. */
  predicate Closing(steps: seq<Step>) {
    forall s <- steps :: !s.input.Admit?
  }

  /** A closing writer accepts at most as many acknowledgements as it has unacknowledged records:
      each one acknowledges at least one of them, and reconnects give none back. */
  lemma {:induction false} CloseNeedsFewAcks(v: View, steps: seq<Step>)
    requires v.Valid() && Run(v, steps) && Closing(steps)
    ensures Final(v, steps).Valid() && Final(v, steps).history == v.history
    ensures v.acked + AcceptedAcks(steps) <= Final(v, steps).acked <= |v.history|
    decreases |steps|
  {
    if steps != [] {
      StepKeepsValid(v, steps[0]);
      assert steps[0] in steps;
      assert forall s <- steps[1..] :: s in steps;
      CloseNeedsFewAcks(steps[0].after, steps[1..]);
    }
  }

  /** A writer is never stuck: while a record is unacknowledged, either one is in flight and an
      honest acknowledgement of it is accepted, or the next frame carries one. */
  lemma NeverStuck(v: View, step: Step, start: nat, count: nat)
    requires v.Valid() && v.acked < |v.history|
    requires step.input.TakeFrame? && Steps(v, step)
    ensures step.after.acked < step.after.sent <= U64_MAX
    ensures 0 < count <= step.after.sent - v.acked && start + count <= U64_MAX ==>
              Acceptable(step.after, AppendAck(v.acked, v.acked + count, start, start + count))
  {
    SentFramesAreValid(v, step.after, step.output.records);
  }

  /** What a resolved ticket holds: one receipt for each record of its batch, with consecutive
      writer numbers, each at its place in the acknowledgement that covered it. */
  lemma TicketReceiptsMatchBatch<R>(
    batches: seq<Batch>, delivered: seq<Delivery<R>>, pending: seq<PendingSubmission<R>>,
    receipts: seq<R>, writerSeqNum: R -> nat, k: nat)
    requires Resolves(batches, delivered, pending, receipts) && k < |delivered|
    requires forall n :: 0 <= n < |receipts| ==> writerSeqNum(receipts[n]) == n
    ensures delivered[k].ticket == batches[k].ticket
    ensures |delivered[k].receipts| == batches[k].count
    ensures forall j :: 0 <= j < batches[k].count ==>
              writerSeqNum(delivered[k].receipts[j]) == batches[k].start + j
  {
  }

  /** Batches are numbered in admission order without gaps: a batch starts after the records of
      all earlier ones. */
  lemma {:induction false} BatchesDoNotOverlap(batches: seq<Batch>, end: nat, i: nat, j: nat)
    requires BackToBack(batches, end) && i < j < |batches|
    ensures batches[i].start + batches[i].count <= batches[j].start
    ensures batches[j].start + batches[j].count <= end
    decreases j, |batches| - j
  {
    if i < j - 1 {
      BatchesDoNotOverlap(batches[..j], batches[j].start, i, j - 1);
    }
    if j < |batches| - 1 {
      BatchesDoNotOverlap(batches[..|batches| - 1], batches[|batches| - 1].start, i, j);
    }
  }
}
