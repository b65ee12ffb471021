/** The handoff of terminal output from a native reader thread to the async main loop: a lock over three
    flags, a condition variable, a notification and a bounded channel, as one machine of atomic steps. */
module PtyHandoff {
  import opened Wrappers
  import opened Protocol

  // Each critical section is one step. A chunk is marked `started` when its send begins.

  const PTY_OUTPUT_QUEUE := 16

  /** What a read of the terminal yields; nothing is read after an error. */
  datatype Output = Data(bytes: Bytes) | ReadError

  datatype Thread =
    | Reading
    | Deciding(chunk: Output, asleep: bool)
    | Sending(chunk: Output)
    | Permitted(chunk: Output)
    | Finishing(chunk: Output, unsent: bool)
    | Acking(chunk: Output, unsent: bool)
    | Stopped

  /** A waiter on the notification: still waiting, completed by a permit stored before it was enabled,
      or notified since. Only a notification is passed on when the waiter is dropped. */
  datatype Wake = Waiting | ByPermit | Notified

  datatype Consumer =
    | Normal
    | PauseLoop
    | PauseEnabled(wake: Wake)
    | PauseSelect(wake: Wake)
    | PauseDrain
    | Paused
    | Closing(waitForInFlight: bool)
    | Draining(waitForInFlight: bool)
    | AwaitAck
    | Closed
    | Failed

  datatype State = State(
    closing: bool, resizing: bool, sending: bool, notified: bool,
    channel: seq<Output>, channelClosed: bool, ack: Option<seq<Output>>,
    thread: Thread, consumer: Consumer,
    received: seq<Output>, read: seq<Output>, started: seq<Output>, startedAtClose: seq<Output>)

  datatype Step =
    | Read(output: Output) | ReadEof | Decide | Acquire | Push | Finish | SendAck
    | Receive | BeginPause | EnableNotify | CheckSending | PauseWake | PauseDisconnected | DrainEnd | Resume
    | BeginClose | CloseChannel | DrainDone | TakeAck

  const Initial: State :=
    State(false, false, false, false, [], false, None, Reading, Normal, [], [], [], [])

  predicate Enabled(s: State, step: Step) {
    s.consumer != Failed
    && match step
       case Read(_) => s.thread.Reading?
       case ReadEof => s.thread.Reading?
       case Decide => s.thread.Deciding? && !s.thread.asleep
       case Acquire => s.thread.Sending? && (s.channelClosed || |s.channel| < PTY_OUTPUT_QUEUE)
       case Push => s.thread.Permitted?
       case Finish => s.thread.Finishing?
       case SendAck => s.thread.Acking?
       case Receive =>
         && |s.channel| > 0
         && (|| s.consumer.Normal? || s.consumer.PauseSelect? || s.consumer.PauseDrain?
             || s.consumer.Draining?)
       case BeginPause => s.consumer.Normal?
       case EnableNotify => s.consumer.PauseLoop?
       case CheckSending => s.consumer.PauseEnabled?
       case PauseWake => s.consumer.PauseSelect? && !s.consumer.wake.Waiting?
       case PauseDisconnected => s.consumer.PauseSelect? && |s.channel| == 0 && s.thread.Stopped?
       case DrainEnd => s.consumer.PauseDrain? && |s.channel| == 0
       case Resume => s.consumer.Paused?
       case BeginClose => s.consumer.Normal?
       case CloseChannel => s.consumer.Closing?
       case DrainDone => s.consumer.Draining? && |s.channel| == 0 && !s.thread.Permitted?
       case TakeAck => s.consumer.AwaitAck? && s.ack.Some?
  }

  /** `notify_all` on the condition variable. */
  function WakeThread(thread: Thread): Thread {
    if thread.Deciding? then Deciding(thread.chunk, false) else thread
  }

  /** Where the consumer goes on after it queued `output`. */
  function AfterQueueing(output: Output, next: Consumer): Consumer {
    if output.ReadError? then Failed else next
  }

  /** The first lock section of `send_pty_output`. */
  function DecideStep(s: State): State
    requires s.thread.Deciding?
  {
    if s.resizing && !s.closing then s.(thread := Deciding(s.thread.chunk, true))
    else if s.closing then s.(thread := Stopped)
    else s.(thread := Sending(s.thread.chunk), sending := true, started := s.started + [s.thread.chunk])
  }

  /** The last lock section of `send_pty_output`, with its `notify_one`. */
  function FinishStep(s: State): State
    requires s.thread.Finishing?
  {
    var chunk, unsent := s.thread.chunk, s.thread.unsent;
    var thread := if s.closing then Acking(chunk, unsent)
                  else if unsent || chunk.ReadError? then Stopped
                  else Reading;
    var t := s.(sending := false, thread := thread);
    match s.consumer
    case PauseEnabled(Waiting) => t.(consumer := PauseEnabled(Notified))
    case PauseSelect(Waiting) => t.(consumer := PauseSelect(Notified))
    case _ => t.(notified := true)
  }

  function ReceiveStep(s: State): State
    requires |s.channel| > 0
  {
    var output, selecting := s.channel[0], s.consumer.PauseSelect?;
    s.(channel := s.channel[1..], received := s.received + [output],
       consumer := AfterQueueing(output, if selecting then PauseLoop else s.consumer),
       notified := s.notified || (selecting && s.consumer.wake.Notified?))
  }

  function Next(s: State, step: Step): State
    requires Enabled(s, step)
  {
    match step
    case Read(output) => s.(thread := Deciding(output, false), read := s.read + [output])
    case ReadEof => s.(thread := Stopped)
    case Decide => DecideStep(s)
    case Acquire =>
      s.(thread := if s.channelClosed then Finishing(s.thread.chunk, true) else Permitted(s.thread.chunk))
    case Push => s.(channel := s.channel + [s.thread.chunk], thread := Finishing(s.thread.chunk, false))
    case Finish => FinishStep(s)
    case SendAck => s.(ack := Some(if s.thread.unsent then [s.thread.chunk] else []), thread := Stopped)
    case Receive => ReceiveStep(s)
    case BeginPause => s.(consumer := PauseLoop, resizing := true)
    case EnableNotify => s.(consumer := PauseEnabled(if s.notified then ByPermit else Waiting), notified := false)
    case CheckSending =>
      if s.sending then s.(consumer := PauseSelect(s.consumer.wake))
      else s.(consumer := PauseDrain, notified := s.notified || s.consumer.wake.Notified?)
    case PauseWake => s.(consumer := PauseLoop)
    case PauseDisconnected => s.(consumer := Paused, notified := s.notified || s.consumer.wake.Notified?)
    case DrainEnd => s.(consumer := Paused)
    case Resume => s.(consumer := Normal, resizing := false, thread := WakeThread(s.thread))
    case BeginClose =>
      s.(consumer := Closing(s.sending), closing := true, resizing := false,
         thread := WakeThread(s.thread), startedAtClose := s.started)
    case CloseChannel => s.(consumer := Draining(s.consumer.waitForInFlight), channelClosed := true)
    case DrainDone => s.(consumer := if s.consumer.waitForInFlight then AwaitAck else Closed)
    case TakeAck =>
      s.(consumer := if s.ack.value != [] then AfterQueueing(s.ack.value[0], Closed) else Closed,
         ack := None, received := s.received + s.ack.value)
  }

  // ----- invariant -----

  /** A chunk whose send began and that is neither in the channel nor received. */
  function InFlight(s: State): seq<Output> {
    match s.thread
    case Sending(chunk) => [chunk]
    case Permitted(chunk) => [chunk]
    case Finishing(chunk, unsent) => if unsent then [chunk] else []
    case Acking(chunk, unsent) => if unsent then [chunk] else []
    case _ => if s.ack.Some? then s.ack.value else []
  }

  /** A chunk that was read and has not begun sending. */
  ghost predicate Undecided(s: State, rest: seq<Output>) {
    match s.thread
    case Deciding(chunk, _) => rest == [chunk]
    case Stopped => |rest| <= 1 && (rest != [] ==> s.closing)
    case _ => rest == []
  }

  /** What was started is received, in the channel or in flight. */
  ghost predicate NoneLost(s: State) {
    s.started == s.received + s.channel + InFlight(s)
  }

  /** What was read is started or undecided, and nothing starts once closing is set. */
  ghost predicate InOrder(s: State) {
    && s.started <= s.read && Undecided(s, s.read[|s.started|..])
    && (s.closing ==> s.started == s.startedAtClose)
  }

  ghost predicate Conserved(s: State) {
    NoneLost(s) && InOrder(s)
  }

  predicate InSend(thread: Thread) {
    thread.Sending? || thread.Permitted? || thread.Finishing?
  }

  predicate IsPausing(consumer: Consumer) {
    consumer.PauseLoop? || consumer.PauseEnabled? || consumer.PauseSelect? || consumer.PauseDrain?
  }

  predicate IsClosing(consumer: Consumer) {
    consumer.Closing? || consumer.Draining? || consumer.AwaitAck?
  }

  /** An acknowledgement is on its way, or there. */
  predicate AckComing(s: State) {
    InSend(s.thread) || s.thread.Acking? || s.ack.Some?
  }

  /** How the flags, the thread and the consumer fit together. */
  ghost predicate Flags(s: State) {
    && (s.sending <==> InSend(s.thread))
    && (s.consumer != Failed ==>
          && (s.resizing <==> IsPausing(s.consumer) || s.consumer.Paused?)
          && (s.closing <==> IsClosing(s.consumer) || s.consumer.Closed?)
          && (s.channelClosed <==> s.consumer.Draining? || s.consumer.AwaitAck? || s.consumer.Closed?))
    && (s.thread.Deciding? && s.thread.asleep ==> s.resizing && !s.closing)
    && (s.thread.Finishing? && s.thread.unsent ==> s.closing)
    && (s.thread.Acking? ==> s.closing)
    && (s.ack.Some? ==> s.closing && s.thread.Stopped?)
    && |s.channel| + (if s.thread.Permitted? then 1 else 0) <= PTY_OUTPUT_QUEUE
  }

  ghost predicate ConsumerFits(s: State) {
    match s.consumer
    case PauseSelect(wake) => wake.Waiting? ==> s.sending
    case PauseDrain => !s.sending
    case Paused => !s.sending && s.channel == []
    case Closing(waitForInFlight) => waitForInFlight <==> AckComing(s)
    case Draining(waitForInFlight) => waitForInFlight <==> AckComing(s)
    case AwaitAck => AckComing(s) && s.channel == [] && !s.thread.Permitted?
    case Closed => !AckComing(s) && s.channel == []
    case _ => true
  }

  ghost predicate Inv(s: State) {
    Conserved(s) && Flags(s) && ConsumerFits(s)
  }

  predicate IsThreadStep(step: Step) {
    || step.Read? || step.ReadEof? || step.Decide? || step.Acquire? || step.Push? || step.Finish?
    || step.SendAck?
  }

  lemma ThreadStepKeepsFlags(s: State, step: Step)
    requires Flags(s) && ConsumerFits(s) && Enabled(s, step) && IsThreadStep(step)
    ensures Flags(Next(s, step))
  {
    hide ReceiveStep;
  }

  lemma ReceiveKeepsFlags(s: State)
    requires Flags(s) && Enabled(s, Receive)
    ensures Flags(ReceiveStep(s))
  {
  }

  lemma ConsumerStepKeepsFlags(s: State, step: Step)
    requires Flags(s) && ConsumerFits(s) && Enabled(s, step) && !IsThreadStep(step)
    ensures Flags(Next(s, step))
  {
    if step.Receive? {
      ReceiveKeepsFlags(s);
    }
    hide DecideStep, FinishStep, ReceiveStep;
  }

  lemma StepKeepsFlags(s: State, step: Step)
    requires Flags(s) && ConsumerFits(s) && Enabled(s, step)
    ensures Flags(Next(s, step))
  {
    hide Flags, ConsumerFits, Next;
    if IsThreadStep(step) {
      ThreadStepKeepsFlags(s, step);
    } else {
      ConsumerStepKeepsFlags(s, step);
    }
  }

  lemma StepKeepsConsumerFits(s: State, step: Step)
    requires Flags(s) && ConsumerFits(s) && Enabled(s, step)
    ensures ConsumerFits(Next(s, step))
  {
  }

  predicate MovesChunks(step: Step) {
    step.Decide? || step.Push? || step.Receive? || step.TakeAck?
  }

  ghost predicate SameChunks(s: State, t: State) {
    && t.started == s.started && t.received == s.received && t.channel == s.channel
    && InFlight(t) == InFlight(s)
  }

  lemma ThreadStepMovesNothing(s: State, step: Step)
    requires Flags(s) && Enabled(s, step) && IsThreadStep(step) && !MovesChunks(step)
    ensures SameChunks(s, Next(s, step))
  {
  }

  lemma ConsumerStepMovesNothing(s: State, step: Step)
    requires Flags(s) && Enabled(s, step) && !IsThreadStep(step) && !MovesChunks(step)
    ensures SameChunks(s, Next(s, step))
  {
    hide DecideStep, FinishStep, ReceiveStep;
  }

  /** Only four steps move chunks at all. */
  lemma OtherStepsMoveNothing(s: State, step: Step)
    requires Flags(s) && Enabled(s, step) && !MovesChunks(step)
    ensures SameChunks(s, Next(s, step))
  {
    hide Flags, Next, SameChunks;
    if IsThreadStep(step) {
      ThreadStepMovesNothing(s, step);
    } else {
      ConsumerStepMovesNothing(s, step);
    }
  }

  lemma DecideLosesNone(s: State)
    requires NoneLost(s) && Flags(s) && s.thread.Deciding?
    ensures NoneLost(DecideStep(s))
  {
    assert InFlight(s) == [];
    assert s.received + s.channel + [] == s.received + s.channel;
  }

  lemma ReceiveLosesNone(s: State)
    requires NoneLost(s) && |s.channel| > 0
    ensures NoneLost(ReceiveStep(s))
  {
    var t := ReceiveStep(s);
    assert s.received + s.channel == t.received + t.channel;
    assert InFlight(t) == InFlight(s);
  }

  lemma StepLosesNone(s: State, step: Step)
    requires NoneLost(s) && Flags(s) && ConsumerFits(s) && Enabled(s, step)
    ensures NoneLost(Next(s, step))
  {
    match step {
      case Decide => DecideLosesNone(s);
      case Push =>
        assert s.received + s.channel + [s.thread.chunk] == s.received + (s.channel + [s.thread.chunk]) + [];
      case Receive => ReceiveLosesNone(s);
      case TakeAck =>
        assert s.received + [] + s.ack.value == (s.received + s.ack.value) + [] + [];
      case _ =>
        OtherStepsMoveNothing(s, step);
        hide Next, Flags, ConsumerFits;
    }
  }

  lemma StepKeepsOrder(s: State, step: Step)
    requires InOrder(s) && Flags(s) && Enabled(s, step)
    ensures InOrder(Next(s, step))
  {
    match step {
      case Read(output) =>
        assert s.read[|s.started|..] == [];
        assert (s.read + [output])[|s.started|..] == [output];
      case Decide =>
        assert s.started + s.read[|s.started|..] == s.read;
      case _ =>
    }
  }

  lemma StepConserves(s: State, step: Step)
    requires Inv(s) && Enabled(s, step)
    ensures Conserved(Next(s, step))
  {
    hide Next, Flags, ConsumerFits, NoneLost, InOrder;
    StepLosesNone(s, step);
    StepKeepsOrder(s, step);
  }

  /** Every step keeps the invariant: no chunk is lost, doubled or reordered. */
  lemma StepKeepsInv(s: State, step: Step)
    requires Inv(s) && Enabled(s, step)
    ensures Inv(Next(s, step))
  {
    StepKeepsFlags(s, step);
    StepKeepsConsumerFits(s, step);
    StepConserves(s, step);
  }

  ghost predicate Run(s: State, steps: seq<Step>, t: State)
    decreases |steps|
  {
    if |steps| == 0 then t == s
    else Enabled(s, steps[0]) && Run(Next(s, steps[0]), steps[1..], t)
  }

  lemma {:induction false} RunKeepsInv(s: State, steps: seq<Step>, t: State)
    requires Inv(s) && Run(s, steps, t)
    ensures Inv(t)
    decreases |steps|
  {
    hide Inv, Next;
    if |steps| > 0 {
      StepKeepsInv(s, steps[0]);
      RunKeepsInv(Next(s, steps[0]), steps[1..], t);
    }
  }

  // ----- what the invariant gives -----

  /** Over all interleavings: once closed, exactly the chunks whose send began before closing was set
      are queued, once each and in the order read, and at most the one chunk read last is missing. */
  lemma ClosedQueuesEveryStartedChunk(steps: seq<Step>, t: State)
    requires Run(Initial, steps, t) && t.consumer.Closed?
    ensures t.received == t.started == t.startedAtClose
    ensures t.received <= t.read && |t.read| <= |t.received| + 1
  {
    RunKeepsInv(Initial, steps, t);
    assert t.received + [] + [] == t.received;
  }

  /** Between pausing and resuming the channel stays empty, whatever the reader thread does. */
  lemma PausedIsQuiet(steps: seq<Step>, t: State, step: Step)
    requires Run(Initial, steps, t) && t.consumer.Paused? && Enabled(t, step)
    ensures t.channel == [] && t.received == t.started
    ensures !step.Resume? ==>
              var u := Next(t, step);
              u.consumer.Paused? && u.channel == [] && u.started == t.started
  {
    RunKeepsInv(Initial, steps, t);
    hide Run, InOrder;
    PausedHoldsEverything(t);
    hide NoneLost;
    if step.Decide? {
      assert t.resizing && !t.closing;
    }
  }

  lemma PausedHoldsEverything(t: State)
    requires NoneLost(t) && Flags(t) && ConsumerFits(t) && t.consumer.Paused?
    ensures t.channel == [] && t.received == t.started
  {
    assert InFlight(t) == [];
    assert t.received + [] + [] == t.received;
  }

  /** Without a shutdown nothing is dropped: what was read is queued, in the channel or in hand. */
  lemma NothingDroppedBeforeClosing(steps: seq<Step>, t: State)
    requires Run(Initial, steps, t) && !t.closing
    ensures t.read == t.received + t.channel + InFlight(t)
                      + (if t.thread.Deciding? then [t.thread.chunk] else [])
  {
    RunKeepsInv(Initial, steps, t);
    assert t.read == t.started + t.read[|t.started|..];
  }

  // ----- errors and the end of reading -----

  /** The chunk in the reader thread's hands. */
  function InHand(thread: Thread): Option<Output> {
    match thread
    case Deciding(chunk, _) => Some(chunk)
    case Sending(chunk) => Some(chunk)
    case Permitted(chunk) => Some(chunk)
    case Finishing(chunk, _) => Some(chunk)
    case Acking(chunk, _) => Some(chunk)
    case _ => None
  }

  predicate EndsInError(outputs: seq<Output>) {
    |outputs| > 0 && outputs[|outputs| - 1].ReadError?
  }

  /** An error, if any, is the last of `outputs`. */
  ghost predicate NothingBehindError(outputs: seq<Output>) {
    forall i :: 0 <= i < |outputs| - 1 ==> outputs[i].Data?
  }

  /** The consumer has failed exactly if it was handed an error. */
  ghost predicate FailsOnError(s: State) {
    && NothingBehindError(s.received)
    && (s.consumer == Failed <==> EndsInError(s.received))
    && (s.ack.Some? ==> |s.ack.value| <= 1)
  }

  lemma ThreadStepKeepsFailsOnError(s: State, step: Step)
    requires FailsOnError(s) && Enabled(s, step) && IsThreadStep(step)
    ensures FailsOnError(Next(s, step))
  {
    hide ReceiveStep, EndsInError;
  }

  lemma HandingOverKeepsFailsOnError(s: State, step: Step)
    requires FailsOnError(s) && Enabled(s, step) && (step.Receive? || step.TakeAck?)
    ensures FailsOnError(Next(s, step))
  {
    hide DecideStep, FinishStep;
  }

  lemma StepKeepsFailsOnError(s: State, step: Step)
    requires FailsOnError(s) && Enabled(s, step)
    ensures FailsOnError(Next(s, step))
  {
    if IsThreadStep(step) {
      ThreadStepKeepsFailsOnError(s, step);
    } else if step.Receive? || step.TakeAck? {
      HandingOverKeepsFailsOnError(s, step);
    }
    hide DecideStep, FinishStep, ReceiveStep, NothingBehindError, EndsInError;
  }

  /** The thread reads on behind every chunk, and stops only behind an error, at the end of the terminal or
      while closing. */
  ghost predicate ReadsOn(s: State, ended: bool) {
    && NothingBehindError(s.read)
    && (s.thread.Reading? ==> !EndsInError(s.read))
    && (InHand(s.thread).Some? ==> |s.read| > 0 && s.read[|s.read| - 1] == InHand(s.thread).value)
    && (s.thread.Stopped? && !s.closing && !ended ==> EndsInError(s.read))
  }

  lemma ThreadStepKeepsReadsOn(s: State, step: Step, ended: bool)
    requires Flags(s) && ReadsOn(s, ended) && Enabled(s, step) && IsThreadStep(step)
    ensures ReadsOn(Next(s, step), ended || step.ReadEof?)
  {
    hide ReceiveStep;
  }

  /** The consumer leaves the thread alone, but for waking it. */
  lemma ConsumerStepKeepsThread(s: State, step: Step)
    requires Enabled(s, step) && !IsThreadStep(step)
    ensures var t := Next(s, step);
      t.read == s.read && (t.thread == s.thread || t.thread == WakeThread(s.thread)) && (s.closing ==> t.closing)
  {
    hide DecideStep, FinishStep, AfterQueueing;
    if step.Receive? {
      ReceiveKeepsThread(s);
    }
    hide ReceiveStep, WakeThread;
  }

  lemma ReceiveKeepsThread(s: State)
    requires |s.channel| > 0
    ensures var t := ReceiveStep(s); t.read == s.read && t.thread == s.thread && t.closing == s.closing
  {
  }

  lemma StepKeepsReadsOn(s: State, step: Step, ended: bool)
    requires Flags(s) && ReadsOn(s, ended) && Enabled(s, step)
    ensures ReadsOn(Next(s, step), ended || step.ReadEof?)
  {
    if IsThreadStep(step) {
      ThreadStepKeepsReadsOn(s, step, ended);
    } else {
      ConsumerStepKeepsThread(s, step);
    }
    hide Next, Enabled, Flags, NothingBehindError, EndsInError;
  }

  lemma {:induction false} RunFailsAndReads(s: State, steps: seq<Step>, t: State, ended: bool)
    requires Inv(s) && FailsOnError(s) && ReadsOn(s, ended) && Run(s, steps, t)
    ensures FailsOnError(t) && ReadsOn(t, ended || ReadEof in steps)
    decreases |steps|
  {
    hide Inv, Next, FailsOnError, ReadsOn;
    if |steps| > 0 {
      StepKeepsInv(s, steps[0]);
      FlagsOf(s);
      StepKeepsFailsOnError(s, steps[0]);
      StepKeepsReadsOn(s, steps[0], ended);
      RunFailsAndReads(Next(s, steps[0]), steps[1..], t, ended || steps[0].ReadEof?);
      assert steps == [steps[0]] + steps[1..];
    }
  }

  lemma FlagsOf(s: State)
    requires Inv(s)
    ensures Flags(s)
  {
  }

  /** The consumer fails if and only if the terminal's read failed and the error was handed over; until
      then everything handed over is data. */
  lemma ConsumerFailsOnReadError(steps: seq<Step>, t: State)
    requires Run(Initial, steps, t)
    ensures t.consumer == Failed <==> exists i :: 0 <= i < |t.received| && t.received[i].ReadError?
    ensures forall i :: 0 <= i < |t.received| - 1 ==> t.received[i].Data?
  {
    RunFailsAndReads(Initial, steps, t, false);
    hide Run, ReadsOn;
  }

  /** Nothing is read behind an error, and unless the thread saw the end of the terminal, or an error, it
      goes on reading until the handoff is closed. */
  lemma ThreadReadsOn(steps: seq<Step>, t: State)
    requires Run(Initial, steps, t)
    ensures forall i :: 0 <= i < |t.read| - 1 ==> t.read[i].Data?
    ensures t.thread.Stopped? && !t.closing && ReadEof !in steps ==>
              |t.read| > 0 && t.read[|t.read| - 1].ReadError?
  {
    RunFailsAndReads(Initial, steps, t, false);
    hide Run, FailsOnError;
  }

  // ----- progress -----

  function HandoffRank(s: State): nat {
    |s.channel|
    + match s.thread
      case Deciding(_, _) => 5
      case Sending(_) => 4
      case Permitted(_) => 3
      case Finishing(_, _) => 1
      case _ => 0
  }

  /** In normal operation every chunk that was read gets through: until all are handed over, some step
      other than a read can happen, and it brings them nearer. */
  lemma ChunksGetThrough(s: State) returns (step: Step)
    requires Inv(s) && s.consumer.Normal? && s.received != s.read
    ensures Enabled(s, step) && !step.Read? && !step.ReadEof?
    ensures var t := Next(s, step); HandoffRank(t) < HandoffRank(s) && (t.consumer.Normal? || t.consumer == Failed)
  {
    SomethingIsOnItsWay(s);
    step := if |s.channel| > 0 then Receive
            else match s.thread
              case Deciding(_, _) => Decide
              case Sending(_) => Acquire
              case Permitted(_) => Push
              case _ => Finish;
    hide Conserved;
  }

  lemma SomethingIsOnItsWay(s: State)
    requires Inv(s) && s.consumer.Normal? && s.received != s.read
    ensures |s.channel| > 0 || s.thread.Deciding? || s.thread.Sending? || s.thread.Permitted?
            || s.thread.Finishing?
  {
    if s.channel == [] && InFlight(s) == [] {
      assert s.received + [] + [] == s.received;
      assert s.read == s.started + s.read[|s.started|..];
    }
  }

  predicate InProgress(s: State) {
    IsPausing(s.consumer) || IsClosing(s.consumer)
  }

  /** A pause and a close never wait for the terminal to produce something, no wake-up is lost, and the
      acknowledgement that a close waits for is always sent: some step other than a read can happen. */
  lemma WaitingIsNeverStuck(s: State) returns (step: Step)
    requires Inv(s) && InProgress(s)
    ensures Enabled(s, step) && !step.Read? && !step.ReadEof?
  {
    var threadStep := match s.thread
      case Sending(_) => Acquire
      case Permitted(_) => Push
      case Finishing(_, _) => Finish
      case _ => SendAck;
    match s.consumer {
      case PauseLoop => step := EnableNotify;
      case PauseEnabled(_) => step := CheckSending;
      case PauseSelect(wake) =>
        step := if !wake.Waiting? then PauseWake else if |s.channel| > 0 then Receive else threadStep;
      case PauseDrain => step := if |s.channel| > 0 then Receive else DrainEnd;
      case Closing(_) => step := CloseChannel;
      case Draining(_) =>
        step := if |s.channel| > 0 then Receive else if s.thread.Permitted? then Push else DrainDone;
      case AwaitAck => step := if s.ack.Some? then TakeAck else threadStep;
    }
  }

  function B(b: bool): nat { if b then 1 else 0 }

  function ThreadRank(thread: Thread): nat {
    match thread
    case Sending(_) => 8
    case Permitted(_) => 7
    case Finishing(_, _) => 5
    case Reading => 4
    case Deciding(_, asleep) => if asleep then 2 else 3
    case Acking(_, _) => 1
    case Stopped => 0
  }

  function ConsumerRank(consumer: Consumer): nat {
    match consumer
    case PauseLoop => 3
    case PauseEnabled(_) => 2
    case PauseSelect(_) => 1
    case PauseDrain => 1
    case Closing(_) => 3
    case Draining(_) => 2
    case AwaitAck => 1
    case _ => 0
  }

  /** Wake-ups that are stored, delivered or still to come. */
  function WakeUps(s: State): nat {
    B(s.notified) + B(InSend(s.thread))
    + B((s.consumer.PauseEnabled? || s.consumer.PauseSelect?) && !s.consumer.wake.Waiting?)
  }

  function Rank(s: State): nat {
    4 * (|s.channel| + B(s.thread.Sending? || s.thread.Permitted?) + WakeUps(s)) + ConsumerRank(s.consumer)
    + ThreadRank(s.thread)
  }

  lemma ThreadStepEndsWaiting(s: State, step: Step)
    requires Flags(s) && InProgress(s) && Enabled(s, step) && IsThreadStep(step)
    ensures Rank(Next(s, step)) < Rank(s)
  {
    hide ReceiveStep;
  }

  lemma ConsumerStepEndsWaiting(s: State, step: Step)
    requires Flags(s) && InProgress(s) && Enabled(s, step) && !IsThreadStep(step)
    ensures Rank(Next(s, step)) < Rank(s)
  {
    hide DecideStep, FinishStep;
  }

  /** Every step of a pause or a close brings its end nearer, so both end after finitely many steps. */
  lemma WaitingEnds(s: State, step: Step)
    requires Inv(s) && InProgress(s) && Enabled(s, step)
    ensures Rank(Next(s, step)) < Rank(s)
  {
    hide Conserved, ConsumerFits, Flags, Next, Rank;
    if IsThreadStep(step) {
      ThreadStepEndsWaiting(s, step);
    } else {
      ConsumerStepEndsWaiting(s, step);
    }
  }
}
