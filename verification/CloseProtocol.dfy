/** Submitting, closing and aborting against the writer actor, as interleaved steps of any number of
    producers, one closer and the actor. */
module CloseProtocol {
  import opened Wrappers

  // Producers check a flag and send a command under a read lock, `close` moves the flag under the write
  // lock, and the actor's exit has several steps. Tickets are numbered in the order in which their
  // commands entered the channel.

  datatype Flag = Open | Closing | Done
  datatype Command = Submit(ticket: nat) | Close
  datatype Producer = Locked | Checked
  datatype Closer = Idle | HoldingLock | Marked | Joining | Returned(ok: bool) | Aborted
  datatype Actor = Running | Stopping | GuardDropped | Gone

  /** How a ticket was settled by its channel. */
  datatype Outcome = Receipts | Failed

  datatype State = State(
    flag: Flag, queue: seq<Command>, producers: map<nat, Producer>, closer: Closer, actor: Actor,
    pending: seq<nat>, closeTaken: bool, done: Option<bool>, terminalError: bool,
    outcomes: map<nat, Outcome>, accepted: nat, taken: nat, closeSent: bool)

  const Initial: State :=
    State(Open, [], map[], Idle, Running, [], false, None, false, map[], 0, 0, false)

  datatype Step =
    | Lock(producer: nat) | Check(producer: nat) | Send(producer: nat)
    | LockClose | MarkClosing | SendClose | Join | Abort
    | Take | TakeExhausted | AckFront | FinishClose | Fail | Cancelled | DropGuard | DropReceiver

  predicate Enabled(s: State, step: Step) {
    match step
    case Lock(p) => p !in s.producers && !s.closer.HoldingLock?
    case Check(p) => p in s.producers && s.producers[p].Locked?
    case Send(p) => p in s.producers && s.producers[p].Checked?
    case LockClose => s.closer.Idle? && |s.producers| == 0
    case MarkClosing => s.closer.HoldingLock?
    case SendClose => s.closer.Marked?
    case Join => s.closer.Joining? && s.actor.Gone?
    case Abort => s.closer.Idle? || s.closer.Joining?
    case Take => s.actor.Running? && !s.closeTaken && |s.queue| > 0
    case TakeExhausted => s.actor.Running? && !s.closeTaken && |s.queue| > 0 && s.queue[0].Submit?
    case AckFront => s.actor.Running? && |s.pending| > 0
    case FinishClose => s.actor.Running? && s.closeTaken && |s.pending| == 0
    case Fail => s.actor.Running?
    case Cancelled => s.actor.Running? && s.closer.Aborted?
    case DropGuard => s.actor.Stopping?
    case DropReceiver => s.actor.GuardDropped?
  }

  /** Dropping or failing the channels of `tickets`. */
  function FailAll(outcomes: map<nat, Outcome>, tickets: seq<nat>): map<nat, Outcome>
    decreases |tickets|
  {
    if |tickets| == 0 then outcomes
    else FailAll(outcomes, tickets[..|tickets| - 1])[tickets[|tickets| - 1] := Failed]
  }

  /** The tickets whose commands are still in the channel. */
  function Tickets(queue: seq<Command>): seq<nat>
    decreases |queue|
  {
    if |queue| == 0 then []
    else
      var before := Tickets(queue[..|queue| - 1]);
      if queue[|queue| - 1].Submit? then before + [queue[|queue| - 1].ticket] else before
  }

  /** The actor stops with an error: every ticket in its hands fails, and a `Close` already taken too. */
  function StopWithError(s: State, inHand: seq<nat>): State {
    s.(actor := Stopping, terminalError := true, pending := [], closeTaken := false,
       done := if s.closeTaken then Some(false) else s.done, outcomes := FailAll(s.outcomes, inHand))
  }

  function Next(s: State, step: Step): State
    requires Enabled(s, step)
  {
    match step
    case Lock(p) => s.(producers := s.producers[p := Locked])
    case Check(p) =>
      if s.flag.Open? then s.(producers := s.producers[p := Checked])
      else s.(producers := s.producers - {p})
    case Send(p) =>
      if s.actor.Gone? then s.(producers := s.producers - {p})
      else s.(producers := s.producers - {p}, queue := s.queue + [Submit(s.accepted)], accepted := s.accepted + 1)
    case LockClose => s.(closer := HoldingLock)
    case MarkClosing => s.(closer := Marked, flag := if s.flag.Open? then Closing else s.flag)
    case SendClose =>
      if s.actor.Gone? then s.(closer := Returned(false))
      else s.(closer := Joining, queue := s.queue + [Close], closeSent := true)
    case Join => s.(closer := Returned(s.done == Some(true)))
    case Abort => s.(closer := Aborted, terminalError := true, flag := Done)
    case Take =>
      (match s.queue[0]
       case Submit(t) => s.(queue := s.queue[1..], pending := s.pending + [t], taken := s.taken + 1)
       case Close => s.(queue := s.queue[1..], closeTaken := true))
    case TakeExhausted =>
      StopWithError(s, s.pending + [s.queue[0].ticket]).(queue := s.queue[1..], taken := s.taken + 1)
    case AckFront => s.(pending := s.pending[1..], outcomes := s.outcomes[s.pending[0] := Receipts])
    case FinishClose => s.(actor := Stopping, closeTaken := false, done := Some(true))
    case Fail => StopWithError(s, s.pending)
    case Cancelled => StopWithError(s, s.pending).(done := s.done)
    case DropGuard => s.(actor := GuardDropped, flag := Done)
    case DropReceiver =>
      s.(actor := Gone, queue := [], taken := s.accepted, outcomes := FailAll(s.outcomes, Tickets(s.queue)))
  }

  // ----- invariant -----

  predicate EndsInClose(queue: seq<Command>) {
    |queue| > 0 && queue[|queue| - 1].Close?
  }

  /** Channel and actor hold the tickets in order, and `Close` only behind all of them. */
  ghost predicate Ordered(queue: seq<Command>, pending: seq<nat>, taken: nat, accepted: nat) {
    && |pending| <= taken <= accepted
    && (forall i :: 0 <= i < |pending| ==> pending[i] == taken - |pending| + i)
    && |queue| == accepted - taken + (if EndsInClose(queue) then 1 else 0)
    && (forall i :: 0 <= i < accepted - taken ==> queue[i] == Submit(taken + i))
  }

  ghost predicate InOrder(s: State) {
    Ordered(s.queue, s.pending, s.taken, s.accepted)
  }

  /** The tickets out of the actor's hands are settled; with receipts as long as nothing failed. */
  ghost predicate SettledUpTo(outcomes: map<nat, Outcome>, bound: nat) {
    forall t: nat :: t in outcomes <==> t < bound
  }

  ghost predicate AllReceipts(outcomes: map<nat, Outcome>) {
    forall t :: t in outcomes ==> outcomes[t].Receipts?
  }

  ghost predicate Settled(s: State) {
    && |s.pending| <= s.taken
    && SettledUpTo(s.outcomes, s.taken - |s.pending|)
    && (s.actor.Running? || s.done == Some(true) ==> AllReceipts(s.outcomes))
  }

  ghost predicate NoneChecked(s: State) {
    forall p :: p in s.producers ==> s.producers[p].Locked?
  }

  /** Where the closer stands, the flag has followed; past the write lock no producer is about to send. */
  ghost predicate CloserPhases(s: State) {
    && (s.closer.HoldingLock? ==> s.producers == map[])
    && (s.closer.Marked? || s.closer.Joining? || s.closer.Returned? || s.closeSent ==> !s.flag.Open? && NoneChecked(s))
    && (s.closeSent ==> s.closer.Joining? || s.closer.Returned? || s.closer.Aborted?)
    && (s.closer.Joining? ==> s.closeSent)
    && (s.closer == Returned(true) ==> s.done == Some(true))
    && (s.closer == Returned(false) ==> s.terminalError)
    && (!s.actor.Running? && s.done != Some(true) ==> s.terminalError)
    && (s.terminalError && (s.actor.Running? || s.done == Some(true)) ==> s.closer.Aborted?)
    && (s.actor.GuardDropped? || s.actor.Gone? ==> s.flag.Done?)
  }

  /** Where `Close` is: in the channel, with the actor, or answered. */
  ghost predicate ActorPhases(s: State) {
    && (EndsInClose(s.queue) || s.closeTaken || s.done.Some? ==> s.closeSent)
    && (s.closeTaken ==> s.actor.Running? && |s.queue| == 0)
    && (EndsInClose(s.queue) ==> !s.closeTaken && s.done.None?)
    && (!s.actor.Running? ==> s.pending == [])
    && (s.actor.Gone? ==> s.queue == [])
    && (s.actor.Running? ==> s.done.None?)
    && (s.actor.Running? && s.closer.Joining? ==> s.closeTaken || EndsInClose(s.queue))
    && (s.done == Some(true) ==> s.queue == [])
  }

  ghost predicate Phases(s: State) {
    CloserPhases(s) && ActorPhases(s)
  }

  ghost predicate Inv(s: State) {
    InOrder(s) && Settled(s) && Phases(s)
  }

  lemma OrderedBySending(queue: seq<Command>, pending: seq<nat>, taken: nat, accepted: nat)
    requires Ordered(queue, pending, taken, accepted) && !EndsInClose(queue)
    ensures Ordered(queue + [Submit(accepted)], pending, taken, accepted + 1)
    ensures Ordered(queue + [Close], pending, taken, accepted)
  {
  }

  lemma OrderedByTaking(queue: seq<Command>, pending: seq<nat>, taken: nat, accepted: nat)
    requires Ordered(queue, pending, taken, accepted) && |queue| > 0
    ensures queue[0].Submit? ==> queue[0].ticket == taken
                                 && Ordered(queue[1..], pending + [taken], taken + 1, accepted)
                                 && Ordered(queue[1..], [], taken + 1, accepted)
    ensures queue[0].Close? ==> Ordered(queue[1..], pending, taken, accepted)
  {
  }

  lemma OrderedBySettling(queue: seq<Command>, pending: seq<nat>, taken: nat, accepted: nat)
    requires Ordered(queue, pending, taken, accepted)
    ensures Ordered(queue, [], taken, accepted) && Ordered([], [], accepted, accepted)
    ensures |pending| > 0 ==> Ordered(queue, pending[1..], taken, accepted)
  {
  }

  lemma SendingKeepsOrder(s: State, step: Step)
    requires Inv(s) && Enabled(s, step) && (step.Send? || step.SendClose?)
    ensures InOrder(Next(s, step))
  {
    assert EndsInClose(s.queue) ==> s.closeSent;
    if !EndsInClose(s.queue) {
      OrderedBySending(s.queue, s.pending, s.taken, s.accepted);
    }
    hide Ordered, Settled, ActorPhases, EndsInClose;
  }

  lemma TakingKeepsOrder(s: State, step: Step)
    requires InOrder(s) && Enabled(s, step) && (step.Take? || step.TakeExhausted?)
    ensures InOrder(Next(s, step))
  {
    OrderedByTaking(s.queue, s.pending, s.taken, s.accepted);
    hide Ordered, EndsInClose;
  }

  lemma StepKeepsInOrder(s: State, step: Step)
    requires Inv(s) && Enabled(s, step)
    ensures InOrder(Next(s, step))
  {
    if step.Send? || step.SendClose? {
      SendingKeepsOrder(s, step);
    } else if step.Take? || step.TakeExhausted? {
      TakingKeepsOrder(s, step);
    } else {
      OrderedBySettling(s.queue, s.pending, s.taken, s.accepted);
    }
    hide Ordered, Settled, EndsInClose, CloserPhases, ActorPhases;
  }

  /** The tickets in the actor's hands are the next ones to be settled. */
  lemma StopKeepsSettled(s: State, inHand: seq<nat>)
    requires Inv(s) && s.actor.Running?
    requires inHand == s.pending || inHand == s.pending + [s.taken]
    ensures Settled(StopWithError(s, inHand).(taken := s.taken - |s.pending| + |inHand|))
  {
    FailingSettles(s.outcomes, inHand, s.taken - |s.pending|);
    hide SettledUpTo, AllReceipts, CloserPhases, Ordered, FailAll;
  }

  /** Failing the next tickets in order settles them. */
  lemma {:induction false} FailingSettles(outcomes: map<nat, Outcome>, tickets: seq<nat>, lo: nat)
    requires SettledUpTo(outcomes, lo)
    requires forall i :: 0 <= i < |tickets| ==> tickets[i] == lo + i
    ensures SettledUpTo(FailAll(outcomes, tickets), lo + |tickets|)
    decreases |tickets|
  {
    if |tickets| > 0 {
      FailingSettles(outcomes, tickets[..|tickets| - 1], lo);
    }
  }

  lemma {:induction false} TicketsInOrder(queue: seq<Command>, taken: nat, accepted: nat)
    requires Ordered(queue, [], taken, accepted)
    ensures |Tickets(queue)| == accepted - taken
    ensures forall i :: 0 <= i < accepted - taken ==> Tickets(queue)[i] == taken + i
    decreases |queue|
  {
    if EndsInClose(queue) {
      TicketsInOrder(queue[..|queue| - 1], taken, accepted);
    } else if |queue| > 0 {
      TicketsInOrder(queue[..|queue| - 1], taken, accepted - 1);
    }
  }

  lemma ReceiverKeepsSettled(s: State)
    requires Inv(s) && s.actor.GuardDropped?
    ensures Settled(Next(s, DropReceiver))
  {
    TicketsInOrder(s.queue, s.taken, s.accepted);
    FailingSettles(s.outcomes, Tickets(s.queue), s.taken);
    hide SettledUpTo, AllReceipts, CloserPhases, Ordered;
  }

  lemma AckKeepsSettled(s: State)
    requires Inv(s) && s.actor.Running? && |s.pending| > 0
    ensures Settled(Next(s, AckFront))
  {
    assert s.pending[0] == s.taken - |s.pending|;
  }

  lemma StopStepKeepsSettled(s: State, step: Step)
    requires Inv(s) && Enabled(s, step) && (step.TakeExhausted? || step.Fail? || step.Cancelled?)
    ensures Settled(Next(s, step))
  {
    if step.TakeExhausted? {
      assert s.queue[0] == Submit(s.taken);
      StopKeepsSettled(s, s.pending + [s.taken]);
    } else {
      StopKeepsSettled(s, s.pending);
    }
    hide Ordered, FailAll, SettledUpTo, AllReceipts, CloserPhases;
  }

  lemma OtherStepKeepsSettled(s: State, step: Step)
    requires Inv(s) && Enabled(s, step)
    requires !step.TakeExhausted? && !step.Fail? && !step.Cancelled? && !step.AckFront? && !step.DropReceiver?
    ensures Settled(Next(s, step))
  {
    hide Ordered, FailAll, Tickets, SettledUpTo, AllReceipts, CloserPhases;
  }

  lemma StepKeepsSettled(s: State, step: Step)
    requires Inv(s) && Enabled(s, step)
    ensures Settled(Next(s, step))
  {
    match step {
      case AckFront => AckKeepsSettled(s);
      case DropReceiver => ReceiverKeepsSettled(s);
      case TakeExhausted => StopStepKeepsSettled(s, step);
      case Fail => StopStepKeepsSettled(s, step);
      case Cancelled => StopStepKeepsSettled(s, step);
      case _ => OtherStepKeepsSettled(s, step);
    }
    hide Inv, Settled;
  }

  predicate IsProducerStep(step: Step) {
    step.Lock? || step.Check? || step.Send?
  }

  lemma ProducerStepKeepsCloserPhases(s: State, step: Step)
    requires CloserPhases(s) && Enabled(s, step) && IsProducerStep(step)
    ensures CloserPhases(Next(s, step))
  {
    hide EndsInClose, FailAll, Tickets, StopWithError;
  }

  lemma OtherStepKeepsCloserPhases(s: State, step: Step)
    requires CloserPhases(s) && ActorPhases(s) && Enabled(s, step) && !IsProducerStep(step)
    ensures CloserPhases(Next(s, step))
  {
    if step.MarkClosing? {
      assert NoneChecked(s);
    }
    hide EndsInClose, FailAll, Tickets, NoneChecked;
    assert NoneChecked(Next(s, step)) == NoneChecked(s) by {
      SameProducers(s, step);
    }
  }

  lemma SameProducers(s: State, step: Step)
    requires Enabled(s, step) && !IsProducerStep(step)
    ensures NoneChecked(Next(s, step)) == NoneChecked(s)
  {
    hide EndsInClose, FailAll, Tickets;
  }

  lemma StepKeepsCloserPhases(s: State, step: Step)
    requires CloserPhases(s) && ActorPhases(s) && Enabled(s, step)
    ensures CloserPhases(Next(s, step))
  {
    hide CloserPhases, ActorPhases, Next;
    if IsProducerStep(step) {
      ProducerStepKeepsCloserPhases(s, step);
    } else {
      OtherStepKeepsCloserPhases(s, step);
    }
  }

  lemma StepKeepsActorPhases(s: State, step: Step)
    requires Inv(s) && Enabled(s, step)
    ensures ActorPhases(Next(s, step))
  {
    hide Settled, FailAll, Tickets;
  }

  /** Every step of every producer, of the closer and of the actor keeps the invariant. */
  lemma StepKeepsInv(s: State, step: Step)
    requires Inv(s) && Enabled(s, step)
    ensures Inv(Next(s, step))
  {
    StepKeepsInOrder(s, step);
    StepKeepsSettled(s, step);
    StepKeepsCloserPhases(s, step);
    StepKeepsActorPhases(s, step);
  }

  ghost predicate Run(s: State, steps: seq<Step>, t: State)
    decreases |steps|
  {
    if |steps| == 0 then t == s
    else Enabled(s, steps[0]) && Run(Next(s, steps[0]), steps[1..], t)
  }

  lemma {:induction false} RunKeepsInv(s: State, steps: seq<Step>, t: State)
    requires Inv(s) && Run(s, steps, t)
    ensures Inv(t)
    decreases |steps|
  {
    hide Inv, Next;
    if |steps| > 0 {
      StepKeepsInv(s, steps[0]);
      RunKeepsInv(Next(s, steps[0]), steps[1..], t);
    }
  }

  // ----- what the invariant gives -----

  /** What polling a ticket shows. */
  function Poll(s: State, ticket: nat): Option<Outcome> {
    if ticket in s.outcomes then Some(s.outcomes[ticket])
    else if s.terminalError then Some(Failed)
    else None
  }

  /** `close` returns success only when every batch that was ever accepted has its receipts. */
  lemma CloseOkMeansAllDurable(steps: seq<Step>, s: State)
    requires Run(Initial, steps, s) && s.closer == Returned(true)
    ensures forall ticket :: 0 <= ticket < s.accepted ==> Poll(s, ticket) == Some(Receipts)
  {
    RunKeepsInv(Initial, steps, s);
  }

  /** An abort, or the actor ending with an error. */
  predicate IsFailure(step: Step) {
    step.Abort? || step.Fail? || step.TakeExhausted? || step.Cancelled?
  }

  lemma {:induction false} ErrorsComeFromFailures(s: State, steps: seq<Step>, t: State)
    requires Run(s, steps, t)
    ensures t.terminalError <==> s.terminalError || exists step :: step in steps && IsFailure(step)
    decreases |steps|
  {
    if |steps| > 0 {
      var u := Next(s, steps[0]);
      assert u.terminalError == (s.terminalError || IsFailure(steps[0]));
      ErrorsComeFromFailures(u, steps[1..], t);
      assert steps == [steps[0]] + steps[1..];
    }
  }

  /** `close` returns success if and only if nothing failed: whatever is still queued or unacknowledged
      when it is called, an error is never reported without one. */
  lemma CloseOkUnlessSomethingFailed(steps: seq<Step>, s: State)
    requires Run(Initial, steps, s) && s.closer.Returned?
    ensures s.closer.ok <==> forall step :: step in steps ==> !IsFailure(step)
  {
    RunKeepsInv(Initial, steps, s);
    ErrorsComeFromFailures(Initial, steps, s);
    hide InOrder, Settled, Run;
  }

  /** The sends among `steps`. */
  function Sends(steps: seq<Step>): nat {
    if |steps| == 0 then 0 else (if steps[0].Send? then 1 else 0) + Sends(steps[1..])
  }

  /** Unless something fails, every command that is sent is accepted: none is dropped on the way, also
      while `close` is in progress or over. */
  lemma {:induction false} EverySendIsAccepted(s: State, steps: seq<Step>, t: State)
    requires Inv(s) && Run(s, steps, t) && !t.terminalError
    ensures t.accepted == s.accepted + Sends(steps)
    decreases |steps|
  {
    if |steps| > 0 {
      ErrorsComeFromFailures(s, steps, t);
      StepKeepsInv(s, steps[0]);
      StepAccepts(s, steps[0]);
      EverySendIsAccepted(Next(s, steps[0]), steps[1..], t);
    }
  }

  lemma StepAccepts(s: State, step: Step)
    requires Inv(s) && Enabled(s, step) && !s.terminalError
    ensures Next(s, step).accepted == s.accepted + (if step.Send? then 1 else 0)
  {
    hide InOrder, Settled;
  }

  /** Before `close` moves the flag and before anything fails. */
  ghost predicate IsOpen(s: State) {
    s.flag.Open? && s.actor.Running? && !s.closeSent && (s.closer.Idle? || s.closer.HoldingLock?)
  }

  /** Until `close` moves the flag, or something fails, every producer that looks at the flag goes on to
      send its command, and the actor will take it. */
  lemma {:induction false} ProducersPassWhileOpen(s: State, steps: seq<Step>, t: State, p: nat)
    requires Inv(s) && IsOpen(s) && Run(s, steps, t)
    requires forall step :: step in steps ==> !IsFailure(step) && !step.MarkClosing?
    ensures Inv(t) && IsOpen(t)
    ensures Enabled(t, Check(p)) ==>
              var checked := Next(t, Check(p));
              Enabled(checked, Send(p)) && Next(checked, Send(p)).queue == t.queue + [Submit(t.accepted)]
    decreases |steps|
  {
    if |steps| > 0 {
      StepKeepsInv(s, steps[0]);
      StepKeepsOpen(s, steps[0]);
      ProducersPassWhileOpen(Next(s, steps[0]), steps[1..], t, p);
    }
  }

  lemma StepKeepsOpen(s: State, step: Step)
    requires Inv(s) && IsOpen(s) && Enabled(s, step) && !IsFailure(step) && !step.MarkClosing?
    ensures IsOpen(Next(s, step))
  {
    hide Settled;
  }

  /** Once `close` has returned nothing is accepted any more. */
  lemma NothingAcceptedAfterClose(steps: seq<Step>, s: State, step: Step)
    requires Run(Initial, steps, s) && s.closer.Returned? && Enabled(s, step)
    ensures Next(s, step).accepted == s.accepted
  {
    RunKeepsInv(Initial, steps, s);
    hide Settled, InOrder;
  }

  /** Once the actor is gone every accepted ticket is settled, and so is any ticket after a terminal
      error: none hangs. */
  lemma NoTicketHangs(steps: seq<Step>, s: State)
    requires Run(Initial, steps, s)
    ensures s.actor.Gone? || s.terminalError ==>
              forall ticket :: 0 <= ticket < s.accepted ==> Poll(s, ticket).Some?
  {
    RunKeepsInv(Initial, steps, s);
  }

  /** Every accepted batch precedes `Close` in the channel, in the order of acceptance. */
  lemma CloseComesLast(steps: seq<Step>, s: State, i: nat)
    requires Run(Initial, steps, s) && i < |s.queue| && s.queue[i].Close?
    ensures i == |s.queue| - 1 == s.accepted - s.taken
    ensures forall k :: 0 <= k < i ==> s.queue[k] == Submit(s.taken + k)
  {
    RunKeepsInv(Initial, steps, s);
    hide Settled, Phases;
  }

  /** Once `Close` is in the channel nothing more is accepted. */
  lemma CloseIsFinal(steps: seq<Step>, s: State, step: Step)
    requires Run(Initial, steps, s) && s.closeSent && Enabled(s, step)
    ensures Next(s, step).accepted == s.accepted && Next(s, step).closeSent
  {
    RunKeepsInv(Initial, steps, s);
    hide Settled, InOrder;
  }

  // ----- progress -----

  function ActorRank(actor: Actor): nat {
    match actor
    case Running => 3
    case Stopping => 2
    case GuardDropped => 1
    case Gone => 0
  }

  function CloserRank(closer: Closer): nat {
    match closer
    case Idle => 7
    case HoldingLock => 6
    case Marked => 5
    case Joining => 2
    case _ => 0
  }

  /** Commands and batches still to be dealt with. */
  function Rank(s: State): nat {
    2 * |s.queue| + |s.pending| + ActorRank(s.actor) + CloserRank(s.closer)
  }

  /** A close in progress never deadlocks against producers or the exiting actor: while it waits, the
      actor can take a command, receive the acknowledgement of what it holds, or exit. */
  lemma CloseIsNeverStuck(s: State) returns (step: Step)
    requires Inv(s) && (s.closer.HoldingLock? || s.closer.Marked? || s.closer.Joining?)
    ensures Enabled(s, step) && !IsProducerStep(step) && !step.Abort? && !step.Fail? && !step.TakeExhausted?
  {
    step :=
      if s.closer.HoldingLock? then MarkClosing
      else if s.closer.Marked? then SendClose
      else match s.actor
        case Running =>
          if !s.closeTaken then Take else if |s.pending| > 0 then AckFront else FinishClose
        case Stopping => DropGuard
        case GuardDropped => DropReceiver
        case Gone => Join;
  }

  /** Once the flag is moved no step adds work, and every step other than a producer's takes some away:
      a close ends after finitely many acknowledgements. */
  lemma CloseEnds(s: State, step: Step)
    requires Inv(s) && s.closeSent && Enabled(s, step)
    ensures IsProducerStep(step) ==> Rank(Next(s, step)) == Rank(s)
    ensures !IsProducerStep(step) ==> Rank(Next(s, step)) < Rank(s)
  {
    hide InOrder, Settled;
  }
}
