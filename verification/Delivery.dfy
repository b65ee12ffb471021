/** End-to-end delivery: one durable writer, all the sockets it ever opened, a stream log that other
    writers also append to, and a reader that assembles the log from its start. */
module Delivery {
  import opened Wrappers
  import opened Protocol
  import opened WriterSpec
  import opened WriterQueue
  import opened Assembly
  import opened AssemblyRuns
  import opened RoundTrip
  import WriterRuns

  // The service is assumed to append, for each socket, some prefix of what that socket was sent, in
  // order, at any time, also after the writer has moved on; and to acknowledge only records that are
  // in the log at the sequence numbers it reports.

  /** One connection: where it started, what it was sent, and how much of that is in the log. */
  datatype Socket = Socket(base: nat, records: seq<AppendRecord>, appended: nat)

  datatype Sys = Sys(view: View, connected: bool, sockets: seq<Socket>, log: seq<ReadRecord>)

  const INITIAL := Sys(View([], 0, 0), true, [Socket(0, [], 0)], [])

  datatype Event =
    | Admit(batch: seq<RecordPayload>)
    | Send(frame: seq<AppendRecord>)
    | SendFails(frame: seq<AppendRecord>)
    | Disconnect
    | Reconnect
    | ServiceAppends(socket: nat)
    | OtherWriterAppends(record: ReadRecord)
    | ServiceAcks(ack: AppendAck)

  /** The acknowledged records are in the log at the reported sequence numbers. */
  ghost predicate Honest(id: WriterId, log: seq<ReadRecord>, ack: AppendAck) {
    && WellFormedAck(ack) && ack.endSeqNum <= |log|
    && forall n :: ack.startSeqNum <= n < ack.endSeqNum ==>
         && log[n].writerId == id
         && log[n].writerSeqNum == ack.writerStartSeqNum + (n - ack.startSeqNum)
  }

  ghost predicate Next(id: WriterId, s: Sys, event: Event, s': Sys) {
    match event
    case Admit(batch) =>
      && ValidBatch(batch) && |s.view.history| + |batch| <= U64_MAX
      && s' == s.(view := s.view.(history := s.view.history + batch))
    case Send(frame) =>
      && s.connected && s.sockets != [] && SendsFrame(s.view, s'.view, frame)
      && var current := s.sockets[|s.sockets| - 1];
      && s' == s.(view := s'.view, sockets := s.sockets[|s.sockets| - 1 :=
                    current.(records := current.records + frame)])
    case SendFails(frame) =>
      && s.connected && SendsFrame(s.view, s'.view, frame)
      && s' == s.(view := s'.view, connected := false)
    case Disconnect => s' == s.(connected := false)
    case Reconnect =>
      && !s.connected
      && s' == s.(view := Reconnected(s.view), connected := true,
                  sockets := s.sockets + [Socket(s.view.acked, [], 0)])
    case ServiceAppends(k) =>
      && k < |s.sockets| && s.sockets[k].appended < |s.sockets[k].records|
      && var r := s.sockets[k].records[s.sockets[k].appended];
      && r.writerSeqNum <= U64_MAX
      && s' == s.(sockets := s.sockets[k := s.sockets[k].(appended := s.sockets[k].appended + 1)],
                  log := s.log + [ReadRecord(id, r.writerSeqNum, r.part, r.data)])
    case OtherWriterAppends(record) =>
      record.writerId != id && s' == s.(log := s.log + [record])
    case ServiceAcks(ack) =>
      && s.connected && Honest(id, s.log, ack) && Acceptable(s.view, ack)
      && s' == s.(view := Acknowledged(s.view, ack))
  }

  /** `states` is a run of the system under `events`. */
  ghost predicate Runs(id: WriterId, states: seq<Sys>, events: seq<Event>) {
    && |states| == |events| + 1
    && states[0] == INITIAL
    && forall i :: 0 <= i < |events| ==> Next(id, states[i], events[i], states[i + 1])
  }

  /** Every step of a writer, of either implementation, is an event of the system it is part of: sends
      while connected, whether the socket takes the frame or fails, acknowledgements that are honest, and
      reconnects. */
  lemma WriterStepIsEvent(id: WriterId, s: Sys, step: WriterRuns.Step)
    requires WriterRuns.Steps(s.view, step) && s.sockets != []
    ensures match step.input
      case Admit(batch) =>
        if step.output.accepted then Next(id, s, Admit(batch), s.(view := step.after)) else step.after == s.view
      case TakeFrame =>
        s.connected ==>
          && Next(id, s, SendFails(step.output.records), s.(view := step.after, connected := false))
          && exists s' :: Next(id, s, Send(step.output.records), s') && s'.view == step.after
      case Receive(ack) =>
        if !Acceptable(s.view, ack) then step.after == s.view
        else s.connected && Honest(id, s.log, ack) ==> Next(id, s, ServiceAcks(ack), s.(view := step.after))
      case LoseConnection =>
        !s.connected ==> exists s' :: Next(id, s, Reconnect, s') && s'.view == step.after
  {
    hide IsFrameEnd, Honest;
    if step.input.TakeFrame? && s.connected {
      var last := |s.sockets| - 1;
      var current := s.sockets[last];
      var sent := current.(records := current.records + step.output.records);
      var s' := s.(view := step.after, sockets := s.sockets[last := sent]);
      assert Next(id, s, Send(step.output.records), s');
    } else if step.input.LoseConnection? && !s.connected {
      var socket := Socket(s.view.acked, [], 0);
      var s' := s.(view := Reconnected(s.view), connected := true, sockets := s.sockets + [socket]);
      assert Next(id, s, Reconnect, s');
    }
  }

  // ----- What every step keeps -----

  /** The records of one writer, in log order. */
  function Only(id: WriterId, log: seq<ReadRecord>): seq<ReadRecord> {
    if log == [] then []
    else Only(id, log[..|log| - 1]) + (if log[|log| - 1].writerId == id then [log[|log| - 1]] else [])
  }

  /** A socket carries consecutive records from a durable position on, and what the service appended
      of them is durable. */
  ghost predicate Carries(socket: Socket, history: seq<RecordPayload>, durable: nat) {
    && socket.appended <= |socket.records|
    && socket.base + |socket.records| <= |history|
    && socket.records == Numbered(history, socket.base, socket.base + |socket.records|)
    && socket.base + socket.appended <= durable
  }

  ghost predicate Invariant(id: WriterId, s: Sys) {
    && s.view.Valid()
    && var mine := Only(id, s.log);
    && AtLeastOnce(id, s.view.history, mine)
    && s.view.acked <= Durable(mine)
    && (forall k :: 0 <= k < |s.sockets| ==> Carries(s.sockets[k], s.view.history, Durable(mine)))
    && s.sockets != []
    && (s.connected ==> var current := s.sockets[|s.sockets| - 1];
                        current.base + |current.records| == s.view.sent)
  }

  lemma AppendMine(id: WriterId, log: seq<ReadRecord>, record: ReadRecord)
    ensures Only(id, log + [record]) == if record.writerId == id then Only(id, log) + [record] else Only(id, log)
  {
    assert (log + [record])[..|log|] == log;
  }

  lemma {:induction false} LongerHistory(
    id: WriterId, history: seq<RecordPayload>, longer: seq<RecordPayload>, records: seq<ReadRecord>)
    requires history <= longer && |longer| <= U64_MAX && AtLeastOnce(id, history, records)
    ensures AtLeastOnce(id, longer, records)
  {
    if records != [] {
      LongerHistory(id, history, longer, records[..|records| - 1]);
    }
  }

  /** Every logged record of the writer is below its durable count. */
  lemma {:induction false} LoggedIsDurable(id: WriterId, log: seq<ReadRecord>, n: nat)
    requires n < |log| && log[n].writerId == id
    ensures log[n].writerSeqNum < Durable(Only(id, log))
  {
    var before, last := log[..|log| - 1], log[|log| - 1];
    var mine := Only(id, before);
    assert before + [last] == log;
    AppendMine(id, before, last);
    assert (mine + [last])[..|mine|] == mine;
    if n < |log| - 1 {
      LoggedIsDurable(id, before, n);
    }
  }

  lemma AdmitKeeps(id: WriterId, s: Sys, batch: seq<RecordPayload>, s': Sys)
    requires Invariant(id, s) && Next(id, s, Admit(batch), s')
    ensures Invariant(id, s')
  {
    AdmitKeepsView(s.view, batch);
    LongerHistory(id, s.view.history, s'.view.history, Only(id, s.log));
  }

  lemma SendKeeps(id: WriterId, s: Sys, frame: seq<AppendRecord>, s': Sys)
    requires Invariant(id, s) && Next(id, s, Send(frame), s')
    ensures Invariant(id, s')
  {
    SentFramesAreValid(s.view, s'.view, frame);
    hide View.Valid, AtLeastOnce, IsFrameEnd;
    var last := |s.sockets| - 1;
    var current := s.sockets[last];
    assert Numbered(s.view.history, current.base, s'.view.sent)
        == Numbered(s.view.history, current.base, s.view.sent) + frame;
  }

  /** The service's next append of a socket repeats a durable record or is the next new one. */
  lemma ServiceAppendKeeps(id: WriterId, s: Sys, k: nat, s': Sys)
    requires Invariant(id, s) && Next(id, s, ServiceAppends(k), s')
    ensures Invariant(id, s')
  {
    hide View.Valid, AtLeastOnce, Durable, Carries, Only;
    var mine := Only(id, s.log);
    var record := s'.log[|s.log|];
    assert |s.view.history| <= U64_MAX by { ValidHistoryIsNumbered(s.view); }
    CarriedRecord(id, s.sockets[k], s.view.history, Durable(mine));
    AppendMine(id, s.log, record);
    LogOneMore(id, s.view.history, mine, record);
    forall i | 0 <= i < |s.sockets| && i != k
      ensures Carries(s.sockets[i], s.view.history, Durable(mine + [record]))
    {
      CarriesMore(s.sockets[i], s.sockets[i], s.view.history, Durable(mine), Durable(mine + [record]));
    }
    CarriesMore(s.sockets[k], s'.sockets[k], s.view.history, Durable(mine), Durable(mine + [record]));
  }

  lemma ValidHistoryIsNumbered(v: View)
    requires v.Valid()
    ensures |v.history| <= U64_MAX
  {
  }

  lemma CarriedRecord(id: WriterId, socket: Socket, history: seq<RecordPayload>, durable: nat)
    requires Carries(socket, history, durable) && |history| <= U64_MAX
    requires socket.appended < |socket.records|
    ensures var r := socket.records[socket.appended];
      && r.writerSeqNum == socket.base + socket.appended < |history| && r.writerSeqNum <= durable
      && ReadRecord(id, r.writerSeqNum, r.part, r.data) == Physical(id, history, r.writerSeqNum)
  {
  }

  lemma CarriesMore(socket: Socket, socket': Socket, history: seq<RecordPayload>, durable: nat, durable': nat)
    requires Carries(socket, history, durable) && durable <= durable'
    requires
      || socket' == socket
      || (socket' == socket.(appended := socket.appended + 1) && socket.appended < |socket.records|
          && socket.base + socket.appended < durable')
    ensures Carries(socket', history, durable')
  {
  }

  lemma LogOneMore(id: WriterId, history: seq<RecordPayload>, mine: seq<ReadRecord>, record: ReadRecord)
    requires |history| <= U64_MAX && AtLeastOnce(id, history, mine)
    requires record.writerSeqNum < |history| && record.writerSeqNum <= Durable(mine)
    requires record == Physical(id, history, record.writerSeqNum)
    ensures AtLeastOnce(id, history, mine + [record])
    ensures Durable(mine + [record]) >= Durable(mine)
    ensures Durable(mine + [record]) > record.writerSeqNum
  {
    assert (mine + [record])[..|mine|] == mine;
  }

  lemma AckKeeps(id: WriterId, s: Sys, ack: AppendAck, s': Sys)
    requires Invariant(id, s) && Next(id, s, ServiceAcks(ack), s')
    ensures Invariant(id, s')
  {
    AcknowledgedIsValid(s.view, ack);
    LoggedIsDurable(id, s.log, ack.endSeqNum - 1);
  }

  lemma LostFrameKeeps(id: WriterId, s: Sys, frame: seq<AppendRecord>, s': Sys)
    requires Invariant(id, s) && Next(id, s, SendFails(frame), s')
    ensures Invariant(id, s')
  {
    SentFramesAreValid(s.view, s'.view, frame);
    hide View.Valid, AtLeastOnce, IsFrameEnd;
  }

  lemma ReconnectKeeps(id: WriterId, s: Sys, s': Sys)
    requires Invariant(id, s) && Next(id, s, Reconnect, s')
    ensures Invariant(id, s')
  {
    assert Load(s.view.history, s.view.acked, s.view.acked) == 0;
    hide AtLeastOnce;
  }

  lemma OthersKeep(id: WriterId, s: Sys, record: ReadRecord, s': Sys)
    requires Invariant(id, s) && Next(id, s, OtherWriterAppends(record), s')
    ensures Invariant(id, s')
  {
    hide View.Valid, AtLeastOnce, Durable, Carries, Only;
    AppendMine(id, s.log, record);
  }

  lemma StepKeepsInvariant(id: WriterId, s: Sys, event: Event, s': Sys)
    requires Invariant(id, s) && Next(id, s, event, s')
    ensures Invariant(id, s')
  {
    hide View.Valid, AtLeastOnce, Durable, Carries, Only;
    match event
    case Admit(batch) => AdmitKeeps(id, s, batch, s');
    case Send(frame) => SendKeeps(id, s, frame, s');
    case SendFails(frame) => LostFrameKeeps(id, s, frame, s');
    case Disconnect =>
    case Reconnect => ReconnectKeeps(id, s, s');
    case ServiceAppends(k) => ServiceAppendKeeps(id, s, k, s');
    case OtherWriterAppends(record) => OthersKeep(id, s, record, s');
    case ServiceAcks(ack) => AckKeeps(id, s, ack, s');
  }

  lemma {:induction false} RunKeepsInvariant(id: WriterId, states: seq<Sys>, events: seq<Event>)
    requires Runs(id, states, events)
    ensures Invariant(id, states[|events|])
  {
    if events != [] {
      var n := |events| - 1;
      assert Runs(id, states[..n + 1], events[..n]);
      RunKeepsInvariant(id, states[..n + 1], events[..n]);
      StepKeepsInvariant(id, states[n], events[n], states[n + 1]);
    }
  }

  // ----- What a reader of the whole log gets -----

  /** The reader met no assembly limit. */
  ghost predicate NoLimitBroken(max: nat, log: seq<ReadRecord>) {
    forall n :: 0 <= n < |log| ==> AnswerTo(max, log, n).Ok?
  }

  /** The logical records of one writer that reading `log` emits. */
  ghost function OutputOf(max: nat, log: seq<ReadRecord>, id: WriterId): seq<Bytes> {
    if log == [] then []
    else
      var n := |log| - 1;
      OutputOf(max, log[..n], id) +
      (match AnswerTo(max, log, n)
       case Ok(Some(data)) => if log[n].writerId == id then [data.Content()] else []
       case _ => [])
  }

  /** One unrefused record advances its own writer and nobody else. */
  lemma UnrefusedPush(max: nat, state: State, record: ReadRecord, id: WriterId)
    requires TotalsCover(state, record.writerId) && Push(max, state, record).1.Ok?
    ensures var (after, answer) := Push(max, state, record);
      if record.writerId == id then
        && WriterOf(after, id) == Accept(WriterOf(state, id), record).0
        && answer.value == Accept(WriterOf(state, id), record).1
      else WriterOf(after, id) == WriterOf(state, id)
  {
    hide Concat;
  }

  /** Reading one more record of the log. */
  lemma ReadOneMore(max: nat, log: seq<ReadRecord>, record: ReadRecord, id: WriterId)
    requires AnswerTo(max, log + [record], |log|).Ok?
    ensures WriterOf(After(max, log + [record]), id) ==
              if record.writerId == id then Accept(WriterOf(After(max, log), id), record).0
              else WriterOf(After(max, log), id)
    ensures OutputOf(max, log + [record], id) == OutputOf(max, log, id) +
              if record.writerId == id then Emitted(Accept(WriterOf(After(max, log), id), record).1) else []
  {
    hide Accept, Push, Accounted, Concat;
    assert (log + [record])[..|log|] == log;
    PushKeepsAccounts(max, After(max, log), record);
    UnrefusedPush(max, After(max, log), record, id);
  }

  /** Assembling a log of many writers is, for each of them, assembling its own records. */
  lemma {:induction false} WritersAssembleAlone(max: nat, log: seq<ReadRecord>, id: WriterId)
    requires NoLimitBroken(max, log)
    ensures WriterOf(After(max, log), id) == WriterAfter(Only(id, log))
    ensures OutputOf(max, log, id) == WriterOutput(Only(id, log))
  {
    if log != [] {
      var n := |log| - 1;
      var before, record := log[..n], log[n];
      hide Accept, After, OutputOf, AnswerTo;
      forall i | 0 <= i < n
        ensures AnswerTo(max, before, i).Ok?
      {
        EarlierAnswer(max, log, n, i);
      }
      WritersAssembleAlone(max, before, id);
      assert before + [record] == log;
      assert AnswerTo(max, log, n).Ok?;
      ReadOneMore(max, before, record, id);
      AppendMine(id, before, record);
      var mine := Only(id, before);
      assert (mine + [record])[..|mine|] == mine;
    }
  }

  lemma EarlierAnswer(max: nat, log: seq<ReadRecord>, n: nat, i: nat)
    requires NoLimitBroken(max, log) && i < n < |log|
    ensures AnswerTo(max, log[..n], i).Ok?
  {
    assert log[..n][..i] == log[..i];
    assert AnswerTo(max, log, i).Ok?;
  }

  /** Exactly once, in order, for any batches: however many sockets were lost and records resent,
      reading the log from its start assembles to what one copy of each durable record would. */
  lemma ReadsEachRecordOnce(id: WriterId, max: nat, states: seq<Sys>, events: seq<Event>)
    requires Runs(id, states, events)
    requires NoLimitBroken(max, states[|events|].log)
    ensures var s := states[|events|];
      var durable := Durable(Only(id, s.log));
      && s.view.acked <= durable <= |s.view.history| <= U64_MAX
      && OutputOf(max, s.log, id) == WriterOutput(Once(id, s.view.history, durable))
  {
    RunKeepsInvariant(id, states, events);
    var s := states[|events|];
    WritersAssembleAlone(max, s.log, id);
    DuplicatesDoNotMatter(id, s.view.history, Only(id, s.log));
  }

  /** The reader has the `m` logical records whose parts are all durable, and no more. */
  lemma DeliversWhatIsDurable(
    id: WriterId, max: nat, states: seq<Sys>, events: seq<Event>, submitted: seq<Bytes>)
    returns (m: nat, j: nat)
    requires Runs(id, states, events)
    requires NoLimitBroken(max, states[|events|].log)
    requires AllSplittable(submitted) && states[|events|].view.history == Layout(submitted)
    ensures var s := states[|events|];
      && Complete(submitted, Durable(Only(id, s.log)), m, j)
      && OutputOf(max, s.log, id) == submitted[..m]
  {
    ReadsEachRecordOnce(id, max, states, events);
    m, j := AssemblingUndoesSplitting(id, submitted, Durable(Only(id, states[|events|].log)));
  }

  /** Exactly once, in order, for logical records: the reader gets the submitted records in
      submission order, each once, as a prefix; and all of them once everything is acknowledged. */
  lemma DeliversExactlyOnce(
    id: WriterId, max: nat, states: seq<Sys>, events: seq<Event>, submitted: seq<Bytes>)
    requires Runs(id, states, events)
    requires NoLimitBroken(max, states[|events|].log)
    requires AllSplittable(submitted) && states[|events|].view.history == Layout(submitted)
    ensures OutputOf(max, states[|events|].log, id) <= submitted
    ensures states[|events|].view.acked == |states[|events|].view.history| ==>
              OutputOf(max, states[|events|].log, id) == submitted
  {
    hide Layout, Splittable, OutputOf, NoLimitBroken, Next;
    var m, j := DeliversWhatIsDurable(id, max, states, events, submitted);
    ReadsEachRecordOnce(id, max, states, events);
    var s := states[|events|];
    assert submitted[..|submitted|] == submitted;
    if s.view.acked == |s.view.history| {
      CompleteUnique(submitted, Durable(Only(id, s.log)), m, j, |submitted|, 0);
    }
  }

  /** A receipt names the log position of its record: an accepted acknowledgement pairs every writer
      number it covers with the place the record has in the log. */
  lemma ReceiptsPointIntoLog(id: WriterId, s: Sys, ack: AppendAck, s': Sys, i: nat)
    requires Invariant(id, s) && Next(id, s, ServiceAcks(ack), s')
    requires i < ack.writerEndSeqNum - ack.writerStartSeqNum
    ensures var receipt := ReceiptsFor(ack, ack.writerEndSeqNum - ack.writerStartSeqNum)[i];
      && receipt.writerSeqNum == s.view.acked + i < |s.view.history|
      && receipt.seqNum < |s.log|
      && s.log[receipt.seqNum] == Physical(id, s.view.history, receipt.writerSeqNum)
  {
    LoggedMatchesHistory(id, s.view.history, s.log, ack.startSeqNum + i);
  }

  lemma {:induction false} LoggedMatchesHistory(
    id: WriterId, history: seq<RecordPayload>, log: seq<ReadRecord>, n: nat)
    requires |history| <= U64_MAX && AtLeastOnce(id, history, Only(id, log))
    requires n < |log| && log[n].writerId == id
    ensures log[n].writerSeqNum < |history|
    ensures log[n] == Physical(id, history, log[n].writerSeqNum)
  {
    var before, last := log[..|log| - 1], log[|log| - 1];
    var mine := Only(id, before);
    assert before + [last] == log;
    AppendMine(id, before, last);
    assert (mine + [last])[..|mine|] == mine;
    if n < |log| - 1 {
      LoggedMatchesHistory(id, history, before, n);
    }
  }
}
