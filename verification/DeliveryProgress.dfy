/**
 * Delivery is possible from every state: whatever was lost so far, a service that answers and a connection
 * that holds from now on bring every admitted record into the log and acknowledged.
 */
module DeliveryProgress {
  import opened Wrappers
  import opened Protocol
  import opened WriterSpec
  import opened RoundTrip
  import opened Delivery

  /** What writer and service do by themselves. */
  predicate IsOwnStep(event: Event) {
    event.Send? || event.Reconnect? || event.ServiceAppends? || event.ServiceAcks?
  }

  /** Records the current socket, or the next one, has yet to bring into the log. */
  ghost function Remaining(s: Sys): int {
    if s.connected && s.sockets != [] then
      var current := s.sockets[|s.sockets| - 1];
      |s.view.history| - current.base - current.appended
    else |s.view.history| - s.view.acked
  }

  ghost function Unappended(s: Sys): nat {
    if s.sockets == [] then 0
    else
      var current := s.sockets[|s.sockets| - 1];
      if current.appended <= |current.records| then |current.records| - current.appended else 0
  }

  /** `t` is nearer to having everything acknowledged than `s`. */
  ghost predicate IsNearer(t: Sys, s: Sys) {
    && t.view.history == s.view.history
    && (|| t.view.acked > s.view.acked
        || (t.view.acked == s.view.acked &&
            (|| (t.connected && !s.connected)
             || (t.connected == s.connected &&
                 (|| t.view.sent > s.view.sent
                  || (t.view.sent == s.view.sent && Unappended(t) < Unappended(s)))))))
  }

  /** A longest frame exists from any frame that fits. */
  lemma {:induction false} FrameEndExists(v: View, fits: nat) returns (end: nat)
    requires FitsFrame(v, fits)
    ensures IsFrameEnd(v, end) && fits <= end
    decreases |v.history| - fits
  {
    end := fits;
    if FitsFrame(v, fits + 1) {
      end := FrameEndExists(v, fits + 1);
    }
  }

  /** Every durable number is somewhere in the log. */
  lemma {:induction false} DurableIsLogged(id: WriterId, history: seq<RecordPayload>, log: seq<ReadRecord>, m: nat)
    returns (n: nat)
    requires |history| <= U64_MAX && AtLeastOnce(id, history, Only(id, log))
    requires m < Durable(Only(id, log))
    ensures n < |log| && log[n].writerId == id && log[n].writerSeqNum == m
  {
    var before, last := log[..|log| - 1], log[|log| - 1];
    var mine := Only(id, before);
    assert before + [last] == log;
    AppendMine(id, before, last);
    assert (mine + [last])[..|mine|] == mine;
    if m < Durable(mine) {
      n := DurableIsLogged(id, history, before, m);
    } else {
      n := |log| - 1;
    }
  }

  lemma SendGoesOn(id: WriterId, s: Sys) returns (event: Event, s': Sys)
    requires Invariant(id, s) && s.connected && s.view.acked == s.view.sent < |s.view.history|
    ensures Next(id, s, event, s') && event.Send? && IsNearer(s', s)
    ensures s'.log == s.log && Remaining(s') == Remaining(s)
  {
    hide AtLeastOnce, Carries;
    var v := s.view;
    IdleWriterCanSend(v);
    var end := FrameEndExists(v, v.sent + 1);
    var frame := Numbered(v.history, v.sent, end);
    var last := |s.sockets| - 1;
    var current := s.sockets[last];
    s' := s.(view := v.(sent := end), sockets := s.sockets[last := current.(records := current.records + frame)]);
    event := Send(frame);
  }

  lemma AppendGoesOn(id: WriterId, s: Sys) returns (event: Event, s': Sys)
    requires Invariant(id, s) && s.connected && Unappended(s) > 0
    ensures Next(id, s, event, s') && event.ServiceAppends? && IsNearer(s', s)
    ensures |s'.log| == |s.log| + 1 && Remaining(s') == Remaining(s) - 1
  {
    ValidHistoryIsNumbered(s.view);
    hide AtLeastOnce, View.Valid;
    var last := |s.sockets| - 1;
    var current := s.sockets[last];
    CarriedRecord(id, current, s.view.history, Durable(Only(id, s.log)));
    hide Carries;
    var r := current.records[current.appended];
    event := ServiceAppends(last);
    s' := s.(sockets := s.sockets[last := current.(appended := current.appended + 1)],
             log := s.log + [ReadRecord(id, r.writerSeqNum, r.part, r.data)]);
  }

  lemma AckGoesOn(id: WriterId, s: Sys) returns (event: Event, s': Sys)
    requires Invariant(id, s) && s.connected && Unappended(s) == 0 && s.view.acked < s.view.sent
    requires |s.log| <= U64_MAX
    ensures Next(id, s, event, s') && event.ServiceAcks? && IsNearer(s', s)
    ensures s'.log == s.log && Remaining(s') == Remaining(s)
  {
    var v := s.view;
    assert Carries(s.sockets[|s.sockets| - 1], v.history, Durable(Only(id, s.log)));
    assert v.sent <= Durable(Only(id, s.log));
    var n := DurableIsLogged(id, v.history, s.log, v.acked);
    hide AtLeastOnce, Carries, View.Valid;
    var ack := AppendAck(v.acked, v.acked + 1, n, n + 1);
    event, s' := ServiceAcks(ack), s.(view := Acknowledged(v, ack));
  }

  /** While a record is unacknowledged, writer or service can do something that brings the end nearer. */
  lemma DeliveryGoesOn(id: WriterId, s: Sys) returns (event: Event, s': Sys)
    requires Invariant(id, s) && s.view.acked < |s.view.history| && |s.log| <= U64_MAX
    ensures IsOwnStep(event) && Next(id, s, event, s') && IsNearer(s', s)
    ensures |s'.log| + Remaining(s') <= |s.log| + Remaining(s)
  {
    hide AtLeastOnce, Carries;
    if !s.connected {
      event := Reconnect;
      s' := s.(view := Reconnected(s.view), connected := true, sockets := s.sockets + [Socket(s.view.acked, [], 0)]);
    } else if Unappended(s) > 0 {
      event, s' := AppendGoesOn(id, s);
    } else if s.view.acked < s.view.sent {
      event, s' := AckGoesOn(id, s);
    } else {
      event, s' := SendGoesOn(id, s);
    }
  }

  ghost predicate Continues(id: WriterId, states: seq<Sys>, events: seq<Event>) {
    && |states| == |events| + 1
    && forall i :: 0 <= i < |events| ==> Next(id, states[i], events[i], states[i + 1])
  }

  /** The log has room for what is still to come. */
  ghost predicate HasRoom(s: Sys) {
    |s.log| + Remaining(s) <= U64_MAX
  }

  lemma RemainingIsNatural(id: WriterId, s: Sys)
    requires Invariant(id, s)
    ensures 0 <= Remaining(s) <= |s.view.history|
  {
    hide AtLeastOnce;
    assert Carries(s.sockets[|s.sockets| - 1], s.view.history, Durable(Only(id, s.log)));
  }

  lemma SentWithinHistory(id: WriterId, s: Sys)
    requires Invariant(id, s)
    ensures s.view.acked <= s.view.sent <= |s.view.history|
  {
  }

  /** From every reachable state the rest can be delivered, by steps of writer and service alone. */
  lemma {:induction false} RestCanBeDelivered(id: WriterId, s: Sys) returns (states: seq<Sys>, events: seq<Event>)
    requires Invariant(id, s) && HasRoom(s)
    ensures Continues(id, states, events) && states[0] == s
    ensures forall e <- events :: IsOwnStep(e)
    ensures states[|events|].view.history == s.view.history
    ensures states[|events|].view.acked == |s.view.history|
    decreases |s.view.history| - s.view.acked, !s.connected, |s.view.history| - s.view.sent, Unappended(s)
  {
    SentWithinHistory(id, s);
    RemainingIsNatural(id, s);
    if s.view.acked == |s.view.history| {
      return [s], [];
    }
    var event, s' := DeliveryGoesOn(id, s);
    StepKeepsInvariant(id, s, event, s');
    SentWithinHistory(id, s');
    hide Invariant, Next, Remaining, Unappended;
    var more, others := RestCanBeDelivered(id, s');
    states, events := [s] + more, [event] + others;
    forall i | 0 <= i < |events|
      ensures Next(id, states[i], events[i], states[i + 1])
    {
      if i > 0 {
        assert states[i] == more[i - 1] && events[i] == others[i - 1];
      }
    }
  }

  /** However a run went, it can go on until every admitted record is acknowledged, with no new batch and
      nothing lost any more. */
  lemma EveryRunCanFinish(id: WriterId, states: seq<Sys>, events: seq<Event>)
    returns (longer: seq<Sys>, more: seq<Event>)
    requires Runs(id, states, events)
    requires |states[|events|].log| + |states[|events|].view.history| <= U64_MAX
    ensures Runs(id, longer, more) && states <= longer && events <= more
    ensures forall e <- more[|events|..] :: IsOwnStep(e)
    ensures longer[|more|].view.history == states[|events|].view.history
    ensures longer[|more|].view.acked == |longer[|more|].view.history|
  {
    var s := states[|events|];
    RunKeepsInvariant(id, states, events);
    RemainingIsNatural(id, s);
    var rest, others := RestCanBeDelivered(id, s);
    hide Invariant, Next;
    longer, more := states + rest[1..], events + others;
    forall i | 0 <= i < |more|
      ensures Next(id, longer[i], more[i], longer[i + 1])
    {
      if i >= |events| {
        var j := i - |events|;
        assert longer[i] == rest[j] && longer[i + 1] == rest[j + 1] && more[i] == others[j];
      }
    }
  }

  /** So every submission can be read back in full: some continuation of the run makes a reader of the whole
      log get exactly what was submitted, unless that reader meets a limit. */
  lemma SubmittedCanBeRead(
    id: WriterId, max: nat, states: seq<Sys>, events: seq<Event>, submitted: seq<Bytes>)
    returns (longer: seq<Sys>, more: seq<Event>)
    requires Runs(id, states, events)
    requires |states[|events|].log| + |states[|events|].view.history| <= U64_MAX
    requires AllSplittable(submitted) && states[|events|].view.history == Layout(submitted)
    ensures Runs(id, longer, more) && states <= longer && events <= more
    ensures NoLimitBroken(max, longer[|more|].log) ==> OutputOf(max, longer[|more|].log, id) == submitted
  {
    longer, more := EveryRunCanFinish(id, states, events);
    hide Layout, Splittable, OutputOf, NoLimitBroken, Next;
    if NoLimitBroken(max, longer[|more|].log) {
      DeliversExactlyOnce(id, max, longer, more, submitted);
    }
  }
}
