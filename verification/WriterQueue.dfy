/** The queue both writer implementations keep: numbered batches with an acknowledged and a sent marker
    each, related to the flat `View` of `WriterSpec`. `R` is the implementation's receipt type. */
module WriterQueue {
  import opened Protocol
  import opened WriterSpec

  /** One admitted batch: a contiguous writer-sequence range and the receipts so far. */
  datatype PendingSubmission<R> = PendingSubmission(
    payloads: seq<RecordPayload>,
    startSeqNum: nat,
    acked: nat,
    sent: nat,
    receipts: seq<R>,
    ticket: nat)

  /** What a ticket's sender delivered. */
  datatype Delivery<R> = Delivery(ticket: nat, receipts: seq<R>)

  /** An admitted batch, as its submitter sees it. */
  datatype Batch = Batch(ticket: nat, start: nat, count: nat)

  /** `n` limited to `0 .. max`. */
  function Clamp(n: int, max: nat): nat {
    if n < 0 then 0 else if n > max then max else n
  }

  /** The pending submissions tile the unacknowledged end of the history: only the front one can
      be acknowledged, and the sent records form a prefix of what is retained. */
  ghost predicate Tiles<R>(pending: seq<PendingSubmission<R>>, v: View) {
    && (forall i :: 0 <= i < |pending| ==> Holds(pending[i], v))
    && (forall i, j :: 0 <= i < j < |pending| ==> End(pending[i]) <= pending[j].startSeqNum)
    && (forall i, j :: 0 <= i < |pending| && j == i + 1 < |pending| ==>
          pending[j].startSeqNum == End(pending[i]))
    && (if pending == [] then v.acked == |v.history| else
          && pending[0].startSeqNum <= v.acked <= End(pending[0])
          && End(pending[|pending| - 1]) == |v.history|)
  }

  /** No fully acknowledged submission is retained. */
  ghost predicate FrontUnfinished<R>(pending: seq<PendingSubmission<R>>, v: View) {
    pending != [] ==> v.acked < End(pending[0])
  }

  function End<R>(s: PendingSubmission<R>): nat { s.startSeqNum + |s.payloads| }

  ghost predicate Holds<R>(s: PendingSubmission<R>, v: View) {
    && s.payloads != []
    && SliceAt(s.payloads, v.history, s.startSeqNum)
    && s.acked == Clamp(v.acked - s.startSeqNum, |s.payloads|)
    && s.sent == Clamp(v.sent - s.startSeqNum, |s.payloads|)
  }

  /** Batches were admitted back to back from writer sequence zero. */
  ghost predicate BackToBack(batches: seq<Batch>, end: nat) {
    && (forall k :: 0 <= k < |batches| ==> batches[k].count > 0)
    && (forall k, l :: 0 <= k < |batches| && l == k + 1 < |batches| ==>
          batches[l].start == batches[k].start + batches[k].count)
    && (batches != [] ==> batches[0].start == 0)
    && end == (if batches == [] then 0 else
                 batches[|batches| - 1].start + batches[|batches| - 1].count)
  }

  /** Tickets resolve in submission order, each with exactly the receipts of its batch. */
  ghost predicate Resolves<R>(
    batches: seq<Batch>, delivered: seq<Delivery<R>>, pending: seq<PendingSubmission<R>>, receipts: seq<R>)
  {
    && |batches| == |delivered| + |pending|
    && (forall k :: 0 <= k < |delivered| ==>
          && delivered[k].ticket == batches[k].ticket
          && |delivered[k].receipts| == batches[k].count
          && SliceAt(delivered[k].receipts, receipts, batches[k].start))
    && (forall i :: 0 <= i < |pending| ==>
          && batches[|delivered| + i] == Batch(pending[i].ticket, pending[i].startSeqNum, |pending[i].payloads|)
          && |pending[i].receipts| == pending[i].acked
          && (pending[i].acked > 0 ==> SliceAt(pending[i].receipts, receipts, pending[i].startSeqNum)))
  }

  lemma AllResolved<R>(
    batches: seq<Batch>, delivered: seq<Delivery<R>>, pending: seq<PendingSubmission<R>>, receipts: seq<R>)
    requires Resolves(batches, delivered, pending, receipts) && pending == []
    ensures |delivered| == |batches|
  {
  }

  function Tickets<R>(pending: seq<PendingSubmission<R>>): (tickets: seq<nat>)
    ensures |tickets| == |pending|
    ensures forall i {:trigger tickets[i]} :: 0 <= i < |pending| ==> tickets[i] == pending[i].ticket
  {
    seq(|pending|, i requires 0 <= i < |pending| => pending[i].ticket)
  }

  predicate ValidBatch(batch: seq<RecordPayload>) {
    batch != [] && forall p <- batch :: |p.data| <= MAX_RECORD_PAYLOAD_BYTES
  }

  lemma HoldsInLonger<R>(s: PendingSubmission<R>, v: View, more: seq<RecordPayload>)
    requires v.acked <= v.sent <= |v.history| && Holds(s, v)
    ensures Holds(s, v.(history := v.history + more)) && End(s) <= |v.history|
  {
  }

  lemma HoldsNew<R>(s: PendingSubmission<R>, v: View)
    requires v.acked <= v.sent <= |v.history|
    requires s.payloads != [] && s.startSeqNum == |v.history| && s.acked == s.sent == 0
    ensures Holds(s, v.(history := v.history + s.payloads))
  {
  }

  lemma TilesOneMore<R>(pending: seq<PendingSubmission<R>>, v: View, s: PendingSubmission<R>, longer: View)
    requires Tiles(pending, v) && longer == v.(history := v.history + s.payloads)
    requires forall i :: 0 <= i < |pending| ==> Holds(pending[i], longer) && End(pending[i]) <= |v.history|
    requires Holds(s, longer) && s.startSeqNum == |v.history|
    requires v.acked <= |v.history|
    ensures Tiles(pending + [s], longer)
  {
    hide Holds;
  }

  lemma AdmitKeepsTiles<R>(pending: seq<PendingSubmission<R>>, v: View, s: PendingSubmission<R>)
    requires v.acked <= v.sent <= |v.history| && Tiles(pending, v)
    requires s.payloads != [] && s.startSeqNum == |v.history| && s.acked == s.sent == 0
    ensures Tiles(pending + [s], v.(history := v.history + s.payloads))
  {
    forall i | 0 <= i < |pending|
      ensures Holds(pending[i], v)
    {
    }
    hide Tiles, Holds;
    forall i | 0 <= i < |pending|
      ensures Holds(pending[i], v.(history := v.history + s.payloads)) && End(pending[i]) <= |v.history|
    {
      HoldsInLonger(pending[i], v, s.payloads);
    }
    HoldsNew(s, v);
    TilesOneMore(pending, v, s, v.(history := v.history + s.payloads));
  }

  lemma AdmitKeepsResolves<R>(
    batches: seq<Batch>, delivered: seq<Delivery<R>>, pending: seq<PendingSubmission<R>>,
    receipts: seq<R>, s: PendingSubmission<R>)
    requires Resolves(batches, delivered, pending, receipts)
    requires s.acked == 0 && s.receipts == []
    ensures Resolves(batches + [Batch(s.ticket, s.startSeqNum, |s.payloads|)], delivered,
                     pending + [s], receipts)
  {
  }

  lemma AdmitKeepsBackToBack(batches: seq<Batch>, end: nat, ticket: nat, count: nat)
    requires BackToBack(batches, end) && count > 0
    ensures BackToBack(batches + [Batch(ticket, end, count)], end + count)
  {
  }

  lemma AdmitKeepsView(v: View, batch: seq<RecordPayload>)
    requires v.Valid() && ValidBatch(batch) && |v.history| + |batch| <= U64_MAX
    ensures v.(history := v.history + batch).Valid()
    ensures Load(v.history + batch, v.acked, v.sent) == Load(v.history, v.acked, v.sent)
  {
    LoadPrefix(v.history, v.history + batch, v.acked, v.sent);
  }

  /** `pending` after its submission `i` handed over one more record. */
  function OneMoreSent<R>(pending: seq<PendingSubmission<R>>, i: nat): seq<PendingSubmission<R>>
    requires i < |pending|
  {
    pending[i := pending[i].(sent := pending[i].sent + 1)]
  }

  /** Progress markers do not move the tiling. */
  lemma MarkersKeepTiles<R>(pending: seq<PendingSubmission<R>>, v: View, marked: seq<PendingSubmission<R>>, v': View)
    requires Tiles(pending, v) && |marked| == |pending| && v'.history == v.history
    requires forall j :: 0 <= j < |pending| ==>
               && marked[j].startSeqNum == pending[j].startSeqNum
               && marked[j].payloads == pending[j].payloads
               && Holds(marked[j], v')
    requires pending == [] ==> v'.acked == v.acked
    requires pending != [] ==> pending[0].startSeqNum <= v'.acked <= End(pending[0])
    ensures Tiles(marked, v')
  {
    hide Holds;
  }

  lemma SentHere<R>(s: PendingSubmission<R>, v: View)
    requires v.acked <= v.sent && Holds(s, v)
    requires s.startSeqNum <= v.sent && s.sent < |s.payloads|
    ensures s.startSeqNum + s.sent == v.sent < End(s) <= |v.history|
    ensures s.payloads[s.sent] == v.history[v.sent]
    ensures Holds(s.(sent := s.sent + 1), v.(sent := v.sent + 1))
  {
  }

  lemma SentElsewhere<R>(s: PendingSubmission<R>, v: View)
    requires Holds(s, v)
    requires End(s) <= v.sent || v.sent < s.startSeqNum
    ensures Holds(s, v.(sent := v.sent + 1))
  {
  }

  lemma SendKeepsTiles<R>(pending: seq<PendingSubmission<R>>, v: View, i: nat)
    requires v.acked <= v.sent <= |v.history| && Tiles(pending, v)
    requires i < |pending| && pending[i].startSeqNum <= v.sent && pending[i].sent < |pending[i].payloads|
    ensures v.sent < |v.history|
    ensures pending[i].startSeqNum + pending[i].sent == v.sent
    ensures pending[i].payloads[pending[i].sent] == v.history[v.sent]
    ensures Tiles(OneMoreSent(pending, i), v.(sent := v.sent + 1))
  {
    hide Holds;
    SentHere(pending[i], v);
    forall j | 0 <= j < |pending| && j != i
      ensures Holds(pending[j], v.(sent := v.sent + 1))
    {
      SentElsewhere(pending[j], v);
    }
    MarkersKeepTiles(pending, v, OneMoreSent(pending, i), v.(sent := v.sent + 1));
  }

  /** The first record a submission has not sent, once everything before it was sent. */
  lemma UnsentStart<R>(pending: seq<PendingSubmission<R>>, v: View, i: nat)
    requires v.acked <= v.sent <= |v.history| && Tiles(pending, v)
    requires i < |pending|
    ensures pending[i].sent <= |pending[i].payloads| && End(pending[i]) <= |v.history|
    ensures i == |pending| - 1 ==> End(pending[i]) == |v.history|
    ensures i + 1 < |pending| ==> pending[i + 1].startSeqNum == End(pending[i])
    ensures pending[i].startSeqNum >= v.sent ==> pending[i].sent == 0
    ensures pending[i].startSeqNum <= v.sent && pending[i].sent < |pending[i].payloads| ==>
              pending[i].startSeqNum + pending[i].sent == v.sent
    ensures pending[i].sent == |pending[i].payloads| ==> End(pending[i]) <= v.sent
    ensures SliceAt(pending[i].payloads, v.history, pending[i].startSeqNum)
  {
    assert Holds(pending[i], v);
  }

  /** A fully sent submission leaves the next unsent record to the one after it. */
  lemma SentPosition<R>(pending: seq<PendingSubmission<R>>, v: View, i: nat)
    requires v.acked <= v.sent <= |v.history| && Tiles(pending, v)
    requires i < |pending| && pending[i].sent >= |pending[i].payloads|
    ensures if i + 1 < |pending| then pending[i + 1].startSeqNum <= v.sent else v.sent == |v.history|
  {
    assert Holds(pending[i], v);
    hide Holds;
  }

  lemma TilesStart<R>(pending: seq<PendingSubmission<R>>, v: View)
    requires v.acked <= v.sent <= |v.history| && Tiles(pending, v)
    ensures if pending == [] then v.acked == v.sent == |v.history| else pending[0].startSeqNum <= v.sent
  {
  }

  lemma SendKeepsResolves<R>(
    batches: seq<Batch>, delivered: seq<Delivery<R>>, pending: seq<PendingSubmission<R>>,
    receipts: seq<R>, i: nat)
    requires i < |pending| && Resolves(batches, delivered, pending, receipts)
    ensures Resolves(batches, delivered, OneMoreSent(pending, i), receipts)
  {
  }

  /** The first unacknowledged record of a retained submission. */
  lemma UnacknowledgedStart<R>(pending: seq<PendingSubmission<R>>, v: View, i: nat)
    requires v.acked <= v.sent <= |v.history| && Tiles(pending, v) && FrontUnfinished(pending, v)
    requires i < |pending|
    ensures pending[i].acked < |pending[i].payloads|
    ensures pending[i].startSeqNum + pending[i].acked
         == if i == 0 then v.acked else End(pending[i - 1])
    ensures End(pending[i]) <= |v.history|
    ensures i == |pending| - 1 ==> End(pending[i]) == |v.history|
  {
    assert Holds(pending[i], v);
    hide Holds;
  }

  /** `pending` after its front submission collected one more receipt. */
  function OneMoreAcked<R>(pending: seq<PendingSubmission<R>>, receipt: R): seq<PendingSubmission<R>>
    requires pending != []
  {
    pending[0 := pending[0].(acked := pending[0].acked + 1,
                             receipts := pending[0].receipts + [receipt])]
  }

  lemma AckedHere<R>(s: PendingSubmission<R>, v: View, receipt: R)
    requires v.acked < v.sent && Holds(s, v)
    requires s.startSeqNum <= v.acked && s.acked < |s.payloads|
    ensures s.startSeqNum + s.acked == v.acked < End(s) <= |v.history|
    ensures s.payloads[s.acked] == v.history[v.acked]
    ensures Holds(s.(acked := s.acked + 1, receipts := s.receipts + [receipt]), v.(acked := v.acked + 1))
  {
  }

  lemma AckedElsewhere<R>(s: PendingSubmission<R>, v: View)
    requires Holds(s, v) && v.acked < s.startSeqNum
    ensures Holds(s, v.(acked := v.acked + 1))
  {
  }

  lemma AckKeepsTiles<R>(pending: seq<PendingSubmission<R>>, v: View, receipt: R)
    requires v.acked < v.sent <= |v.history| && Tiles(pending, v)
    requires pending != [] && pending[0].acked < |pending[0].payloads|
    ensures pending[0].startSeqNum + pending[0].acked == v.acked
    ensures pending[0].payloads[pending[0].acked] == v.history[v.acked]
    ensures Tiles(OneMoreAcked(pending, receipt), v.(acked := v.acked + 1))
  {
    hide Holds;
    AckedHere(pending[0], v, receipt);
    forall j | 0 < j < |pending|
      ensures Holds(pending[j], v.(acked := v.acked + 1))
    {
      AckedElsewhere(pending[j], v);
    }
    MarkersKeepTiles(pending, v, OneMoreAcked(pending, receipt), v.(acked := v.acked + 1));
  }

  lemma AckKeepsResolves<R>(
    batches: seq<Batch>, delivered: seq<Delivery<R>>, pending: seq<PendingSubmission<R>>,
    receipts: seq<R>, receipt: R)
    requires Resolves(batches, delivered, pending, receipts)
    requires pending != [] && pending[0].startSeqNum + pending[0].acked == |receipts|
    requires pending[0].acked < |pending[0].payloads|
    ensures Resolves(batches, delivered, OneMoreAcked(pending, receipt), receipts + [receipt])
  {
  }

  lemma AckKeepsView(v: View)
    requires v.Valid() && v.acked < v.sent
    ensures v.(acked := v.acked + 1).Valid()
    ensures Load(v.history, v.acked, v.sent)
         == |v.history[v.acked].data| + Load(v.history, v.acked + 1, v.sent)
  {
    LoadSplit(v.history, v.acked, v.acked + 1, v.sent);
    assert Load(v.history, v.acked, v.acked) == 0;
  }

  /** A completed front submission leaves the queue and resolves its ticket. */
  lemma PopFront<R>(
    batches: seq<Batch>, delivered: seq<Delivery<R>>, pending: seq<PendingSubmission<R>>,
    receipts: seq<R>, v: View)
    requires v.acked <= v.sent <= |v.history| && Tiles(pending, v)
    requires Resolves(batches, delivered, pending, receipts)
    requires pending != [] && pending[0].acked == |pending[0].payloads|
    ensures Tiles(pending[1..], v) && FrontUnfinished(pending[1..], v)
    ensures Resolves(batches, delivered + [Delivery(pending[0].ticket, pending[0].receipts)],
                     pending[1..], receipts)
  {
    PopFrontTiles(pending, v);
    hide Tiles;
    hide FrontUnfinished;
  }

  lemma PopFrontTiles<R>(pending: seq<PendingSubmission<R>>, v: View)
    requires v.acked <= v.sent <= |v.history| && Tiles(pending, v)
    requires pending != [] && pending[0].acked == |pending[0].payloads|
    ensures Tiles(pending[1..], v) && FrontUnfinished(pending[1..], v)
  {
    assert Holds(pending[0], v);
    if |pending| > 1 {
      assert Holds(pending[1], v);
    }
    hide Holds;
  }

  /** A partly acknowledged front submission stays. */
  lemma FrontStays<R>(pending: seq<PendingSubmission<R>>, v: View)
    requires v.acked <= v.sent <= |v.history| && Tiles(pending, v)
    requires pending != [] ==> pending[0].acked < |pending[0].payloads|
    ensures FrontUnfinished(pending, v)
  {
    if pending != [] {
      assert Holds(pending[0], v);
    }
    hide Holds;
  }

  lemma FrontStaysUnfinished<R>(pending: seq<PendingSubmission<R>>, rewound: seq<PendingSubmission<R>>, v: View)
    requires FrontUnfinished(pending, v) && |rewound| == |pending|
    requires pending != [] ==> rewound[0] == pending[0].(sent := pending[0].acked)
    ensures FrontUnfinished(rewound, Reconnected(v))
  {
  }

  /** Where the sent-but-unacknowledged stretch meets submission `i`. */
  lemma SentStretch<R>(pending: seq<PendingSubmission<R>>, v: View, i: nat)
    requires v.acked <= v.sent <= |v.history| && Tiles(pending, v) && FrontUnfinished(pending, v)
    requires i < |pending|
    ensures pending[i].acked <= pending[i].sent <= |pending[i].payloads|
    ensures i == 0 ==> pending[i].startSeqNum + pending[i].acked == v.acked
    ensures i > 0 ==> pending[i].acked == 0 && pending[i].startSeqNum == End(pending[i - 1])
    ensures i == |pending| - 1 ==> End(pending[i]) == |v.history|
    ensures pending[i].acked < pending[i].sent <==>
              v.acked < v.sent && pending[i].startSeqNum < v.sent
    ensures pending[i].acked < pending[i].sent ==>
              pending[i].startSeqNum + pending[i].sent == Min(v.sent, End(pending[i]))
  {
    assert Holds(pending[i], v);
    hide Holds;
  }

  /** While something is unacknowledged, a submission is retained for it. */
  lemma PendingRetained<R>(pending: seq<PendingSubmission<R>>, v: View)
    requires v.acked < |v.history| && Tiles(pending, v)
    ensures pending != []
  {
  }

  lemma RewindKeepsTiles<R>(pending: seq<PendingSubmission<R>>, v: View, rewound: seq<PendingSubmission<R>>)
    requires v.acked <= v.sent <= |v.history| && Tiles(pending, v)
    requires |rewound| == |pending|
    requires forall i :: 0 <= i < |pending| ==> rewound[i] == pending[i].(sent := pending[i].acked)
    ensures Tiles(rewound, Reconnected(v))
  {
    forall j | 0 <= j < |pending|
      ensures Holds(rewound[j], Reconnected(v))
    {
      assert Holds(pending[j], v);
    }
    MarkersKeepTiles(pending, v, rewound, Reconnected(v));
  }

  lemma RewindKeepsResolves<R>(
    batches: seq<Batch>, delivered: seq<Delivery<R>>, pending: seq<PendingSubmission<R>>,
    receipts: seq<R>, rewound: seq<PendingSubmission<R>>)
    requires Resolves(batches, delivered, pending, receipts)
    requires |rewound| == |pending|
    requires forall i :: 0 <= i < |pending| ==> rewound[i] == pending[i].(sent := pending[i].acked)
    ensures Resolves(batches, delivered, rewound, receipts)
  {
  }
}
