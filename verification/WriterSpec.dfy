/** Reference model of a durable writer, shared by the Rust and the TypeScript implementation. */
module WriterSpec {
  import opened Protocol

  /** A writer has admitted the records `history`, numbered from zero. Everything below `acked` is
      acknowledged and everything below `sent` was sent on the current connection. */
  datatype View = View(history: seq<RecordPayload>, acked: nat, sent: nat) {

    ghost predicate Valid() {
      && acked <= sent <= |history| <= U64_MAX
      && (forall p <- history :: |p.data| <= MAX_RECORD_PAYLOAD_BYTES)
      && sent - acked <= MAX_WRITER_IN_FLIGHT_RECORDS
      && Load(history, acked, sent) <= MAX_WRITER_IN_FLIGHT_PAYLOAD_BYTES
    }
  }

  datatype AppendAck = AppendAck(
    writerStartSeqNum: U64, writerEndSeqNum: U64, startSeqNum: U64, endSeqNum: U64)

  datatype AppendReceipt = AppendReceipt(writerSeqNum: nat, seqNum: nat, ack: AppendAck)

  /** Records `v.sent .. end` fit both the in-flight window and one protocol frame. */
  ghost predicate FitsFrame(v: View, end: nat) {
    && v.acked <= v.sent <= end <= |v.history|
    && end - v.acked <= MAX_WRITER_IN_FLIGHT_RECORDS
    && Load(v.history, v.acked, end) <= MAX_WRITER_IN_FLIGHT_PAYLOAD_BYTES
    && end - v.sent <= MAX_APPEND_FRAME_RECORDS
    && Load(v.history, v.sent, end) <= MAX_FRAME_PAYLOAD_BYTES
  }

  /** `end` is the longest frame that fits. */
  ghost predicate IsFrameEnd(v: View, end: nat) {
    && FitsFrame(v, end)
    && !FitsFrame(v, end + 1)
  }

  lemma FitsFrameShorter(v: View, end: nat, shorter: nat)
    requires FitsFrame(v, end) && v.sent <= shorter <= end
    ensures FitsFrame(v, shorter)
  {
    LoadSplit(v.history, v.acked, shorter, end);
    LoadSplit(v.history, v.sent, shorter, end);
  }

  lemma EmptyFrameFits(v: View)
    requires v.Valid()
    ensures FitsFrame(v, v.sent) && !FitsFrame(v, |v.history| + 1)
    ensures Load(v.history, v.sent, v.sent) == 0 && Numbered(v.history, v.sent, v.sent) == []
  {
  }

  /** Extending a frame by one record: the four limits `take_frame` tests are exactly what decides
      whether the longer frame still fits. */
  lemma ExtendFrame(v: View, sent: nat)
    requires v.Valid() && FitsFrame(v, sent) && sent < |v.history|
    ensures sent - v.acked <= MAX_WRITER_IN_FLIGHT_RECORDS && sent - v.sent <= MAX_APPEND_FRAME_RECORDS
    ensures var size := |v.history[sent].data|;
            && Load(v.history, v.acked, sent + 1) == Load(v.history, v.acked, sent) + size
            && Load(v.history, v.sent, sent + 1) == Load(v.history, v.sent, sent) + size
            && (FitsFrame(v, sent + 1) <==>
                  !(|| sent - v.acked == MAX_WRITER_IN_FLIGHT_RECORDS
                    || Load(v.history, v.acked, sent) + size > MAX_WRITER_IN_FLIGHT_PAYLOAD_BYTES
                    || sent - v.sent == MAX_APPEND_FRAME_RECORDS
                    || (sent > v.sent && size > MAX_FRAME_PAYLOAD_BYTES - Load(v.history, v.sent, sent))))
    ensures FitsFrame(v, sent + 1) ==> v.(sent := sent + 1).Valid()
    ensures Numbered(v.history, v.sent, sent + 1) == Numbered(v.history, v.sent, sent)
              + [AppendRecord(sent, v.history[sent].part, v.history[sent].data)]
  {
  }

  /** The frame is determined by the view, so any two correct writers send the same frames. */
  lemma FrameEndUnique(v: View, end: nat, other: nat)
    requires IsFrameEnd(v, end) && IsFrameEnd(v, other)
    ensures end == other
  {
    if end < other {
      FitsFrameShorter(v, other, end + 1);
    } else if other < end {
      FitsFrameShorter(v, end, other + 1);
    }
  }

  /** While a longer frame fits, the window is not full. */
  lemma LongerFrameFits(v: View, end: nat)
    requires IsFrameEnd(v, end) && v.sent < end
    ensures !IsFrameEnd(v, v.sent)
  {
    FitsFrameShorter(v, end, v.sent + 1);
  }

  /** A writer with nothing in flight can always send its next retained record. */
  lemma IdleWriterCanSend(v: View)
    requires v.Valid() && v.acked == v.sent < |v.history|
    ensures FitsFrame(v, v.sent + 1)
  {
    assert Load(v.history, v.sent, v.sent) == 0;
    assert Load(v.history, v.sent, v.sent + 1) == |v.history[v.sent].data|;
  }

  /** One frame leaves the writer: the longest that fits, carrying the next unsent records. */
  ghost predicate SendsFrame(v: View, v': View, frame: seq<AppendRecord>) {
    && IsFrameEnd(v, v'.sent)
    && v' == v.(sent := v'.sent)
    && frame == Numbered(v.history, v.sent, v'.sent)
  }

  /** The codec's checks on an append batch other than its emptiness. */
  ghost predicate WithinFrameLimits(frame: seq<AppendRecord>) {
    && |frame| <= MAX_APPEND_FRAME_RECORDS
    && FrameBytes(frame) <= MAX_FRAME_PAYLOAD_BYTES
    && forall r <- frame :: r.writerSeqNum < U64_MAX && |r.data| <= MAX_RECORD_PAYLOAD_BYTES
  }

  ghost function FrameBytes(frame: seq<AppendRecord>): nat {
    if |frame| == 0 then 0 else FrameBytes(frame[..|frame| - 1]) + |frame[|frame| - 1].data|
  }

  lemma {:induction false} FrameBytesIsLoad(history: seq<RecordPayload>, lo: nat, hi: nat)
    requires lo <= hi <= |history|
    ensures FrameBytes(Numbered(history, lo, hi)) == Load(history, lo, hi)
    decreases hi
  {
    if lo < hi {
      FrameBytesIsLoad(history, lo, hi - 1);
      assert Numbered(history, lo, hi)[..hi - lo - 1] == Numbered(history, lo, hi - 1);
    }
  }

  /** Sending keeps the writer valid, and the codec accepts every frame a writer sends. */
  lemma SentFramesAreValid(v: View, v': View, frame: seq<AppendRecord>)
    requires v.Valid() && SendsFrame(v, v', frame)
    ensures v'.Valid()
    ensures WithinFrameLimits(frame)
    ensures frame == [] ==> v.sent == |v.history| || v.sent > v.acked
  {
    FrameBytesIsLoad(v.history, v.sent, v'.sent);
    forall r | r in frame
      ensures r.writerSeqNum < U64_MAX && |r.data| <= MAX_RECORD_PAYLOAD_BYTES
    {
      var i :| 0 <= i < |frame| && frame[i] == r;
      assert v.history[v.sent + i] in v.history;
    }
    if v.acked == v.sent < |v.history| {
      IdleWriterCanSend(v);
    }
  }

  /** The writer and durable ranges are non-empty and equal in length. */
  predicate WellFormedAck(ack: AppendAck) {
    && ack.writerStartSeqNum < ack.writerEndSeqNum
    && ack.startSeqNum <= ack.endSeqNum
    && ack.endSeqNum - ack.startSeqNum == ack.writerEndSeqNum - ack.writerStartSeqNum
  }

  /** The records of several frames, in order. */
  function Join(frames: seq<seq<AppendRecord>>): seq<AppendRecord> {
    if frames == [] then [] else Join(frames[..|frames| - 1]) + frames[|frames| - 1]
  }

  /** The writer sequence numbers a stretch of frames carries. */
  ghost function SeqNums(records: seq<AppendRecord>): set<nat> {
    set r <- records :: r.writerSeqNum
  }

  lemma SeqNumsOfStretch(history: seq<RecordPayload>, lo: nat, hi: nat)
    requires lo <= hi <= |history|
    ensures forall n: nat :: n in SeqNums(Numbered(history, lo, hi)) <==> lo <= n < hi
  {
    var records := Numbered(history, lo, hi);
    forall n: nat | lo <= n < hi
      ensures n in SeqNums(records)
    {
      assert records[n - lo] in records;
    }
  }

  /** An acknowledgement a writer accepts: it starts at the oldest unacknowledged record and
      covers only records sent on this connection. */
  predicate Acceptable(v: View, ack: AppendAck) {
    && WellFormedAck(ack)
    && ack.writerStartSeqNum == v.acked
    && ack.writerEndSeqNum <= v.sent
  }

  function Acknowledged(v: View, ack: AppendAck): View
    requires Acceptable(v, ack)
  {
    v.(acked := ack.writerEndSeqNum)
  }

  /** A fresh connection has nothing in flight: unacknowledged records must be sent again. */
  function Reconnected(v: View): View {
    v.(sent := v.acked)
  }

  lemma AcknowledgedIsValid(v: View, ack: AppendAck)
    requires v.Valid() && Acceptable(v, ack)
    ensures Acknowledged(v, ack).Valid()
    ensures Load(v.history, v.acked, v.sent)
         == Load(v.history, v.acked, ack.writerEndSeqNum)
            + Load(v.history, ack.writerEndSeqNum, v.sent)
  {
    LoadSplit(v.history, v.acked, ack.writerEndSeqNum, v.sent);
  }

  /** The receipts an acknowledgement yields: one per record, both numberings consecutive. */
  function ReceiptsFor(ack: AppendAck, count: nat): (receipts: seq<AppendReceipt>)
    ensures |receipts| == count
  {
    seq(count, i requires 0 <= i < count => AppendReceipt(ack.writerStartSeqNum + i, ack.startSeqNum + i, ack))
  }

  /** A receipt whose durable number sits at the same place in its acknowledgement. */
  ghost predicate ReceiptFits(r: AppendReceipt) {
    && r.ack.writerStartSeqNum <= r.writerSeqNum < r.ack.writerEndSeqNum
    && r.seqNum - r.ack.startSeqNum == r.writerSeqNum - r.ack.writerStartSeqNum
  }
}
