/**
 * The Rust frame encoder and decoder: a cursor over the message, a walker over record bodies, and the
 * batch loops, proved against the frames of `FrameCodec`.
 */
module RustFrames {
  import opened Wrappers
  import opened Protocol
  import opened WriterSpec
  import opened ReadSpec
  import opened FrameCodec

  datatype CodecError =
    | EmptyFrame | UnknownOperation | UnknownOpenReadFlags | UnknownOpenWriteFlags
    | ExpectedNextSeqNumOutOfRange | InvalidLinkSecret | WriterSequenceExhausted | UnknownStreamKind
    | InvalidRecordLength | InvalidBatchRecordCount | NonContiguousReadBatch | BatchPayloadTooLarge
    | RecordTooLarge | TruncatedFrame | TrailingBytes | StreamMetadataNotModelled

  /** What a caller learns besides the kind of error. */
  function Accepted<T>(result: Result<T, CodecError>): Option<T> {
    match result
    case Ok(value) => Some(value)
    case Err(_) => None
  }

  /** `FrameDecoder`: takes fields off the front of a message. */
  class FrameDecoder {
    var remaining: Bytes

    constructor (body: Bytes)
      ensures remaining == body
    {
      remaining := body;
    }

    method Take(n: nat) returns (field: Result<Bytes, CodecError>)
      modifies this
      ensures field.Ok? <==> |old(remaining)| >= n
      ensures field.Ok? ==> field.value == old(remaining)[..n] && remaining == old(remaining)[n..]
    {
      if |remaining| < n {
        return Err(TruncatedFrame);
      }
      field := Ok(remaining[..n]);
      remaining := remaining[n..];
    }

    method TakeU64() returns (value: Result<U64, CodecError>)
      modifies this
      ensures value.Ok? <==> |old(remaining)| >= 8
      ensures value.Ok? ==> value.value == Value(old(remaining)[..8]) && remaining == old(remaining)[8..]
    {
      var field := Take(8);
      if field.Err? {
        return Err(field.error);
      }
      U64RoundTrip(0, field.value);
      return Ok(Value(field.value));
    }

    method TakeU32() returns (value: Result<nat, CodecError>)
      modifies this
      ensures value.Ok? <==> |old(remaining)| >= 4
      ensures value.Ok? ==> value.value == Value(old(remaining)[..4]) < 0x1_0000_0000
                            && remaining == old(remaining)[4..]
    {
      var field := Take(4);
      if field.Err? {
        return Err(field.error);
      }
      U32RoundTrip(0, field.value);
      return Ok(Value(field.value));
    }
  }

  function Prepend(bodies: seq<Bytes>, rest: Option<seq<Bytes>>): Option<seq<Bytes>> {
    if rest.None? then None else Some(bodies + rest.value)
  }

  /** `RecordBodyRanges`: walks the length-prefixed bodies after the operation byte. */
  class RecordBodyRanges {
    const input: Bytes
    const maximumRecords: nat
    var offset: nat
    var count: nat

    constructor (message: Bytes, maximum: nat)
      requires |message| > 0
      ensures input == message && maximumRecords == maximum && offset == 1 && count == 0
    {
      input, maximumRecords, offset, count := message, maximum, 1, 0;
    }

    /** `next`: the following body, or why there is none. */
    method Next() returns (range: Option<Result<(nat, nat), CodecError>>)
      requires offset <= |input| && count <= maximumRecords
      modifies this
      ensures offset <= |input| && count <= maximumRecords
      ensures range.None? <==> old(offset) == |input|
      ensures range.None? ==> offset == old(offset) && count == old(count)
      ensures range.Some? && range.value.Ok? ==>
                var (start, end) := range.value.value;
                && old(offset) < start < end == offset && count == old(count) + 1
                && SplitBodies(input[old(offset)..]) == Prepend([input[start..end]], SplitBodies(input[end..]))
      ensures range.Some? && range.value.Err? ==>
                (old(count) == maximumRecords || SplitBodies(input[old(offset)..]).None?) && offset == |input|
    {
      if offset >= |input| {
        return None;
      }
      if count == maximumRecords {
        offset := |input|;
        return Some(Err(InvalidBatchRecordCount));
      }
      var rest := input[offset..];
      var decoder := new FrameDecoder(rest);
      var length := decoder.TakeU32();
      if length.Err? {
        offset := |input|;
        return Some(Err(length.error));
      }
      var start, end := offset + 4, offset + 4 + length.value;
      if end > |input| || length.value == 0 {
        offset := |input|;
        return Some(Err(InvalidRecordLength));
      }
      assert rest[4..4 + length.value] == input[start..end] && rest[4 + length.value..] == input[end..];
      offset := end;
      count := count + 1;
      return Some(Ok((start, end)));
    }
  }

  lemma {:induction false} ParsedPointwise<T>(bodies: seq<Bytes>, parse: Bytes -> Option<T>)
    requires ParseAll(bodies, parse).Some?
    ensures |ParseAll(bodies, parse).value| == |bodies|
    ensures forall i :: 0 <= i < |bodies| ==> parse(bodies[i]) == Some(ParseAll(bodies, parse).value[i])
    decreases |bodies|
  {
    if |bodies| > 0 {
      ParsedPointwise(bodies[..|bodies| - 1], parse);
    }
  }

  /** Bodies `seen` of a message, parsed to `records`, with `rest` still to be walked. */
  ghost predicate Walked<T>(body: Bytes, seen: seq<Bytes>, records: seq<T>, rest: Bytes, parse: Bytes -> Option<T>) {
    SplitBodies(body) == Prepend(seen, SplitBodies(rest)) && ParseAll(seen, parse) == Some(records)
  }

  lemma WalkOn<T>(body: Bytes, seen: seq<Bytes>, records: seq<T>, rest: Bytes, next: Bytes, after: Bytes,
                  parse: Bytes -> Option<T>)
    requires Walked(body, seen, records, rest, parse)
    requires SplitBodies(rest) == Prepend([next], SplitBodies(after))
    ensures parse(next).Some? ==> Walked(body, seen + [next], records + [parse(next).value], after, parse)
    ensures parse(next).None? && SplitBodies(body).Some? ==> ParseAll(SplitBodies(body).value, parse).None?
  {
    var all := SplitBodies(body);
    assert (seen + [next])[..|seen|] == seen;
    if SplitBodies(after).Some? {
      assert seen + ([next] + SplitBodies(after).value) == (seen + [next]) + SplitBodies(after).value;
      if parse(next).None? && ParseAll(all.value, parse).Some? {
        assert all.value[|seen|] == next;
        ParsedPointwise(all.value, parse);
      }
    }
  }

  lemma WalkEnds<T>(body: Bytes, seen: seq<Bytes>, records: seq<T>, rest: Bytes, parse: Bytes -> Option<T>)
    requires Walked(body, seen, records, rest, parse)
    ensures rest == [] ==> SplitBodies(body) == Some(seen)
    ensures |rest| > 0 && SplitBodies(body).Some? && ParseAll(SplitBodies(body).value, parse).Some? ==>
              |ParseAll(SplitBodies(body).value, parse).value| > |records|
  {
    ParsedPointwise(seen, parse);
    if |rest| == 0 {
      assert seen + [] == seen;
    } else if SplitBodies(body).Some? && ParseAll(SplitBodies(body).value, parse).Some? {
      ParsedPointwise(SplitBodies(body).value, parse);
    }
  }

  method DecodeAppendRecord(body: Bytes) returns (record: Result<AppendRecord, CodecError>)
    ensures Accepted(record) == ParseAppendBody(body)
  {
    hide Value, PartFromRaw;
    var decoder := new FrameDecoder(body);
    var writerSeqNum := decoder.TakeU64();
    if writerSeqNum.Err? {
      return Err(writerSeqNum.error);
    }
    if writerSeqNum.value == U64_MAX {
      return Err(WriterSequenceExhausted);
    }
    var partRaw := decoder.TakeU32();
    if partRaw.Err? {
      return Err(partRaw.error);
    }
    var data := decoder.remaining;
    assert body[8..][..4] == body[8..12] && data == body[12..];
    if |data| > MAX_RECORD_PAYLOAD_BYTES {
      return Err(RecordTooLarge);
    }
    return Ok(AppendRecord(writerSeqNum.value, PartFromRaw(partRaw.value), data));
  }

  method DecodeReadRecord(body: Bytes) returns (record: Result<PositionedRecord, CodecError>)
    ensures Accepted(record) == ParseReadBody(body)
  {
    hide Value, PartFromRaw;
    var decoder := new FrameDecoder(body);
    var seqNum := decoder.TakeU64();
    if seqNum.Err? {
      return Err(seqNum.error);
    }
    var timestampMs := decoder.TakeU64();
    if timestampMs.Err? {
      return Err(timestampMs.error);
    }
    assert body[8..][..8] == body[8..16] && decoder.remaining == body[16..];
    var writerId := decoder.Take(WRITER_ID_LEN);
    if writerId.Err? {
      return Err(writerId.error);
    }
    assert writerId.value == body[16..32] && decoder.remaining == body[32..];
    var writerSeqNum := decoder.TakeU64();
    if writerSeqNum.Err? {
      return Err(writerSeqNum.error);
    }
    assert body[32..][..8] == body[32..40] && decoder.remaining == body[40..];
    var partRaw := decoder.TakeU32();
    if partRaw.Err? {
      return Err(partRaw.error);
    }
    var data := decoder.remaining;
    assert body[40..][..4] == body[40..44] && data == body[44..];
    if |data| > MAX_RECORD_PAYLOAD_BYTES {
      return Err(RecordTooLarge);
    }
    var read := ReadRecord(Value(writerId.value), writerSeqNum.value, PartFromRaw(partRaw.value), data);
    return Ok(PositionedRecord(seqNum.value, timestampMs.value, read));
  }

  lemma WalkStarts<T>(body: Bytes, parse: Bytes -> Option<T>)
    ensures Walked(body, [], [], body, parse)
  {
    if SplitBodies(body).Some? {
      assert [] + SplitBodies(body).value == SplitBodies(body).value;
    }
  }

  /** A walk that cannot go on, or would exceed the record limit, is no batch. */
  lemma AppendWalkFails(body: Bytes, seen: seq<Bytes>, records: seq<AppendRecord>, rest: Bytes)
    requires Walked(body, seen, records, rest, ParseAppendBody) && |rest| > 0
    requires SplitBodies(rest).None? || |records| == MAX_APPEND_FRAME_RECORDS
    ensures DecodeAppendBatch(body).None?
  {
    WalkEnds(body, seen, records, rest, ParseAppendBody);
  }

  lemma ReadWalkFails(body: Bytes, seen: seq<Bytes>, batch: seq<PositionedRecord>, rest: Bytes)
    requires Walked(body, seen, batch, rest, ParseReadBody) && |rest| > 0
    requires SplitBodies(rest).None? || |batch| == MAX_READ_FRAME_RECORDS
    ensures DecodeReadBatch(body).None?
  {
    WalkEnds(body, seen, batch, rest, ParseReadBody);
  }

  lemma AppendRecordsFit(seen: seq<Bytes>, records: seq<AppendRecord>)
    requires ParseAll(seen, ParseAppendBody) == Some(records)
    ensures forall r <- records :: FitsAppend(r)
  {
    ParsedPointwise(seen, ParseAppendBody);
    forall i | 0 <= i < |records|
      ensures FitsAppend(records[i])
    {
      AppendBodyRoundTripBack(seen[i]);
    }
  }

  lemma ReadRecordsFit(seen: seq<Bytes>, batch: seq<PositionedRecord>)
    requires ParseAll(seen, ParseReadBody) == Some(batch)
    ensures forall r <- batch :: FitsRead(r)
  {
    ParsedPointwise(seen, ParseReadBody);
    forall i | 0 <= i < |batch|
      ensures FitsRead(batch[i])
    {
      ReadBodyRoundTripBack(seen[i]);
    }
  }

  /** The batch loop for a client message. */
  method DecodeAppendBatchFrame(input: Bytes) returns (frame: Result<ClientFrame, CodecError>)
    requires |input| > 0
    ensures Accepted(frame) == DecodeAppendBatch(input[1..])
  {
    hide SplitBodies, ParseAppendBody, ParseAll;
    var ranges := new RecordBodyRanges(input, MAX_APPEND_FRAME_RECORDS);
    var records: seq<AppendRecord> := [];
    var payloadBytes := 0;
    ghost var seen: seq<Bytes> := [];
    WalkStarts(input[1..], ParseAppendBody);
    while true
      invariant ranges.input == input && ranges.maximumRecords == MAX_APPEND_FRAME_RECORDS && fresh(ranges)
      invariant ranges.offset <= |input| && ranges.count == |records| <= MAX_APPEND_FRAME_RECORDS
      invariant Walked(input[1..], seen, records, input[ranges.offset..], ParseAppendBody)
      invariant payloadBytes == FrameBytes(records)
      decreases |input| - ranges.offset
    {
      ghost var rest := input[ranges.offset..];
      var range := ranges.Next();
      if range.None? {
        break;
      }
      if range.value.Err? {
        AppendWalkFails(input[1..], seen, records, rest);
        return Err(range.value.error);
      }
      var (start, end) := range.value.value;
      var record := DecodeAppendRecord(input[start..end]);
      WalkOn(input[1..], seen, records, rest, input[start..end], input[end..], ParseAppendBody);
      if record.Err? {
        return Err(record.error);
      }
      assert (records + [record.value])[..|records|] == records;
      records := records + [record.value];
      seen := seen + [input[start..end]];
      payloadBytes := payloadBytes + |record.value.data|;
    }
    WalkEnds(input[1..], seen, records, input[ranges.offset..], ParseAppendBody);
    AppendRecordsFit(seen, records);
    if |records| == 0 {
      return Err(InvalidBatchRecordCount);
    }
    if payloadBytes > MAX_FRAME_PAYLOAD_BYTES {
      return Err(BatchPayloadTooLarge);
    }
    return Ok(AppendBatch(records));
  }

  /** `validate_sequence_contiguous`. */
  method ValidateContiguous(batch: seq<PositionedRecord>) returns (ok: bool)
    ensures ok <==> Contiguous(batch)
  {
    var previous: Option<U64> := None;
    for i := 0 to |batch|
      invariant previous == if i == 0 then None else Some(batch[i - 1].seqNum)
      invariant Contiguous(batch[..i])
    {
      if previous.Some? && (previous.value == U64_MAX || previous.value + 1 != batch[i].seqNum) {
        assert batch[..i][i - 1].seqNum == batch[0].seqNum + i - 1;
        assert batch[i].seqNum != batch[0].seqNum + i;
        return false;
      }
      previous := Some(batch[i].seqNum);
    }
    assert batch[..|batch|] == batch;
    return true;
  }

  /** The batch loop for a server message. */
  method DecodeReadBatchFrame(input: Bytes) returns (frame: Result<ServerFrame, CodecError>)
    requires |input| > 0
    ensures Accepted(frame) == DecodeReadBatch(input[1..])
  {
    hide SplitBodies, ParseReadBody, ParseAll;
    var ranges := new RecordBodyRanges(input, MAX_READ_FRAME_RECORDS);
    var batch: seq<PositionedRecord> := [];
    var payloadBytes := 0;
    ghost var seen: seq<Bytes> := [];
    WalkStarts(input[1..], ParseReadBody);
    while true
      invariant ranges.input == input && ranges.maximumRecords == MAX_READ_FRAME_RECORDS && fresh(ranges)
      invariant ranges.offset <= |input| && ranges.count == |batch| <= MAX_READ_FRAME_RECORDS
      invariant Walked(input[1..], seen, batch, input[ranges.offset..], ParseReadBody)
      invariant payloadBytes == ReadBytes(batch)
      decreases |input| - ranges.offset
    {
      ghost var rest := input[ranges.offset..];
      var range := ranges.Next();
      if range.None? {
        break;
      }
      if range.value.Err? {
        ReadWalkFails(input[1..], seen, batch, rest);
        return Err(range.value.error);
      }
      var (start, end) := range.value.value;
      var record := DecodeReadRecord(input[start..end]);
      WalkOn(input[1..], seen, batch, rest, input[start..end], input[end..], ParseReadBody);
      if record.Err? {
        return Err(record.error);
      }
      assert (batch + [record.value])[..|batch|] == batch;
      batch := batch + [record.value];
      seen := seen + [input[start..end]];
      payloadBytes := payloadBytes + |record.value.record.data|;
    }
    WalkEnds(input[1..], seen, batch, input[ranges.offset..], ParseReadBody);
    ReadRecordsFit(seen, batch);
    if |batch| == 0 {
      return Err(InvalidBatchRecordCount);
    }
    if payloadBytes > MAX_FRAME_PAYLOAD_BYTES {
      return Err(BatchPayloadTooLarge);
    }
    var contiguous := ValidateContiguous(batch);
    if !contiguous {
      return Err(NonContiguousReadBatch);
    }
    return Ok(ReadBatch(batch));
  }

  method DecodeOpenReadFrame(body: Bytes) returns (frame: Result<ClientFrame, CodecError>)
    ensures Accepted(frame) == DecodeOpenRead(body)
  {
    var decoder := new FrameDecoder(body);
    var flags := decoder.Take(1);
    if flags.Err? {
      return Err(flags.error);
    }
    if flags.value[0] > 1 {
      return Err(UnknownOpenReadFlags);
    }
    if flags.value[0] == 0 {
      if |decoder.remaining| > 0 {
        return Err(TrailingBytes);
      }
      return Ok(OpenRead(None));
    }
    var secret := decoder.Take(LINK_SECRET_LEN);
    if secret.Err? {
      return Err(secret.error);
    }
    if |decoder.remaining| > 0 {
      return Err(TrailingBytes);
    }
    assert secret.value == body[1..];
    if !IsSecret(secret.value) {
      return Err(InvalidLinkSecret);
    }
    return Ok(OpenRead(Some(secret.value)));
  }

  method DecodeOpenWriteFrame(body: Bytes) returns (frame: Result<ClientFrame, CodecError>)
    ensures Accepted(frame) == DecodeOpenWrite(body)
  {
    hide Value;
    var decoder := new FrameDecoder(body);
    var flags := decoder.Take(1);
    if flags.Err? {
      return Err(flags.error);
    }
    if flags.value[0] > 1 {
      return Err(UnknownOpenWriteFlags);
    }
    var id := decoder.Take(WRITER_ID_LEN);
    if id.Err? {
      return Err(id.error);
    }
    assert id.value == body[1..17] && decoder.remaining == body[17..];
    var expected: Option<U64> := None;
    if flags.value[0] == 1 {
      var value := decoder.TakeU64();
      if value.Err? {
        return Err(value.error);
      }
      assert body[17..][..8] == body[17..25] && decoder.remaining == body[25..];
      if value.value > MAX_SAFE_INTEGER_U64 {
        return Err(ExpectedNextSeqNumOutOfRange);
      }
      expected := Some(value.value);
    }
    var secret := decoder.remaining;
    if !IsSecret(secret) {
      return Err(InvalidLinkSecret);
    }
    return Ok(OpenWrite(id.value, secret, expected));
  }

  /** `decode_client_frame`: accepts exactly the encodings of valid frames. */
  method DecodeClientFrame(input: Bytes) returns (frame: Result<ClientFrame, CodecError>)
    ensures Accepted(frame) == DecodeClient(input)
    ensures frame.Ok? ==> ValidClient(frame.value) && EncodeClient(frame.value) == input
  {
    hide DecodeOpenRead, DecodeOpenWrite, DecodeAppendBatch, ValidClient, EncodeClient;
    if |input| == 0 {
      return Err(EmptyFrame);
    }
    if input[0] == OPEN_READ {
      frame := DecodeOpenReadFrame(input[1..]);
    } else if input[0] == OPEN_WRITE {
      frame := DecodeOpenWriteFrame(input[1..]);
    } else if input[0] == APPEND_BATCH {
      frame := DecodeAppendBatchFrame(input);
    } else {
      return Err(UnknownOperation);
    }
    if frame.Ok? {
      ClientRoundTripBack(input);
    }
  }

  method DecodeAppendAckFrame(body: Bytes) returns (frame: Result<ServerFrame, CodecError>)
    ensures Accepted(frame) == DecodeAppendAck(body)
  {
    hide Value;
    var decoder := new FrameDecoder(body);
    var writerStart := decoder.TakeU64();
    if writerStart.Err? {
      return Err(writerStart.error);
    }
    var writerEnd := decoder.TakeU64();
    if writerEnd.Err? {
      return Err(writerEnd.error);
    }
    assert body[8..][..8] == body[8..16] && decoder.remaining == body[16..];
    var start := decoder.TakeU64();
    if start.Err? {
      return Err(start.error);
    }
    assert body[16..][..8] == body[16..24] && decoder.remaining == body[24..];
    var end := decoder.TakeU64();
    if end.Err? {
      return Err(end.error);
    }
    if |decoder.remaining| > 0 {
      return Err(TrailingBytes);
    }
    assert body[24..][..8] == body[24..];
    return Ok(AppendAckFrame(writerStart.value, writerEnd.value, start.value, end.value));
  }

  method DecodeCaughtUpFrame(body: Bytes) returns (frame: Result<ServerFrame, CodecError>)
    ensures Accepted(frame) == DecodeCaughtUp(body)
  {
    hide Value;
    var decoder := new FrameDecoder(body);
    var next := decoder.TakeU64();
    if next.Err? {
      return Err(next.error);
    }
    var last := decoder.TakeU64();
    if last.Err? {
      return Err(last.error);
    }
    if |decoder.remaining| > 0 {
      return Err(TrailingBytes);
    }
    assert body[8..][..8] == body[8..];
    return Ok(CaughtUpFrame(next.value, last.value));
  }

  method DecodeReadyFrame(body: Bytes) returns (frame: Result<ServerFrame, CodecError>)
    ensures Accepted(frame) == DecodeReady(body)
  {
    var decoder := new FrameDecoder(body);
    var kind := decoder.Take(1);
    if kind.Err? {
      return Err(kind.error);
    }
    if |decoder.remaining| > 0 {
      return Err(TrailingBytes);
    }
    match kind.value[0] {
      case 0 => return Ok(Ready(Transcript));
      case 1 => return Ok(Ready(RawBytes));
      case 2 => return Ok(Ready(Terminal));
      case _ => return Err(UnknownStreamKind);
    }
  }

  /** `decode_server_frame` for every operation but stream metadata. */
  method DecodeServerFrame(input: Bytes) returns (frame: Result<ServerFrame, CodecError>)
    ensures Accepted(frame) == DecodeServer(input)
    ensures frame.Ok? ==> ValidServer(frame.value) && EncodeServer(frame.value) == input
  {
    hide DecodeReady, DecodeAppendAck, DecodeReadBatch, DecodeCaughtUp, ValidServer, EncodeServer;
    if |input| == 0 {
      return Err(EmptyFrame);
    }
    if input[0] == READY {
      frame := DecodeReadyFrame(input[1..]);
    } else if input[0] == APPEND_ACK {
      frame := DecodeAppendAckFrame(input[1..]);
    } else if input[0] == READ_BATCH {
      frame := DecodeReadBatchFrame(input);
    } else if input[0] == HEARTBEAT {
      frame := if |input| > 1 then Err(TrailingBytes) else Ok(Heartbeat);
    } else if input[0] == CAUGHT_UP {
      frame := DecodeCaughtUpFrame(input[1..]);
    } else if input[0] == STREAM_METADATA {
      return Err(StreamMetadataNotModelled);
    } else {
      return Err(UnknownOperation);
    }
    if frame.Ok? {
      ServerRoundTripBack(input);
    }
  }

  /** `append_batch_encoded_len`: validates the records while summing up the wire length. */
  method AppendBatchEncodedLen(records: seq<AppendRecord>) returns (length: Result<nat, CodecError>)
    requires forall r <- records :: r.writerSeqNum <= U64_MAX
    ensures length.Ok? <==> ValidAppendBatch(records)
    ensures length.Ok? ==> length.value == |EncodeClient(AppendBatch(records))| <= MAX_ENCODED_FRAME_BYTES
  {
    hide EncodeClient;
    var payloadBytes := 0;
    for i := 0 to |records|
      invariant payloadBytes == FrameBytes(records[..i])
      invariant forall r <- records[..i] :: FitsAppend(r)
    {
      if records[i].writerSeqNum == U64_MAX {
        return Err(WriterSequenceExhausted);
      }
      if |records[i].data| > MAX_RECORD_PAYLOAD_BYTES {
        return Err(RecordTooLarge);
      }
      assert records[..i + 1][..i] == records[..i];
      payloadBytes := payloadBytes + |records[i].data|;
    }
    assert records[..|records|] == records;
    if |records| == 0 || |records| > MAX_APPEND_FRAME_RECORDS {
      return Err(InvalidBatchRecordCount);
    }
    if payloadBytes > MAX_FRAME_PAYLOAD_BYTES {
      return Err(BatchPayloadTooLarge);
    }
    AppendBatchFits(records);
    return Ok(1 + |records| * (RECORD_LENGTH_LEN + APPEND_RECORD_HEADER_LEN) + payloadBytes);
  }

  /** `put_append_batch`. */
  method PutAppendBatch(records: seq<AppendRecord>) returns (output: Bytes)
    ensures output == EncodeClient(AppendBatch(records))
  {
    hide BigEndian, JoinBodies;
    output := [APPEND_BATCH];
    EmptyJoin();
    for i := 0 to |records|
      invariant output == [APPEND_BATCH] + JoinBodies(EncodeAll(records[..i], AppendBody))
    {
      ghost var before := EncodeAll(records[..i], AppendBody);
      var length := APPEND_RECORD_HEADER_LEN + |records[i].data|;
      var header := U64Bytes(records[i].writerSeqNum) + U32Bytes(PartRaw(records[i].part));
      assert header + records[i].data == AppendBody(records[i]);
      JoinOneMore(before, AppendBody(records[i]));
      assert EncodeAll(records[..i + 1], AppendBody) == before + [AppendBody(records[i])];
      Regroup([APPEND_BATCH], JoinBodies(before), U32Bytes(length), header, records[i].data);
      output := output + U32Bytes(length) + header + records[i].data;
    }
    assert records[..|records|] == records;
  }

  lemma EmptyJoin()
    ensures JoinBodies([]) == []
  {
  }

  lemma Regroup(a: Bytes, b: Bytes, c: Bytes, d: Bytes, e: Bytes)
    ensures (a + b) + c + d + e == a + (b + c + (d + e))
  {
    assert (a + b) + c == a + (b + c);
  }

  /** `encode_append_batch`. */
  method EncodeAppendBatch(records: seq<AppendRecord>) returns (message: Result<Bytes, CodecError>)
    requires forall r <- records :: r.writerSeqNum <= U64_MAX
    ensures message.Ok? <==> ValidAppendBatch(records)
    ensures message.Ok? ==> message.value == EncodeClient(AppendBatch(records))
                            && |message.value| <= MAX_ENCODED_FRAME_BYTES
  {
    var length := AppendBatchEncodedLen(records);
    if length.Err? {
      return Err(length.error);
    }
    var output := PutAppendBatch(records);
    return Ok(output);
  }

  lemma {:induction false} JoinOneMore(bodies: seq<Bytes>, body: Bytes)
    ensures JoinBodies(bodies + [body]) == JoinBodies(bodies) + U32Bytes(|body|) + body
    decreases |bodies|
  {
    if |bodies| == 0 {
      assert [body][1..] == [];
    } else {
      JoinOneMore(bodies[1..], body);
      assert (bodies + [body])[1..] == bodies[1..] + [body];
    }
  }
}
