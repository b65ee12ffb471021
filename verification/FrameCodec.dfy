/**
 * The binary frames of `tsf.v1`: what each valid frame looks like on the wire and which byte strings
 * are frames. Each direction of every round trip is a theorem.
 */
module FrameCodec {
  import opened Wrappers
  import opened Protocol
  import opened WriterSpec
  import opened ReadSpec

  const WRITER_ID_LEN := 16
  const LINK_SECRET_LEN := 32
  const RECORD_LENGTH_LEN := 4
  const APPEND_RECORD_HEADER_LEN := 12
  const READ_RECORD_HEADER_LEN := 44
  const MAX_ENCODED_FRAME_BYTES :=
    1 + MAX_READ_FRAME_RECORDS * (RECORD_LENGTH_LEN + READ_RECORD_HEADER_LEN) + MAX_FRAME_PAYLOAD_BYTES

  const FINAL_BIT := 0x8000_0000

  const OPEN_READ: Byte := 0x01
  const OPEN_WRITE: Byte := 0x02
  const APPEND_BATCH: Byte := 0x03
  const READY: Byte := 0x80
  const APPEND_ACK: Byte := 0x81
  const READ_BATCH: Byte := 0x82
  const HEARTBEAT: Byte := 0x83
  const CAUGHT_UP: Byte := 0x84
  const STREAM_METADATA: Byte := 0x85

  datatype StreamKind = Transcript | RawBytes | Terminal

  datatype ClientFrame =
    | OpenRead(readSecret: Option<Bytes>)
    | OpenWrite(clientWriterId: Bytes, writeSecret: Bytes, expectedNextSeqNum: Option<U64>)
    | AppendBatch(records: seq<AppendRecord>)

  datatype ServerFrame =
    | Ready(kind: StreamKind)
    | AppendAckFrame(writerStartSeqNum: U64, writerEndSeqNum: U64, startSeqNum: U64, endSeqNum: U64)
    | ReadBatch(batch: seq<PositionedRecord>)
    | Heartbeat
    | CaughtUpFrame(nextSeqNum: U64, lastTimestampMs: U64)

  // ----- big-endian integers -----

  function Pow256(width: nat): (power: nat)
    ensures power > 0
  {
    if width == 0 then 1 else 256 * Pow256(width - 1)
  }

  function BigEndian(n: nat, width: nat): (bytes: Bytes)
    ensures |bytes| == width
  {
    if width == 0 then [] else BigEndian(n / 256, width - 1) + [n % 256]
  }

  function Value(bytes: Bytes): nat {
    if |bytes| == 0 then 0 else 256 * Value(bytes[..|bytes| - 1]) + bytes[|bytes| - 1]
  }

  lemma {:induction false} ValueOfBigEndian(n: nat, width: nat)
    requires n < Pow256(width)
    ensures Value(BigEndian(n, width)) == n
  {
    if width > 0 {
      ValueOfBigEndian(n / 256, width - 1);
    }
  }

  lemma {:induction false} BigEndianOfValue(bytes: Bytes)
    ensures BigEndian(Value(bytes), |bytes|) == bytes && Value(bytes) < Pow256(|bytes|)
  {
    if |bytes| > 0 {
      BigEndianOfValue(bytes[..|bytes| - 1]);
    }
  }

  lemma PowersOf256()
    ensures Pow256(4) == 0x1_0000_0000 && Pow256(8) == U64_MAX + 1
  {
    assert Pow256(1) == 256 && Pow256(2) == 0x1_0000 && Pow256(3) == 0x100_0000;
    assert Pow256(5) == 0x100_0000_0000 && Pow256(6) == 0x1_0000_0000_0000 && Pow256(7) == 0x100_0000_0000_0000;
  }

  function U32Bytes(n: nat): Bytes { BigEndian(n, 4) }

  function U64Bytes(n: nat): Bytes { BigEndian(n, 8) }

  lemma U32RoundTrip(n: nat, bytes: Bytes)
    ensures n < 0x1_0000_0000 ==> Value(U32Bytes(n)) == n
    ensures |bytes| == 4 ==> U32Bytes(Value(bytes)) == bytes && Value(bytes) < 0x1_0000_0000
  {
    PowersOf256();
    if n < 0x1_0000_0000 {
      ValueOfBigEndian(n, 4);
    }
    BigEndianOfValue(bytes);
  }

  lemma U64RoundTrip(n: nat, bytes: Bytes)
    ensures n <= U64_MAX ==> Value(U64Bytes(n)) == n
    ensures |bytes| == 8 ==> U64Bytes(Value(bytes)) == bytes && Value(bytes) <= U64_MAX
  {
    PowersOf256();
    if n <= U64_MAX {
      ValueOfBigEndian(n, 8);
    }
    BigEndianOfValue(bytes);
  }

  /** The packed part header: the high bit marks the final part. */
  function PartRaw(part: PartHeader): (raw: nat)
    ensures raw < 0x1_0000_0000
  {
    (if part.isFinal then FINAL_BIT else 0) + part.index
  }

  function PartFromRaw(raw: nat): (part: PartHeader)
    requires raw < 0x1_0000_0000
  {
    PartHeader(raw % FINAL_BIT, raw >= FINAL_BIT)
  }

  lemma PartRoundTrip(part: PartHeader, raw: nat)
    ensures PartFromRaw(PartRaw(part)) == part
    ensures raw < 0x1_0000_0000 ==> PartRaw(PartFromRaw(raw)) == raw
  {
  }

  // ----- length-prefixed record bodies -----

  ghost predicate IsBody(body: Bytes) {
    0 < |body| < 0x1_0000_0000
  }

  function JoinBodies(bodies: seq<Bytes>): Bytes {
    if |bodies| == 0 then [] else U32Bytes(|bodies[0]|) + bodies[0] + JoinBodies(bodies[1..])
  }

  /** Walks length-prefixed bodies; fails on a truncated length, an empty body or one past the end. */
  function SplitBodies(input: Bytes): Option<seq<Bytes>>
    decreases |input|
  {
    if |input| == 0 then Some([])
    else if |input| < RECORD_LENGTH_LEN then None
    else
      var end := RECORD_LENGTH_LEN + Value(input[..RECORD_LENGTH_LEN]);
      if end > |input| || end == RECORD_LENGTH_LEN then None
      else match SplitBodies(input[end..])
        case None => None
        case Some(rest) => Some([input[RECORD_LENGTH_LEN..end]] + rest)
  }

  lemma {:induction false} SplitOfJoin(bodies: seq<Bytes>)
    requires forall b <- bodies :: IsBody(b)
    ensures SplitBodies(JoinBodies(bodies)) == Some(bodies)
    decreases |bodies|
  {
    if |bodies| > 0 {
      var body, rest := bodies[0], JoinBodies(bodies[1..]);
      SplitOfJoin(bodies[1..]);
      U32RoundTrip(|body|, []);
      hide BigEndian, Value;
      FirstBody(body, rest);
      assert IsBody(body);
      assert JoinBodies(bodies) == U32Bytes(|body|) + body + rest;
      assert [body] + bodies[1..] == bodies;
    }
  }

  lemma FirstBody(body: Bytes, rest: Bytes)
    ensures var input := U32Bytes(|body|) + body + rest;
            input[..4] == U32Bytes(|body|) && input[4..4 + |body|] == body && input[4 + |body|..] == rest
  {
    hide BigEndian;
    var head := U32Bytes(|body|);
    assert head + body + rest == head + (body + rest);
  }

  lemma {:induction false} JoinOfSplit(input: Bytes)
    requires SplitBodies(input).Some?
    ensures JoinBodies(SplitBodies(input).value) == input
    ensures forall b <- SplitBodies(input).value :: IsBody(b)
    decreases |input|
  {
    if |input| > 0 {
      var end := 4 + Value(input[..4]);
      U32RoundTrip(0, input[..4]);
      hide BigEndian, Value;
      JoinOfSplit(input[end..]);
      assert input == input[..4] + input[4..end] + input[end..];
    }
  }

  // ----- record bodies -----

  ghost predicate FitsAppend(r: AppendRecord) {
    r.writerSeqNum < U64_MAX && |r.data| <= MAX_RECORD_PAYLOAD_BYTES
  }

  ghost predicate FitsRead(r: PositionedRecord) {
    r.record.writerId < Pow256(WRITER_ID_LEN) && |r.record.data| <= MAX_RECORD_PAYLOAD_BYTES
  }

  function AppendBody(r: AppendRecord): Bytes {
    U64Bytes(r.writerSeqNum) + U32Bytes(PartRaw(r.part)) + r.data
  }

  function ReadBody(r: PositionedRecord): Bytes {
    U64Bytes(r.seqNum) + U64Bytes(r.timestampMs) + BigEndian(r.record.writerId, WRITER_ID_LEN)
    + U64Bytes(r.record.writerSeqNum) + U32Bytes(PartRaw(r.record.part)) + r.record.data
  }

  function ParseAppendBody(body: Bytes): Option<AppendRecord> {
    if |body| < APPEND_RECORD_HEADER_LEN || Value(body[..8]) >= U64_MAX
       || |body| - APPEND_RECORD_HEADER_LEN > MAX_RECORD_PAYLOAD_BYTES then None
    else
      U32RoundTrip(0, body[8..12]);
      Some(AppendRecord(Value(body[..8]), PartFromRaw(Value(body[8..12])), body[12..]))
  }

  function ParseReadBody(body: Bytes): Option<PositionedRecord> {
    if |body| < READ_RECORD_HEADER_LEN || |body| - READ_RECORD_HEADER_LEN > MAX_RECORD_PAYLOAD_BYTES then None
    else
      U64RoundTrip(0, body[..8]);
      U64RoundTrip(0, body[8..16]);
      U64RoundTrip(0, body[32..40]);
      U32RoundTrip(0, body[40..44]);
      var record := ReadRecord(Value(body[16..32]), Value(body[32..40]), PartFromRaw(Value(body[40..44])), body[44..]);
      Some(PositionedRecord(Value(body[..8]), Value(body[8..16]), record))
  }

  lemma AppendBodyRoundTrip(r: AppendRecord)
    requires FitsAppend(r)
    ensures ParseAppendBody(AppendBody(r)) == Some(r) && IsBody(AppendBody(r))
  {
    U64RoundTrip(r.writerSeqNum, []);
    U32RoundTrip(PartRaw(r.part), []);
    PartRoundTrip(r.part, 0);
    hide BigEndian, Value, PartRaw, PartFromRaw;
    var body := AppendBody(r);
    assert body[..8] == U64Bytes(r.writerSeqNum);
    assert body[8..12] == U32Bytes(PartRaw(r.part));
    assert body[12..] == r.data;
  }

  lemma AppendBodyRoundTripBack(body: Bytes)
    requires ParseAppendBody(body).Some?
    ensures AppendBody(ParseAppendBody(body).value) == body && FitsAppend(ParseAppendBody(body).value)
  {
    U64RoundTrip(0, body[..8]);
    U32RoundTrip(0, body[8..12]);
    PartRoundTrip(UNSPLIT, Value(body[8..12]));
    hide BigEndian, Value, PartRaw, PartFromRaw;
    assert body == body[..8] + body[8..12] + body[12..];
  }

  lemma ReadBodyRoundTrip(r: PositionedRecord)
    requires FitsRead(r)
    ensures ParseReadBody(ReadBody(r)) == Some(r) && IsBody(ReadBody(r))
  {
    U64RoundTrip(r.seqNum, []);
    U64RoundTrip(r.timestampMs, []);
    ValueOfBigEndian(r.record.writerId, WRITER_ID_LEN);
    U64RoundTrip(r.record.writerSeqNum, []);
    U32RoundTrip(PartRaw(r.record.part), []);
    PartRoundTrip(r.record.part, 0);
    hide BigEndian, Value, PartRaw, PartFromRaw, Pow256;
    JoinedFields(U64Bytes(r.seqNum), U64Bytes(r.timestampMs), BigEndian(r.record.writerId, WRITER_ID_LEN),
                 U64Bytes(r.record.writerSeqNum), U32Bytes(PartRaw(r.record.part)), r.record.data);
    hide U64Bytes, U32Bytes;
  }

  lemma JoinedFields(a: Bytes, b: Bytes, c: Bytes, d: Bytes, e: Bytes, data: Bytes)
    requires |a| == |b| == |d| == 8 && |c| == 16 && |e| == 4
    ensures var body := a + b + c + d + e + data;
      && |body| == 44 + |data|
      && body[..8] == a && body[8..16] == b && body[16..32] == c && body[32..40] == d && body[40..44] == e
      && body[44..] == data
  {
    var body := a + b + c + d + e + data;
    assert body[..32] == a + b + c && body[32..44] == d + e;
    assert body[..8] == body[..32][..8] && body[8..16] == body[..32][8..16] && body[16..32] == body[..32][16..32];
    assert body[32..40] == body[32..44][..8] && body[40..44] == body[32..44][8..];
  }

  lemma ReadBodyFields(body: Bytes)
    requires |body| >= READ_RECORD_HEADER_LEN
    ensures body == body[..8] + body[8..16] + body[16..32] + body[32..40] + body[40..44] + body[44..]
  {
    assert body[..32] == body[..8] + body[8..16] + body[16..32];
    assert body[..44] == body[..32] + body[32..40] + body[40..44];
  }

  lemma ReadBodyRoundTripBack(body: Bytes)
    requires ParseReadBody(body).Some?
    ensures ReadBody(ParseReadBody(body).value) == body && FitsRead(ParseReadBody(body).value)
  {
    U64RoundTrip(0, body[..8]);
    U64RoundTrip(0, body[8..16]);
    BigEndianOfValue(body[16..32]);
    U64RoundTrip(0, body[32..40]);
    U32RoundTrip(0, body[40..44]);
    PartRoundTrip(UNSPLIT, Value(body[40..44]));
    ReadBodyFields(body);
    hide U64Bytes, U32Bytes, BigEndian, Value, PartRaw, PartFromRaw, Pow256;
  }

  // ----- batches -----

  /** Every body parses to the record at its place. */
  function ParseAll<T>(bodies: seq<Bytes>, parse: Bytes -> Option<T>): Option<seq<T>>
    decreases |bodies|
  {
    if |bodies| == 0 then Some([])
    else match (ParseAll(bodies[..|bodies| - 1], parse), parse(bodies[|bodies| - 1]))
      case (Some(before), Some(last)) => Some(before + [last])
      case _ => None
  }

  function EncodeAll<T>(records: seq<T>, encode: T -> Bytes): (bodies: seq<Bytes>)
    ensures |bodies| == |records|
    ensures forall i :: 0 <= i < |records| ==> bodies[i] == encode(records[i])
  {
    seq(|records|, i requires 0 <= i < |records| => encode(records[i]))
  }

  lemma {:induction false} ParseOfEncoded<T>(records: seq<T>, parse: Bytes -> Option<T>, encode: T -> Bytes)
    requires forall r <- records :: parse(encode(r)) == Some(r)
    ensures ParseAll(EncodeAll(records, encode), parse) == Some(records)
    decreases |records|
  {
    if |records| > 0 {
      var before := records[..|records| - 1];
      ParseOfEncoded(before, parse, encode);
      assert EncodeAll(records, encode)[..|records| - 1] == EncodeAll(before, encode);
      assert before + [records[|records| - 1]] == records;
    } else {
      assert records == [];
    }
  }

  lemma {:induction false} EncodeOfParsed<T>(bodies: seq<Bytes>, parse: Bytes -> Option<T>, encode: T -> Bytes)
    requires ParseAll(bodies, parse).Some?
    requires forall b <- bodies :: parse(b).Some? ==> encode(parse(b).value) == b
    ensures EncodeAll(ParseAll(bodies, parse).value, encode) == bodies
    decreases |bodies|
  {
    if |bodies| > 0 {
      EncodeOfParsed(bodies[..|bodies| - 1], parse, encode);
    }
  }

  // ----- frames -----

  predicate IsBase64Url(c: Byte) {
    || 'A' as int <= c <= 'Z' as int || 'a' as int <= c <= 'z' as int || '0' as int <= c <= '9' as int
    || c == '-' as int || c == '_' as int
  }

  /** The canonical text of 24 bytes: 32 characters leave no spare bits. */
  predicate IsSecret(secret: Bytes) {
    |secret| == LINK_SECRET_LEN && forall c <- secret :: IsBase64Url(c)
  }

  ghost predicate ValidAppendBatch(records: seq<AppendRecord>) {
    |records| > 0 && WithinFrameLimits(records)
  }

  ghost function ReadBytes(batch: seq<PositionedRecord>): nat {
    if |batch| == 0 then 0 else ReadBytes(batch[..|batch| - 1]) + |batch[|batch| - 1].record.data|
  }

  ghost predicate ValidReadBatch(batch: seq<PositionedRecord>) {
    && IsBatch(batch) && |batch| <= MAX_READ_FRAME_RECORDS
    && ReadBytes(batch) <= MAX_FRAME_PAYLOAD_BYTES
    && forall r <- batch :: FitsRead(r)
  }

  ghost predicate ValidClient(frame: ClientFrame) {
    match frame
    case OpenRead(secret) => secret.Some? ==> IsSecret(secret.value)
    case OpenWrite(id, secret, expected) =>
      |id| == WRITER_ID_LEN && IsSecret(secret) && (expected.Some? ==> expected.value <= MAX_SAFE_INTEGER_U64)
    case AppendBatch(records) => ValidAppendBatch(records)
  }

  ghost predicate ValidServer(frame: ServerFrame) {
    frame.ReadBatch? ==> ValidReadBatch(frame.batch)
  }

  function EncodeClient(frame: ClientFrame): Bytes {
    match frame
    case OpenRead(None) => [OPEN_READ, 0]
    case OpenRead(Some(secret)) => [OPEN_READ, 1] + secret
    case OpenWrite(id, secret, None) => [OPEN_WRITE, 0] + id + secret
    case OpenWrite(id, secret, Some(expected)) => [OPEN_WRITE, 1] + id + U64Bytes(expected) + secret
    case AppendBatch(records) => [APPEND_BATCH] + JoinBodies(EncodeAll(records, AppendBody))
  }

  function KindByte(kind: StreamKind): Byte {
    match kind
    case Transcript => 0
    case RawBytes => 1
    case Terminal => 2
  }

  function EncodeServer(frame: ServerFrame): Bytes {
    match frame
    case Ready(kind) => [READY, KindByte(kind)]
    case AppendAckFrame(a, b, c, d) => [APPEND_ACK] + U64Bytes(a) + U64Bytes(b) + U64Bytes(c) + U64Bytes(d)
    case ReadBatch(batch) => [READ_BATCH] + JoinBodies(EncodeAll(batch, ReadBody))
    case Heartbeat => [HEARTBEAT]
    case CaughtUpFrame(next, last) => [CAUGHT_UP] + U64Bytes(next) + U64Bytes(last)
  }

  ghost function DecodeOpenRead(body: Bytes): Option<ClientFrame> {
    if body == [0] then Some(OpenRead(None))
    else if |body| == 1 + LINK_SECRET_LEN && body[0] == 1 && IsSecret(body[1..]) then Some(OpenRead(Some(body[1..])))
    else None
  }

  ghost function DecodeOpenWrite(body: Bytes): Option<ClientFrame> {
    if |body| == 1 + WRITER_ID_LEN + LINK_SECRET_LEN && body[0] == 0 && IsSecret(body[17..])
    then Some(OpenWrite(body[1..17], body[17..], None))
    else if |body| == 1 + WRITER_ID_LEN + 8 + LINK_SECRET_LEN && body[0] == 1
            && Value(body[17..25]) <= MAX_SAFE_INTEGER_U64 && IsSecret(body[25..])
    then Some(OpenWrite(body[1..17], body[25..], Some(Value(body[17..25]))))
    else None
  }

  ghost function DecodeAppendBatch(body: Bytes): Option<ClientFrame> {
    var bodies := SplitBodies(body);
    if bodies.None? then None
    else
      var records := ParseAll(bodies.value, ParseAppendBody);
      if records.Some? && ValidAppendBatch(records.value) then Some(AppendBatch(records.value)) else None
  }

  ghost function DecodeReadBatch(body: Bytes): Option<ServerFrame> {
    var bodies := SplitBodies(body);
    if bodies.None? then None
    else
      var batch := ParseAll(bodies.value, ParseReadBody);
      if batch.Some? && ValidReadBatch(batch.value) then Some(ReadBatch(batch.value)) else None
  }

  /** The frame that a client message is, if it is one. */
  ghost function DecodeClient(input: Bytes): Option<ClientFrame> {
    if |input| == 0 then None
    else if input[0] == OPEN_READ then DecodeOpenRead(input[1..])
    else if input[0] == OPEN_WRITE then DecodeOpenWrite(input[1..])
    else if input[0] == APPEND_BATCH then DecodeAppendBatch(input[1..])
    else None
  }

  ghost function DecodeReady(body: Bytes): Option<ServerFrame> {
    if |body| != 1 then None
    else if body[0] == 0 then Some(Ready(Transcript))
    else if body[0] == 1 then Some(Ready(RawBytes))
    else if body[0] == 2 then Some(Ready(Terminal))
    else None
  }

  ghost function DecodeAppendAck(body: Bytes): Option<ServerFrame> {
    if |body| != 32 then None
    else
      U64RoundTrip(0, body[..8]);
      U64RoundTrip(0, body[8..16]);
      U64RoundTrip(0, body[16..24]);
      U64RoundTrip(0, body[24..]);
      Some(AppendAckFrame(Value(body[..8]), Value(body[8..16]), Value(body[16..24]), Value(body[24..])))
  }

  ghost function DecodeCaughtUp(body: Bytes): Option<ServerFrame> {
    if |body| != 16 then None
    else
      U64RoundTrip(0, body[..8]);
      U64RoundTrip(0, body[8..]);
      Some(CaughtUpFrame(Value(body[..8]), Value(body[8..])))
  }

  /** The frame that a server message other than stream metadata is, if it is one. */
  ghost function DecodeServer(input: Bytes): Option<ServerFrame> {
    if |input| == 0 then None
    else if input[0] == READY then DecodeReady(input[1..])
    else if input[0] == APPEND_ACK then DecodeAppendAck(input[1..])
    else if input[0] == READ_BATCH then DecodeReadBatch(input[1..])
    else if input[0] == HEARTBEAT then if |input| == 1 then Some(Heartbeat) else None
    else if input[0] == CAUGHT_UP then DecodeCaughtUp(input[1..])
    else None
  }

  // ----- round trips -----

  lemma AppendBodiesRoundTrip(records: seq<AppendRecord>)
    requires forall r <- records :: FitsAppend(r)
    ensures ParseAll(EncodeAll(records, AppendBody), ParseAppendBody) == Some(records)
    ensures forall b <- EncodeAll(records, AppendBody) :: IsBody(b)
  {
    forall r | r in records
      ensures ParseAppendBody(AppendBody(r)) == Some(r) && IsBody(AppendBody(r))
    {
      AppendBodyRoundTrip(r);
    }
    hide AppendBody, ParseAppendBody, ParseAll;
    var bodies := EncodeAll(records, AppendBody);
    forall b | b in bodies
      ensures IsBody(b)
    {
      var i :| 0 <= i < |bodies| && bodies[i] == b;
      assert records[i] in records;
    }
    ParseOfEncoded(records, ParseAppendBody, AppendBody);
  }

  lemma AppendBatchRoundTrip(records: seq<AppendRecord>)
    requires ValidAppendBatch(records)
    ensures DecodeAppendBatch(JoinBodies(EncodeAll(records, AppendBody))) == Some(AppendBatch(records))
  {
    AppendBodiesRoundTrip(records);
    hide AppendBody, ParseAppendBody, SplitBodies, JoinBodies, ParseAll, ValidAppendBatch;
    SplitOfJoin(EncodeAll(records, AppendBody));
  }

  lemma ReadBodiesRoundTrip(batch: seq<PositionedRecord>)
    requires forall r <- batch :: FitsRead(r)
    ensures ParseAll(EncodeAll(batch, ReadBody), ParseReadBody) == Some(batch)
    ensures forall b <- EncodeAll(batch, ReadBody) :: IsBody(b)
  {
    forall r | r in batch
      ensures ParseReadBody(ReadBody(r)) == Some(r) && IsBody(ReadBody(r))
    {
      ReadBodyRoundTrip(r);
    }
    hide ReadBody, ParseReadBody, ParseAll;
    var bodies := EncodeAll(batch, ReadBody);
    forall b | b in bodies
      ensures IsBody(b)
    {
      var i :| 0 <= i < |bodies| && bodies[i] == b;
      assert batch[i] in batch;
    }
    ParseOfEncoded(batch, ParseReadBody, ReadBody);
  }

  lemma ReadBatchRoundTrip(batch: seq<PositionedRecord>)
    requires ValidReadBatch(batch)
    ensures DecodeReadBatch(JoinBodies(EncodeAll(batch, ReadBody))) == Some(ReadBatch(batch))
  {
    ReadBodiesRoundTrip(batch);
    hide ReadBody, ParseReadBody, SplitBodies, JoinBodies, ParseAll, ValidReadBatch;
    SplitOfJoin(EncodeAll(batch, ReadBody));
  }

  lemma AppendBodiesRoundTripBack(bodies: seq<Bytes>)
    requires ParseAll(bodies, ParseAppendBody).Some?
    ensures EncodeAll(ParseAll(bodies, ParseAppendBody).value, AppendBody) == bodies
  {
    forall b | b in bodies && ParseAppendBody(b).Some?
      ensures AppendBody(ParseAppendBody(b).value) == b
    {
      AppendBodyRoundTripBack(b);
    }
    hide AppendBody, ParseAppendBody, ParseAll;
    EncodeOfParsed(bodies, ParseAppendBody, AppendBody);
  }

  lemma AppendBatchRoundTripBack(body: Bytes)
    requires DecodeAppendBatch(body).Some?
    ensures EncodeClient(DecodeAppendBatch(body).value) == [APPEND_BATCH] + body
    ensures ValidClient(DecodeAppendBatch(body).value)
  {
    hide AppendBody, ParseAppendBody, SplitBodies, JoinBodies, ParseAll, ValidAppendBatch;
    JoinOfSplit(body);
    AppendBodiesRoundTripBack(SplitBodies(body).value);
  }

  lemma ReadBodiesRoundTripBack(bodies: seq<Bytes>)
    requires ParseAll(bodies, ParseReadBody).Some?
    ensures EncodeAll(ParseAll(bodies, ParseReadBody).value, ReadBody) == bodies
  {
    forall b | b in bodies && ParseReadBody(b).Some?
      ensures ReadBody(ParseReadBody(b).value) == b
    {
      ReadBodyRoundTripBack(b);
    }
    hide ReadBody, ParseReadBody, ParseAll;
    EncodeOfParsed(bodies, ParseReadBody, ReadBody);
  }

  lemma ReadBatchRoundTripBack(body: Bytes)
    requires DecodeReadBatch(body).Some?
    ensures EncodeServer(DecodeReadBatch(body).value) == [READ_BATCH] + body
    ensures ValidServer(DecodeReadBatch(body).value)
  {
    hide ReadBody, ParseReadBody, SplitBodies, JoinBodies, ParseAll, ValidReadBatch;
    JoinOfSplit(body);
    ReadBodiesRoundTripBack(SplitBodies(body).value);
  }

  lemma OpenWriteFields(id: Bytes, expected: Bytes, secret: Bytes)
    requires |id| == 16 && |expected| == 8
    ensures var body := ([OPEN_WRITE, 1] + id + expected + secret)[1..];
            body[0] == 1 && body[1..17] == id && body[17..25] == expected && body[25..] == secret
  {
    var input := [OPEN_WRITE, 1] + id + expected + secret;
    assert input[2..18] == id && input[18..26] == expected && input[26..] == secret;
  }

  /** Decoding undoes encoding on every valid client frame. */
  lemma ClientRoundTrip(frame: ClientFrame)
    requires ValidClient(frame)
    ensures DecodeClient(EncodeClient(frame)) == Some(frame)
  {
    var input := EncodeClient(frame);
    match frame {
      case OpenRead(None) => assert input[1..] == [0];
      case OpenRead(Some(secret)) =>
        assert input[1..] == [1] + secret && input[1..][1..] == secret;
      case OpenWrite(id, secret, None) =>
        assert input[1..] == [0] + id + secret && input[1..][1..17] == id && input[1..][17..] == secret;
      case OpenWrite(id, secret, Some(expected)) =>
        U64RoundTrip(expected, []);
        OpenWriteFields(id, U64Bytes(expected), secret);
      case AppendBatch(records) =>
        AppendBatchRoundTrip(records);
        assert input[1..] == JoinBodies(EncodeAll(records, AppendBody));
    }
    hide BigEndian, Value, JoinBodies, DecodeAppendBatch;
  }

  lemma OpenReadRoundTripBack(body: Bytes)
    requires DecodeOpenRead(body).Some?
    ensures EncodeClient(DecodeOpenRead(body).value) == [OPEN_READ] + body
    ensures ValidClient(DecodeOpenRead(body).value)
  {
    assert body == [body[0]] + body[1..];
  }

  lemma OpenWriteBodyFields(body: Bytes)
    ensures |body| == 49 ==> [OPEN_WRITE] + body == [OPEN_WRITE, body[0]] + body[1..17] + body[17..]
    ensures |body| == 57 ==> [OPEN_WRITE] + body == [OPEN_WRITE, body[0]] + body[1..17] + body[17..25] + body[25..]
  {
    if |body| == 49 {
      assert body[1..] == body[1..17] + body[17..];
    } else if |body| == 57 {
      assert body[1..] == body[1..17] + body[17..25] + body[25..];
    }
  }

  lemma OpenWriteRoundTripBack(body: Bytes)
    requires DecodeOpenWrite(body).Some?
    ensures EncodeClient(DecodeOpenWrite(body).value) == [OPEN_WRITE] + body
    ensures ValidClient(DecodeOpenWrite(body).value)
  {
    if body[0] == 1 {
      U64RoundTrip(0, body[17..25]);
    }
    OpenWriteBodyFields(body);
    hide U64Bytes, Value, IsSecret, ValidAppendBatch;
  }

  /** Encoding undoes decoding: every accepted client message is the encoding of a valid frame. */
  lemma ClientRoundTripBack(input: Bytes)
    requires DecodeClient(input).Some?
    ensures EncodeClient(DecodeClient(input).value) == input && ValidClient(DecodeClient(input).value)
  {
    var body := input[1..];
    assert input == [input[0]] + body;
    hide EncodeClient, ValidClient, DecodeAppendBatch, DecodeOpenRead, DecodeOpenWrite;
    if input[0] == APPEND_BATCH {
      AppendBatchRoundTripBack(body);
    } else if input[0] == OPEN_WRITE {
      OpenWriteRoundTripBack(body);
    } else {
      OpenReadRoundTripBack(body);
    }
  }

  lemma AppendAckRoundTrip(a: U64, b: U64, c: U64, d: U64)
    ensures DecodeAppendAck(U64Bytes(a) + U64Bytes(b) + U64Bytes(c) + U64Bytes(d)) == Some(AppendAckFrame(a, b, c, d))
  {
    U64RoundTrip(a, []);
    U64RoundTrip(b, []);
    U64RoundTrip(c, []);
    U64RoundTrip(d, []);
    var body := U64Bytes(a) + U64Bytes(b) + U64Bytes(c) + U64Bytes(d);
    hide BigEndian, Value;
    assert body[..8] == U64Bytes(a) && body[8..16] == U64Bytes(b);
    assert body[16..24] == U64Bytes(c) && body[24..] == U64Bytes(d);
  }

  lemma CaughtUpRoundTrip(next: U64, last: U64)
    ensures DecodeCaughtUp(U64Bytes(next) + U64Bytes(last)) == Some(CaughtUpFrame(next, last))
  {
    U64RoundTrip(next, []);
    U64RoundTrip(last, []);
    var body := U64Bytes(next) + U64Bytes(last);
    hide BigEndian, Value;
    assert body[..8] == U64Bytes(next) && body[8..] == U64Bytes(last);
  }

  /** The same both ways for server frames other than stream metadata. */
  lemma ServerRoundTrip(frame: ServerFrame)
    requires ValidServer(frame)
    ensures DecodeServer(EncodeServer(frame)) == Some(frame)
  {
    hide BigEndian, U64Bytes, Value, JoinBodies, DecodeReadBatch, DecodeAppendAck, DecodeCaughtUp;
    var input := EncodeServer(frame);
    match frame {
      case Ready(kind) =>
      case AppendAckFrame(a, b, c, d) =>
        AppendAckRoundTrip(a, b, c, d);
        AfterOperation(APPEND_ACK, U64Bytes(a), U64Bytes(b), U64Bytes(c), U64Bytes(d));
        assert input[1..] == U64Bytes(a) + U64Bytes(b) + U64Bytes(c) + U64Bytes(d);
      case ReadBatch(batch) =>
        ReadBatchRoundTrip(batch);
        assert input[1..] == JoinBodies(EncodeAll(batch, ReadBody));
      case Heartbeat =>
      case CaughtUpFrame(next, last) =>
        CaughtUpRoundTrip(next, last);
        assert input[1..] == U64Bytes(next) + U64Bytes(last);
    }
  }

  lemma FourFields(body: Bytes)
    requires |body| == 32
    ensures body == body[..8] + body[8..16] + body[16..24] + body[24..]
  {
  }

  lemma AppendAckRoundTripBack(body: Bytes)
    requires DecodeAppendAck(body).Some?
    ensures EncodeServer(DecodeAppendAck(body).value) == [APPEND_ACK] + body
    ensures DecodeAppendAck(body).value.AppendAckFrame?
  {
    U64RoundTrip(0, body[..8]);
    U64RoundTrip(0, body[8..16]);
    U64RoundTrip(0, body[16..24]);
    U64RoundTrip(0, body[24..]);
    FourFields(body);
    hide U64Bytes, Value;
    AfterOperation(APPEND_ACK, body[..8], body[8..16], body[16..24], body[24..]);
  }

  lemma AfterOperation(op: Byte, a: Bytes, b: Bytes, c: Bytes, d: Bytes)
    ensures [op] + a + b + c + d == [op] + (a + b + c + d)
  {
    assert [op] + a + b + c == [op] + (a + b + c);
  }

  lemma TwoFields(op: Byte, body: Bytes)
    requires |body| == 16
    ensures [op] + body[..8] + body[8..] == [op] + body
  {
    assert body == body[..8] + body[8..];
  }

  lemma CaughtUpRoundTripBack(body: Bytes)
    requires DecodeCaughtUp(body).Some?
    ensures EncodeServer(DecodeCaughtUp(body).value) == [CAUGHT_UP] + body
    ensures DecodeCaughtUp(body).value.CaughtUpFrame?
  {
    U64RoundTrip(0, body[..8]);
    U64RoundTrip(0, body[8..]);
    hide U64Bytes, Value;
    TwoFields(CAUGHT_UP, body);
  }

  lemma ServerRoundTripBack(input: Bytes)
    requires DecodeServer(input).Some?
    ensures EncodeServer(DecodeServer(input).value) == input && ValidServer(DecodeServer(input).value)
  {
    var body := input[1..];
    assert input == [input[0]] + body;
    if input[0] == READ_BATCH {
      ReadBatchRoundTripBack(body);
    } else if input[0] == APPEND_ACK {
      AppendAckRoundTripBack(body);
    } else if input[0] == CAUGHT_UP {
      CaughtUpRoundTripBack(body);
    } else if input[0] == READY {
      assert body == [body[0]];
      assert EncodeServer(DecodeReady(body).value) == input;
    }
    hide EncodeServer, DecodeReadBatch, DecodeAppendAck, DecodeCaughtUp, DecodeReady, ValidReadBatch;
    if input[0] == HEARTBEAT {
      HeartbeatIsOneByte(input);
    }
  }

  lemma HeartbeatIsOneByte(input: Bytes)
    requires input == [HEARTBEAT]
    ensures EncodeServer(Heartbeat) == input
  {
  }

  // ----- sizes -----

  lemma {:induction false} JoinedLength(bodies: seq<Bytes>)
    ensures |JoinBodies(bodies)| == RECORD_LENGTH_LEN * |bodies| + TotalLength(bodies)
    decreases |bodies|
  {
    if |bodies| > 0 {
      JoinedLength(bodies[1..]);
      TotalLengthFromFront(bodies);
    }
  }

  ghost function TotalLength(bodies: seq<Bytes>): nat {
    if |bodies| == 0 then 0 else TotalLength(bodies[..|bodies| - 1]) + |bodies[|bodies| - 1]|
  }

  lemma {:induction false} TotalLengthFromFront(bodies: seq<Bytes>)
    requires |bodies| > 0
    ensures TotalLength(bodies) == |bodies[0]| + TotalLength(bodies[1..])
    decreases |bodies|
  {
    if |bodies| > 1 {
      TotalLengthFromFront(bodies[..|bodies| - 1]);
      assert bodies[..|bodies| - 1][1..] == bodies[1..][..|bodies| - 2];
    }
  }

  lemma {:induction false} AppendBodiesLength(records: seq<AppendRecord>)
    ensures TotalLength(EncodeAll(records, AppendBody))
            == APPEND_RECORD_HEADER_LEN * |records| + FrameBytes(records)
    decreases |records|
  {
    if |records| > 0 {
      AppendBodiesLength(records[..|records| - 1]);
      assert EncodeAll(records, AppendBody)[..|records| - 1] == EncodeAll(records[..|records| - 1], AppendBody);
    }
  }

  lemma {:induction false} ReadBodiesLength(batch: seq<PositionedRecord>)
    ensures TotalLength(EncodeAll(batch, ReadBody)) == READ_RECORD_HEADER_LEN * |batch| + ReadBytes(batch)
    decreases |batch|
  {
    if |batch| > 0 {
      ReadBodiesLength(batch[..|batch| - 1]);
      assert EncodeAll(batch, ReadBody)[..|batch| - 1] == EncodeAll(batch[..|batch| - 1], ReadBody);
    }
  }

  /** The length computed for a batch is exact, and no valid frame passes the bound on messages. */
  lemma AppendBatchFits(records: seq<AppendRecord>)
    requires ValidAppendBatch(records)
    ensures |EncodeClient(AppendBatch(records))|
            == 1 + |records| * (RECORD_LENGTH_LEN + APPEND_RECORD_HEADER_LEN) + FrameBytes(records)
            <= MAX_ENCODED_FRAME_BYTES
  {
    JoinedLength(EncodeAll(records, AppendBody));
    AppendBodiesLength(records);
    hide JoinBodies, TotalLength, FrameBytes;
  }

  lemma ReadBatchFits(batch: seq<PositionedRecord>)
    requires ValidReadBatch(batch)
    ensures |EncodeServer(ReadBatch(batch))|
            == 1 + |batch| * (RECORD_LENGTH_LEN + READ_RECORD_HEADER_LEN) + ReadBytes(batch)
            <= MAX_ENCODED_FRAME_BYTES
  {
    JoinedLength(EncodeAll(batch, ReadBody));
    ReadBodiesLength(batch);
    hide JoinBodies, TotalLength, ReadBytes;
  }

  lemma FramesFit(client: ClientFrame, server: ServerFrame)
    requires ValidClient(client) && ValidServer(server)
    ensures |EncodeClient(client)| <= MAX_ENCODED_FRAME_BYTES && |EncodeServer(server)| <= MAX_ENCODED_FRAME_BYTES
  {
    if client.AppendBatch? {
      AppendBatchFits(client.records);
    }
    if server.ReadBatch? {
      ReadBatchFits(server.batch);
    }
    hide JoinBodies, EncodeAll, BigEndian, WithinFrameLimits, ValidReadBatch;
  }

  /** Every non-empty frame a writer sends is a valid append batch, and the server reads back the very
      records the writer numbered. */
  lemma SentFramesDecode(v: View, v': View, frame: seq<AppendRecord>)
    requires v.Valid() && SendsFrame(v, v', frame) && frame != []
    ensures ValidClient(AppendBatch(frame))
    ensures DecodeClient(EncodeClient(AppendBatch(frame))) == Some(AppendBatch(frame))
  {
    SentFramesAreValid(v, v', frame);
    ClientRoundTrip(AppendBatch(frame));
  }
}
