/**
 * The bytes of every frame, by the table of the protocol: operation, field order, widths and the final bit,
 * in plain arithmetic. The shared test vectors are instances.
 *
 * The frame codec is defined by its own recursion on bytes, and its round trips would hold of any encoding
 * that can be decoded. Here each frame is written down a second time, field by field, and the two are
 * shown to be the same on every frame.
 */
module WireLayout {
  import opened Wrappers
  import opened Protocol
  import opened WriterSpec
  import opened ReadSpec
  import opened FrameCodec

  /** The low 32 bits of a number, most significant byte first. */
  function Word(n: nat): Bytes {
    [n / 0x100_0000 % 0x100, n / 0x1_0000 % 0x100, n / 0x100 % 0x100, n % 0x100]
  }

  function Long(n: nat): Bytes {
    Word(n / 0x1_0000_0000) + Word(n)
  }

  /** 31 bits of index below the final bit. */
  function PartWord(part: PartHeader): Bytes {
    [(if part.isFinal then 0x80 else 0) + part.index / 0x100_0000, part.index / 0x1_0000 % 0x100,
     part.index / 0x100 % 0x100, part.index % 0x100]
  }

  function AppendWire(records: seq<AppendRecord>): Bytes {
    if |records| == 0 then []
    else
      var r := records[0];
      Word(12 + |r.data|) + Long(r.writerSeqNum) + PartWord(r.part) + r.data + AppendWire(records[1..])
  }

  function ReadWire(batch: seq<PositionedRecord>): Bytes {
    if |batch| == 0 then []
    else
      var r := batch[0];
      Word(44 + |r.record.data|) + Long(r.seqNum) + Long(r.timestampMs)
      + Long(r.record.writerId / 0x1_0000_0000_0000_0000) + Long(r.record.writerId)
      + Long(r.record.writerSeqNum) + PartWord(r.record.part) + r.record.data + ReadWire(batch[1..])
  }

  function ClientWire(frame: ClientFrame): Bytes {
    match frame
    case OpenRead(secret) => if secret.None? then [0x01, 0x00] else [0x01, 0x01] + secret.value
    case OpenWrite(id, secret, expected) =>
      if expected.None? then [0x02, 0x00] + id + secret else [0x02, 0x01] + id + Long(expected.value) + secret
    case AppendBatch(records) => [0x03] + AppendWire(records)
  }

  function ServerWire(frame: ServerFrame): Bytes {
    match frame
    case Ready(kind) => [0x80, if kind.Transcript? then 0x00 else if kind.RawBytes? then 0x01 else 0x02]
    case AppendAckFrame(a, b, c, d) => [0x81] + Long(a) + Long(b) + Long(c) + Long(d)
    case ReadBatch(batch) => [0x82] + ReadWire(batch)
    case Heartbeat => [0x83]
    case CaughtUpFrame(next, last) => [0x84] + Long(next) + Long(last)
  }

  lemma DivideTwice(n: nat)
    ensures n / 0x100 / 0x100 == n / 0x1_0000
    ensures n / 0x1_0000 / 0x100 == n / 0x100_0000
    ensures n / 0x100_0000 / 0x100 == n / 0x1_0000_0000
  {
  }

  lemma FourBytes(n: nat, width: nat)
    ensures BigEndian(n, width + 4) == BigEndian(n / 0x1_0000_0000, width) + Word(n)
  {
    DivideTwice(n);
    var a, b, c := n / 0x100, n / 0x1_0000, n / 0x100_0000;
    assert BigEndian(n, width + 4) == BigEndian(a, width + 3) + [n % 0x100];
    assert BigEndian(a, width + 3) == BigEndian(b, width + 2) + [a % 0x100];
    assert BigEndian(b, width + 2) == BigEndian(c, width + 1) + [b % 0x100];
    assert BigEndian(c, width + 1) == BigEndian(n / 0x1_0000_0000, width) + [c % 0x100];
  }

  lemma WordLayout(n: nat)
    ensures U32Bytes(n) == Word(n)
  {
    FourBytes(n, 0);
  }

  lemma EightBytes(n: nat, width: nat)
    ensures BigEndian(n, width + 8) == BigEndian(n / 0x1_0000_0000 / 0x1_0000_0000, width) + Long(n)
  {
    FourBytes(n, width + 4);
    FourBytes(n / 0x1_0000_0000, width);
    hide BigEndian, Word;
  }

  lemma LongLayout(n: nat)
    ensures U64Bytes(n) == Long(n)
  {
    EightBytes(n, 0);
    hide Long;
  }

  lemma DivideByWords(n: nat)
    ensures n / 0x1_0000_0000 / 0x1_0000_0000 == n / 0x1_0000_0000_0000_0000
  {
    var a := 0x1_0000_0000;
    var q, r := n / a, n % a;
    var p, t := q / a, q % a;
    assert n == 0x1_0000_0000_0000_0000 * p + (a * t + r);
    assert 0 <= a * t + r < 0x1_0000_0000_0000_0000;
  }

  lemma WriterIdLayout(n: nat)
    ensures BigEndian(n, WRITER_ID_LEN) == Long(n / 0x1_0000_0000_0000_0000) + Long(n)
  {
    DivideByWords(n);
    EightBytes(n, 8);
    EightBytes(n / 0x1_0000_0000 / 0x1_0000_0000, 0);
    hide Long, Word;
    assert BigEndian(n / 0x1_0000_0000 / 0x1_0000_0000, 0 + 8) == [] + Long(n / 0x1_0000_0000 / 0x1_0000_0000);
    hide BigEndian;
  }

  /** The final bit does not reach the lower three bytes. */
  lemma FinalBitOnTop(index: nat)
    requires index <= MAX_PART_INDEX
    ensures (0x8000_0000 + index) / 0x100_0000 == 0x80 + index / 0x100_0000 < 0x100
    ensures (0x8000_0000 + index) / 0x1_0000 == 0x80 * 0x100 + index / 0x1_0000
    ensures (0x8000_0000 + index) / 0x100 == 0x8000 * 0x100 + index / 0x100
    ensures (0x8000_0000 + index) % 0x100 == index % 0x100
  {
  }

  lemma Multiples(n: nat)
    ensures (0x80 * 0x100 + n) % 0x100 == n % 0x100 && (0x8000 * 0x100 + n) % 0x100 == n % 0x100
  {
  }

  lemma FinalWord(index: nat)
    requires index <= MAX_PART_INDEX
    ensures Word(0x8000_0000 + index) == PartWord(PartHeader(index, true))
  {
    FinalBitOnTop(index);
    Multiples(index / 0x1_0000);
    Multiples(index / 0x100);
  }

  lemma OtherWord(index: nat)
    requires index <= MAX_PART_INDEX
    ensures Word(index) == PartWord(PartHeader(index, false))
  {
  }

  lemma PartLayout(part: PartHeader)
    ensures U32Bytes(PartRaw(part)) == PartWord(part)
  {
    WordLayout(PartRaw(part));
    hide BigEndian, Word, PartWord, U32Bytes;
    if part.isFinal {
      FinalWord(part.index);
    } else {
      OtherWord(part.index);
    }
  }

  lemma AppendBodyLayout(r: AppendRecord)
    ensures AppendBody(r) == Long(r.writerSeqNum) + PartWord(r.part) + r.data
    ensures |AppendBody(r)| == 12 + |r.data|
  {
    LongLayout(r.writerSeqNum);
    PartLayout(r.part);
    hide BigEndian;
  }

  lemma {:induction false} AppendLayout(records: seq<AppendRecord>)
    ensures JoinBodies(EncodeAll(records, AppendBody)) == AppendWire(records)
  {
    if |records| > 0 {
      var r, bodies := records[0], EncodeAll(records, AppendBody);
      AppendLayout(records[1..]);
      assert bodies[1..] == EncodeAll(records[1..], AppendBody);
      AppendBodyLayout(r);
      WordLayout(12 + |r.data|);
      hide Word, Long, PartWord, AppendBody, BigEndian;
      FieldsJoin(Word(12 + |r.data|), Long(r.writerSeqNum), PartWord(r.part), r.data);
    }
  }

  lemma FieldsJoin(a: Bytes, b: Bytes, c: Bytes, d: Bytes)
    ensures a + (b + c + d) == a + b + c + d
  {
  }

  lemma ReadBodyLayout(r: PositionedRecord)
    ensures ReadBody(r) == Long(r.seqNum) + Long(r.timestampMs)
      + Long(r.record.writerId / 0x1_0000_0000_0000_0000) + Long(r.record.writerId)
      + Long(r.record.writerSeqNum) + PartWord(r.record.part) + r.record.data
    ensures |ReadBody(r)| == 44 + |r.record.data|
  {
    LongLayout(r.seqNum);
    LongLayout(r.timestampMs);
    WriterIdLayout(r.record.writerId);
    LongLayout(r.record.writerSeqNum);
    PartLayout(r.record.part);
    hide BigEndian, Long, PartWord, PartRaw;
    var high, low := Long(r.record.writerId / 0x1_0000_0000_0000_0000), Long(r.record.writerId);
    var front := Long(r.seqNum) + Long(r.timestampMs);
    assert front + (high + low) == front + high + low;
    assert |PartWord(r.record.part)| == |U32Bytes(PartRaw(r.record.part))|;
  }

  lemma ReadRecordLayout(r: PositionedRecord)
    ensures U32Bytes(|ReadBody(r)|) + ReadBody(r) == Word(44 + |r.record.data|) + Long(r.seqNum) + Long(r.timestampMs)
      + Long(r.record.writerId / 0x1_0000_0000_0000_0000) + Long(r.record.writerId)
      + Long(r.record.writerSeqNum) + PartWord(r.record.part) + r.record.data
  {
    ReadBodyLayout(r);
    WordLayout(44 + |r.record.data|);
    hide *;
    var high, low := Long(r.record.writerId / 0x1_0000_0000_0000_0000), Long(r.record.writerId);
    var length, front := Word(44 + |r.record.data|), Long(r.seqNum) + Long(r.timestampMs);
    assert length + (front + high + low) == length + Long(r.seqNum) + Long(r.timestampMs) + high + low;
    FieldsJoin(length, front + high + low, Long(r.record.writerSeqNum) + PartWord(r.record.part), r.record.data);
    FieldsJoin(length + (front + high + low), Long(r.record.writerSeqNum), PartWord(r.record.part), r.record.data);
    FieldsJoin(front + high + low, Long(r.record.writerSeqNum), PartWord(r.record.part), r.record.data);
  }

  lemma {:induction false} ReadLayout(batch: seq<PositionedRecord>)
    ensures JoinBodies(EncodeAll(batch, ReadBody)) == ReadWire(batch)
  {
    hide Word, Long, PartWord, ReadBody, U32Bytes;
    if |batch| > 0 {
      var bodies := EncodeAll(batch, ReadBody);
      ReadLayout(batch[1..]);
      assert bodies[1..] == EncodeAll(batch[1..], ReadBody);
      ReadRecordLayout(batch[0]);
    }
  }

  /** Every client frame is encoded as the table says. */
  lemma ClientLayout(frame: ClientFrame)
    ensures EncodeClient(frame) == ClientWire(frame)
  {
    if frame.AppendBatch? {
      AppendLayout(frame.records);
    } else if frame.OpenWrite? && frame.expectedNextSeqNum.Some? {
      LongLayout(frame.expectedNextSeqNum.value);
    }
    hide BigEndian, Long, JoinBodies, AppendWire;
  }

  /** And every server frame. */
  lemma ServerLayout(frame: ServerFrame)
    ensures EncodeServer(frame) == ServerWire(frame)
  {
    match frame {
      case Ready(_) =>
      case AppendAckFrame(a, b, c, d) =>
        LongLayout(a);
        LongLayout(b);
        LongLayout(c);
        LongLayout(d);
      case ReadBatch(batch) => ReadLayout(batch);
      case Heartbeat =>
      case CaughtUpFrame(next, last) =>
        LongLayout(next);
        LongLayout(last);
    }
    hide BigEndian, Long, JoinBodies, ReadWire;
  }

  lemma SmallLong(n: nat)
    requires n < 0x100
    ensures Long(n) == [0, 0, 0, 0, 0, 0, 0, n]
  {
  }

  /** A shared test vector: an append of one unsplit record, field by field. */
  lemma AppendVector()
    ensures EncodeClient(AppendBatch([AppendRecord(42, UNSPLIT, [0x68, 0x65, 0x6c, 0x6c, 0x6f, 0x0a])]))
         == [0x03] + ([0x00, 0x00, 0x00, 0x12] + [0x00, 0x00, 0x00, 0x00, 0x00, 0x00, 0x00, 0x2a]
                      + [0x80, 0x00, 0x00, 0x00] + [0x68, 0x65, 0x6c, 0x6c, 0x6f, 0x0a])
  {
    var hello: Bytes := [0x68, 0x65, 0x6c, 0x6c, 0x6f, 0x0a];
    var r := AppendRecord(42, UNSPLIT, hello);
    ClientLayout(AppendBatch([r]));
    SmallLong(42);
    assert Word(18) == [0x00, 0x00, 0x00, 0x12] && PartWord(UNSPLIT) == [0x80, 0x00, 0x00, 0x00];
    hide EncodeClient, Long, Word, PartWord;
    assert AppendWire([r]) == Word(18) + Long(42) + PartWord(UNSPLIT) + hello + AppendWire([r][1..]);
    assert [r][1..] == [] && AppendWire([]) == [];
    EndsThere(Word(18) + Long(42) + PartWord(UNSPLIT) + hello);
  }

  lemma EndsThere(s: Bytes)
    ensures s + [] == s
  {
  }

  /** And of an acknowledgement and a caught-up position. */
  lemma ServerVectors()
    ensures EncodeServer(AppendAckFrame(42, 43, 100, 101))
         == [0x81] + [0x00, 0x00, 0x00, 0x00, 0x00, 0x00, 0x00, 0x2a]
            + [0x00, 0x00, 0x00, 0x00, 0x00, 0x00, 0x00, 0x2b]
            + [0x00, 0x00, 0x00, 0x00, 0x00, 0x00, 0x00, 0x64]
            + [0x00, 0x00, 0x00, 0x00, 0x00, 0x00, 0x00, 0x65]
    ensures EncodeServer(CaughtUpFrame(102, 1786000000456))
         == [0x84] + [0x00, 0x00, 0x00, 0x00, 0x00, 0x00, 0x00, 0x66]
            + [0x00, 0x00, 0x01, 0x9f, 0xd5, 0xe5, 0x45, 0xc8]
  {
    ServerLayout(AppendAckFrame(42, 43, 100, 101));
    ServerLayout(CaughtUpFrame(102, 1786000000456));
    SmallLong(42);
    SmallLong(43);
    SmallLong(100);
    SmallLong(101);
    SmallLong(102);
    assert Long(1786000000456) == [0x00, 0x00, 0x01, 0x9f, 0xd5, 0xe5, 0x45, 0xc8];
    hide EncodeServer, Long;
  }
}
