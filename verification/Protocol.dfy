/**
 * Constants and record types of the `tsf.v1` protocol, and the splitter that turns one logical
 * record into physical parts.
 */
module Protocol {
  import opened Wrappers

  type Byte = b: int | 0 <= b < 256
  type Bytes = seq<Byte>
  type U64 = n: int | 0 <= n <= U64_MAX

  const LF: Byte := 10

  const U64_MAX := 0xFFFF_FFFF_FFFF_FFFF
  const MAX_SAFE_INTEGER_U64 := 0x1F_FFFF_FFFF_FFFF
  const MAX_PART_INDEX := 0x7FFF_FFFF

  const MAX_RECORD_PAYLOAD_BYTES := 512 * 1024
  const MAX_APPEND_FRAME_RECORDS := 128
  const MAX_READ_FRAME_RECORDS := 1000
  const MAX_FRAME_PAYLOAD_BYTES := 1024 * 1024
  const MAX_WRITER_IN_FLIGHT_RECORDS := 1024
  const MAX_WRITER_IN_FLIGHT_PAYLOAD_BYTES := 5 * 1024 * 1024

  /** Split-part metadata: a 31-bit index and the final-part marker. */
  datatype PartHeaderRaw = PartHeader(index: nat, isFinal: bool)
  type PartHeader = p: PartHeaderRaw | p.index <= MAX_PART_INDEX witness PartHeader(0, true)

  const UNSPLIT: PartHeader := PartHeader(0, true)

  /** One physical record before writer-sequence assignment. */
  datatype RecordPayload = RecordPayload(part: PartHeader, data: Bytes)

  /** One physical record numbered by its writer. */
  datatype AppendRecord = AppendRecord(writerSeqNum: nat, part: PartHeader, data: Bytes)

  type WriterId = nat

  /** One physical record as a reader receives it. */
  datatype ReadRecord = ReadRecord(writerId: WriterId, writerSeqNum: U64, part: PartHeader, data: Bytes)

  /** The same with its place in the log. */
  datatype PositionedRecord = PositionedRecord(seqNum: U64, timestampMs: U64, record: ReadRecord)

  /** The records a writer numbers `lo .. hi` when it has admitted `history`. */
  function Numbered(history: seq<RecordPayload>, lo: nat, hi: nat): (records: seq<AppendRecord>)
    requires lo <= hi <= |history|
    ensures |records| == hi - lo
    ensures forall i {:trigger records[i]} :: 0 <= i < hi - lo ==>
              records[i] == AppendRecord(lo + i, history[lo + i].part, history[lo + i].data)
  {
    seq(hi - lo, i requires 0 <= i < hi - lo =>
      AppendRecord(lo + i, history[lo + i].part, history[lo + i].data))
  }

  /** Payload bytes of the records `lo .. hi`. */
  ghost function Load(history: seq<RecordPayload>, lo: nat, hi: nat): (bytes: nat)
    requires lo <= hi <= |history|
    decreases hi
  {
    if lo == hi then 0 else Load(history, lo, hi - 1) + |history[hi - 1].data|
  }

  lemma {:induction false} LoadSplit(history: seq<RecordPayload>, lo: nat, mid: nat, hi: nat)
    requires lo <= mid <= hi <= |history|
    ensures Load(history, lo, hi) == Load(history, lo, mid) + Load(history, mid, hi)
    decreases hi
  {
    if mid < hi {
      LoadSplit(history, lo, mid, hi - 1);
    }
  }

  lemma {:induction false} LoadPrefix(history: seq<RecordPayload>, longer: seq<RecordPayload>, lo: nat, hi: nat)
    requires lo <= hi <= |history| && history <= longer
    ensures Load(history, lo, hi) == Load(longer, lo, hi)
    decreases hi
  {
    if lo < hi {
      LoadPrefix(history, longer, lo, hi - 1);
    }
  }

  /** `part` is the stretch of `whole` that begins at `start`. */
  ghost predicate SliceAt<T>(part: seq<T>, whole: seq<T>, start: nat) {
    && start + |part| <= |whole|
    && forall k {:trigger part[k]} :: 0 <= k < |part| ==> part[k] == whole[start + k]
  }

  /** Concatenates chunks in order. */
  function Concat(chunks: seq<Bytes>): Bytes {
    if |chunks| == 0 then [] else Concat(chunks[..|chunks| - 1]) + chunks[|chunks| - 1]
  }

  lemma {:induction false} ConcatMonotone(chunks: seq<Bytes>, n: nat)
    requires n <= |chunks|
    ensures Concat(chunks[..n]) <= Concat(chunks)
    decreases |chunks|
  {
    if n < |chunks| {
      ConcatMonotone(chunks[..|chunks| - 1], n);
      assert chunks[..|chunks| - 1][..n] == chunks[..n];
    } else {
      assert chunks[..n] == chunks;
    }
  }

  /** The first occurrence of `byte` at or after `lo`. */
  method IndexOf(byte: Byte, buffer: Bytes, lo: nat) returns (index: Option<nat>)
    requires lo <= |buffer|
    ensures match index
      case None => forall i :: lo <= i < |buffer| ==> buffer[i] != byte
      case Some(at) => lo <= at < |buffer| && buffer[at] == byte
                       && forall i :: lo <= i < at ==> buffer[i] != byte
  {
    for at := lo to |buffer|
      invariant forall i :: lo <= i < at ==> buffer[i] != byte
    {
      if buffer[at] == byte {
        return Some(at);
      }
    }
    return None;
  }

  function Min(a: int, b: int): int { if a < b then a else b }

  function Max(a: int, b: int): int { if a < b then b else a }

  /** Number of physical parts a payload of `len` bytes needs. */
  function PartCount(len: nat): (count: nat)
    ensures count >= 1
    ensures len <= MAX_RECORD_PAYLOAD_BYTES <==> count == 1
    ensures (count - 1) * MAX_RECORD_PAYLOAD_BYTES <= len <= count * MAX_RECORD_PAYLOAD_BYTES
    ensures count > 1 ==> (count - 1) * MAX_RECORD_PAYLOAD_BYTES < len
  {
    var count := (len + MAX_RECORD_PAYLOAD_BYTES - 1) / MAX_RECORD_PAYLOAD_BYTES;
    if count < 1 then 1 else count
  }

  /** The `index`-th slice of a split payload. */
  function PartData(data: Bytes, index: nat): Bytes
    requires index < PartCount(|data|)
  {
    data[index * MAX_RECORD_PAYLOAD_BYTES
         .. Min((index + 1) * MAX_RECORD_PAYLOAD_BYTES, |data|)]
  }

  /** Whether a payload can be numbered within the 31-bit part index. */
  predicate Splittable(data: Bytes) {
    PartCount(|data|) <= MAX_PART_INDEX + 1
  }

  /** The parts of one logical record: each is the payload slice of its index. */
  ghost predicate IsSplit(data: Bytes, parts: seq<RecordPayload>) {
    var count := PartCount(|data|);
    && |parts| == count
    && forall i :: 0 <= i < count ==>
         && parts[i].part == PartHeader(i, i == count - 1)
         && parts[i].data == PartData(data, i)
  }

  /** `split_record_payloads`: fails only when the part index would not fit. */
  method SplitRecordPayloads(data: Bytes) returns (result: Result<seq<RecordPayload>, nat>)
    ensures result.Ok? <==> Splittable(data)
    ensures result.Ok? ==> IsSplit(data, result.value)
    ensures result.Ok? ==> forall p <- result.value :: |p.data| <= MAX_RECORD_PAYLOAD_BYTES
  {
    var partCount := PartCount(|data|);
    if partCount > MAX_PART_INDEX + 1 {
      return Err(partCount - 1);
    }
    if partCount == 1 {
      assert PartData(data, 0) == data;
      return Ok([RecordPayload(UNSPLIT, data)]);
    }
    var records: seq<RecordPayload> := [];
    for index := 0 to partCount
      invariant |records| == index
      invariant forall i :: 0 <= i < index ==>
                  && records[i].part == PartHeader(i, i == partCount - 1)
                  && records[i].data == PartData(data, i)
      invariant forall p <- records :: |p.data| <= MAX_RECORD_PAYLOAD_BYTES
    {
      var start := index * MAX_RECORD_PAYLOAD_BYTES;
      var end := Min(|data|, start + MAX_RECORD_PAYLOAD_BYTES);
      records := records + [RecordPayload(PartHeader(index, index == partCount - 1), data[start..end])];
    }
    return Ok(records);
  }

  /** The slices `0 .. count` of a payload concatenate to its first bytes. */
  lemma {:induction false} SlicesConcatenate(data: Bytes, slices: seq<Bytes>, count: nat)
    requires count <= |slices| == PartCount(|data|)
    requires forall i :: 0 <= i < |slices| ==> slices[i] == PartData(data, i)
    ensures Concat(slices[..count]) == data[..Min(count * MAX_RECORD_PAYLOAD_BYTES, |data|)]
  {
    if count > 0 {
      SlicesConcatenate(data, slices, count - 1);
      assert slices[..count][..count - 1] == slices[..count - 1];
    }
  }
}
