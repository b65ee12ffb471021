/**
 * The stateless append: which batches it accepts, that the JSON payload keeps the exact bytes, and
 * that an accepted request stays within the body limit (section 7 of RFC 8259, section 5 of RFC 4648).
 *
 * JSON text is a sequence of bytes, one `char` each.
 */
module JsonAppend {
  import opened Wrappers
  import opened Protocol
  import opened WriterSpec

  const MAX_STATELESS_APPEND_RECORDS := 128
  const MAX_STATELESS_APPEND_PAYLOAD_BYTES := 900 * 1024
  const MAX_STATELESS_APPEND_JSON_BYTES := 1_300_000

  // ----- text -----

  function Hex(digit: nat): char
    requires digit < 16
  {
    if digit < 10 then '0' + digit as char else 'a' + (digit - 10) as char
  }

  function HexValue(c: char): Option<nat> {
    if '0' <= c <= '9' then Some(c as nat - '0' as nat)
    else if 'a' <= c <= 'f' then Some(c as nat - 'a' as nat + 10)
    else None
  }

  function Escape(b: Byte): string {
    if b == '"' as int then "\\\""
    else if b == '\\' as int then "\\\\"
    else if b == 8 then "\\b"
    else if b == 9 then "\\t"
    else if b == 10 then "\\n"
    else if b == 12 then "\\f"
    else if b == 13 then "\\r"
    else if b < 0x20 then "\\u00" + [Hex(b / 16), Hex(b % 16)]
    else [b as char]
  }

  /** The table the payload choice is made from. */
  function EscapedLen(b: Byte): nat {
    if b == '"' as int || b == '\\' as int || b in {8, 9, 10, 12, 13} then 2
    else if b < 0x20 then 6
    else 1
  }

  function EscapeAll(data: Bytes): string {
    if |data| == 0 then "" else Escape(data[0]) + EscapeAll(data[1..])
  }

  function TotalEscapedLen(data: Bytes): nat {
    if |data| == 0 then 0 else EscapedLen(data[0]) + TotalEscapedLen(data[1..])
  }

  lemma {:induction false} EscapedLenIsExact(data: Bytes)
    ensures |EscapeAll(data)| == TotalEscapedLen(data)
  {
    if |data| > 0 {
      EscapedLenIsExact(data[1..]);
    }
  }

  /** The byte an escape sequence in front stands for, and the length of the sequence. */
  function Unescape(s: string): Option<(Byte, nat)>
    requires |s| > 0
  {
    if s[0] != '\\' then if s[0] as nat < 256 then Some((s[0] as nat, 1)) else None
    else if |s| < 2 then None
    else match s[1]
      case '"' => Some(('"' as nat, 2))
      case '\\' => Some(('\\' as nat, 2))
      case 'b' => Some((8, 2))
      case 't' => Some((9, 2))
      case 'n' => Some((10, 2))
      case 'f' => Some((12, 2))
      case 'r' => Some((13, 2))
      case 'u' =>
        if |s| < 6 || s[2..4] != "00" || HexValue(s[4]).None? || HexValue(s[5]).None? then None
        else Some((16 * HexValue(s[4]).value + HexValue(s[5]).value, 6))
      case _ => None
  }

  function UnescapeAll(s: string): Option<Bytes>
    decreases |s|
  {
    if |s| == 0 then Some([])
    else match Unescape(s)
      case None => None
      case Some((b, length)) =>
        if length > |s| || length == 0 then None
        else match UnescapeAll(s[length..])
          case None => None
          case Some(rest) => Some([b] + rest)
  }

  lemma UnescapeOfEscape(b: Byte, rest: string)
    ensures Unescape(Escape(b) + rest) == Some((b, |Escape(b)|))
    ensures |Escape(b)| == EscapedLen(b) > 0
  {
    var s := Escape(b) + rest;
    if b < 0x20 && b !in {8, 9, 10, 12, 13} {
      assert s[2..4] == "00" && s[4] == Hex(b / 16) && s[5] == Hex(b % 16);
      assert HexValue(Hex(b / 16)) == Some(b / 16) && HexValue(Hex(b % 16)) == Some(b % 16);
    }
  }

  /** The control characters with an escape of their own, and the form of the others. */
  lemma EscapesAreStandard(b: Byte)
    ensures Escape(0x08) == "\\b" && Escape(0x09) == "\\t" && Escape(0x0a) == "\\n"
    ensures Escape(0x0c) == "\\f" && Escape(0x0d) == "\\r"
    ensures Escape(0x22) == "\\\"" && Escape(0x5c) == "\\\\"
    ensures b < 0x20 && b !in {0x08, 0x09, 0x0a, 0x0c, 0x0d} ==>
              Escape(b) == "\\u00" + [if b < 0x10 then '0' else '1', "0123456789abcdef"[b % 0x10]]
    ensures b >= 0x20 && b != 0x22 && b != 0x5c ==> Escape(b) == [b as char]
  {
    HexIsStandard(b % 0x10);
    hide Hex;
    assert b < 0x20 ==> b / 16 == if b < 0x10 then 0 else 1;
    HexIsStandard(0);
    HexIsStandard(1);
  }

  lemma HexIsStandard(digit: nat)
    requires digit < 16
    ensures Hex(digit) == "0123456789abcdef"[digit]
  {
  }

  /** Escaped text reads back as the bytes it was made from. */
  lemma {:induction false} TextRoundTrip(data: Bytes)
    ensures UnescapeAll(EscapeAll(data)) == Some(data)
  {
    if |data| > 0 {
      var rest := EscapeAll(data[1..]);
      TextRoundTrip(data[1..]);
      UnescapeOfEscape(data[0], rest);
      hide Escape, Unescape;
      var s := EscapeAll(data);
      assert s[|Escape(data[0])|..] == rest;
      assert [data[0]] + data[1..] == data;
    }
  }

  // ----- base64url -----

  function Digit(value: nat): char
    requires value < 64
  {
    if value < 26 then 'A' + value as char
    else if value < 52 then 'a' + (value - 26) as char
    else if value < 62 then '0' + (value - 52) as char
    else if value == 62 then '-' else '_'
  }

  function DigitValue(c: char): (value: Option<nat>)
    ensures value.Some? ==> value.value < 64
  {
    if 'A' <= c <= 'Z' then Some(c as nat - 'A' as nat)
    else if 'a' <= c <= 'z' then Some(c as nat - 'a' as nat + 26)
    else if '0' <= c <= '9' then Some(c as nat - '0' as nat + 52)
    else if c == '-' then Some(62) else if c == '_' then Some(63) else None
  }

  /** Unpadded base64url of at most three bytes. */
  function EncodeGroup(group: Bytes): string
    requires 1 <= |group| <= 3
  {
    var a := group[0];
    if |group| == 1 then [Digit(a / 4), Digit(a % 4 * 16)]
    else
      var b := group[1];
      if |group| == 2 then [Digit(a / 4), Digit(a % 4 * 16 + b / 16), Digit(b % 16 * 4)]
      else
        var c := group[2];
        [Digit(a / 4), Digit(a % 4 * 16 + b / 16), Digit(b % 16 * 4 + c / 64), Digit(c % 64)]
  }

  function Base64Url(data: Bytes): (text: string)
    ensures |text| == (4 * |data| + 2) / 3
    decreases |data|
  {
    if |data| == 0 then ""
    else if |data| <= 3 then EncodeGroup(data)
    else EncodeGroup(data[..3]) + Base64Url(data[3..])
  }

  /** The alphabet by its ends: four runs of neighbours, then '-' and '_'. */
  lemma AlphabetIsUrlSafe(value: nat)
    requires value < 64
    ensures Digit(0) == 'A' && Digit(25) == 'Z' && Digit(26) == 'a' && Digit(51) == 'z'
    ensures Digit(52) == '0' && Digit(61) == '9' && Digit(62) == '-' && Digit(63) == '_'
    ensures value < 61 && value != 25 && value != 51 ==> Digit(value + 1) as nat == Digit(value) as nat + 1
    ensures forall c :: DigitValue(c) == Some(value) <==> c == Digit(value)
  {
  }

  lemma PiecesOfSix(a: nat, b: nat, c: nat)
    requires a < 0x100 && b < 0x100 && c < 0x100
    ensures var bits := a * 0x1_0000 + b * 0x100 + c;
      && bits / 0x4_0000 == a / 4 && bits / 0x1000 == 0x40 * (a / 4) + (a % 4 * 16 + b / 16)
      && bits / 0x40 == 0x1000 * (a / 4) + 0x40 * (a % 4 * 16 + b / 16) + (b % 16 * 4 + c / 64)
      && bits % 0x40 == c % 0x40
  {
  }

  lemma LowSix(high: nat, low: nat)
    requires low < 0x40
    ensures (0x40 * high + low) % 0x40 == low
  {
  }

  lemma SixBits(a: nat, b: nat, c: nat)
    requires a < 0x100 && b < 0x100 && c < 0x100
    ensures var bits := a * 0x1_0000 + b * 0x100 + c;
      && bits / 0x4_0000 % 64 == a / 4 && bits / 0x1000 % 64 == a % 4 * 16 + b / 16
      && bits / 0x40 % 64 == b % 16 * 4 + c / 64 && bits % 64 == c % 64
  {
    PiecesOfSix(a, b, c);
    LowSix(a / 4, a % 4 * 16 + b / 16);
    LowSix(0x40 * (a / 4) + (a % 4 * 16 + b / 16), b % 16 * 4 + c / 64);
  }

  /** The bits of a group, from the left and with zeros behind them, in pieces of six. */
  lemma GroupIsItsBits(group: Bytes)
    requires 1 <= |group| <= 3
    ensures var a: nat := group[0];
      var b: nat := if |group| > 1 then group[1] else 0;
      var c: nat := if |group| > 2 then group[2] else 0;
      var bits := a * 0x1_0000 + b * 0x100 + c;
      var digits := [Digit(bits / 0x4_0000 % 64), Digit(bits / 0x1000 % 64), Digit(bits / 0x40 % 64), Digit(bits % 64)];
      EncodeGroup(group) == digits[..|group| + 1]
  {
    var a: nat := group[0];
    var b: nat := if |group| > 1 then group[1] else 0;
    var c: nat := if |group| > 2 then group[2] else 0;
    SixBits(a, b, c);
    hide Digit;
  }

  /** Decodes at most four digits; spare bits must be zero. */
  function DecodeGroup(digits: string): Option<Bytes> {
    if |digits| < 2 || |digits| > 4 then None
    else match (DigitValue(digits[0]), DigitValue(digits[1]))
      case (Some(a), Some(b)) =>
        if |digits| == 2 then if b % 16 != 0 then None else Some([a * 4 + b / 16])
        else (
          match DigitValue(digits[2])
          case None => None
          case Some(c) =>
            if |digits| == 3 then if c % 4 != 0 then None else Some([a * 4 + b / 16, b % 16 * 16 + c / 4])
            else (
              match DigitValue(digits[3])
              case None => None
              case Some(d) => Some([a * 4 + b / 16, b % 16 * 16 + c / 4, c % 4 * 64 + d])
            )
        )
      case _ => None
  }

  function DecodeBase64Url(text: string): Option<Bytes>
    decreases |text|
  {
    if |text| == 0 then Some([])
    else if |text| <= 4 then DecodeGroup(text)
    else match (DecodeGroup(text[..4]), DecodeBase64Url(text[4..]))
      case (Some(group), Some(rest)) => Some(group + rest)
      case _ => None
  }

  lemma DigitRoundTrip(value: nat)
    requires value < 64
    ensures DigitValue(Digit(value)) == Some(value)
  {
  }

  lemma OneByteRoundTrip(a: Byte)
    ensures DecodeGroup(EncodeGroup([a])) == Some([a])
  {
    DigitRoundTrip(a / 4);
    DigitRoundTrip(a % 4 * 16);
    hide Digit, DigitValue;
  }

  lemma TwoBytesRoundTrip(a: Byte, b: Byte)
    ensures DecodeGroup(EncodeGroup([a, b])) == Some([a, b])
  {
    DigitRoundTrip(a / 4);
    DigitRoundTrip(a % 4 * 16 + b / 16);
    DigitRoundTrip(b % 16 * 4);
    hide Digit, DigitValue;
  }

  lemma FourDigits(p: nat, q: nat, r: nat, t: nat)
    requires p < 64 && q < 64 && r < 64 && t < 64
    ensures DecodeGroup([Digit(p), Digit(q), Digit(r), Digit(t)])
            == Some([p * 4 + q / 16, q % 16 * 16 + r / 4, r % 4 * 64 + t])
  {
    DigitRoundTrip(p);
    DigitRoundTrip(q);
    DigitRoundTrip(r);
    DigitRoundTrip(t);
    hide Digit, DigitValue;
  }

  /** Two bits of one byte and four of the next, and four bits of one and two of the next. */
  lemma SharedDigits(a: Byte, b: Byte)
    ensures var q := a % 4 * 16 + b / 16;
            q < 64 && q / 16 == a % 4 && q % 16 == b / 16
    ensures var r := a % 16 * 4 + b / 64;
            r < 64 && r / 4 == a % 16 && r % 4 == b / 64
  {
  }

  lemma ThreeBytesRejoined(a: Byte, b: Byte, c: Byte, q: nat, r: nat)
    requires q == a % 4 * 16 + b / 16 && r == b % 16 * 4 + c / 64
    ensures q < 64 && r < 64
    ensures a / 4 * 4 + q / 16 == a && q % 16 * 16 + r / 4 == b && r % 4 * 64 + c % 64 == c
  {
    SharedDigits(a, b);
    SharedDigits(b, c);
  }

  lemma ThreeBytesRoundTrip(a: Byte, b: Byte, c: Byte)
    ensures DecodeGroup(EncodeGroup([a, b, c])) == Some([a, b, c])
  {
    var p, q, r, t := a / 4, a % 4 * 16 + b / 16, b % 16 * 4 + c / 64, c % 64;
    assert EncodeGroup([a, b, c]) == [Digit(p), Digit(q), Digit(r), Digit(t)];
    ThreeBytesRejoined(a, b, c, q, r);
    hide *;
    FourDigits(p, q, r, t);
  }

  lemma GroupRoundTrip(group: Bytes)
    requires 1 <= |group| <= 3
    ensures DecodeGroup(EncodeGroup(group)) == Some(group)
  {
    hide EncodeGroup, DecodeGroup;
    if |group| == 1 {
      assert group == [group[0]];
      OneByteRoundTrip(group[0]);
    } else if |group| == 2 {
      assert group == [group[0], group[1]];
      TwoBytesRoundTrip(group[0], group[1]);
    } else {
      assert group == [group[0], group[1], group[2]];
      ThreeBytesRoundTrip(group[0], group[1], group[2]);
    }
  }

  /** Base64url decodes to the bytes it was made from. */
  lemma {:induction false} Base64RoundTrip(data: Bytes)
    ensures DecodeBase64Url(Base64Url(data)) == Some(data)
    decreases |data|
  {
    if 0 < |data| <= 3 {
      GroupRoundTrip(data);
    } else if |data| > 3 {
      var head, rest := EncodeGroup(data[..3]), Base64Url(data[3..]);
      GroupRoundTrip(data[..3]);
      Base64RoundTrip(data[3..]);
      hide EncodeGroup, DecodeGroup;
      assert (head + rest)[..4] == head && (head + rest)[4..] == rest;
      assert data[..3] + data[3..] == data;
    }
  }

  // ----- payloads -----

  datatype JsonRecordPayload = Text(text: Bytes) | Base64(encoded: string)

  function Content(payload: JsonRecordPayload): Option<Bytes> {
    match payload
    case Text(text) => Some(text)
    case Base64(encoded) => DecodeBase64Url(encoded)
  }

  function PayloadJson(payload: JsonRecordPayload): string {
    match payload
    case Text(text) => "\"text\":\"" + EscapeAll(text) + "\""
    case Base64(encoded) => "\"bytes\":\"" + encoded + "\""
  }

  /** `compact_record_payload`. Whether the bytes are UTF-8 is taken as given. */
  function CompactRecordPayload(data: Bytes, isUtf8: bool): JsonRecordPayload {
    if !isUtf8 then Base64(Base64Url(data))
    else
      var textLen := |"\"text\":\""| + TotalEscapedLen(data);
      var bytesLen := |"\"bytes\":\""| + (4 * |data| + 2) / 3;
      if textLen <= bytesLen then Text(data) else Base64(Base64Url(data))
  }

  /** The choice keeps the exact bytes, is the shorter of the two where both are possible, and is never
      longer than base64url. */
  lemma CompactPayloadIsExactAndShort(data: Bytes, isUtf8: bool)
    ensures var payload := CompactRecordPayload(data, isUtf8);
      && Content(payload) == Some(data)
      && |PayloadJson(payload)| <= |PayloadJson(Base64(Base64Url(data)))|
      && (isUtf8 ==> |PayloadJson(payload)| <= |PayloadJson(Text(data))|)
  {
    EscapedLenIsExact(data);
    Base64RoundTrip(data);
  }

  // ----- requests -----

  function Decimal(n: nat): string {
    if n < 10 then ['0' + n as char] else Decimal(n / 10) + ['0' + (n % 10) as char]
  }

  function Pow10(k: nat): nat {
    if k == 0 then 1 else 10 * Pow10(k - 1)
  }

  lemma {:induction false} DecimalLength(n: nat, k: nat)
    requires n < Pow10(k) && k > 0
    ensures |Decimal(n)| <= k
  {
    if n >= 10 {
      assert k > 1;
      DecimalLength(n / 10, k - 1);
    }
  }

  function RecordJson(record: AppendRecord, isUtf8: bool): string {
    "{\"part\":{\"index\":" + Decimal(record.part.index) + ",\"is_final\":"
    + (if record.part.isFinal then "true" else "false") + "},"
    + PayloadJson(CompactRecordPayload(record.data, isUtf8)) + "}"
  }

  function RecordsJson(records: seq<AppendRecord>, isUtf8: Bytes -> bool): string {
    if |records| == 0 then ""
    else
      var last := RecordJson(records[|records| - 1], isUtf8(records[|records| - 1].data));
      if |records| == 1 then last else RecordsJson(records[..|records| - 1], isUtf8) + "," + last
  }

  function RequestJson(
    clientWriterId: Bytes, records: seq<AppendRecord>, expected: Option<U64>, isUtf8: Bytes -> bool): string
    requires |records| > 0
  {
    Envelope(clientWriterId, records[0].writerSeqNum, RecordsJson(records, isUtf8), expected)
  }

  /** The request object around its serialized records. */
  function Envelope(clientWriterId: Bytes, start: nat, records: string, expected: Option<U64>): string {
    "{\"writer\":{\"id\":\"" + Base64Url(clientWriterId) + "\",\"seq_num\":\"" + Decimal(start)
    + "\"},\"records\":[" + records + "]"
    + (if expected.Some? then ",\"expected_next_seq_num\":\"" + Decimal(expected.value) + "\"" else "") + "}"
  }

  lemma SmallPowersOf10()
    ensures Pow10(10) == 10_000_000_000 && Pow10(16) == 10_000_000_000_000_000
    ensures Pow10(20) == 100_000_000_000_000_000_000
  {
    assert Pow10(5) == 100_000;
    assert Pow10(10) == 10_000_000_000;
    assert Pow10(13) == 10_000_000_000_000;
    assert Pow10(16) == 10_000_000_000_000_000;
    assert Pow10(18) == 1_000_000_000_000_000_000;
  }

  lemma RecordJsonLength(record: AppendRecord, isUtf8: bool)
    ensures 3 * |RecordJson(record, isUtf8)| <= 4 * |record.data| + 176
  {
    SmallPowersOf10();
    DecimalLength(record.part.index, 10);
    CompactPayloadIsExactAndShort(record.data, isUtf8);
    hide CompactRecordPayload, Decimal, Pow10;
  }

  lemma {:induction false} RecordsJsonLength(records: seq<AppendRecord>, isUtf8: Bytes -> bool)
    ensures 3 * |RecordsJson(records, isUtf8)| <= 4 * FrameBytes(records) + 179 * |records|
  {
    if |records| > 0 {
      RecordsJsonLength(records[..|records| - 1], isUtf8);
      RecordJsonLength(records[|records| - 1], isUtf8(records[|records| - 1].data));
      hide RecordJson;
    }
  }

  /** What `append_records` accepts. */
  ghost predicate ValidStatelessAppend(records: seq<AppendRecord>, expected: Option<U64>) {
    && 1 <= |records| <= MAX_STATELESS_APPEND_RECORDS
    && records[0].writerSeqNum + |records| <= U64_MAX
    && (forall i :: 0 <= i < |records| ==> records[i].writerSeqNum == records[0].writerSeqNum + i)
    && (forall r <- records :: |r.data| <= MAX_RECORD_PAYLOAD_BYTES)
    && FrameBytes(records) <= MAX_STATELESS_APPEND_PAYLOAD_BYTES
    && (expected.Some? ==> expected.value <= MAX_SAFE_INTEGER_U64)
  }

  /** Every accepted append fits the body limit. */
  lemma AcceptedAppendFits(
    clientWriterId: Bytes, records: seq<AppendRecord>, expected: Option<U64>, isUtf8: Bytes -> bool)
    requires |clientWriterId| == 16 && ValidStatelessAppend(records, expected)
    ensures |RequestJson(clientWriterId, records, expected, isUtf8)| <= MAX_STATELESS_APPEND_JSON_BYTES
  {
    RecordsJsonLength(records, isUtf8);
    SmallPowersOf10();
    DecimalLength(records[0].writerSeqNum, 20);
    if expected.Some? {
      DecimalLength(expected.value, 16);
    }
    hide RecordsJson, Decimal, Pow10, FrameBytes, Base64Url;
  }

  lemma NothingYet(records: seq<AppendRecord>, isUtf8: Bytes -> bool)
    ensures RecordsJson(records[..0], isUtf8) == "" && FrameBytes(records[..0]) == 0
  {
  }

  lemma OneMoreRecord(records: seq<AppendRecord>, i: nat, isUtf8: Bytes -> bool)
    requires i < |records|
    ensures FrameBytes(records[..i + 1]) == FrameBytes(records[..i]) + |records[i].data|
    ensures var last := RecordJson(records[i], isUtf8(records[i].data));
      RecordsJson(records[..i + 1], isUtf8)
      == if i == 0 then last else RecordsJson(records[..i], isUtf8) + "," + last
  {
    hide RecordJson;
    assert records[..i + 1][..i] == records[..i];
  }

  datatype AppendError =
    | RecordCountOutOfRange | SequenceOverflow | SequenceReachesMax | ExpectedOutOfRange
    | RecordTooLarge | NotContiguous | PayloadTooLarge

  predicate ContiguousFrom(records: seq<AppendRecord>, count: nat)
    requires 0 < |records| && count <= |records|
  {
    forall i :: 0 <= i < count ==> records[i].writerSeqNum == records[0].writerSeqNum + i
  }

  predicate WithinRecordLimit(records: seq<AppendRecord>, count: nat)
    requires count <= |records|
  {
    forall i :: 0 <= i < count ==> |records[i].data| <= MAX_RECORD_PAYLOAD_BYTES
  }

  predicate CountInRange(records: seq<AppendRecord>) {
    1 <= |records| <= MAX_STATELESS_APPEND_RECORDS
  }

  /** What is checked before the records are looked at. */
  predicate RangeIsFine(records: seq<AppendRecord>, expected: Option<U64>) {
    && CountInRange(records)
    && records[0].writerSeqNum + (|records| - 1) < U64_MAX
    && (expected.Some? ==> expected.value <= MAX_SAFE_INTEGER_U64)
  }

  /** The first `n` records are fine, and the `n`-th is the first that is not. */
  predicate FirstBad(records: seq<AppendRecord>, n: nat, tooLarge: bool) {
    && n < |records| && ContiguousFrom(records, n) && WithinRecordLimit(records, n)
    && tooLarge == (|records[n].data| > MAX_RECORD_PAYLOAD_BYTES)
    && (tooLarge || records[n].writerSeqNum != records[0].writerSeqNum + n)
  }

  /** What each error says about the batch: the first check that fails decides. */
  ghost predicate Explains(error: AppendError, records: seq<AppendRecord>, expected: Option<U64>) {
    match error
    case RecordCountOutOfRange => !CountInRange(records)
    case SequenceOverflow => CountInRange(records) && records[0].writerSeqNum + (|records| - 1) > U64_MAX
    case SequenceReachesMax => CountInRange(records) && records[0].writerSeqNum + (|records| - 1) == U64_MAX
    case ExpectedOutOfRange =>
      && CountInRange(records) && records[0].writerSeqNum + (|records| - 1) < U64_MAX
      && expected.Some? && expected.value > MAX_SAFE_INTEGER_U64
    case RecordTooLarge => RangeIsFine(records, expected) && exists n: nat :: FirstBad(records, n, true)
    case NotContiguous => RangeIsFine(records, expected) && exists n: nat :: FirstBad(records, n, false)
    case PayloadTooLarge =>
      && RangeIsFine(records, expected)
      && ContiguousFrom(records, |records|) && WithinRecordLimit(records, |records|)
      && FrameBytes(records) > MAX_STATELESS_APPEND_PAYLOAD_BYTES
  }

  /** At most one error explains a rejection. */
  lemma OneExplanation(error: AppendError, other: AppendError, records: seq<AppendRecord>, expected: Option<U64>)
    requires Explains(error, records, expected) && Explains(other, records, expected)
    ensures error == other
  {
    forall n: nat, m: nat, tooLarge, other | FirstBad(records, n, tooLarge) && FirstBad(records, m, other)
      ensures n == m && tooLarge == other
    {
      FirstBadIsFirst(records, n, tooLarge, m, other);
    }
    hide FrameBytes, FirstBad, RangeIsFine, CountInRange;
  }

  lemma FirstBadIsFirst(records: seq<AppendRecord>, n: nat, tooLarge: bool, m: nat, other: bool)
    requires FirstBad(records, n, tooLarge) && FirstBad(records, m, other)
    ensures n == m && tooLarge == other
  {
  }

  lemma ExplainedIsInvalid(error: AppendError, records: seq<AppendRecord>, expected: Option<U64>)
    requires Explains(error, records, expected)
    ensures !ValidStatelessAppend(records, expected)
  {
    if error.RecordTooLarge? {
      var n: nat :| FirstBad(records, n, true);
      assert records[n] in records;
    } else if error.NotContiguous? {
      var n: nat :| FirstBad(records, n, false);
    }
    hide FrameBytes;
  }

  /** `append_records` up to the request body. */
  method AppendRecords(
    clientWriterId: Bytes, records: seq<AppendRecord>, expected: Option<U64>, isUtf8: Bytes -> bool)
    returns (body: Result<string, AppendError>)
    requires |clientWriterId| == 16 && forall r <- records :: r.writerSeqNum <= U64_MAX
    ensures body.Ok? <==> ValidStatelessAppend(records, expected)
    ensures body.Ok? ==> body.value == RequestJson(clientWriterId, records, expected, isUtf8)
                         && |body.value| <= MAX_STATELESS_APPEND_JSON_BYTES
    ensures body.Err? ==> Explains(body.error, records, expected)
  {
    body := ValidateAppend(records, expected, isUtf8);
    if body.Err? {
      ExplainedIsInvalid(body.error, records, expected);
      return;
    }
    hide RecordsJson, Envelope;
    AcceptedAppendFits(clientWriterId, records, expected, isUtf8);
    return Ok(Envelope(clientWriterId, records[0].writerSeqNum, body.value, expected));
  }

  /** The checks of `append_records`, in its order, and the serialized records. */
  method ValidateAppend(records: seq<AppendRecord>, expected: Option<U64>, isUtf8: Bytes -> bool)
    returns (json: Result<string, AppendError>)
    requires forall r <- records :: r.writerSeqNum <= U64_MAX
    ensures json.Ok? ==> ValidStatelessAppend(records, expected) && json.value == RecordsJson(records, isUtf8)
    ensures json.Err? ==> Explains(json.error, records, expected)
  {
    hide RecordsJson, FrameBytes;
    if |records| == 0 || |records| > MAX_STATELESS_APPEND_RECORDS {
      return Err(RecordCountOutOfRange);
    }
    var last := records[0].writerSeqNum + (|records| - 1);
    if last > U64_MAX {
      return Err(SequenceOverflow);
    }
    if last == U64_MAX {
      return Err(SequenceReachesMax);
    }
    if expected.Some? && expected.value > MAX_SAFE_INTEGER_U64 {
      return Err(ExpectedOutOfRange);
    }
    var payloadBytes;
    json, payloadBytes := SerializeRecords(records, isUtf8);
    if json.Ok? && payloadBytes > MAX_STATELESS_APPEND_PAYLOAD_BYTES {
      return Err(PayloadTooLarge);
    }
  }

  /** The loop of `append_records`: validates, sums up and serializes the records. */
  method SerializeRecords(records: seq<AppendRecord>, isUtf8: Bytes -> bool)
    returns (json: Result<string, AppendError>, payloadBytes: nat)
    requires |records| > 0
    ensures json.Ok? ==>
              && ContiguousFrom(records, |records|) && WithinRecordLimit(records, |records|)
              && json.value == RecordsJson(records, isUtf8) && payloadBytes == FrameBytes(records)
    ensures json.Err? ==>
              || (json.error.RecordTooLarge? && exists n: nat :: FirstBad(records, n, true))
              || (json.error.NotContiguous? && exists n: nat :: FirstBad(records, n, false))
  {
    hide RecordJson, RecordsJson, FrameBytes;
    NothingYet(records, isUtf8);
    var jsonRecords := "";
    payloadBytes := 0;
    for i := 0 to |records|
      invariant payloadBytes == FrameBytes(records[..i])
      invariant jsonRecords == RecordsJson(records[..i], isUtf8)
      invariant ContiguousFrom(records, i) && WithinRecordLimit(records, i)
    {
      if |records[i].data| > MAX_RECORD_PAYLOAD_BYTES {
        assert FirstBad(records, i, true);
        return Err(RecordTooLarge), payloadBytes;
      }
      if records[i].writerSeqNum != records[0].writerSeqNum + i {
        assert FirstBad(records, i, false);
        return Err(NotContiguous), payloadBytes;
      }
      OneMoreRecord(records, i, isUtf8);
      payloadBytes := payloadBytes + |records[i].data|;
      var record := RecordJson(records[i], isUtf8(records[i].data));
      jsonRecords := if i == 0 then record else jsonRecords + "," + record;
    }
    assert records[..|records|] == records;
    return Ok(jsonRecords), payloadBytes;
  }
}
