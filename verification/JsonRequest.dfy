/**
 * What the body of a stateless append says to whoever reads it as JSON, by the names of its members.
 *
 * `ReadRequest` is the reader: it parses the text, follows the names the protocol gives to writer, records
 * and precondition, and decodes payloads and numbers. It knows nothing of how the body was put together.
 *
 * The trees are what the body parses to. Each piece of text is shown to denote its tree, and each tree to
 * hold what was sent; `RequestReadsBack` puts the two together.
 */
module JsonRequest {
  import opened Wrappers
  import opened Protocol
  import opened Json
  import opened JsonAppend

  datatype SentRecord = SentRecord(index: nat, isFinal: bool, data: Bytes)

  datatype Request = Request(writerId: Bytes, start: nat, records: seq<SentRecord>, expected: Option<nat>)

  /** The bytes of a record: text with its escapes undone, or base64url. */
  function DataOf(record: Value): Option<Bytes> {
    match (Field(record, "text"), Field(record, "bytes"))
    case (Some(String(raw)), None) => UnescapeAll(raw)
    case (None, Some(String(raw))) => DecodeBase64Url(raw)
    case _ => None
  }

  function RecordOf(record: Value): Option<SentRecord> {
    match (Field(record, "part"), DataOf(record))
    case (Some(part), Some(data)) => (
      match (Field(part, "index"), Field(part, "is_final"))
      case (Some(Number(index)), Some(Bool(isFinal))) => Some(SentRecord(index, isFinal, data))
      case _ => None
    )
    case _ => None
  }

  function RecordsOf(records: seq<Value>): Option<seq<SentRecord>> {
    if |records| == 0 then Some([])
    else match (RecordOf(records[0]), RecordsOf(records[1..]))
      case (Some(first), Some(rest)) => Some([first] + rest)
      case _ => None
  }

  /** Sequence numbers travel as decimal strings. */
  function NumberIn(value: Option<Value>): Option<nat> {
    match value
    case Some(String(raw)) => NumberOf(raw)
    case _ => None
  }

  function WriterIdOf(writer: Value): Option<Bytes> {
    match Field(writer, "id")
    case Some(String(raw)) => DecodeBase64Url(raw)
    case _ => None
  }

  function RequestOf(request: Value): Option<Request> {
    match (Field(request, "writer"), Field(request, "records"))
    case (Some(writer), Some(Array(elements))) => (
      match (WriterIdOf(writer), NumberIn(Field(writer, "seq_num")), RecordsOf(elements))
      case (Some(id), Some(start), Some(records)) =>
        var expected := NumberIn(Field(request, "expected_next_seq_num"));
        if expected.None? && Field(request, "expected_next_seq_num").Some? then None
        else Some(Request(id, start, records, expected))
      case _ => None
    )
    case _ => None
  }

  /** The request a text is, if it is one. */
  function ReadRequest(text: string): Option<Request> {
    match ReadText(text)
    case Some(value) => RequestOf(value)
    case None => None
  }

  // ----- tokens of the request -----

  lemma {:induction false} DecimalReads(n: nat)
    ensures IsDecimal(Decimal(n), n) && (n > 0 ==> Decimal(n)[0] != '0')
  {
    if n >= 10 {
      DecimalReads(n / 10);
      var digits := Decimal(n);
      assert digits[..|digits| - 1] == Decimal(n / 10);
      assert digits[0] == Decimal(n / 10)[0];
    } else {
      var digits := Decimal(n);
      assert digits[..0] == "" && DecimalValue(digits[..0]) == 0;
    }
  }

  lemma DecimalIsNumber(n: nat)
    ensures NumberOf(Decimal(n)) == Some(n)
  {
    DecimalReads(n);
    ReadsNumber(Decimal(n), n, "");
    assert Decimal(n) + "" == Decimal(n);
  }

  lemma DecimalIsBody(n: nat)
    ensures IsBody(Decimal(n))
  {
    DecimalReads(n);
    PlainIsBody(Decimal(n));
  }

  lemma EscapeIsBody(b: Byte, rest: string)
    requires IsBody(rest)
    ensures IsBody(Escape(b) + rest)
  {
    var e := Escape(b);
    if |e| <= 2 {
      BodyFromFront(e, rest);
    } else {
      assert e[2] == '0' && e[3] == '0' && e[4] == Hex(b / 16) && e[5] == Hex(b % 16);
      BodyFromFront([e[5]], rest);
      BodyFromFront([e[4]], [e[5]] + rest);
      BodyFromFront([e[3]], [e[4]] + ([e[5]] + rest));
      BodyFromFront([e[2]], [e[3]] + ([e[4]] + ([e[5]] + rest)));
      BodyFromFront(e[..2], [e[2]] + ([e[3]] + ([e[4]] + ([e[5]] + rest))));
      assert e + rest == e[..2] + ([e[2]] + ([e[3]] + ([e[4]] + ([e[5]] + rest))));
    }
  }

  lemma {:induction false} EscapedIsBody(data: Bytes)
    ensures IsBody(EscapeAll(data))
  {
    if |data| > 0 {
      EscapedIsBody(data[1..]);
      EscapeIsBody(data[0], EscapeAll(data[1..]));
    }
  }

  predicate IsPlain(text: string) {
    forall c <- text :: c != '"' && c != '\\'
  }

  lemma {:induction false} Base64IsPlain(data: Bytes)
    ensures IsPlain(Base64Url(data))
    decreases |data|
  {
    if |data| > 3 {
      Base64IsPlain(data[3..]);
    }
  }

  // ----- the request -----

  function PayloadTree(payload: JsonRecordPayload): Member {
    match payload
    case Text(text) => Member("text", String(EscapeAll(text)))
    case Base64(encoded) => Member("bytes", String(encoded))
  }

  function RecordTree(record: AppendRecord, isUtf8: bool): Value {
    var part := Object([Member("index", Number(record.part.index)), Member("is_final", Bool(record.part.isFinal))]);
    Object([Member("part", part), PayloadTree(CompactRecordPayload(record.data, isUtf8))])
  }

  function SentOf(record: AppendRecord): SentRecord {
    SentRecord(record.part.index, record.part.isFinal, record.data)
  }

  /** The names of the members are bodies. */
  lemma PlainNames()
    ensures IsBody("text") && IsBody("bytes") && IsBody("part") && IsBody("index") && IsBody("is_final")
    ensures IsBody("writer") && IsBody("id") && IsBody("seq_num") && IsBody("records")
    ensures IsBody("expected_next_seq_num")
  {
    hide IsBody;
    PlainIsBody("text");
    PlainIsBody("bytes");
    PlainIsBody("part");
    PlainIsBody("index");
    PlainIsBody("is_final");
    PlainIsBody("writer");
    PlainIsBody("id");
    PlainIsBody("seq_num");
    PlainIsBody("records");
    PlainIsBody("expected_next_seq_num");
  }

  /** `x` followed by three pieces that make up one. */
  lemma Glue(x: string, a: string, b: string, c: string, whole: string)
    requires a + b + c == whole
    ensures x + a + b + c == x + whole
  {
    assert x + a + b + c == x + (a + b + c);
  }

  function MemberText(name: string, value: string): string {
    "\"" + name + "\":" + value
  }

  lemma TwoMembers(a: string, textA: string, valueA: Value, b: string, textB: string, valueB: Value)
    requires IsBody(a) && Denotes(textA, valueA) && IsBody(b) && Denotes(textB, valueB)
    ensures Denotes("{" + MemberText(a, textA) + "," + MemberText(b, textB) + "}",
                    Object([Member(a, valueA), Member(b, valueB)]))
  {
    LastMember(b, textB, valueB);
    MoreMembers(a, textA, valueA, MemberText(b, textB), [Member(b, valueB)]);
    var inner := MemberText(a, textA) + "," + MemberText(b, textB);
    assert [Member(a, valueA)] + [Member(b, valueB)] == [Member(a, valueA), Member(b, valueB)];
    hide IsBody, Denotes, MembersDenote;
    ObjectDenotes(inner, [Member(a, valueA), Member(b, valueB)]);
    assert "{" + inner + "}" == "{" + MemberText(a, textA) + "," + MemberText(b, textB) + "}";
  }

  lemma ThreeMembers(
    a: string, textA: string, valueA: Value, b: string, textB: string, valueB: Value,
    c: string, textC: string, valueC: Value)
    requires IsBody(a) && Denotes(textA, valueA) && IsBody(b) && Denotes(textB, valueB)
    requires IsBody(c) && Denotes(textC, valueC)
    ensures Denotes("{" + MemberText(a, textA) + "," + MemberText(b, textB) + "," + MemberText(c, textC) + "}",
                    Object([Member(a, valueA), Member(b, valueB), Member(c, valueC)]))
  {
    var last := MemberText(b, textB) + "," + MemberText(c, textC);
    LastMember(c, textC, valueC);
    MoreMembers(b, textB, valueB, MemberText(c, textC), [Member(c, valueC)]);
    MoreMembers(a, textA, valueA, last, [Member(b, valueB)] + [Member(c, valueC)]);
    hide *;
    var members := [Member(a, valueA)] + ([Member(b, valueB)] + [Member(c, valueC)]);
    assert members == [Member(a, valueA), Member(b, valueB), Member(c, valueC)];
    ObjectDenotes(MemberText(a, textA) + "," + last, members);
    assert "{" + (MemberText(a, textA) + "," + last) + "}"
        == "{" + MemberText(a, textA) + "," + MemberText(b, textB) + "," + MemberText(c, textC) + "}";
  }

  lemma FieldsOfTwo(a: string, x: Value, b: string, y: Value)
    requires a != b
    ensures var both := Object([Member(a, x), Member(b, y)]);
      && Field(both, a) == Some(x) && Field(both, b) == Some(y)
      && forall c :: c != a && c != b ==> Field(both, c) == None
  {
    var members := [Member(a, x), Member(b, y)];
    assert members[1..] == [Member(b, y)] && members[1..][1..] == [];
    forall c
      ensures FieldOf(members, c) == if c == a then Some(x) else if c == b then Some(y) else None
    {
      assert FieldOf(members[1..], c) == if c == b then Some(y) else None;
    }
  }

  lemma FieldsOfThree(a: string, x: Value, b: string, y: Value, c: string, z: Value)
    requires a != b && a != c && b != c
    ensures var all := Object([Member(a, x), Member(b, y), Member(c, z)]);
      Field(all, a) == Some(x) && Field(all, b) == Some(y) && Field(all, c) == Some(z)
  {
    var members := [Member(a, x), Member(b, y), Member(c, z)];
    FieldsOfTwo(b, y, c, z);
    assert members[1..] == [Member(b, y), Member(c, z)];
  }

  function Quoted(raw: string): string {
    "\"" + raw + "\""
  }

  lemma PartReads(part: PartHeader)
    ensures Denotes(PartText(part), PartTree(part))
  {
    PlainNames();
    DecimalReads(part.index);
    NumberDenotes(Decimal(part.index), part.index);
    BoolDenotes(part.isFinal);
    hide *;
    TwoMembers("index", Decimal(part.index), Number(part.index),
               "is_final", if part.isFinal then "true" else "false", Bool(part.isFinal));
  }

  function PartTree(part: PartHeader): Value {
    Object([Member("index", Number(part.index)), Member("is_final", Bool(part.isFinal))])
  }

  function PartText(part: PartHeader): string {
    "{" + MemberText("index", Decimal(part.index)) + ","
    + MemberText("is_final", if part.isFinal then "true" else "false") + "}"
  }

  // ----- records -----

  lemma PayloadReads(data: Bytes, isUtf8: bool)
    ensures var payload := CompactRecordPayload(data, isUtf8);
      && IsBody(PayloadTree(payload).name)
      && Denotes(Quoted(PayloadTree(payload).value.raw), PayloadTree(payload).value)
      && PayloadJson(payload) == MemberText(PayloadTree(payload).name, Quoted(PayloadTree(payload).value.raw))
  {
    var payload := CompactRecordPayload(data, isUtf8);
    PlainNames();
    match payload {
      case Text(text) =>
        EscapedIsBody(text);
        StringDenotes(EscapeAll(text));
        NamedString("text", EscapeAll(text), "\"text\":\"");
      case Base64(encoded) =>
        Base64IsPlain(data);
        PlainIsBody(encoded);
        StringDenotes(encoded);
        NamedString("bytes", encoded, "\"bytes\":\"");
    }
    hide Denotes, IsBody, EscapeAll, Base64Url, IsPlain, MemberText, Quoted;
  }

  lemma NamedString(name: string, raw: string, front: string)
    requires front == "\"" + name + "\":\""
    ensures MemberText(name, Quoted(raw)) == front + raw + "\""
  {
    assert "\"" + name + "\":" + ("\"" + raw + "\"") == ("\"" + name + "\":" + "\"") + raw + "\"";
  }

  /** The text of two members, whose names and punctuation were written in one piece. */
  lemma TwoWritten(front: string, a: string, textA: string, between: string, b: string, textB: string)
    requires front == "{" + ("\"" + a + "\":") && between == "," + ("\"" + b + "\":")
    ensures front + textA + between + textB + "}" == "{" + MemberText(a, textA) + "," + MemberText(b, textB) + "}"
  {
    Onto("{", "\"" + a + "\":", textA);
    Onto(front + textA + ",", "\"" + b + "\":", textB);
    Onto(front + textA, ",", "\"" + b + "\":");
  }

  lemma Onto(x: string, y: string, z: string)
    ensures x + (y + z) == x + y + z
  {
  }

  lemma RecordText(record: AppendRecord, payload: string)
    ensures "{\"part\":{\"index\":" + Decimal(record.part.index) + ",\"is_final\":"
            + (if record.part.isFinal then "true" else "false") + "}," + payload + "}"
         == "{" + MemberText("part", PartText(record.part)) + "," + payload + "}"
  {
    var index, isFinal := Decimal(record.part.index), if record.part.isFinal then "true" else "false";
    hide Decimal;
    assert "{\"index\":" == "{" + ("\"" + "index" + "\":") && ",\"is_final\":" == "," + ("\"" + "is_final" + "\":");
    TwoWritten("{\"index\":", "index", index, ",\"is_final\":", "is_final", isFinal);
    assert PartText(record.part) == "{\"index\":" + index + ",\"is_final\":" + isFinal + "}";
    assert "{\"part\":{\"index\":" == "{" + "\"part\":" + "{\"index\":" && "}," == "}" + ",";
    hide PartText;
    Nested("{\"index\":", index, ",\"is_final\":", isFinal, payload, PartText(record.part));
  }

  lemma Nested(front: string, x: string, between: string, y: string, payload: string, part: string)
    requires part == front + x + between + y + "}"
    ensures "{" + "\"part\":" + front + x + between + y + ("}" + ",") + payload + "}"
         == "{" + MemberText("part", part) + "," + payload + "}"
  {
    var o, n := "{", "\"part\":";
    Onto(o + n + front + x + between + y, "}", ",");
    Onto(o + n, front, x);
    Onto(o + n, front + x, between);
    Onto(o + n, front + x + between, y);
    Onto(o + n, front + x + between + y, "}");
    Onto(o, n, part);
    assert MemberText("part", part) == n + part;
  }

  /** A record reads as its tree, and the tree holds the record. */
  lemma RecordReads(record: AppendRecord, isUtf8: bool)
    ensures Denotes(RecordJson(record, isUtf8), RecordTree(record, isUtf8))
    ensures RecordJson(record, isUtf8)[0] != ']'
  {
    var payload := CompactRecordPayload(record.data, isUtf8);
    var member := PayloadTree(payload);
    PlainNames();
    PayloadReads(record.data, isUtf8);
    PartReads(record.part);
    RecordText(record, PayloadJson(payload));
    TwoMembers("part", PartText(record.part), PartTree(record.part),
               member.name, Quoted(member.value.raw), member.value);
    hide Denotes, IsBody, PayloadJson, CompactRecordPayload, PartText, Decimal, MemberText, Quoted;
    assert RecordTree(record, isUtf8) == Object([Member("part", PartTree(record.part)), member]);
  }

  lemma RecordHolds(record: AppendRecord, isUtf8: bool)
    ensures RecordOf(RecordTree(record, isUtf8)) == Some(SentOf(record))
  {
    var payload := CompactRecordPayload(record.data, isUtf8);
    PayloadHolds(record.data, isUtf8, PartTree(record.part));
    hide CompactRecordPayload, FieldOf, DataOf, PayloadTree;
    DistinctNames();
    FieldsOfTwo("index", Number(record.part.index), "is_final", Bool(record.part.isFinal));
  }

  lemma PayloadHolds(data: Bytes, isUtf8: bool, part: Value)
    ensures var member := PayloadTree(CompactRecordPayload(data, isUtf8));
      var record := Object([Member("part", part), member]);
      DataOf(record) == Some(data) && Field(record, "part") == Some(part)
  {
    TextRoundTrip(data);
    Base64RoundTrip(data);
    var member := PayloadTree(CompactRecordPayload(data, isUtf8));
    DistinctNames();
    hide UnescapeAll, DecodeBase64Url, EscapeAll, Base64Url, FieldOf, TotalEscapedLen;
    FieldsOfTwo("part", part, member.name, member.value);
  }

  lemma DistinctNames()
    ensures "part" != "text" && "part" != "bytes" && "text" != "bytes" && "index" != "is_final"
  {
    assert "part"[0] != "text"[0];
  }

  function Trees(records: seq<AppendRecord>, isUtf8: Bytes -> bool): (trees: seq<Value>)
    ensures |trees| == |records|
  {
    seq(|records|, i requires 0 <= i < |records| => RecordTree(records[i], isUtf8(records[i].data)))
  }

  function Texts(records: seq<AppendRecord>, isUtf8: Bytes -> bool): (texts: seq<string>)
    ensures |texts| == |records|
  {
    seq(|records|, i requires 0 <= i < |records| => RecordJson(records[i], isUtf8(records[i].data)))
  }

  function Sent(records: seq<AppendRecord>): (sent: seq<SentRecord>)
    ensures |sent| == |records|
  {
    seq(|records|, i requires 0 <= i < |records| => SentOf(records[i]))
  }

  function Joined(texts: seq<string>): string
    requires |texts| > 0
  {
    if |texts| == 1 then texts[0] else texts[0] + "," + Joined(texts[1..])
  }

  lemma {:induction false} JoinedOneMore(texts: seq<string>, text: string)
    requires |texts| > 0
    ensures Joined(texts + [text]) == Joined(texts) + "," + text
  {
    assert (texts + [text])[1..] == texts[1..] + [text];
    if |texts| > 1 {
      JoinedOneMore(texts[1..], text);
      Onto(texts[0] + ",", Joined(texts[1..]) + ",", text);
      Onto(texts[0] + ",", Joined(texts[1..]), ",");
    }
  }

  lemma {:induction false} RecordsAreJoined(records: seq<AppendRecord>, isUtf8: Bytes -> bool)
    requires |records| > 0
    ensures RecordsJson(records, isUtf8) == Joined(Texts(records, isUtf8))
  {
    var before, last := records[..|records| - 1], records[|records| - 1];
    assert Texts(records, isUtf8) == Texts(before, isUtf8) + [RecordJson(last, isUtf8(last.data))];
    hide RecordJson;
    if |records| > 1 {
      RecordsAreJoined(before, isUtf8);
      JoinedOneMore(Texts(before, isUtf8), RecordJson(last, isUtf8(last.data)));
    }
  }

  lemma {:induction false} ElementsRead(texts: seq<string>, trees: seq<Value>)
    requires |texts| == |trees| > 0
    requires forall i :: 0 <= i < |texts| ==> Denotes(texts[i], trees[i]) && texts[i][0] != ']'
    ensures ElementsDenote(Joined(texts), trees)
  {
    hide Denotes, ElementsDenote;
    assert trees == [trees[0]] + trees[1..];
    if |texts| == 1 {
      LastElement(texts[0], trees[0]);
      assert trees == [trees[0]];
    } else {
      ElementsRead(texts[1..], trees[1..]);
      MoreElements(texts[0], trees[0], Joined(texts[1..]), trees[1..]);
    }
  }

  lemma {:induction false} RecordsHold(records: seq<AppendRecord>, isUtf8: Bytes -> bool)
    ensures RecordsOf(Trees(records, isUtf8)) == Some(Sent(records))
  {
    hide RecordTree, RecordOf, SentOf;
    if |records| > 0 {
      RecordHolds(records[0], isUtf8(records[0].data));
      RecordsHold(records[1..], isUtf8);
      assert Trees(records, isUtf8)[1..] == Trees(records[1..], isUtf8);
      assert Sent(records) == [SentOf(records[0])] + Sent(records[1..]);
    } else {
      assert Sent(records) == [];
    }
  }

  lemma RecordsRead(records: seq<AppendRecord>, isUtf8: Bytes -> bool)
    requires |records| > 0
    ensures Denotes("[" + RecordsJson(records, isUtf8) + "]", Array(Trees(records, isUtf8)))
  {
    var texts, trees := Texts(records, isUtf8), Trees(records, isUtf8);
    forall i | 0 <= i < |texts|
      ensures Denotes(texts[i], trees[i]) && texts[i][0] != ']'
    {
      RecordReads(records[i], isUtf8(records[i].data));
    }
    RecordsAreJoined(records, isUtf8);
    hide *;
    ElementsRead(texts, trees);
    ArrayDenotes(Joined(texts), trees);
  }

  // ----- the whole request -----

  function WriterText(id: string, start: string): string {
    "{" + MemberText("id", Quoted(id)) + "," + MemberText("seq_num", Quoted(start)) + "}"
  }

  function WriterTree(id: string, start: string): Value {
    Object([Member("id", String(id)), Member("seq_num", String(start))])
  }

  lemma WriterReads(id: string, start: string)
    requires IsBody(id) && IsBody(start)
    ensures Denotes(WriterText(id, start), WriterTree(id, start))
  {
    PlainNames();
    StringDenotes(id);
    StringDenotes(start);
    hide IsBody, Denotes, MemberText;
    TwoMembers("id", Quoted(id), String(id), "seq_num", Quoted(start), String(start));
  }

  function RequestTree(writer: Value, records: Value, expected: Option<string>): Value {
    if expected.None? then Object([Member("writer", writer), Member("records", records)])
    else Object([Member("writer", writer), Member("records", records),
                 Member("expected_next_seq_num", String(expected.value))])
  }

  function RequestText(writer: string, records: string, expected: Option<string>): string {
    "{" + MemberText("writer", writer) + "," + MemberText("records", records)
    + (if expected.Some? then "," + MemberText("expected_next_seq_num", Quoted(expected.value)) else "") + "}"
  }

  lemma MembersRead(writer: string, writerTree: Value, records: string, recordsTree: Value, expected: Option<string>)
    requires Denotes(writer, writerTree) && Denotes(records, recordsTree) && (expected.Some? ==> IsBody(expected.value))
    ensures Denotes(RequestText(writer, records, expected), RequestTree(writerTree, recordsTree, expected))
  {
    PlainNames();
    var front := "{" + MemberText("writer", writer) + "," + MemberText("records", records);
    if expected.None? {
      TwoMembers("writer", writer, writerTree, "records", records, recordsTree);
      assert front + "" == front;
    } else {
      StringDenotes(expected.value);
      ThreeMembers("writer", writer, writerTree, "records", records, recordsTree,
                   "expected_next_seq_num", Quoted(expected.value), String(expected.value));
      Onto(front, ",", MemberText("expected_next_seq_num", Quoted(expected.value)));
    }
    hide IsBody, Denotes, MemberText;
  }

  lemma WriterWritten(id: string, start: string)
    ensures "{\"id\":\"" + id + "\",\"seq_num\":\"" + start + "\"}" == WriterText(id, start)
  {
    assert "{\"id\":\"" == "{" + ("\"" + "id" + "\":" + "\"");
    assert "\",\"seq_num\":\"" == "\"" + "," + ("\"" + "seq_num" + "\":" + "\"");
    hide MemberText;
    NamedString("id", id, "\"" + "id" + "\":" + "\"");
    NamedString("seq_num", start, "\"" + "seq_num" + "\":" + "\"");
    hide Quoted;
    Spliced("\"" + "id" + "\":" + "\"", id, "\"" + "seq_num" + "\":" + "\"", start);
  }

  /** Punctuation written together with what is around it. */
  lemma Spliced(front: string, id: string, between: string, start: string)
    ensures ("{" + front) + id + ("\"" + "," + between) + start + ("\"" + "}")
         == "{" + (front + id + "\"") + "," + (between + start + "\"") + "}"
  {
    Onto("{", front, id);
    Onto("{", front + id, "\"");
    Onto("{" + front + id, "\"" + ",", between);
    Onto("{" + front + id, "\"", ",");
    var sofar := "{" + (front + id + "\"") + ",";
    Onto(sofar, between, start);
    Onto(sofar, between + start, "\"");
    Onto(sofar + between + start, "\"", "}");
  }

  lemma ExpectedWritten(expected: string)
    ensures ",\"expected_next_seq_num\":\"" + expected + "\""
         == "," + MemberText("expected_next_seq_num", Quoted(expected))
  {
    var front := "\"expected_next_seq_num\":\"";
    assert front == "\"" + "expected_next_seq_num" + "\":\"" && ",\"expected_next_seq_num\":\"" == "," + front;
    NamedString("expected_next_seq_num", expected, front);
    hide MemberText, Quoted;
    Onto(",", front, expected);
    Onto(",", front + expected, "\"");
  }

  lemma RequestSpliced(
    nameA: string, nameB: string, front: string, id: string, between: string, start: string, end: string,
    records: string, rest: string)
    ensures ("{" + nameA + front) + id + between + start + (end + ("," + nameB + "[")) + records + "]" + rest + "}"
         == "{" + (nameA + (front + id + between + start + end)) + "," + (nameB + ("[" + records + "]")) + rest + "}"
  {
    var writer := front + id + between + start + end;
    Onto("{" + nameA, front, id);
    Onto("{" + nameA, front + id, between);
    Onto("{" + nameA, front + id + between, start);
    Onto("{" + nameA, front + id + between + start, end);
    Onto("{", nameA, writer);
    var sofar := "{" + nameA + writer;
    Onto("{" + nameA + front + id + between + start, end, "," + nameB + "[");
    Onto(sofar, "," + nameB, "[");
    Onto(sofar, ",", nameB);
    Onto(sofar + ",", nameB, "[" + records + "]");
    Onto(sofar + "," + nameB, "[" + records, "]");
    Onto(sofar + "," + nameB, "[", records);
  }

  lemma RequestWritten(id: string, start: string, records: string, rest: string)
    ensures "{\"writer\":{\"id\":\"" + id + "\",\"seq_num\":\"" + start + "\"},\"records\":["
            + records + "]" + rest + "}"
         == "{" + MemberText("writer", WriterText(id, start)) + "," + MemberText("records", "[" + records + "]")
            + rest + "}"
  {
    WriterWritten(id, start);
    assert "{\"writer\":{\"id\":\"" == "{" + "\"writer\":" + "{\"id\":\"";
    assert "\"},\"records\":[" == "\"}" + ("," + "\"records\":" + "[");
    assert "\"writer\":" == "\"" + "writer" + "\":" && "\"records\":" == "\"" + "records" + "\":";
    hide WriterText;
    RequestSpliced("\"writer\":", "\"records\":", "{\"id\":\"", id, "\",\"seq_num\":\"", start, "\"}", records, rest);
  }

  lemma EnvelopeWritten(clientWriterId: Bytes, start: nat, records: string, expected: Option<U64>)
    ensures Envelope(clientWriterId, start, records, expected)
         == RequestText(WriterText(Base64Url(clientWriterId), Decimal(start)), "[" + records + "]",
                        if expected.Some? then Some(Decimal(expected.value)) else None)
  {
    hide Decimal, Base64Url, MemberText, WriterText, Quoted;
    if expected.Some? {
      ExpectedWritten(Decimal(expected.value));
      RequestWritten(Base64Url(clientWriterId), Decimal(start), records,
                     "," + MemberText("expected_next_seq_num", Quoted(Decimal(expected.value))));
    } else {
      RequestWritten(Base64Url(clientWriterId), Decimal(start), records, "");
    }
  }

  lemma WriterHolds(clientWriterId: Bytes, start: nat)
    ensures var writer := WriterTree(Base64Url(clientWriterId), Decimal(start));
      WriterIdOf(writer) == Some(clientWriterId) && NumberIn(Field(writer, "seq_num")) == Some(start)
  {
    Base64RoundTrip(clientWriterId);
    DecimalIsNumber(start);
    hide Base64Url, Decimal, DecodeBase64Url, NumberOf, FieldOf;
    FieldsOfTwo("id", String(Base64Url(clientWriterId)), "seq_num", String(Decimal(start)));
  }

  lemma RequestHolds(clientWriterId: Bytes, start: nat, records: Value, sent: seq<SentRecord>, expected: Option<U64>)
    requires records.Array? && RecordsOf(records.elements) == Some(sent)
    ensures var text := if expected.Some? then Some(Decimal(expected.value)) else None;
      RequestOf(RequestTree(WriterTree(Base64Url(clientWriterId), Decimal(start)), records, text))
      == Some(Request(clientWriterId, start, sent, expected))
  {
    var writer := WriterTree(Base64Url(clientWriterId), Decimal(start));
    WriterHolds(clientWriterId, start);
    hide WriterTree, FieldOf, WriterIdOf, RecordsOf, Decimal, NumberOf;
    if expected.Some? {
      DecimalIsNumber(expected.value);
      FieldsOfThree("writer", writer, "records", records, "expected_next_seq_num", String(Decimal(expected.value)));
    } else {
      FieldsOfTwo("writer", writer, "records", records);
    }
  }

  /** Whoever reads the body as JSON gets the writer, the number of the first record, every record's part
      header and exact bytes in order, and the expected number, if there is one. */
  lemma RequestReadsBack(
    clientWriterId: Bytes, records: seq<AppendRecord>, expected: Option<U64>, isUtf8: Bytes -> bool)
    requires |records| > 0
    ensures ReadRequest(RequestJson(clientWriterId, records, expected, isUtf8))
         == Some(Request(clientWriterId, records[0].writerSeqNum, Sent(records), expected))
  {
    var id, start := Base64Url(clientWriterId), records[0].writerSeqNum;
    var expectedText := if expected.Some? then Some(Decimal(expected.value)) else None;
    var list := Array(Trees(records, isUtf8));
    Base64IsPlain(clientWriterId);
    PlainIsBody(id);
    DecimalIsBody(start);
    if expected.Some? {
      DecimalIsBody(expected.value);
    }
    WriterReads(id, Decimal(start));
    RecordsRead(records, isUtf8);
    RecordsHold(records, isUtf8);
    EnvelopeWritten(clientWriterId, start, RecordsJson(records, isUtf8), expected);
    RequestHolds(clientWriterId, start, list, Sent(records), expected);
    hide RequestOf, Denotes, IsBody, ReadText, Base64Url, Decimal, RecordsJson, Envelope, RequestText, WriterText,
      WriterTree, RequestTree, RecordsOf, Trees;
    var writer := WriterTree(id, Decimal(start));
    var text := "[" + RecordsJson(records, isUtf8) + "]";
    MembersRead(WriterText(id, Decimal(start)), writer, text, list, expectedText);
    WholeText(RequestText(WriterText(id, Decimal(start)), text, expectedText), RequestTree(writer, list, expectedText));
  }
}
