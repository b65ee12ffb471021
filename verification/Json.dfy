/**
 * A reader of JSON text (section 2 of RFC 8259), for the compact texts the client sends: no white space,
 * and numbers that are natural.
 *
 * Strings are kept as they stand between their quotes, with their escapes; whoever uses a string undoes
 * them. Members are looked up by name, so that their order says nothing.
 *
 * `Denotes` says that a text reads as a value wherever it stands. The lemmas at the end compose such
 * texts, so that what a writer concatenates can be read back without a second description of it.
 */
module Json {
  import opened Wrappers

  datatype Value =
    | Object(members: seq<Member>)
    | Array(elements: seq<Value>)
    | String(raw: string)
    | Number(number: nat)
    | Bool(flag: bool)

  datatype Member = Member(name: string, value: Value)

  // ----- tokens -----

  /** Length of the string body in front, up to its closing quote. */
  function BodyLength(s: string): (length: Option<nat>)
    ensures length.Some? ==> length.value < |s|
    decreases |s|
  {
    if |s| == 0 then None
    else if s[0] == '"' then Some(0)
    else
      var skip := if s[0] == '\\' then 2 else 1;
      if skip > |s| then None
      else match BodyLength(s[skip..])
        case None => None
        case Some(rest) => Some(skip + rest)
  }

  predicate IsDigit(c: char) {
    '0' <= c <= '9'
  }

  /** Length of the run of digits in front. */
  function DigitRun(s: string): (length: nat)
    ensures length <= |s|
    ensures forall i :: 0 <= i < length ==> IsDigit(s[i])
  {
    if |s| > 0 && IsDigit(s[0]) then 1 + DigitRun(s[1..]) else 0
  }

  function DecimalValue(digits: string): nat
    requires forall i :: 0 <= i < |digits| ==> IsDigit(digits[i])
  {
    if |digits| == 0 then 0
    else
      var last := digits[|digits| - 1];
      assert IsDigit(last);
      10 * DecimalValue(digits[..|digits| - 1]) + (last as nat - '0' as nat)
  }

  /** A number in front: at least one digit, and no leading zero. */
  function ReadNumber(s: string): (number: Option<(nat, string)>)
    ensures number.Some? ==> |number.value.1| < |s|
  {
    var n := DigitRun(s);
    if n == 0 || (n > 1 && s[0] == '0') then None else Some((DecimalValue(s[..n]), s[n..]))
  }

  /** A whole text that is a number. */
  function NumberOf(s: string): Option<nat> {
    match ReadNumber(s)
    case Some((n, rest)) => if rest == "" then Some(n) else None
    case None => None
  }

  // ----- values -----

  /** The value in front, and what follows it. */
  function Read(s: string): (value: Option<(Value, string)>)
    ensures value.Some? ==> |value.value.1| < |s|
    decreases |s|, 0
  {
    if |s| < 2 then
      match ReadNumber(s)
      case Some((n, rest)) => Some((Number(n), rest))
      case None => None
    else if s[..2] == "{}" then Some((Object([]), s[2..]))
    else if s[..2] == "[]" then Some((Array([]), s[2..]))
    else if s[0] == '{' then
      match ReadMembers(s[1..])
      case Some((members, rest)) => Some((Object(members), rest))
      case None => None
    else if s[0] == '[' then
      match ReadElements(s[1..])
      case Some((elements, rest)) => Some((Array(elements), rest))
      case None => None
    else if s[0] == '"' then
      match BodyLength(s[1..])
      case Some(n) => Some((String(s[1..n + 1]), s[n + 2..]))
      case None => None
    else if |s| >= 4 && s[..4] == "true" then Some((Bool(true), s[4..]))
    else if |s| >= 5 && s[..5] == "false" then Some((Bool(false), s[5..]))
    else
      match ReadNumber(s)
      case Some((n, rest)) => Some((Number(n), rest))
      case None => None
  }

  function ReadElements(s: string): (elements: Option<(seq<Value>, string)>)
    ensures elements.Some? ==> |elements.value.1| < |s|
    decreases |s|, 1
  {
    match Read(s)
    case None => None
    case Some((first, rest)) =>
      if |rest| == 0 then None
      else if rest[0] == ']' then Some(([first], rest[1..]))
      else if rest[0] != ',' then None
      else
        match ReadElements(rest[1..])
        case Some((others, end)) => Some(([first] + others, end))
        case None => None
  }

  function ReadMembers(s: string): (members: Option<(seq<Member>, string)>)
    ensures members.Some? ==> |members.value.1| < |s|
    decreases |s|, 1
  {
    if |s| == 0 || s[0] != '"' || BodyLength(s[1..]).None? then None
    else
      var n := BodyLength(s[1..]).value;
      if |s| < n + 3 || s[n + 2] != ':' then None
      else
        match Read(s[n + 3..])
        case None => None
        case Some((value, rest)) =>
          var first := Member(s[1..n + 1], value);
          if |rest| == 0 then None
          else if rest[0] == '}' then Some(([first], rest[1..]))
          else if rest[0] != ',' then None
          else
            match ReadMembers(rest[1..])
            case Some((others, end)) => Some(([first] + others, end))
            case None => None
  }

  /** The value a whole text is. */
  function ReadText(s: string): Option<Value> {
    match Read(s)
    case Some((value, rest)) => if rest == "" then Some(value) else None
    case None => None
  }

  /** The value of the first member called `name`. */
  function Field(value: Value, name: string): Option<Value> {
    if !value.Object? then None else FieldOf(value.members, name)
  }

  function FieldOf(members: seq<Member>, name: string): Option<Value> {
    if |members| == 0 then None
    else if members[0].name == name then Some(members[0].value)
    else FieldOf(members[1..], name)
  }

  // ----- reading what was written -----

  /** A string body, closed by the first quote behind it. */
  predicate IsBody(raw: string) {
    BodyLength(raw + "\"") == Some(|raw|)
  }

  lemma {:induction false} BodyEndsHere(s: string, n: nat, rest: string)
    requires BodyLength(s) == Some(n)
    ensures BodyLength(s + rest) == Some(n)
    decreases |s|
  {
    if s[0] != '"' {
      var skip := if s[0] == '\\' then 2 else 1;
      BodyEndsHere(s[skip..], n - skip, rest);
      assert (s + rest)[skip..] == s[skip..] + rest;
    }
  }

  lemma ReadsString(raw: string, rest: string)
    requires IsBody(raw)
    ensures Read("\"" + raw + "\"" + rest) == Some((String(raw), rest))
  {
    var s := "\"" + raw + "\"" + rest;
    BodyEndsHere(raw + "\"", |raw|, rest);
    assert s[1..] == raw + "\"" + rest;
    assert s[..2][0] == '"';
    assert s[1..|raw| + 1] == raw && s[|raw| + 2..] == rest;
  }

  /** Nothing that could go on a number. */
  predicate EndsNumber(rest: string) {
    |rest| == 0 || !IsDigit(rest[0])
  }

  lemma {:induction false} RunEndsHere(digits: string, rest: string)
    requires forall i :: 0 <= i < |digits| ==> IsDigit(digits[i])
    requires EndsNumber(rest)
    ensures DigitRun(digits + rest) == |digits|
    decreases |digits|
  {
    if |digits| == 0 {
      assert digits + rest == rest;
    } else {
      RunEndsHere(digits[1..], rest);
      assert (digits + rest)[1..] == digits[1..] + rest;
    }
  }

  /** The decimal text of `n`: its digits have its value, and only zero begins with a zero. */
  predicate IsDecimal(digits: string, n: nat) {
    && |digits| > 0
    && (forall i :: 0 <= i < |digits| ==> IsDigit(digits[i]))
    && DecimalValue(digits) == n
    && (|digits| > 1 ==> digits[0] != '0')
  }

  lemma ReadsNumber(digits: string, n: nat, rest: string)
    requires IsDecimal(digits, n) && EndsNumber(rest)
    ensures ReadNumber(digits + rest) == Some((n, rest))
    ensures Read(digits + rest) == Some((Number(n), rest))
  {
    RunEndsHere(digits, rest);
    var s := digits + rest;
    assert s[..|digits|] == digits && s[|digits|..] == rest;
    assert IsDigit(s[0]);
    hide DigitRun, DecimalValue, BodyLength, ReadMembers, ReadElements;
    if |s| >= 2 {
      assert s[..2][0] == s[0];
      assert |s| >= 4 ==> s[..4][0] == s[0];
      assert |s| >= 5 ==> s[..5][0] == s[0];
    }
  }

  lemma ReadsBool(b: bool, rest: string)
    ensures Read((if b then "true" else "false") + rest) == Some((Bool(b), rest))
  {
    var s := (if b then "true" else "false") + rest;
    assert s[0] == if b then 't' else 'f';
    assert s[..2][0] == s[0];
    if b {
      assert s[..4] == "true" && s[4..] == rest;
    } else {
      assert s[..4][0] == 'f' && s[..5] == "false" && s[5..] == rest;
    }
  }

  // ----- composing texts -----

  /** `text` reads as `value` wherever it stands. */
  ghost predicate Denotes(text: string, value: Value) {
    |text| > 0 && forall rest :: EndsNumber(rest) ==> Read(text + rest) == Some((value, rest))
  }

  ghost predicate MembersDenote(text: string, members: seq<Member>) {
    |text| > 0 && text[0] == '"' && forall rest :: ReadMembers(text + "}" + rest) == Some((members, rest))
  }

  ghost predicate ElementsDenote(text: string, elements: seq<Value>) {
    |text| > 0 && text[0] != ']' && forall rest :: ReadElements(text + "]" + rest) == Some((elements, rest))
  }

  lemma NumberDenotes(digits: string, n: nat)
    requires IsDecimal(digits, n)
    ensures Denotes(digits, Number(n))
  {
    forall rest | EndsNumber(rest)
      ensures Read(digits + rest) == Some((Number(n), rest))
    {
      ReadsNumber(digits, n, rest);
    }
  }

  lemma BoolDenotes(b: bool)
    ensures Denotes(if b then "true" else "false", Bool(b))
  {
    forall rest | EndsNumber(rest)
      ensures Read((if b then "true" else "false") + rest) == Some((Bool(b), rest))
    {
      ReadsBool(b, rest);
    }
  }

  lemma StringDenotes(raw: string)
    requires IsBody(raw)
    ensures Denotes("\"" + raw + "\"", String(raw))
  {
    forall rest | EndsNumber(rest)
      ensures Read("\"" + raw + "\"" + rest) == Some((String(raw), rest))
    {
      ReadsString(raw, rest);
    }
  }

  /** The member called `name` is in front, and then `rest`. */
  ghost predicate MemberInFront(s: string, name: string, value: Value, rest: string) {
    && |s| >= |name| + 3
    && s[0] == '"' && BodyLength(s[1..]) == Some(|name|) && s[|name| + 2] == ':' && s[1..|name| + 1] == name
    && Read(s[|name| + 3..]) == Some((value, rest))
  }

  lemma MemberSlices(name: string, text: string, rest: string)
    ensures var s := "\"" + name + "\":" + text + rest;
      && |s| >= |name| + 3 && s[0] == '"' && s[|name| + 2] == ':'
      && s[1..] == name + "\"" + (":" + text + rest)
      && s[1..|name| + 1] == name && s[|name| + 3..] == text + rest
  {
    var front := "\"" + name + "\":";
    var s := front + text + rest;
    assert s == front + (text + rest);
    assert front[1..|name| + 1] == name && front[|name| + 2] == ':';
    assert front[1..] == name + "\":" && "\":" == "\"" + ":";
    assert s[1..] == front[1..] + (text + rest);
  }

  lemma NamedValueInFront(name: string, text: string, value: Value, rest: string)
    requires IsBody(name) && Denotes(text, value) && EndsNumber(rest)
    ensures MemberInFront("\"" + name + "\":" + text + rest, name, value, rest)
  {
    hide BodyLength, Read;
    BodyEndsHere(name + "\"", |name|, ":" + text + rest);
    MemberSlices(name, text, rest);
  }

  lemma ReadsMember(s: string, name: string, value: Value, rest: string)
    requires MemberInFront(s, name, value, rest) && |rest| > 0
    ensures rest[0] == '}' ==> ReadMembers(s) == Some(([Member(name, value)], rest[1..]))
    ensures rest[0] == ',' && ReadMembers(rest[1..]).Some? ==>
              var more := ReadMembers(rest[1..]).value;
              ReadMembers(s) == Some(([Member(name, value)] + more.0, more.1))
  {
    hide BodyLength, Read;
  }

  lemma ReadsLastMember(name: string, text: string, value: Value, rest: string)
    requires IsBody(name) && Denotes(text, value)
    ensures ReadMembers("\"" + name + "\":" + text + ("}" + rest)) == Some(([Member(name, value)], rest))
  {
    NamedValueInFront(name, text, value, "}" + rest);
    hide *;
    ReadsMember("\"" + name + "\":" + text + ("}" + rest), name, value, "}" + rest);
    assert ("}" + rest)[1..] == rest;
  }

  lemma LastMember(name: string, text: string, value: Value)
    requires IsBody(name) && Denotes(text, value)
    ensures MembersDenote("\"" + name + "\":" + text, [Member(name, value)])
  {
    hide BodyLength, Read, ReadMembers, IsBody, Denotes;
    var member := "\"" + name + "\":" + text;
    forall rest
      ensures ReadMembers(member + "}" + rest) == Some(([Member(name, value)], rest))
    {
      ReadsLastMember(name, text, value, rest);
      assert member + "}" + rest == member + ("}" + rest);
    }
  }

  lemma ReadsMoreMembers(name: string, text: string, value: Value, next: string, members: seq<Member>, rest: string)
    requires IsBody(name) && Denotes(text, value) && ReadMembers(next) == Some((members, rest))
    ensures ReadMembers("\"" + name + "\":" + text + ("," + next)) == Some(([Member(name, value)] + members, rest))
  {
    NamedValueInFront(name, text, value, "," + next);
    hide *;
    ReadsMember("\"" + name + "\":" + text + ("," + next), name, value, "," + next);
    assert ("," + next)[1..] == next;
  }

  lemma MoreMembersThen(
    name: string, text: string, value: Value, more: string, members: seq<Member>, rest: string)
    requires IsBody(name) && Denotes(text, value) && MembersDenote(more, members)
    ensures ReadMembers(("\"" + name + "\":" + text + "," + more) + "}" + rest)
         == Some(([Member(name, value)] + members, rest))
  {
    assert ReadMembers(more + "}" + rest) == Some((members, rest));
    hide *;
    ReadsMoreMembers(name, text, value, more + "}" + rest, members, rest);
    Regroup("\"" + name + "\":" + text, ",", more, "}", rest);
  }

  lemma MoreMembers(name: string, text: string, value: Value, more: string, members: seq<Member>)
    requires IsBody(name) && Denotes(text, value) && MembersDenote(more, members)
    ensures MembersDenote("\"" + name + "\":" + text + "," + more, [Member(name, value)] + members)
  {
    forall rest
      ensures ReadMembers(("\"" + name + "\":" + text + "," + more) + "}" + rest)
           == Some(([Member(name, value)] + members, rest))
    {
      MoreMembersThen(name, text, value, more, members, rest);
    }
    hide Read, ReadMembers, Denotes, IsBody;
  }

  lemma ObjectDenotes(text: string, members: seq<Member>)
    requires MembersDenote(text, members)
    ensures Denotes("{" + text + "}", Object(members))
  {
    forall rest | EndsNumber(rest)
      ensures Read("{" + text + "}" + rest) == Some((Object(members), rest))
    {
      var s := "{" + text + "}" + rest;
      assert s[1..] == text + "}" + rest;
      assert s[..2][1] == '"' && s[..2][0] == '{';
    }
  }

  lemma ReadsElement(s: string, value: Value, rest: string)
    requires Read(s) == Some((value, rest)) && |rest| > 0
    ensures rest[0] == ']' ==> ReadElements(s) == Some(([value], rest[1..]))
    ensures rest[0] == ',' && ReadElements(rest[1..]).Some? ==>
              var more := ReadElements(rest[1..]).value;
              ReadElements(s) == Some(([value] + more.0, more.1))
  {
    hide Read;
  }

  lemma ReadsLastElement(text: string, value: Value, rest: string)
    requires Denotes(text, value)
    ensures ReadElements(text + ("]" + rest)) == Some(([value], rest))
  {
    hide Read, ReadElements;
    assert EndsNumber("]" + rest) && ("]" + rest)[1..] == rest;
    ReadsElement(text + ("]" + rest), value, "]" + rest);
  }

  lemma ReadsMoreElements(text: string, value: Value, next: string, elements: seq<Value>, rest: string)
    requires Denotes(text, value) && ReadElements(next) == Some((elements, rest))
    ensures ReadElements(text + ("," + next)) == Some(([value] + elements, rest))
  {
    hide Read, ReadElements;
    assert EndsNumber("," + next) && ("," + next)[1..] == next;
    ReadsElement(text + ("," + next), value, "," + next);
  }

  lemma LastElement(text: string, value: Value)
    requires Denotes(text, value) && text[0] != ']'
    ensures ElementsDenote(text, [value])
  {
    assert |text| > 0;
    hide Read, ReadElements, Denotes;
    forall rest
      ensures ReadElements(text + "]" + rest) == Some(([value], rest))
    {
      ReadsLastElement(text, value, rest);
      assert text + "]" + rest == text + ("]" + rest);
    }
  }

  lemma Regroup(text: string, comma: string, more: string, end: string, rest: string)
    ensures text + comma + more + end + rest == text + (comma + (more + end + rest))
    ensures (text + comma + more) + end + rest == text + (comma + (more + end + rest))
  {
    assert text + comma + more + end + rest == text + comma + (more + end + rest);
  }

  lemma MoreElementsThen(text: string, value: Value, more: string, elements: seq<Value>, rest: string)
    requires Denotes(text, value) && ElementsDenote(more, elements)
    ensures ReadElements((text + "," + more) + "]" + rest) == Some(([value] + elements, rest))
  {
    assert ReadElements(more + "]" + rest) == Some((elements, rest));
    hide *;
    ReadsMoreElements(text, value, more + "]" + rest, elements, rest);
    Regroup(text, ",", more, "]", rest);
  }

  lemma MoreElements(text: string, value: Value, more: string, elements: seq<Value>)
    requires Denotes(text, value) && text[0] != ']' && ElementsDenote(more, elements)
    ensures ElementsDenote(text + "," + more, [value] + elements)
  {
    assert |text| > 0;
    forall rest
      ensures ReadElements((text + "," + more) + "]" + rest) == Some(([value] + elements, rest))
    {
      MoreElementsThen(text, value, more, elements, rest);
    }
    hide Read, ReadElements, Denotes;
  }

  lemma ArrayDenotes(text: string, elements: seq<Value>)
    requires ElementsDenote(text, elements)
    ensures Denotes("[" + text + "]", Array(elements))
  {
    forall rest | EndsNumber(rest)
      ensures Read("[" + text + "]" + rest) == Some((Array(elements), rest))
    {
      var s := "[" + text + "]" + rest;
      assert s[1..] == text + "]" + rest;
      assert s[..2][1] == text[0] && s[..2][0] == '[';
    }
  }

  lemma WholeText(text: string, value: Value)
    requires Denotes(text, value)
    ensures ReadText(text) == Some(value)
  {
    assert text + "" == text;
  }

  /** A name or text without quotes and escapes. */
  lemma {:induction false} PlainIsBody(raw: string)
    requires forall c <- raw :: c != '"' && c != '\\'
    ensures IsBody(raw)
  {
    if |raw| > 0 {
      assert forall c <- raw[1..] :: c in raw;
      PlainIsBody(raw[1..]);
      assert (raw + "\"")[1..] == raw[1..] + "\"";
      assert raw[0] in raw;
    }
  }

  /** One escape, or one plain character, in front of a body. */
  lemma BodyFromFront(head: string, raw: string)
    requires IsBody(raw)
    requires || (|head| == 1 && head[0] != '"' && head[0] != '\\')
             || (|head| == 2 && head[0] == '\\')
    ensures IsBody(head + raw)
  {
    var s := head + raw + "\"";
    assert s[|head|..] == raw + "\"";
  }
}
