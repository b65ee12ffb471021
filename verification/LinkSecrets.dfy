/**
 * A link secret on the wire is exactly the canonical base64url text of 24 bytes.
 *
 * The frame codec checks 32 characters of the alphabet and no more. That is enough because 24 bytes fill
 * eight groups: no digit has spare bits, so every such text decodes, and is the only text of its key.
 *
 * The lemmas go from digits to groups to whole texts, and back from bytes to digits. Encoding is the one
 * of the stateless append.
 */
module LinkSecrets {
  import opened Wrappers
  import opened Protocol
  import opened FrameCodec
  import opened JsonAppend

  function Text(bytes: Bytes): (text: string)
    ensures |text| == |bytes|
    ensures forall i :: 0 <= i < |bytes| ==> text[i] == bytes[i] as char
  {
    seq(|bytes|, i requires 0 <= i < |bytes| => bytes[i] as char)
  }

  lemma DigitOfValue(c: char)
    requires DigitValue(c).Some?
    ensures Digit(DigitValue(c).value) == c
  {
  }

  lemma SixBitsRejoin(a: nat, b: nat, c: nat, d: nat)
    requires a < 64 && b < 64 && c < 64 && d < 64
    ensures var x, y, z := a * 4 + b / 16, b % 16 * 16 + c / 4, c % 4 * 64 + d;
      && x < 0x100 && y < 0x100 && z < 0x100
      && x / 4 == a && x % 4 * 16 + y / 16 == b && y % 16 * 4 + z / 64 == c && z % 64 == d
  {
    assert b / 16 < 4 && c / 4 < 16;
    assert (a * 4 + b / 16) / 4 == a && (a * 4 + b / 16) % 4 == b / 16;
    assert (b % 16 * 16 + c / 4) / 16 == b % 16 && (b % 16 * 16 + c / 4) % 16 == c / 4;
    assert (c % 4 * 64 + d) / 64 == c % 4 && (c % 4 * 64 + d) % 64 == d;
  }

  predicate AllDigits(text: string) {
    forall i :: 0 <= i < |text| ==> DigitValue(text[i]).Some?
  }

  lemma FourValues(digits: string) returns (a: nat, b: nat, c: nat, d: nat)
    requires |digits| == 4 && AllDigits(digits)
    ensures a < 64 && b < 64 && c < 64 && d < 64
    ensures digits == [Digit(a), Digit(b), Digit(c), Digit(d)]
    ensures DecodeGroup(digits) == Some([a * 4 + b / 16, b % 16 * 16 + c / 4, c % 4 * 64 + d])
  {
    a, b := DigitValue(digits[0]).value, DigitValue(digits[1]).value;
    c, d := DigitValue(digits[2]).value, DigitValue(digits[3]).value;
    DigitOfValue(digits[0]);
    DigitOfValue(digits[1]);
    DigitOfValue(digits[2]);
    DigitOfValue(digits[3]);
    FourDecoded(digits);
    hide *;
  }

  /** Four digits are three bytes, and those are written as the four digits. */
  lemma FourDigitsRoundTrip(digits: string)
    requires |digits| == 4 && AllDigits(digits)
    ensures DecodeGroup(digits).Some? && |DecodeGroup(digits).value| == 3
    ensures EncodeGroup(DecodeGroup(digits).value) == digits
  {
    hide *;
    var a, b, c, d := FourValues(digits);
    SixBitsRejoin(a, b, c, d);
    var x, y, z := a * 4 + b / 16, b % 16 * 16 + c / 4, c % 4 * 64 + d;
    assert DecodeGroup(digits).value == [x, y, z];
    ThreeEncoded(x, y, z);
  }

  lemma FourDecoded(digits: string)
    requires |digits| == 4 && AllDigits(digits)
    ensures var a, b := DigitValue(digits[0]).value, DigitValue(digits[1]).value;
      var c, d := DigitValue(digits[2]).value, DigitValue(digits[3]).value;
      DecodeGroup(digits) == Some([a * 4 + b / 16, b % 16 * 16 + c / 4, c % 4 * 64 + d])
  {
    hide DigitValue;
  }

  lemma ThreeEncoded(x: Byte, y: Byte, z: Byte)
    ensures EncodeGroup([x, y, z])
         == [Digit(x / 4), Digit(x % 4 * 16 + y / 16), Digit(y % 16 * 4 + z / 64), Digit(z % 64)]
  {
    hide Digit;
  }

  /** Whole groups of digits decode, and are the only text of what they decode to. */
  lemma {:induction false} WholeGroupsRoundTrip(text: string)
    requires |text| % 4 == 0 && AllDigits(text)
    ensures DecodeBase64Url(text).Some? && 4 * |DecodeBase64Url(text).value| == 3 * |text|
    ensures Base64Url(DecodeBase64Url(text).value) == text
    decreases |text|
  {
    hide DecodeGroup, EncodeGroup, DigitValue;
    if |text| == 4 {
      FourDigitsRoundTrip(text);
    } else if |text| > 4 {
      var head, rest := text[..4], text[4..];
      FourDigitsRoundTrip(head);
      WholeGroupsRoundTrip(rest);
      var group, others := DecodeGroup(head).value, DecodeBase64Url(rest).value;
      assert (group + others)[..3] == group && (group + others)[3..] == others;
      assert head + rest == text;
    }
  }

  lemma GroupDigits(group: Bytes)
    requires 1 <= |group| <= 3
    ensures AllDigits(EncodeGroup(group))
  {
    hide DigitValue;
    forall value: nat | value < 64
      ensures DigitValue(Digit(value)).Some?
    {
      DigitRoundTrip(value);
    }
    hide Digit;
  }

  lemma {:induction false} EncodedDigits(data: Bytes)
    ensures AllDigits(Base64Url(data))
    decreases |data|
  {
    hide EncodeGroup, DigitValue;
    if 0 < |data| <= 3 {
      GroupDigits(data);
    } else if |data| > 3 {
      GroupDigits(data[..3]);
      EncodedDigits(data[3..]);
    }
  }

  lemma AlphabetAgrees(b: Byte)
    ensures IsBase64Url(b) <==> DigitValue(b as char).Some?
  {
  }

  /** The check on a secret accepts exactly the texts of 24 bytes. */
  lemma SecretIffEncoding(secret: Bytes)
    ensures IsSecret(secret) <==> exists key: Bytes :: |key| == 24 && Base64Url(key) == Text(secret)
  {
    var text := Text(secret);
    hide IsBase64Url, DigitValue, DecodeBase64Url, Base64Url;
    if IsSecret(secret) {
      forall i | 0 <= i < |text|
        ensures DigitValue(text[i]).Some?
      {
        assert secret[i] in secret;
        AlphabetAgrees(secret[i]);
      }
      WholeGroupsRoundTrip(text);
    }
    if key: Bytes :| |key| == 24 && Base64Url(key) == text {
      EncodedDigits(key);
      forall b | b in secret
        ensures IsBase64Url(b)
      {
        var i :| 0 <= i < |secret| && secret[i] == b;
        assert DigitValue(text[i]).Some?;
        AlphabetAgrees(b);
      }
    }
  }
}
