/** Lower-case hex, and case-insensitive decoding (src/lib.rs:38-69). */
module Hex {
  import opened Bits

  /** The sixteen symbols of the HEX table. */
  function Digit(n: Byte): (c: char)
    requires n < 16
  {
    if n < 10 then ('0' as int + n as int) as char else ('a' as int + n as int - 10) as char
  }

  function DigitValue(c: char): (r: Option<Byte>)
    ensures r.Some? ==> r.value < 16
  {
    if '0' <= c <= '9' then Some((c as int - '0' as int) as Byte)
    else if 'a' <= c <= 'f' then Some((c as int - 'a' as int + 10) as Byte)
    else if 'A' <= c <= 'F' then Some((c as int - 'A' as int + 10) as Byte)
    else None
  }

  function LowerChar(c: char): (r: char) {
    if 'A' <= c <= 'Z' then (c as int + 32) as char else c
  }

  /** ASCII lower-casing, character by character. */
  function Lower(s: string): (r: string)
    ensures |r| == |s|
  {
    seq(|s|, i requires 0 <= i < |s| => LowerChar(s[i]))
  }

  predicate EqIgnoreAsciiCase(a: string, b: string) {
    Lower(a) == Lower(b)
  }

  function Encode(bytes: seq<Byte>): (s: string)
    ensures |s| == 2 * |bytes|
  {
    if bytes == [] then []
    else Encode(bytes[..|bytes| - 1]) + [Digit(bytes[|bytes| - 1] >> 4), Digit(bytes[|bytes| - 1] & 0x0f)]
  }

  /** One more byte from two digits, if all there is has a value. */
  function Joined(front: Option<seq<Byte>>, hi: Option<Byte>, lo: Option<Byte>): (r: Option<seq<Byte>>)
    ensures r.Some? <==> front.Some? && hi.Some? && lo.Some?
    ensures r.Some? ==> |r.value| == |front.value| + 1
  {
    match (front, hi, lo)
    case (Some(bytes), Some(h), Some(l)) => Some(bytes + [(h << 4) | l])
    case _ => None
  }

  /** Specification of decoding: every pair of symbols must have a value. */
  function Decode(s: string): (r: Option<seq<Byte>>)
    ensures r.Some? ==> |s| == 2 * |r.value|
  {
    if s == [] then Some([])
    else if |s| == 1 then None
    else
      var k := |s| - 2;
      Joined(Decode(s[..k]), DigitValue(s[k]), DigitValue(s[k + 1]))
  }

  method HexEncode(bytes: seq<Byte>) returns (s: string)
    ensures s == Encode(bytes)
  {
    hide Digit;
    s := "";
    for i := 0 to |bytes|
      invariant s == Encode(bytes[..i])
    {
      s := s + [Digit(bytes[i] >> 4)];
      s := s + [Digit(bytes[i] & 0x0f)];
      assert bytes[..i + 1][..i] == bytes[..i];
    }
    assert bytes[..|bytes|] == bytes;
  }

  lemma {:induction false} BadPrefix(s: string, i: nat)
    requires i <= |s| && i % 2 == 0 && |s| % 2 == 0
    requires Decode(s[..i]).None?
    ensures Decode(s).None?
    decreases |s|
  {
    hide DigitValue, Joined;
    if i < |s| {
      var t := s[..|s| - 2];
      assert t[..i] == s[..i];
      BadPrefix(t, i);
    } else {
      assert s[..i] == s;
    }
  }

  method HexDecode(s: string) returns (r: Option<seq<Byte>>)
    ensures r == Decode(s)
  {
    hide DigitValue;
    if |s| % 2 != 0 {
      return None;
    }
    var out: seq<Byte> := [];
    var i := 0;
    while i < |s|
      invariant 0 <= i <= |s| && i % 2 == 0
      invariant Decode(s[..i]) == Some(out)
    {
      assert s[..i + 2][..i] == s[..i];
      assert Decode(s[..i + 2]) == Joined(Decode(s[..i]), DigitValue(s[i]), DigitValue(s[i + 1]));
      var hi, lo := DigitValue(s[i]), DigitValue(s[i + 1]);
      if hi.None? || lo.None? {
        BadPrefix(s, i + 2);
        return None;
      }
      out := out + [(hi.value << 4) | lo.value];
      i := i + 2;
    }
    assert s[..i] == s;
    return Some(out);
  }

  /** The table of the source. */
  const HEX: string := "0123456789abcdef"

  lemma DigitTable(n: Byte)
    requires n < 16
    ensures Digit(n) == HEX[n as int]
  {
  }

  lemma SplitByte(b: Byte)
    ensures b >> 4 < 16 && b & 0x0f < 16 && ((b >> 4) << 4) | (b & 0x0f) == b
  {
  }

  /** Each byte is two symbols of the table, the high half first. */
  lemma {:induction false} EncodeAt(bytes: seq<Byte>, i: nat)
    requires i < |bytes|
    ensures Encode(bytes)[2 * i] == HEX[(bytes[i] >> 4) as int]
    ensures Encode(bytes)[2 * i + 1] == HEX[(bytes[i] & 0x0f) as int]
  {
    hide Digit;
    var k := |bytes| - 1;
    SplitByte(bytes[i]);
    if i < k {
      EncodeAt(bytes[..k], i);
      assert Encode(bytes)[..2 * k] == Encode(bytes[..k]);
    } else {
      DigitTable(bytes[i] >> 4);
      DigitTable(bytes[i] & 0x0f);
    }
  }

  const HEX_DIGITS: string := "0123456789abcdefABCDEF"

  predicate IsHexDigit(c: char) {
    c in HEX_DIGITS
  }

  lemma DigitsListed(c: char)
    ensures IsHexDigit(c) <==> DigitValue(c).Some?
  {
    if '0' <= c <= '9' {
      assert HEX_DIGITS[c as int - '0' as int] == c;
    } else if 'a' <= c <= 'f' {
      assert HEX_DIGITS[c as int - 'a' as int + 10] == c;
    } else if 'A' <= c <= 'F' {
      assert HEX_DIGITS[c as int - 'A' as int + 16] == c;
    }
  }

  lemma {:induction false} DecodeTakesDigits(s: string)
    ensures Decode(s).Some? <==> |s| % 2 == 0 && forall i :: 0 <= i < |s| ==> IsHexDigit(s[i])
  {
    hide DigitValue, Joined, IsHexDigit;
    if |s| >= 2 {
      var k := |s| - 2;
      DecodeTakesDigits(s[..k]);
      DigitsListed(s[k]);
      DigitsListed(s[k + 1]);
      assert forall i :: 0 <= i < k ==> s[..k][i] == s[i];
    }
  }

  /** Decoding succeeds exactly on an even number of hex digits. */
  lemma DecodeSucceedsIff(s: string)
    ensures Decode(s).Some? <==> |s| % 2 == 0 && forall i :: 0 <= i < |s| ==> s[i] in HEX_DIGITS
  {
    hide Decode;
    DecodeTakesDigits(s);
  }

  lemma DigitRoundTrip(n: Byte)
    requires n < 16
    ensures DigitValue(Digit(n)) == Some(n) && LowerChar(Digit(n)) == Digit(n)
  {
  }

  lemma NibbleAsInt(i: int)
    requires 0 <= i < 16
    ensures (i as Byte) as int == i && ((i as Byte) < 10 <==> i < 10)
  {
  }

  lemma DigitOfValue(c: char)
    requires DigitValue(c).Some?
    ensures Digit(DigitValue(c).value) == LowerChar(c)
  {
    if '0' <= c <= '9' {
      NibbleAsInt(c as int - '0' as int);
    } else if 'a' <= c <= 'f' {
      NibbleAsInt(c as int - 'a' as int + 10);
    } else {
      NibbleAsInt(c as int - 'A' as int + 10);
    }
  }

  lemma LowerConcat(a: string, b: string)
    ensures Lower(a + b) == Lower(a) + Lower(b)
  {
  }

  lemma JoinNibbles(hi: Byte, lo: Byte)
    requires hi < 16 && lo < 16
    ensures ((hi << 4) | lo) >> 4 == hi && ((hi << 4) | lo) & 0x0f == lo
  {
  }

  lemma EncodeSnoc(front: seq<Byte>, b: Byte)
    ensures Encode(front + [b]) == Encode(front) + [Digit(b >> 4), Digit(b & 0x0f)]
  {
    hide Digit;
    assert (front + [b])[..|front|] == front;
  }

  lemma DecodeSnoc(s: string, hi: char, lo: char)
    requires Decode(s).Some? && DigitValue(hi).Some? && DigitValue(lo).Some?
    ensures Decode(s + [hi, lo]) == Some(Decode(s).value + [(DigitValue(hi).value << 4) | DigitValue(lo).value])
  {
    hide DigitValue;
    assert (s + [hi, lo])[..|s|] == s;
  }

  /** decode(encode(x)) == x */
  lemma {:induction false} DecodeEncode(bytes: seq<Byte>)
    ensures Decode(Encode(bytes)) == Some(bytes)
  {
    hide Digit, DigitValue;
    if bytes != [] {
      var k := |bytes| - 1;
      var front, b := bytes[..k], bytes[k];
      assert bytes == front + [b];
      DecodeEncode(front);
      hide Encode, Decode;
      SplitByte(b);
      DigitRoundTrip(b >> 4);
      DigitRoundTrip(b & 0x0f);
      EncodeSnoc(front, b);
      DecodeSnoc(Encode(front), Digit(b >> 4), Digit(b & 0x0f));
    }
  }

  lemma EncodePair(front: seq<Byte>, a: char, b: char)
    requires DigitValue(a).Some? && DigitValue(b).Some?
    ensures Encode(front + [(DigitValue(a).value << 4) | DigitValue(b).value])
            == Encode(front) + [LowerChar(a), LowerChar(b)]
  {
    hide Digit, DigitValue, LowerChar, Encode;
    var hi, lo := DigitValue(a).value, DigitValue(b).value;
    DigitOfValue(a);
    DigitOfValue(b);
    JoinNibbles(hi, lo);
    EncodeSnoc(front, (hi << 4) | lo);
  }

  lemma LowerSnoc(s: string, k: nat)
    requires |s| == k + 2
    ensures Lower(s) == Lower(s[..k]) + [LowerChar(s[k]), LowerChar(s[k + 1])]
  {
    hide LowerChar;
  }

  lemma NothingEncodes()
    ensures Encode([]) == Lower([])
  {
  }

  /** encode(decode(s)) is s in lower case: decoding forgets the case and nothing else. */
  lemma {:induction false} EncodeDecode(s: string)
    requires Decode(s).Some?
    ensures Encode(Decode(s).value) == Lower(s)
  {
    hide DigitValue, Lower, Encode;
    if s == [] {
      NothingEncodes();
    } else {
      var k := |s| - 2;
      EncodeDecode(s[..k]);
      EncodePair(Decode(s[..k]).value, s[k], s[k + 1]);
      LowerSnoc(s, k);
    }
  }

  lemma {:induction false} DecodesAreDigits(s: string)
    requires Decode(s).Some?
    ensures forall i :: 0 <= i < |s| ==> DigitValue(s[i]).Some?
  {
    hide DigitValue;
    if s != [] {
      DecodesAreDigits(s[..|s| - 2]);
    }
  }

  lemma LowerValue(c: char)
    ensures DigitValue(LowerChar(c)) == DigitValue(c)
  {
  }

  lemma {:induction false} DecodeIgnoresCase(s: string)
    ensures Decode(Lower(s)) == Decode(s)
  {
    hide DigitValue, LowerChar, Joined;
    if |s| >= 2 {
      var k := |s| - 2;
      DecodeIgnoresCase(s[..k]);
      LowerValue(s[k]);
      LowerValue(s[k + 1]);
      var t := Lower(s);
      assert t[..k] == Lower(s[..k]) && t[k] == LowerChar(s[k]) && t[k + 1] == LowerChar(s[k + 1]);
      assert Decode(t) == Joined(Decode(t[..k]), DigitValue(t[k]), DigitValue(t[k + 1]));
    }
  }

  /** Comparing hex text without case is comparing the bytes it denotes: the text matches the
      encoding of `bytes` exactly when it decodes to `bytes`. */
  lemma MatchIffDecodes(text: string, bytes: seq<Byte>)
    ensures EqIgnoreAsciiCase(text, Encode(bytes)) <==> Decode(text) == Some(bytes)
  {
    DecodeEncode(bytes);
    EncodeDecode(Encode(bytes));
    if EqIgnoreAsciiCase(text, Encode(bytes)) {
      DecodeIgnoresCase(text);
      DecodeIgnoresCase(Encode(bytes));
    } else if Decode(text) == Some(bytes) {
      EncodeDecode(text);
    }
  }
}
