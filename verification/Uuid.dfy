/** Version-5 UUIDs and their comparison (src/lib.rs:180-200; section 4.3 of RFC 4122). */
module Uuid {
  import opened Bits
  import Hex
  import Sha1

  /** Version and variant fields forced into the sixteen bytes. */
  function Stamp(b: seq<Byte>): (r: seq<Byte>)
    requires |b| == 16
    ensures |r| == 16
  {
    b[6 := (b[6] & 0x0f) | 0x50][8 := (b[8] & 0x3f) | 0x80]
  }

  function Format(b: seq<Byte>): (s: string)
    requires |b| == 16
    ensures |s| == 36
  {
    var h := Hex.Encode(b);
    h[..8] + "-" + h[8..12] + "-" + h[12..16] + "-" + h[16..20] + "-" + h[20..32]
  }

  function NameBased(namespace: seq<Byte>, name: seq<Byte>): (s: string)
    ensures |s| == 36
  {
    Format(Stamp(Sha1.Hash(namespace + name)[..16]))
  }

  function WithoutHyphens(s: string): (r: string) {
    if s == [] then []
    else WithoutHyphens(s[..|s| - 1]) + (if s[|s| - 1] == '-' then [] else [s[|s| - 1]])
  }

  predicate Ascii(c: char) {
    c as int < 128
  }

  /** Unicode lower-casing, which may turn one character into several: ASCII is lower-cased as usual,
      and no other character becomes hex digits only. */
  ghost predicate Lowercases(fold: char -> string) {
    forall c: char ::
      if Ascii(c) then fold(c) == [Hex.LowerChar(c)]
      else exists i :: 0 <= i < |fold(c)| && Hex.DigitValue(fold(c)[i]).None?
  }

  lemma OthersAreNoDigits(c: char)
    requires !Ascii(c)
    ensures Hex.DigitValue(Hex.LowerChar(c)).None?
  {
  }

  lemma PlainLowercases()
    ensures Lowercases(c => [Hex.LowerChar(c)])
  {
    hide Hex.DigitValue, Hex.LowerChar;
    forall c: char | !Ascii(c)
      ensures Hex.DigitValue([Hex.LowerChar(c)][0]).None?
    {
      OthersAreNoDigits(c);
    }
  }

  function Folded(fold: char -> string, s: string): (r: string) {
    if s == [] then [] else Folded(fold, s[..|s| - 1]) + fold(s[|s| - 1])
  }

  predicate UuidEq(fold: char -> string, a: string, b: string) {
    Folded(fold, WithoutHyphens(a)) == Folded(fold, WithoutHyphens(b))
  }

  lemma {:induction false} WithoutHyphensConcat(a: string, b: string)
    ensures WithoutHyphens(a + b) == WithoutHyphens(a) + WithoutHyphens(b)
    decreases |b|
  {
    if b == [] {
      assert a + b == a;
    } else {
      WithoutHyphensConcat(a, b[..|b| - 1]);
      assert (a + b)[..|a + b| - 1] == a + b[..|b| - 1];
    }
  }

  lemma {:induction false} NoHyphens(s: string)
    requires forall i :: 0 <= i < |s| ==> s[i] != '-'
    ensures WithoutHyphens(s) == s
  {
    if s != [] {
      NoHyphens(s[..|s| - 1]);
    }
  }

  lemma DigitIsNoHyphen(n: Byte)
    requires n < 16
    ensures Hex.Digit(n) != '-'
  {
  }

  lemma {:induction false} HexHasNoHyphen(b: seq<Byte>)
    ensures forall i :: 0 <= i < |Hex.Encode(b)| ==> Hex.Encode(b)[i] != '-'
  {
    hide Hex.Digit;
    if b != [] {
      var k := |b| - 1;
      HexHasNoHyphen(b[..k]);
      DigitIsNoHyphen(b[k] >> 4);
      DigitIsNoHyphen(b[k] & 0x0f);
      assert Hex.Encode(b) == Hex.Encode(b[..k]) + [Hex.Digit(b[k] >> 4), Hex.Digit(b[k] & 0x0f)];
    }
  }

  lemma HyphenVanishes()
    ensures WithoutHyphens("-") == ""
  {
    assert "-"[..0] == "";
  }

  lemma Glue(a: string, b: string)
    ensures WithoutHyphens(a + "-" + b) == WithoutHyphens(a) + WithoutHyphens(b)
  {
    HyphenVanishes();
    hide WithoutHyphens;
    WithoutHyphensConcat(a, "-");
    WithoutHyphensConcat(a + "-", b);
    assert WithoutHyphens(a) + "" == WithoutHyphens(a);
  }

  lemma GlueFive(p0: string, p1: string, p2: string, p3: string, p4: string)
    ensures WithoutHyphens(p0 + "-" + p1 + "-" + p2 + "-" + p3 + "-" + p4)
            == WithoutHyphens(p0) + WithoutHyphens(p1) + WithoutHyphens(p2) + WithoutHyphens(p3) + WithoutHyphens(p4)
  {
    hide WithoutHyphens;
    Glue(p0, p1);
    Glue(p0 + "-" + p1, p2);
    Glue(p0 + "-" + p1 + "-" + p2, p3);
    Glue(p0 + "-" + p1 + "-" + p2 + "-" + p3, p4);
  }

  lemma FormatHyphens(b: seq<Byte>)
    requires |b| == 16
    ensures WithoutHyphens(Format(b)) == Hex.Encode(b)
  {
    hide Hex.Encode, WithoutHyphens;
    var h := Hex.Encode(b);
    HexHasNoHyphen(b);
    var p0, p1, p2, p3, p4 := h[..8], h[8..12], h[12..16], h[16..20], h[20..32];
    NoHyphens(p0);
    NoHyphens(p1);
    NoHyphens(p2);
    NoHyphens(p3);
    NoHyphens(p4);
    GlueFive(p0, p1, p2, p3, p4);
    assert h == p0 + p1 + p2 + p3 + p4;
  }

  /** Every character but the hyphen is kept as often as it occurs; with the concatenation law above, also
      in order. */
  lemma {:induction false} OnlyHyphensGo(s: string, c: char)
    ensures multiset(WithoutHyphens(s))[c] == if c == '-' then 0 else multiset(s)[c]
  {
    if s != [] {
      var front, last := s[..|s| - 1], s[|s| - 1];
      OnlyHyphensGo(front, c);
      assert s == front + [last];
      assert multiset(front + [last]) == multiset(front) + multiset{last};
      assert multiset(WithoutHyphens(front) + [last]) == multiset(WithoutHyphens(front)) + multiset{last};
    }
  }

  /** The sixteen leading bytes of the digest of namespace and name, in that order, stamped and written as
      hex with hyphens. */
  method UuidV5(namespace: seq<Byte>, name: seq<Byte>) returns (s: string)
    requires |namespace| == 16
    ensures s == NameBased(namespace, name)
    ensures |namespace| + |name| < 0x2000_0000_0000_0000 ==>
      Hex.Decode(WithoutHyphens(s)) == Some(Stamp(Sha1.FipsSha1(BytesBits(namespace) + BytesBits(name))[..16]))
  {
    hide Sha1.Hash, Sha1.FipsSha1, Hex.Encode, Hex.Decode, WithoutHyphens, BytesBits;
    var d := Sha1.Digest(namespace + name);
    var b := d[..16];
    b := b[6 := (b[6] & 0x0f) | 0x50];
    b := b[8 := (b[8] & 0x3f) | 0x80];
    var h := Hex.HexEncode(b);
    s := h[..8] + "-" + h[8..12] + "-" + h[12..16] + "-" + h[16..20] + "-" + h[20..32];
    BytesBitsConcat(namespace, name);
    FormatHyphens(b);
    Hex.DecodeEncode(b);
  }

  /** Groups of 8, 4, 4, 4 and 12 digits with hyphens between them and nowhere else. */
  lemma FormatShape(b: seq<Byte>)
    requires |b| == 16
    ensures forall i :: 0 <= i < 36 ==> (Format(b)[i] == '-' <==> i == 8 || i == 13 || i == 18 || i == 23)
  {
    hide Hex.Encode;
    var h, s := Hex.Encode(b), Format(b);
    HexHasNoHyphen(b);
    forall i | 0 <= i < 36
      ensures s[i] == '-' <==> i == 8 || i == 13 || i == 18 || i == 23
    {
      if i < 8 {
        assert s[i] == h[i];
      } else if 8 < i < 13 {
        assert s[i] == h[i - 1];
      } else if 13 < i < 18 {
        assert s[i] == h[i - 2];
      } else if 18 < i < 23 {
        assert s[i] == h[i - 3];
      } else if 23 < i {
        assert s[i] == h[i - 4];
      }
    }
  }

  ghost predicate AllDigits(s: string) {
    forall i :: 0 <= i < |s| ==> Hex.DigitValue(s[i]).Some?
  }

  lemma DigitIsAscii(c: char)
    ensures Hex.DigitValue(c).Some? ==> Ascii(c)
  {
  }

  lemma {:induction false} FoldedDigits(fold: char -> string, s: string)
    requires Lowercases(fold)
    ensures AllDigits(s) ==> Folded(fold, s) == Hex.Lower(s)
    ensures AllDigits(Folded(fold, s)) ==> (forall i :: 0 <= i < |s| ==> Ascii(s[i])) && Folded(fold, s) == Hex.Lower(s)
  {
    hide Hex.DigitValue, Hex.LowerChar;
    if s != [] {
      var front, c := s[..|s| - 1], s[|s| - 1];
      FoldedDigits(fold, front);
      Hex.LowerConcat(front, [c]);
      assert s == front + [c] && Hex.Lower([c]) == [Hex.LowerChar(c)];
      DigitIsAscii(c);
      var f := Folded(fold, front);
      if AllDigits(f + fold(c)) {
        assert forall i :: 0 <= i < |f| ==> f[i] == (f + fold(c))[i];
        assert forall i :: 0 <= i < |fold(c)| ==> fold(c)[i] == (f + fold(c))[|f| + i];
      }
    }
  }

  lemma LowerDigits(s: string)
    ensures AllDigits(Hex.Lower(s)) <==> AllDigits(s)
  {
    hide Hex.DigitValue, Hex.LowerChar;
    forall i | 0 <= i < |s|
      ensures Hex.DigitValue(Hex.Lower(s)[i]) == Hex.DigitValue(s[i])
    {
      Hex.LowerValue(s[i]);
    }
  }

  lemma AllDigitsMeans(s: string)
    ensures AllDigits(s) <==> forall i :: 0 <= i < |s| ==> Hex.DigitValue(s[i]).Some?
  {
  }

  /** A text matches the UUID of sixteen bytes exactly when, hyphens removed wherever they stand,
      it is hex for those bytes in any case. */
  lemma UuidEqIff(fold: char -> string, b: seq<Byte>, text: string)
    requires Lowercases(fold) && |b| == 16
    ensures UuidEq(fold, Format(b), text) <==> Hex.Decode(WithoutHyphens(text)) == Some(b)
  {
    hide Hex.Encode, Hex.Decode, Format, WithoutHyphens, Hex.Lower, Folded, Lowercases, AllDigits;
    var hex, bare := Hex.Encode(b), WithoutHyphens(text);
    FormatHyphens(b);
    Hex.DecodeEncode(b);
    Hex.DecodesAreDigits(hex);
    assert AllDigits(hex) by {
      AllDigitsMeans(hex);
    }
    FoldedDigits(fold, hex);
    LowerDigits(hex);
    FoldedDigits(fold, bare);
    Hex.MatchIffDecodes(bare, b);
    if Hex.Decode(bare).Some? {
      Hex.DecodesAreDigits(bare);
      AllDigitsMeans(bare);
    }
  }

  /** Section 4.3 of RFC 4122: version nibble 5, variant bits 10, the other 122 bits untouched. */
  lemma StampFields(b: seq<Byte>)
    requires |b| == 16
    ensures Stamp(b)[6] >> 4 == 5 && Stamp(b)[8] >> 6 == 2
    ensures Stamp(b)[6] & 0x0f == b[6] & 0x0f && Stamp(b)[8] & 0x3f == b[8] & 0x3f
    ensures forall i :: 0 <= i < 16 && i != 6 && i != 8 ==> Stamp(b)[i] == b[i]
  {
    var r := Stamp(b);
    assert r[6] == (b[6] & 0x0f) | 0x50 && r[8] == (b[8] & 0x3f) | 0x80;
  }
}
