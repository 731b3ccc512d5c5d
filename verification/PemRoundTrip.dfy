/** Certificates wrapped as PEM come back exactly and in order (src/attestation.rs:161-184). */
module PemRoundTrip {
  import opened Bits
  import opened Pem
  import Attestation
  import Base64
  import Collect

  /** One wrapped certificate: what precedes its BEGIN marker, the text between the markers, and the
      bytes it stands for. */
  datatype Wrapped = Wrapped(gap: string, body: string, der: seq<Byte>)

  predicate IsBreak(c: char) {
    c == '\n' || c == '\r'
  }

  function Unbroken(s: string): (r: string) {
    if s == [] then [] else Unbroken(s[..|s| - 1]) + if IsBreak(s[|s| - 1]) then [] else [s[|s| - 1]]
  }

  /** The body is standard base64 with line breaks anywhere, and no BEGIN marker starts before the
      real one. */
  ghost predicate Proper(x: Wrapped) {
    && x.der != [] && Unbroken(x.body) == Base64.StdEncode(x.der)
    && FirstAt(x.gap + BEGIN, BEGIN, 0, |x.gap|)
  }

  function Bundle(xs: seq<Wrapped>, tail: string): (text: string) {
    if xs == [] then tail else xs[0].gap + BEGIN + xs[0].body + END + Bundle(xs[1..], tail)
  }

  function Ders(xs: seq<Wrapped>): (r: seq<seq<Byte>>) {
    if xs == [] then [] else [xs[0].der] + Ders(xs[1..])
  }

  lemma {:induction false} KeptUnbroken(s: string)
    ensures Base64.Kept(Unbroken(s)) == Base64.Kept(s)
  {
    hide Base64.SymbolValue;
    if s != [] {
      var front, c := s[..|s| - 1], s[|s| - 1];
      KeptUnbroken(front);
      if !IsBreak(c) {
        assert Unbroken(s)[..|Unbroken(s)| - 1] == Unbroken(front);
      } else {
        assert Base64.Skipped(c) && Unbroken(s) == Unbroken(front);
      }
    }
  }

  lemma BodyDecodes(x: Wrapped)
    requires Proper(x)
    ensures Useful(x.body) == [x.der]
  {
    hide Base64.Kept, Base64.StdEncode, Unbroken;
    KeptUnbroken(x.body);
    Base64.DecodeEncode(x.der);
  }

  lemma {:induction false} UnbrokenKeeps(s: string, i: nat)
    requires i < |s| && !IsBreak(s[i])
    ensures s[i] in Unbroken(s)
    decreases |s|
  {
    if i < |s| - 1 {
      UnbrokenKeeps(s[..|s| - 1], i);
    }
  }

  lemma AlnumIsNoDash(i: int)
    requires 0 <= i < 62
    ensures Base64.Alnum(i) != '-'
  {
  }

  lemma SymbolIsNoDash(v: Sextet)
    ensures Base64.StdSymbol(v) != '-'
  {
    hide Base64.Alnum;
    if v != 62 && v != 63 {
      Base64.SextetAsInt(v);
      AlnumIsNoDash(v as int);
    }
  }

  lemma StdHasNoDash(bytes: seq<Byte>)
    ensures '-' !in Base64.StdEncode(bytes)
  {
    hide Base64.StdSymbol, PackSextets, BytesBits;
    var vs := PackSextets(BytesBits(bytes));
    forall i | 0 <= i < |vs|
      ensures Base64.StdSymbol(vs[i]) != '-'
    {
      SymbolIsNoDash(vs[i]);
    }
    var text, pad := Base64.StdText(vs), Base64.Padding(|vs|);
    assert forall i :: 0 <= i < |text| ==> text[i] == Base64.StdSymbol(vs[i]);
    assert '-' !in text && '-' !in pad;
  }

  lemma BodyHasNoDash(x: Wrapped, i: nat)
    requires Proper(x) && i < |x.body|
    ensures x.body[i] != '-'
  {
    hide Base64.StdEncode, Unbroken;
    if !IsBreak(x.body[i]) {
      UnbrokenKeeps(x.body, i);
      StdHasNoDash(x.der);
    }
  }

  /** The first BEGIN marker of a bundle is the one that was written. */
  lemma BeginFound(p: string, q: string, i: nat)
    requires FirstAt(p, BEGIN, 0, i) && i + |BEGIN| == |p|
    ensures Find(p + q, BEGIN, 0) == Some(i)
  {
    var text := p + q;
    assert text[i..i + |BEGIN|] == p[i..i + |BEGIN|];
    forall j | 0 <= j < i
      ensures !MatchesAt(text, BEGIN, j)
    {
      assert !MatchesAt(p, BEGIN, j);
      assert text[j..j + |BEGIN|] == p[j..j + |BEGIN|];
    }
    FindUnique(text, BEGIN, 0, i);
  }

  /** The first END marker after it is the one that was written: bodies contain no dash. */
  lemma EndFound(x: Wrapped, rest: string)
    requires Proper(x)
    ensures Find(x.body + END + rest, END, 0) == Some(|x.body|)
  {
    hide Proper, Find;
    var text, n := x.body + END + rest, |x.body|;
    assert text[n..n + |END|] == END;
    forall j | 0 <= j < n
      ensures !MatchesAt(text, END, j)
    {
      BodyHasNoDash(x, j);
      assert text[j] == x.body[j];
      EndStart(0);
      if MatchesAt(text, END, j) {
        hide MatchesAt;
        MatchChar(text, END, j, 0);
      }
    }
    FindUnique(text, END, 0, n);
  }

  lemma Parts(x: Wrapped, rest: string)
    ensures var text, q := x.gap + BEGIN + x.body + END + rest, x.body + END + rest;
            && text == (x.gap + BEGIN) + q && text[|x.gap| + |BEGIN|..] == q
            && q[..|x.body|] == x.body && q[|x.body| + |END|..] == rest
  {
    var q := x.body + END + rest;
    Assoc(x.gap + BEGIN, x.body, END);
    Assoc(x.gap + BEGIN, x.body + END, rest);
    assert ((x.gap + BEGIN) + q)[|x.gap + BEGIN|..] == q;
  }

  lemma BundleStep(x: Wrapped, rest: string)
    requires Proper(x)
    ensures Bodies(PEM, x.gap + BEGIN + x.body + END + rest) == [x.body] + Bodies(PEM, rest)
  {
    assert FirstAt(x.gap + BEGIN, BEGIN, 0, |x.gap|);
    hide *;
    var text := x.gap + BEGIN + x.body + END + rest;
    Parts(x, rest);
    BeginFound(x.gap + BEGIN, x.body + END + rest, |x.gap|);
    EndFound(x, rest);
    assert PEM.begin == BEGIN && PEM.end == END && BEGIN != [];
    BodiesStep(PEM, text, |x.gap|, |x.body|);
  }

  /** Any list of non-empty byte strings, wrapped in any proper way and followed by text without a
      BEGIN marker, is returned exactly and in order. */
  lemma {:induction false} RoundTrip(xs: seq<Wrapped>, tail: string)
    requires forall i :: 0 <= i < |xs| ==> Proper(xs[i])
    requires Find(tail, BEGIN, 0).None?
    ensures Lift(Bodies(PEM, Bundle(xs, tail))) == Ders(xs)
  {
    hide Find, Proper, Useful, Bodies, Lift;
    if xs == [] {
      NoMoreBodies(PEM, tail);
      LiftNothing();
    } else {
      var rest := Bundle(xs[1..], tail);
      BundleStep(xs[0], rest);
      LiftCons(xs[0].body, Bodies(PEM, rest));
      BodyDecodes(xs[0]);
      RoundTrip(xs[1..], tail);
    }
  }

  // ---------- The script on the same bundles ----------

  lemma {:induction false} UnbrokenShorter(s: string)
    ensures |Unbroken(s)| <= |s|
  {
    if s != [] {
      UnbrokenShorter(s[..|s| - 1]);
    }
  }

  lemma NothingDecodes()
    ensures Base64.Decode("") == Some([])
  {
  }

  /** A body has at least one group of four symbols. */
  lemma BodyLength(x: Wrapped)
    requires Proper(x)
    ensures |x.body| >= 4
  {
    hide Base64.StdEncode, Base64.Decode, Unbroken;
    UnbrokenShorter(x.body);
    Base64.DecodeEncode(x.der);
    NothingDecodes();
  }

  lemma EqualsIsNoSpace()
    ensures !Attestation.IsSpace('=') && !Attestation.IsSpace('+') && !Attestation.IsSpace('/')
  {
  }

  lemma AlnumIsNoSpace(i: int)
    requires 0 <= i < 62
    ensures !Attestation.IsSpace(Base64.Alnum(i))
  {
  }

  lemma SymbolIsNoSpace(v: Sextet)
    ensures !Attestation.IsSpace(Base64.StdSymbol(v))
  {
    hide Base64.Alnum, Attestation.IsSpace;
    EqualsIsNoSpace();
    if v != 62 && v != 63 {
      Base64.SextetAsInt(v);
      AlnumIsNoSpace(v as int);
    }
  }

  lemma StdHasNoSpace(bytes: seq<Byte>, c: char)
    ensures c in Base64.StdEncode(bytes) ==> !Attestation.IsSpace(c)
  {
    hide Base64.StdSymbol, PackSextets, BytesBits, Attestation.IsSpace;
    var vs := PackSextets(BytesBits(bytes));
    var text, pad := Base64.StdText(vs), Base64.Padding(|vs|);
    EqualsIsNoSpace();
    if c in text {
      var i :| 0 <= i < |text| && text[i] == c;
      SymbolIsNoSpace(vs[i]);
    }
  }

  /** In a body only the line breaks are white space. */
  lemma BodySpace(x: Wrapped, i: nat)
    requires Proper(x) && i < |x.body|
    ensures Attestation.IsSpace(x.body[i]) <==> IsBreak(x.body[i])
  {
    hide Base64.StdEncode, Unbroken;
    if !IsBreak(x.body[i]) {
      UnbrokenKeeps(x.body, i);
      StdHasNoSpace(x.der, x.body[i]);
    }
  }

  lemma {:induction false} SqueezedIsUnbroken(s: string)
    requires forall i :: 0 <= i < |s| ==> (Attestation.IsSpace(s[i]) <==> IsBreak(s[i]))
    ensures Attestation.Squeezed(s) == Unbroken(s)
  {
    hide Attestation.IsSpace, IsBreak;
    if s != [] {
      SqueezedIsUnbroken(s[..|s| - 1]);
    }
  }

  lemma BodySqueezed(x: Wrapped)
    requires Proper(x)
    ensures Attestation.Squeezed(x.body) == Base64.StdEncode(x.der)
  {
    hide Base64.StdEncode, Unbroken, Attestation.Squeezed, Attestation.IsSpace;
    forall i | 0 <= i < |x.body|
      ensures Attestation.IsSpace(x.body[i]) <==> IsBreak(x.body[i])
    {
      BodySpace(x, i);
    }
    SqueezedIsUnbroken(x.body);
  }

  lemma EndBlank()
    ensures END[8] == ' ' && Attestation.IsSpace(' ') && !IsBreak(' ')
  {
  }

  /** No END marker begins inside a BEGIN marker followed by four characters fit for a body. */
  lemma NotOverlapped(text: string, g: nat)
    requires MatchesAt(text, BEGIN, g) && g + 31 <= |text|
    requires forall i :: g + 27 <= i < g + 31 ==> text[i] != '-' && text[i] != ' '
    ensures !Overlapped(PEM, text, g)
  {
    hide MatchesAt;
    forall k | g <= k < g + |BEGIN|
      ensures !MatchesAt(text, END, k)
    {
      if MatchesAt(text, END, k) {
        OverlapIsInDashes(text, g, k);
        EndBlank();
        EndStart(4);
        var j := if k == g + 22 then 8 else 4;
        MatchChar(text, END, k, j);
      }
    }
  }

  lemma BodyFollows(x: Wrapped, rest: string)
    requires Proper(x)
    ensures !Overlapped(PEM, x.gap + BEGIN + x.body + END + rest, |x.gap|)
  {
    hide Overlapped, Proper, Attestation.IsSpace, Bundle;
    var text, g := x.gap + BEGIN + x.body + END + rest, |x.gap|;
    BodyLength(x);
    EndBlank();
    assert text[g..g + |BEGIN|] == BEGIN;
    forall i | g + 27 <= i < g + 31
      ensures text[i] != '-' && text[i] != ' '
    {
      assert text[i] == x.body[i - g - 27];
      BodyHasNoDash(x, i - g - 27);
      BodySpace(x, i - g - 27);
    }
    NotOverlapped(text, g);
  }

  lemma HitsNothing(text: string)
    requires Find(text, BEGIN, 0).None?
    ensures !HitsOverlap(PEM, text, 0)
  {
    hide Find, Overlapped;
  }

  /** The scan goes on after the END marker. */
  lemma HitsNext(text: string, g: nat, n: nat)
    requires Find(text, BEGIN, 0) == Some(g) && !Overlapped(PEM, text, g)
    requires Find(text[g + |BEGIN|..], END, 0) == Some(n)
    ensures HitsOverlap(PEM, text, 0) == HitsOverlap(PEM, text[g + |BEGIN|..][n + |END|..], 0)
  {
    hide Find, Overlapped;
    var s := g + |BEGIN|;
    FindShift(text, END, s);
    SuffixOfSuffix(text, s, n + |END|);
    HitsShift(PEM, text, s + n + |END|, 0);
  }

  lemma BundleHits(x: Wrapped, rest: string)
    requires Proper(x)
    ensures HitsOverlap(PEM, x.gap + BEGIN + x.body + END + rest, 0) == HitsOverlap(PEM, rest, 0)
  {
    assert FirstAt(x.gap + BEGIN, BEGIN, 0, |x.gap|);
    hide *;
    Parts(x, rest);
    BeginFound(x.gap + BEGIN, x.body + END + rest, |x.gap|);
    BodyFollows(x, rest);
    EndFound(x, rest);
    HitsNext(x.gap + BEGIN + x.body + END + rest, |x.gap|, |x.body|);
  }

  function BodiesOf(xs: seq<Wrapped>): (r: seq<string>)
    ensures |r| == |xs|
  {
    if xs == [] then [] else [xs[0].body] + BodiesOf(xs[1..])
  }

  lemma {:induction false} BundleBodies(xs: seq<Wrapped>, tail: string)
    requires forall i :: 0 <= i < |xs| ==> Proper(xs[i])
    requires Find(tail, BEGIN, 0).None?
    ensures Bodies(PEM, Bundle(xs, tail)) == BodiesOf(xs)
    ensures !HitsOverlap(PEM, Bundle(xs, tail), 0)
  {
    hide Find, Proper, Bodies, HitsOverlap;
    if xs == [] {
      NoMoreBodies(PEM, tail);
      HitsNothing(tail);
    } else {
      var rest := Bundle(xs[1..], tail);
      BundleStep(xs[0], rest);
      BundleHits(xs[0], rest);
      BundleBodies(xs[1..], tail);
    }
  }

  lemma {:induction false} BodiesIndexed(xs: seq<Wrapped>)
    ensures |Ders(xs)| == |xs|
    ensures forall i :: 0 <= i < |xs| ==> BodiesOf(xs)[i] == xs[i].body && Ders(xs)[i] == xs[i].der
  {
    if xs != [] {
      BodiesIndexed(xs[1..]);
    }
  }

  lemma {:induction false} DecodesTo(f: string -> Option<seq<Byte>>, ss: seq<string>, ds: seq<seq<Byte>>)
    requires |ss| == |ds| && forall i :: 0 <= i < |ss| ==> f(ss[i]) == Some(ds[i])
    ensures Collect.DecodeAll(f, ss) == Some(ds)
  {
    if ss != [] {
      var k := |ss| - 1;
      DecodesTo(f, ss[..k], ds[..k]);
      assert ds == ds[..k] + [ds[k]];
    }
  }

  lemma {:induction false} SqueezedBodies(f: string -> Option<seq<Byte>>, xs: seq<Wrapped>)
    requires forall i :: 0 <= i < |xs| ==> Proper(xs[i]) && f(Base64.StdEncode(xs[i].der)) == Some(xs[i].der)
    ensures Collect.DecodeAll(f, Attestation.SqueezeAll(BodiesOf(xs))) == Some(Ders(xs))
  {
    hide Proper, Base64.StdEncode, Attestation.Squeezed;
    BodiesIndexed(xs);
    forall i | 0 <= i < |xs|
      ensures f(Attestation.SqueezeAll(BodiesOf(xs))[i]) == Some(xs[i].der)
    {
      BodySqueezed(xs[i]);
    }
    DecodesTo(f, Attestation.SqueezeAll(BodiesOf(xs)), Ders(xs));
  }

  /** The script returns the same bundles exactly and in order as well, whatever its library decoder
      does with other texts, if that decoder undoes standard base64. */
  lemma ScriptRoundTrip(board: Attestation.Board, xs: seq<Wrapped>, tail: string)
    requires forall i :: 0 <= i < |xs| ==> Proper(xs[i])
    requires Find(tail, BEGIN, 0).None?
    requires forall bytes :: board.b64decode(Base64.StdEncode(bytes)) == Some(bytes)
    ensures Attestation.BundleDers(board, Bundle(xs, tail)) == Some(Ders(xs))
  {
    hide Find, Proper, Bodies, HitsOverlap, Base64.StdEncode, Bundle, Slices, SliceBlocks, IndexBlocks;
    var text := Bundle(xs, tail);
    BundleBodies(xs, tail);
    ScannersAgreeIff(PEM, text, 0);
    BodiesAreBlocks(PEM, text, 0);
    assert text[0..] == text;
    SqueezedBodies(board.b64decode, xs);
  }
}
