/** The two PEM scanners: the slicing one of src/attestation.rs:166-184 and the index-based one of
    nix/gpu-report.py:75-92. */
module Pem {
  import opened Bits
  import Base64

  /** The lines around a block, as the two sources spell them. */
  datatype Markers = Markers(begin: string, end: string)

  const BEGIN: string := "-----BEGIN CERTIFICATE-----"
  const END: string := "-----END CERTIFICATE-----"
  const PEM := Markers(BEGIN, END)

  // ---------- Searching ----------

  predicate MatchesAt(text: string, pat: string, i: int) {
    0 <= i && i + |pat| <= |text| && text[i..i + |pat|] == pat
  }

  lemma MatchChar(text: string, pat: string, i: int, j: int)
    requires MatchesAt(text, pat, i) && 0 <= j < |pat|
    ensures 0 <= i && i + |pat| <= |text| && text[i + j] == pat[j]
  {
    assert text[i..i + |pat|][j] == text[i + j];
  }

  /** The first match at or after a position, as str::find and str.find give it. */
  function Find(text: string, pat: string, from: nat): (r: Option<nat>)
    requires from <= |text|
    ensures r.Some? ==> from <= r.value && r.value + |pat| <= |text|
    decreases |text| - from
  {
    if from + |pat| > |text| then None
    else if text[from..from + |pat|] == pat then Some(from)
    else if from == |text| then None
    else Find(text, pat, from + 1)
  }

  ghost predicate FirstAt(text: string, pat: string, from: nat, i: int) {
    from <= i && MatchesAt(text, pat, i) && forall j :: from <= j < i ==> !MatchesAt(text, pat, j)
  }

  lemma {:induction false} FindIsFirst(text: string, pat: string, from: nat)
    requires from <= |text|
    ensures var r := Find(text, pat, from);
            && (r.Some? ==> FirstAt(text, pat, from, r.value))
            && (r.None? ==> forall j :: from <= j ==> !MatchesAt(text, pat, j))
    decreases |text| - from
  {
    if from + |pat| <= |text| && from < |text| && text[from..from + |pat|] != pat {
      FindIsFirst(text, pat, from + 1);
    }
  }

  lemma FindUnique(text: string, pat: string, from: nat, i: nat)
    requires from <= |text| && FirstAt(text, pat, from, i)
    ensures Find(text, pat, from) == Some(i)
  {
    hide Find, MatchesAt;
    FindIsFirst(text, pat, from);
  }

  /** Searching from further on gives the same answer if nothing matches in between. */
  lemma FindSkips(text: string, pat: string, from: nat, later: nat)
    requires from <= later <= |text|
    requires forall j :: from <= j < later ==> !MatchesAt(text, pat, j)
    ensures Find(text, pat, from) == Find(text, pat, later)
  {
    hide Find, MatchesAt;
    FindIsFirst(text, pat, from);
    FindIsFirst(text, pat, later);
    var a := Find(text, pat, from);
    if a.Some? {
      assert FirstAt(text, pat, later, a.value);
    }
  }

  /** Searching a suffix from its start is searching the whole from there. */
  lemma {:induction false} FindSuffix(text: string, pat: string, off: nat, from: nat)
    requires off + from <= |text|
    ensures Find(text, pat, off + from)
            == (match Find(text[off..], pat, from) case None => None case Some(i) => Some(off + i))
    decreases |text| - from
  {
    var rest := text[off..];
    if from + |pat| <= |rest| {
      assert rest[from..from + |pat|] == text[off + from..off + from + |pat|];
      if from < |rest| {
        FindSuffix(text, pat, off, from + 1);
      }
    }
  }

  // ---------- Scanners as positions ----------

  /** Where a body starts and where the END marker after it starts. */
  datatype Block = Block(start: nat, stop: nat)

  /** Slicing scanner: END is searched from after BEGIN. */
  function SliceBlocks(m: Markers, text: string, off: nat): (r: seq<Block>)
    requires m.begin != [] && off <= |text|
    decreases |text| - off
  {
    match Find(text, m.begin, off)
    case None => []
    case Some(s) =>
      match Find(text, m.end, s + |m.begin|)
      case None => []
      case Some(e) => [Block(s + |m.begin|, e)] + SliceBlocks(m, text, e + |m.end|)
  }

  /** Index scanner: END is searched from the start of BEGIN. */
  function IndexBlocks(m: Markers, text: string, idx: nat): (r: seq<Block>)
    requires m.end != [] && idx <= |text|
    decreases |text| - idx
  {
    match Find(text, m.begin, idx)
    case None => []
    case Some(s) =>
      match Find(text, m.end, s)
      case None => []
      case Some(e) => [Block(s + |m.begin|, e)] + IndexBlocks(m, text, e + |m.end|)
  }

  /** An END marker begins inside the BEGIN marker at s, sharing characters with it. */
  predicate Overlapped(m: Markers, text: string, s: nat) {
    exists k :: s <= k < s + |m.begin| && MatchesAt(text, m.end, k)
  }

  /** The scan comes to a BEGIN marker that an END marker overlaps. */
  predicate HitsOverlap(m: Markers, text: string, off: nat)
    requires m.begin != [] && off <= |text|
    decreases |text| - off
  {
    match Find(text, m.begin, off)
    case None => false
    case Some(s) =>
      Overlapped(m, text, s) ||
      match Find(text, m.end, s + |m.begin|)
      case None => false
      case Some(e) => HitsOverlap(m, text, e + |m.end|)
  }

  lemma OverlapEnd(m: Markers, text: string, s: nat)
    requires s + |m.begin| <= |text|
    ensures if Overlapped(m, text, s)
            then Find(text, m.end, s).Some? && Find(text, m.end, s).value < s + |m.begin|
            else Find(text, m.end, s) == Find(text, m.end, s + |m.begin|)
  {
    hide Find, MatchesAt;
    if Overlapped(m, text, s) {
      FindIsFirst(text, m.end, s);
    } else {
      FindSkips(text, m.end, s, s + |m.begin|);
    }
  }

  lemma ConsEqual<T>(x: T, a: seq<T>, b: seq<T>)
    ensures [x] + a == [x] + b <==> a == b
  {
    assert ([x] + a)[1..] == a && ([x] + b)[1..] == b;
  }

  /** The two scanners locate the same blocks if and only if the scan never comes to a BEGIN marker
      that an END marker overlaps. */
  lemma {:induction false} ScannersAgreeIff(m: Markers, text: string, off: nat)
    requires m.begin != [] && m.end != [] && off <= |text|
    ensures SliceBlocks(m, text, off) == IndexBlocks(m, text, off) <==> !HitsOverlap(m, text, off)
    decreases |text| - off
  {
    hide Overlapped, Find;
    var b := Find(text, m.begin, off);
    if b.Some? {
      var s := b.value;
      OverlapEnd(m, text, s);
      var e := Find(text, m.end, s + |m.begin|);
      if Overlapped(m, text, s) {
        assert IndexBlocks(m, text, off)[0].stop < s + |m.begin|;
        assert e.Some? ==> SliceBlocks(m, text, off)[0].stop == e.value;
      } else if e.Some? {
        var next := e.value + |m.end|;
        ScannersAgreeIff(m, text, next);
        ConsEqual(Block(s + |m.begin|, e.value), SliceBlocks(m, text, next), IndexBlocks(m, text, next));
      }
    }
  }

  // ---------- The real markers ----------

  lemma BeginInner(j: int)
    requires 5 <= j < 22
    ensures BEGIN[j] != '-'
  {
  }

  lemma EndStart(j: int)
    requires 0 <= j <= 5
    ensures END[j] == if j < 5 then '-' else 'E'
  {
  }

  /** Markers can share only the five closing dashes of BEGIN. */
  lemma OverlapIsInDashes(text: string, s: nat, k: nat)
    requires MatchesAt(text, BEGIN, s) && MatchesAt(text, END, k) && s <= k
    ensures k >= s + 22
  {
    hide MatchesAt;
    if k < s + 22 {
      var j := if k < s + 5 then 5 else k - s;
      BeginInner(j);
      EndStart(s + j - k);
      assert BEGIN[5] == 'B';
      MatchChar(text, BEGIN, s, j);
      MatchChar(text, END, k, s + j - k);
    }
  }

  /** Every BEGIN marker is followed by a line break. */
  ghost predicate BreaksAfterBegin(text: string) {
    forall s :: MatchesAt(text, BEGIN, s) ==> s + |BEGIN| < |text| && text[s + |BEGIN|] in "\n\r"
  }

  lemma BreakPreventsOverlap(text: string, s: nat)
    requires BreaksAfterBegin(text) && MatchesAt(text, BEGIN, s)
    ensures !Overlapped(PEM, text, s)
  {
    hide MatchesAt;
    forall k | s <= k < s + |BEGIN|
      ensures !MatchesAt(text, END, k)
    {
      if MatchesAt(text, END, k) {
        OverlapIsInDashes(text, s, k);
        EndStart(s + |BEGIN| - k);
        MatchChar(text, END, k, s + |BEGIN| - k);
      }
    }
  }

  lemma {:induction false} BreaksNeverHit(text: string, off: nat)
    requires off <= |text| && BreaksAfterBegin(text)
    ensures !HitsOverlap(PEM, text, off)
    decreases |text| - off
  {
    hide Overlapped, BreaksAfterBegin, Find, MatchesAt;
    var b := Find(text, PEM.begin, off);
    if b.Some? {
      FindIsFirst(text, PEM.begin, off);
      BreakPreventsOverlap(text, b.value);
      var e := Find(text, PEM.end, b.value + |PEM.begin|);
      if e.Some? {
        BreaksNeverHit(text, e.value + |PEM.end|);
      }
    }
  }

  /** On every text whose BEGIN markers are followed by a line break the scanners agree. */
  lemma ScannersAgree(text: string)
    requires BreaksAfterBegin(text)
    ensures SliceBlocks(PEM, text, 0) == IndexBlocks(PEM, text, 0)
  {
    hide HitsOverlap, BreaksAfterBegin, SliceBlocks, IndexBlocks;
    BreaksNeverHit(text, 0);
    ScannersAgreeIff(PEM, text, 0);
  }

  lemma OverlappedShift(m: Markers, text: string, off: nat, s: nat)
    requires off <= |text|
    ensures Overlapped(m, text, off + s) <==> Overlapped(m, text[off..], s)
  {
    var rest := text[off..];
    forall k | s <= k < s + |m.begin|
      ensures MatchesAt(rest, m.end, k) <==> MatchesAt(text, m.end, off + k)
    {
      if k + |m.end| <= |rest| {
        assert rest[k..k + |m.end|] == text[off + k..off + k + |m.end|];
      }
    }
    if Overlapped(m, text, off + s) {
      var k :| off + s <= k < off + s + |m.begin| && MatchesAt(text, m.end, k);
      assert MatchesAt(rest, m.end, k - off);
    }
  }

  /** Scanning a suffix from its start is scanning the whole from there. */
  lemma {:induction false} HitsShift(m: Markers, text: string, off: nat, from: nat)
    requires m.begin != [] && off + from <= |text|
    ensures HitsOverlap(m, text, off + from) <==> HitsOverlap(m, text[off..], from)
    decreases |text| - from
  {
    hide Find, Overlapped;
    var rest := text[off..];
    FindSuffix(text, m.begin, off, from);
    var s := Find(rest, m.begin, from);
    if s.Some? {
      OverlappedShift(m, text, off, s.value);
      FindSuffix(text, m.end, off, s.value + |m.begin|);
      var e := Find(rest, m.end, s.value + |m.begin|);
      if e.Some? {
        HitsShift(m, text, off, e.value + |m.end|);
      }
    }
  }

  /** Shared dashes make the scanners part: one finds an empty block, the other none. */
  lemma SharedDashes()
    ensures var text := BEGIN + END[5..];
            IndexBlocks(PEM, text, 0) != [] && SliceBlocks(PEM, text, 0) == []
  {
    var text := BEGIN + END[5..];
    assert BEGIN[22..] == END[..5];
    assert text[22..47] == END[..5] + END[5..] == END;
    assert text[0..27] == BEGIN;
    hide Find;
    assert FirstAt(text, BEGIN, 0, 0);
    FindUnique(text, BEGIN, 0, 0);
    FindIsFirst(text, END, 0);
    FindIsFirst(text, END, 27);
    assert MatchesAt(text, END, 22);
  }

  // ---------- The slicing scanner as the code runs it ----------

  /** The bodies found by repeatedly slicing the text. */
  function Bodies(m: Markers, rest: string): (r: seq<string>)
    requires m.begin != []
    decreases |rest|
  {
    match Find(rest, m.begin, 0)
    case None => []
    case Some(s) =>
      var after := rest[s + |m.begin|..];
      match Find(after, m.end, 0)
      case None => []
      case Some(e) => [after[..e]] + Bodies(m, after[e + |m.end|..])
  }

  lemma BodiesStep(m: Markers, rest: string, s: nat, e: nat)
    requires m.begin != [] && Find(rest, m.begin, 0) == Some(s)
    requires Find(rest[s + |m.begin|..], m.end, 0) == Some(e)
    ensures var after := rest[s + |m.begin|..];
            Bodies(m, rest) == [after[..e]] + Bodies(m, after[e + |m.end|..])
  {
    hide Find;
  }

  function Useful(body: string): (r: seq<seq<Byte>>) {
    var der := Base64.Decode(body);
    if der.Some? && der.value != [] then [der.value] else []
  }

  /** Bodies that decode to something; the others are dropped. */
  function Lift(bodies: seq<string>): (r: seq<seq<Byte>>) {
    if bodies == [] then [] else Useful(bodies[0]) + Lift(bodies[1..])
  }

  lemma LiftCons(body: string, more: seq<string>)
    ensures Lift([body] + more) == Useful(body) + Lift(more)
  {
    assert ([body] + more)[1..] == more;
  }

  lemma NoMoreBodies(m: Markers, rest: string)
    requires m.begin != []
    requires var s := Find(rest, m.begin, 0); s.Some? ==> Find(rest[s.value + |m.begin|..], m.end, 0).None?
    ensures Bodies(m, rest) == []
  {
    hide Find;
  }

  lemma LiftNothing()
    ensures Lift([]) == []
  {
  }

  method LiftBlocks(m: Markers, text: string) returns (out: seq<seq<Byte>>)
    requires m.begin != []
    ensures out == Lift(Bodies(m, text))
  {
    hide Base64.Decode, Find, Lift, Bodies;
    out := [];
    var rest := text;
    while true
      invariant out + Lift(Bodies(m, rest)) == Lift(Bodies(m, text))
      decreases |rest|
    {
      var start := Find(rest, m.begin, 0);
      if start.None? {
        NoMoreBodies(m, rest);
        break;
      }
      var after := rest[start.value + |m.begin|..];
      var end := Find(after, m.end, 0);
      if end.None? {
        NoMoreBodies(m, rest);
        break;
      }
      var der := Base64.B64DecodeAny(after[..end.value]);
      ghost var next := after[end.value + |m.end|..];
      BodiesStep(m, rest, start.value, end.value);
      LiftCons(after[..end.value], Bodies(m, next));
      Assoc(out, Useful(after[..end.value]), Lift(Bodies(m, next)));
      if der.Some? && der.value != [] {
        out := out + [der.value];
      }
      rest := after[end.value + |m.end|..];
    }
    LiftNothing();
  }

  /** One block at a time: its certificate if the body decodes to something, nothing otherwise, and then
      whatever the text after it gives. A bad block stops nothing. */
  lemma BlockByBlock(text: string, s: nat, e: nat)
    requires Find(text, BEGIN, 0) == Some(s) && Find(text[s + |BEGIN|..], END, 0) == Some(e)
    ensures var after := text[s + |BEGIN|..];
            var der := Base64.Decode(after[..e]);
            Lift(Bodies(PEM, text))
            == (if der.Some? && der.value != [] then [der.value] else []) + Lift(Bodies(PEM, after[e + |END|..]))
  {
    hide Find, Base64.Decode, Lift, Bodies;
    BodiesStep(PEM, text, s, e);
    var after := text[s + |BEGIN|..];
    LiftCons(after[..e], Bodies(PEM, after[e + |END|..]));
  }

  /** src/attestation.rs:166-184 on the text of a quote. */
  method PckChainFromQuote(text: string) returns (out: seq<seq<Byte>>)
    ensures out == Lift(Bodies(Markers("-----BEGIN CERTIFICATE-----", "-----END CERTIFICATE-----"), text))
    ensures out == Lift(Bodies(PEM, text))
  {
    hide Lift, Bodies;
    out := LiftBlocks(PEM, text);
  }

  /** The characters of a located block; an end before the start gives nothing, as a Python slice. */
  function Slice(text: string, b: Block): (r: string) {
    if b.start <= b.stop <= |text| then text[b.start..b.stop] else ""
  }

  function Slices(text: string, blocks: seq<Block>): (r: seq<string>) {
    if blocks == [] then [] else [Slice(text, blocks[0])] + Slices(text, blocks[1..])
  }

  lemma BlocksStep(m: Markers, text: string, off: nat, s: nat, e: nat)
    requires m.begin != [] && off <= |text|
    requires Find(text, m.begin, off) == Some(s) && Find(text, m.end, s + |m.begin|) == Some(e)
    ensures SliceBlocks(m, text, off) == [Block(s + |m.begin|, e)] + SliceBlocks(m, text, e + |m.end|)
  {
    hide Find;
  }

  lemma NoMoreBlocks(m: Markers, text: string, off: nat)
    requires m.begin != [] && off <= |text|
    requires var s := Find(text, m.begin, off); s.Some? ==> Find(text, m.end, s.value + |m.begin|).None?
    ensures SliceBlocks(m, text, off) == []
  {
    hide Find;
  }

  /** One search on a suffix and on the whole text. */
  lemma FindShift(text: string, pat: string, off: nat)
    requires off <= |text|
    ensures Find(text, pat, off).None? <==> Find(text[off..], pat, 0).None?
    ensures Find(text, pat, off).Some? ==> Find(text, pat, off).value == off + Find(text[off..], pat, 0).value
  {
    FindSuffix(text, pat, off, 0);
  }

  lemma SuffixOfSuffix(text: string, a: nat, b: nat)
    requires a + b <= |text|
    ensures text[a..][b..] == text[a + b..]
  {
  }

  lemma SlicesNothing(text: string)
    ensures Slices(text, []) == []
  {
  }

  lemma SlicesCons(text: string, b: Block, more: seq<Block>)
    ensures Slices(text, [b] + more) == [Slice(text, b)] + Slices(text, more)
  {
    assert ([b] + more)[1..] == more;
  }

  /** The sliced bodies are the located blocks. */
  lemma {:induction false} BodiesAreBlocks(m: Markers, text: string, off: nat)
    requires m.begin != [] && off <= |text|
    ensures Bodies(m, text[off..]) == Slices(text, SliceBlocks(m, text, off))
    decreases |text| - off
  {
    hide Find, Slices, Bodies, SliceBlocks;
    var rest := text[off..];
    SlicesNothing(text);
    FindShift(text, m.begin, off);
    var b := Find(rest, m.begin, 0);
    if b.None? {
      NoMoreBodies(m, rest);
      NoMoreBlocks(m, text, off);
    } else {
      var s := off + b.value + |m.begin|;
      SuffixOfSuffix(text, off, b.value + |m.begin|);
      FindShift(text, m.end, s);
      var e := Find(text[s..], m.end, 0);
      if e.None? {
        NoMoreBodies(m, rest);
        NoMoreBlocks(m, text, off);
      } else {
        var next := s + e.value + |m.end|;
        SuffixOfSuffix(text, s, e.value + |m.end|);
        BodiesStep(m, rest, b.value, e.value);
        BlocksStep(m, text, off, off + b.value, s + e.value);
        BodiesAreBlocks(m, text, next);
        assert Slice(text, Block(s, s + e.value)) == text[s..][..e.value];
        SlicesCons(text, Block(s, s + e.value), SliceBlocks(m, text, next));
      }
    }
  }

  // ---------- The index scanner as the script runs it ----------

  method LocateByIndex(text: string) returns (blocks: seq<Block>)
    ensures blocks == IndexBlocks(Markers("-----BEGIN CERTIFICATE-----", "-----END CERTIFICATE-----"), text, 0)
    ensures blocks == IndexBlocks(PEM, text, 0)
  {
    hide Find;
    blocks := [];
    var idx := 0;
    while true
      invariant 0 <= idx <= |text|
      invariant blocks + IndexBlocks(PEM, text, idx) == IndexBlocks(PEM, text, 0)
      decreases |text| - idx
    {
      var start := Find(text, BEGIN, idx);
      if start.None? {
        break;
      }
      var stop := Find(text, END, start.value);
      if stop.None? {
        break;
      }
      Assoc(blocks, [Block(start.value + |BEGIN|, stop.value)], IndexBlocks(PEM, text, stop.value + |END|));
      blocks := blocks + [Block(start.value + |BEGIN|, stop.value)];
      idx := stop.value + |END|;
    }
  }
}
