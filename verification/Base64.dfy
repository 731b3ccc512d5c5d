/** The two hand-written base64 encoders and the permissive decoder (src/lib.rs:71-130,
    src/attestation.rs:237-251), each stated against plain bit strings. */
module Base64 {
  import opened Bits

  // ---------- Alphabets (sections 4 and 5 of RFC 4648) ----------

  /** Symbols 0..61, shared by both tables. */
  function Alnum(i: int): (c: char)
    requires 0 <= i < 62
  {
    if i < 26 then ('A' as int + i) as char
    else if i < 52 then ('a' as int + i - 26) as char
    else ('0' as int + i - 52) as char
  }

  function StdSymbol(v: Sextet): (c: char) {
    if v == 62 then '+' else if v == 63 then '/' else Alnum(v as int)
  }

  function UrlSymbol(v: Sextet): (c: char) {
    if v == 62 then '-' else if v == 63 then '_' else Alnum(v as int)
  }

  /** Position of a symbol in either table, or -1. */
  function SymbolIndex(c: char): (i: int)
    ensures -1 <= i < 64
  {
    if 'A' <= c <= 'Z' then c as int - 'A' as int
    else if 'a' <= c <= 'z' then c as int - 'a' as int + 26
    else if '0' <= c <= '9' then c as int - '0' as int + 52
    else if c == '+' || c == '-' then 62
    else if c == '/' || c == '_' then 63
    else -1
  }

  function SymbolValue(c: char): (r: Option<Sextet>) {
    if SymbolIndex(c) < 0 then None else Some(SymbolIndex(c) as Sextet)
  }

  /** The only characters the decoder ignores: other white space makes it fail. */
  predicate Skipped(c: char) {
    c == '=' || c == '\n' || c == '\r'
  }

  function ToUrl(c: char): (r: char) {
    if c == '+' then '-' else if c == '/' then '_' else c
  }

  lemma AlnumIndex(i: int)
    requires 0 <= i < 62
    ensures SymbolIndex(Alnum(i)) == i
    ensures !Skipped(Alnum(i)) && ToUrl(Alnum(i)) == Alnum(i)
  {
  }

  lemma SextetAsInt(v: Sextet)
    ensures 0 <= v as int < 64 && (v as int) as Sextet == v
    ensures v != 62 && v != 63 ==> v as int < 62
  {
  }

  const UPPER: string := "ABCDEFGHIJKLMNOPQRSTUVWXYZ"
  const LOWER: string := "abcdefghijklmnopqrstuvwxyz"
  const DIGITS: string := "0123456789"

  /** The tables of the source. */
  const B64: string := UPPER + LOWER + DIGITS + "+/"
  const B64URL: string := UPPER + LOWER + DIGITS + "-_"

  lemma UpperAt(i: int)
    requires 0 <= i < 26
    ensures UPPER[i] == Alnum(i)
  {
  }

  lemma LowerAt(i: int)
    requires 0 <= i < 26
    ensures LOWER[i] == Alnum(i + 26)
  {
  }

  lemma DigitAt(i: int)
    requires 0 <= i < 10
    ensures DIGITS[i] == Alnum(i + 52)
  {
  }

  lemma AlnumAt(i: int)
    requires 0 <= i < 62
    ensures (UPPER + LOWER + DIGITS)[i] == Alnum(i)
  {
    hide Alnum;
    if i < 26 {
      UpperAt(i);
    } else if i < 52 {
      LowerAt(i - 26);
    } else {
      DigitAt(i - 52);
    }
  }

  /** The symbols are those of the tables, in their order. */
  lemma SymbolTables(v: Sextet)
    ensures |B64| == |B64URL| == 64
    ensures StdSymbol(v) == B64[v as int] && UrlSymbol(v) == B64URL[v as int]
  {
    hide Alnum;
    if v != 62 && v != 63 {
      SextetAsInt(v);
      AlnumAt(v as int);
    }
  }

  lemma SymbolsDecode(v: Sextet)
    ensures SymbolValue(StdSymbol(v)) == Some(v) == SymbolValue(UrlSymbol(v))
    ensures !Skipped(StdSymbol(v)) && !Skipped(UrlSymbol(v))
    ensures UrlSymbol(v) == ToUrl(StdSymbol(v))
  {
    hide Alnum;
    if v != 62 && v != 63 {
      SextetAsInt(v);
      AlnumIndex(v as int);
    }
  }

  // ---------- Specification ----------

  /** The sextets of the symbols that are not skipped; None as soon as one character is neither. */
  function Kept(s: string): (r: Option<seq<Sextet>>) {
    if s == [] then Some([])
    else
      var c := s[|s| - 1];
      match Kept(s[..|s| - 1])
      case None => None
      case Some(front) =>
        if Skipped(c) then Some(front)
        else if SymbolValue(c).Some? then Some(front + [SymbolValue(c).value])
        else None
  }

  /** Unbounded decoding: concatenate the sextets and keep the leading whole bytes. */
  function Decode(s: string): (r: Option<seq<Byte>>)
    ensures r.Some? <==> Kept(s).Some?
    ensures r.Some? ==> |r.value| == 6 * |Kept(s).value| / 8
  {
    match Kept(s)
    case None => None
    case Some(v) => Some(PackBytes(SextetsBits(v)))
  }

  function StdText(vs: seq<Sextet>): (s: string)
    ensures |s| == |vs|
  {
    seq(|vs|, i requires 0 <= i < |vs| => StdSymbol(vs[i]))
  }

  function UrlText(vs: seq<Sextet>): (s: string)
    ensures |s| == |vs|
  {
    seq(|vs|, i requires 0 <= i < |vs| => UrlSymbol(vs[i]))
  }

  function Padding(k: nat): (s: string)
    ensures forall i :: 0 <= i < |s| ==> s[i] == '='
    ensures (k + |s|) % 4 == 0 && |s| < 4
  {
    match k % 4 case 0 => "" case 1 => "===" case 2 => "==" case _ => "="
  }

  /** Standard alphabet, padded to a multiple of four symbols. */
  function StdEncode(bytes: seq<Byte>): (s: string)
    ensures |s| % 4 == 0
  {
    var vs := PackSextets(BytesBits(bytes));
    StdText(vs) + Padding(|vs|)
  }

  /** URL alphabet, no padding. */
  function UrlEncode(bytes: seq<Byte>): (s: string) {
    UrlText(PackSextets(BytesBits(bytes)))
  }

  // ---------- Decoder on a 32-bit accumulator ----------

  /** Bits k + 1 and k of a word. */
  function Pair(x: bv32, k: nat): (r: seq<bool>)
    requires k <= 10
    ensures |r| == 2
  {
    [(x >> k) & 2 != 0, (x >> k) & 1 != 0]
  }

  /** The n low bits of the accumulator. */
  function Low(acc: bv32, n: nat): (r: seq<bool>)
    requires n in {0, 2, 4, 6}
    ensures |r| == n
  {
    if n == 0 then []
    else if n == 2 then Pair(acc, 0)
    else if n == 4 then Pair(acc, 2) + Pair(acc, 0)
    else Pair(acc, 4) + Pair(acc, 2) + Pair(acc, 0)
  }

  /** Truncation to u8. */
  function Truncate(x: bv32): (b: Byte) {
    (x & 0xff) as Byte
  }

  /** The byte pushed when n bits stay pending. */
  function Emit(acc: bv32, n: nat): (b: Byte)
    requires n < 8
  {
    Truncate(acc >> n)
  }

  /** The new accumulator: six bits fall off at the top, the sextet comes in at the bottom. */
  function Push(acc: bv32, v: Sextet): (r: bv32) {
    (acc << 6) | v as bv32
  }

  lemma ByteByPairs(b: Byte)
    ensures var x := b as bv32; ByteBits(b) == Pair(x, 6) + Pair(x, 4) + Pair(x, 2) + Pair(x, 0)
  {
  }

  lemma SextetByPairs(v: Sextet)
    ensures var x := v as bv32; SextetBits(v) == Pair(x, 4) + Pair(x, 2) + Pair(x, 0)
  {
  }

  lemma PushPairs(acc: bv32, v: Sextet)
    ensures var next, x := Push(acc, v), v as bv32;
            && Pair(next, 4) == Pair(x, 4) && Pair(next, 2) == Pair(x, 2) && Pair(next, 0) == Pair(x, 0)
            && Pair(next, 10) == Pair(acc, 4) && Pair(next, 8) == Pair(acc, 2) && Pair(next, 6) == Pair(acc, 0)
  {
  }

  lemma Emit0Pairs(acc: bv32)
    ensures var x := Emit(acc, 0) as bv32;
            && Pair(x, 6) == Pair(acc, 6) && Pair(x, 4) == Pair(acc, 4)
            && Pair(x, 2) == Pair(acc, 2) && Pair(x, 0) == Pair(acc, 0)
  {
  }

  lemma Emit2Pairs(acc: bv32)
    ensures var x := Emit(acc, 2) as bv32;
            && Pair(x, 6) == Pair(acc, 8) && Pair(x, 4) == Pair(acc, 6)
            && Pair(x, 2) == Pair(acc, 4) && Pair(x, 0) == Pair(acc, 2)
  {
  }

  lemma Emit4Pairs(acc: bv32)
    ensures var x := Emit(acc, 4) as bv32;
            && Pair(x, 6) == Pair(acc, 10) && Pair(x, 4) == Pair(acc, 8)
            && Pair(x, 2) == Pair(acc, 6) && Pair(x, 0) == Pair(acc, 4)
  {
  }

  lemma Regroup<T>(a: seq<T>, b: seq<T>, c: seq<T>, d: seq<T>, e: seq<T>, f: seq<T>)
    ensures (a + b + c + d) + [] == a + (b + c + d)
    ensures (a + b + c + d) + e == (a + b) + (c + d + e)
    ensures (a + b + c + d) + (e + f) == (a + b + c) + (d + e + f)
  {
    Assoc(a, b, c);
    Assoc(a, b + c, d);
    Assoc(a + b, c, d);
    Assoc(a + b, c + d, e);
    Assoc(a + b + c, d, e + f);
    Assoc(d, e, f);
  }

  /** One symbol moved through the accumulator, by the number of bits pending before it. */
  lemma ShiftPairs(acc: bv32, n: nat, v: Sextet)
    requires n in {0, 2, 4, 6}
    ensures n == 0 ==> Low(Push(acc, v), 6) == SextetBits(v)
    ensures n > 0 ==> ByteBits(Emit(Push(acc, v), n - 2)) + Low(Push(acc, v), n - 2) == Low(acc, n) + SextetBits(v)
  {
    hide Pair, ByteBits, SextetBits, Push, Emit;
    var next := Push(acc, v);
    PushPairs(acc, v);
    SextetByPairs(v);
    if n == 2 {
      Emit0Pairs(next);
      ByteByPairs(Emit(next, 0));
      Regroup(Pair(acc, 0), Pair(next, 4), Pair(next, 2), Pair(next, 0), [], []);
    } else if n == 4 {
      Emit2Pairs(next);
      ByteByPairs(Emit(next, 2));
      Regroup(Pair(acc, 2), Pair(acc, 0), Pair(next, 4), Pair(next, 2), Pair(next, 0), []);
    } else if n == 6 {
      Emit4Pairs(next);
      ByteByPairs(Emit(next, 4));
      Regroup(Pair(acc, 4), Pair(acc, 2), Pair(acc, 0), Pair(next, 4), Pair(next, 2), Pair(next, 0));
    }
  }

  lemma EmptyBits(x: bv32)
    ensures Low(x, 0) == [] && Low(0, 0) == []
  {
  }

  /** What the accumulator step computes, for every state the loop can be in: the bits already
      out, the bits pending and the new sextet are regrouped, never changed. */
  lemma Shift(done: seq<bool>, acc: bv32, n: nat, v: Sextet)
    requires n in {0, 2, 4, 6}
    ensures n == 0 ==> done + Low(Push(acc, v), 6) == done + Low(acc, 0) + SextetBits(v)
    ensures n > 0 ==> done + ByteBits(Emit(Push(acc, v), n - 2)) + Low(Push(acc, v), n - 2)
                      == done + Low(acc, n) + SextetBits(v)
  {
    hide Low, SextetBits, ByteBits, Emit, Push;
    ShiftPairs(acc, n, v);
    Assoc(done, Low(acc, n), SextetBits(v));
    if n > 0 {
      Assoc(done, ByteBits(Emit(Push(acc, v), n - 2)), Low(Push(acc, v), n - 2));
    } else {
      EmptyBits(acc);
      assert [] + SextetBits(v) == SextetBits(v);
    }
  }

  lemma AppendByte(bs: seq<Byte>, b: Byte)
    ensures BytesBits(bs + [b]) == BytesBits(bs) + ByteBits(b)
  {
    hide ByteBits;
    BytesBitsConcat(bs, [b]);
    assert BytesBits([b]) == ByteBits(b) + BytesBits([]);
  }

  lemma AppendSextet(vs: seq<Sextet>, v: Sextet)
    ensures SextetsBits(vs + [v]) == SextetsBits(vs) + SextetBits(v)
  {
    hide SextetBits;
    SextetsBitsConcat(vs, [v]);
    assert SextetsBits([v]) == SextetBits(v) + SextetsBits([]);
  }

  lemma {:induction false} KeptNonePrefix(s: string, i: nat)
    requires i <= |s| && Kept(s[..i]).None?
    ensures Kept(s).None?
    decreases |s|
  {
    hide SymbolValue;
    if i < |s| {
      var t := s[..|s| - 1];
      assert t[..i] == s[..i];
      KeptNonePrefix(t, i);
    } else {
      assert s[..i] == s;
    }
  }

  method B64DecodeAny(s: string) returns (r: Option<seq<Byte>>)
    ensures r == Decode(s)
  {
    hide SymbolValue, Low, SextetBits, ByteBits, Emit, Push, PackBytes;
    var acc: bv32, nbits: nat := 0, 0;
    var out: seq<Byte> := [];
    ghost var vs: seq<Sextet> := [];
    for i := 0 to |s|
      invariant Kept(s[..i]) == Some(vs)
      invariant nbits in {0, 2, 4, 6}
      invariant BytesBits(out) + Low(acc, nbits) == SextetsBits(vs)
    {
      assert s[..i + 1][..i] == s[..i];
      var c := s[i];
      if Skipped(c) {
        continue;
      }
      var value := SymbolValue(c);
      if value.None? {
        KeptNonePrefix(s, i + 1);
        return None;
      }
      Shift(BytesBits(out), acc, nbits, value.value);
      AppendSextet(vs, value.value);
      acc := Push(acc, value.value);
      nbits := nbits + 6;
      if nbits >= 8 {
        nbits := nbits - 8;
        AppendByte(out, Emit(acc, nbits));
        out := out + [Emit(acc, nbits)];
      }
      vs := vs + [value.value];
    }
    assert s[..|s|] == s;
    PackBytesInverse(out, Low(acc, nbits));
    return Some(out);
  }

  // ---------- Encoders ----------

  /** Three bytes packed into one 24-bit group. */
  function Group(a: Byte, b: Byte, c: Byte): (n: bv32) {
    (a as bv32 << 16) | (b as bv32 << 8) | c as bv32
  }

  /** The low six bits, as an index into a table. */
  function Index(x: bv32): (v: Sextet) {
    (x & 63) as Sextet
  }

  /** The four table indices of a group, top first. */
  function Quad(n: bv32): (q: (Sextet, Sextet, Sextet, Sextet)) {
    (Index(n >> 18), Index(n >> 12), Index(n >> 6), Index(n))
  }

  function Pop(x: bv32): (r: bv32) {
    x >> 6
  }

  lemma PushPop(x: bv32)
    ensures Push(Pop(x), Index(x)) == x
  {
  }

  lemma QuadPops(n: bv32)
    requires n < 0x1000000
    ensures Quad(n) == (Index(Pop(Pop(Pop(n)))), Index(Pop(Pop(n))), Index(Pop(n)), Index(n))
    ensures Pop(Pop(Pop(Pop(n)))) == 0
  {
  }

  lemma GroupBytes(a: Byte, b: Byte, c: Byte)
    ensures var n := Group(a, b, c);
            && n < 0x1000000 && Emit(Pop(Pop(n)), 4) == a && Emit(Pop(n), 2) == b && Emit(n, 0) == c
            && (b == 0 ==> Pop(Pop(n)) & 0x0f == 0) && (c == 0 ==> Pop(n) & 0x03 == 0)
  {
  }

  /** Feeding the indices of a group back through the accumulator returns its three bytes. */
  lemma GroupEmits(a: Byte, b: Byte, c: Byte)
    ensures var q := Quad(Group(a, b, c));
            var acc2 := Push(Push(0, q.0), q.1);
            var acc3 := Push(acc2, q.2);
            && Emit(acc2, 4) == a && Emit(acc3, 2) == b && Emit(Push(acc3, q.3), 0) == c
            && (b == 0 ==> acc2 & 0x0f == 0) && (c == 0 ==> acc3 & 0x03 == 0)
  {
    hide *;
    var n := Group(a, b, c);
    GroupBytes(a, b, c);
    QuadPops(n);
    PushPop(n);
    PushPop(Pop(n));
    PushPop(Pop(Pop(n)));
    PushPop(Pop(Pop(Pop(n))));
  }

  lemma LowClear(x: bv32)
    ensures x & 0x0f == 0 ==> Low(x, 4) == Zeros(4)
    ensures x & 0x03 == 0 ==> Low(x, 2) == Zeros(2)
  {
  }

  lemma SextetsUnfold(q0: Sextet, q1: Sextet, q2: Sextet, q3: Sextet)
    ensures SextetsBits([q0, q1]) == SextetBits(q0) + SextetBits(q1)
    ensures SextetsBits([q0, q1, q2]) == SextetBits(q0) + SextetBits(q1) + SextetBits(q2)
    ensures SextetsBits([q0, q1, q2, q3]) == SextetBits(q0) + SextetBits(q1) + SextetBits(q2) + SextetBits(q3)
  {
    hide SextetBits;
    AppendSextet([q0], q1);
    AppendSextet([q0, q1], q2);
    AppendSextet([q0, q1, q2], q3);
    assert SextetsBits([q0]) == SextetBits(q0) + SextetsBits([]);
    assert [q0] + [q1] == [q0, q1] && [q0, q1] + [q2] == [q0, q1, q2] && [q0, q1, q2] + [q3] == [q0, q1, q2, q3];
  }

  lemma BytesUnfold(a: Byte, b: Byte, c: Byte)
    ensures BytesBits([a]) == ByteBits(a)
    ensures BytesBits([a, b]) == ByteBits(a) + ByteBits(b)
    ensures BytesBits([a, b, c]) == ByteBits(a) + ByteBits(b) + ByteBits(c)
  {
    hide ByteBits;
    AppendByte([a], b);
    AppendByte([a, b], c);
    assert BytesBits([a]) == ByteBits(a) + BytesBits([]);
    assert [a] + [b] == [a, b] && [a, b] + [c] == [a, b, c];
  }

  /** The bits of the first two, three and four sextets of a group. */
  lemma GroupBits(a: Byte, b: Byte, c: Byte)
    ensures var (q0, q1, q2, q3) := Quad(Group(a, b, c));
            && (b == 0 ==> SextetsBits([q0, q1]) == BytesBits([a]) + Zeros(4))
            && (c == 0 ==> SextetsBits([q0, q1, q2]) == BytesBits([a, b]) + Zeros(2))
            && SextetsBits([q0, q1, q2, q3]) == BytesBits([a, b, c])
  {
    hide *;
    var (q0, q1, q2, q3) := Quad(Group(a, b, c));
    var acc1 := Push(0, q0);
    var acc2 := Push(acc1, q1);
    var acc3 := Push(acc2, q2);
    var acc4 := Push(acc3, q3);
    GroupEmits(a, b, c);
    EmptyBits(acc4);
    var none: seq<bool> := [];
    Shift(none, 0, 0, q0);
    Shift(none, acc1, 6, q1);
    Shift(ByteBits(a), acc2, 4, q2);
    Shift(ByteBits(a) + ByteBits(b), acc3, 2, q3);
    assert none + Low(acc1, 6) == Low(acc1, 6) && none + none + SextetBits(q0) == SextetBits(q0);
    assert none + ByteBits(a) == ByteBits(a);
    var whole := ByteBits(a) + ByteBits(b) + ByteBits(c);
    assert whole + none == whole;
    SextetsUnfold(q0, q1, q2, q3);
    BytesUnfold(a, b, c);
    if b == 0 {
      LowClear(acc2);
    }
    if c == 0 {
      LowClear(acc3);
    }
  }

  /** The sextets of one chunk of one, two or three bytes; absent bytes count as zero. */
  function ChunkSextets(chunk: seq<Byte>): (vs: seq<Sextet>)
    requires 1 <= |chunk| <= 3
    ensures |vs| == |chunk| + 1
  {
    var (q0, q1, q2, q3) := Quad(Group(chunk[0], if |chunk| > 1 then chunk[1] else 0,
        if |chunk| > 2 then chunk[2] else 0));
    if |chunk| == 1 then [q0, q1] else if |chunk| == 2 then [q0, q1, q2] else [q0, q1, q2, q3]
  }

  lemma PackIs(bits: seq<bool>, k: nat, vs: seq<Sextet>)
    requires k < 6 && SextetsBits(vs) == bits + Zeros(k)
    ensures PackSextets(bits) == vs
  {
    hide *;
    PackSextetsBits(bits);
    assert Slack(|bits|) == k;
    SextetsBitsInjective(PackSextets(bits), vs);
  }

  lemma ChunkPacks(chunk: seq<Byte>)
    requires 1 <= |chunk| <= 3
    ensures PackSextets(BytesBits(chunk)) == ChunkSextets(chunk)
  {
    hide Quad, Group, PackSextets, BytesBits, SextetsBits, Zeros;
    if |chunk| == 1 {
      assert chunk == [chunk[0]];
      GroupBits(chunk[0], 0, 0);
      PackIs(BytesBits(chunk), 4, ChunkSextets(chunk));
    } else if |chunk| == 2 {
      assert chunk == [chunk[0], chunk[1]];
      GroupBits(chunk[0], chunk[1], 0);
      PackIs(BytesBits(chunk), 2, ChunkSextets(chunk));
    } else {
      assert chunk == [chunk[0], chunk[1], chunk[2]];
      GroupBits(chunk[0], chunk[1], chunk[2]);
      assert BytesBits(chunk) + Zeros(0) == BytesBits(chunk);
      PackIs(BytesBits(chunk), 0, ChunkSextets(chunk));
    }
  }

  lemma SextetCount(n: nat)
    requires n % 3 == 0
    ensures (8 * n) % 6 == 0 && ((8 * n + 5) / 6) % 4 == 0
  {
    var k := n / 3;
    assert n == 3 * k && (8 * n + 5) / 6 == 4 * k;
  }

  /** Whole groups before a chunk do not influence its sextets. */
  lemma ChunkSplits(front: seq<Byte>, chunk: seq<Byte>)
    requires |front| % 3 == 0 && 1 <= |chunk| <= 3
    ensures PackSextets(BytesBits(front + chunk)) == PackSextets(BytesBits(front)) + ChunkSextets(chunk)
    ensures |PackSextets(BytesBits(front))| % 4 == 0
  {
    hide *;
    SextetCount(|front|);
    BytesBitsConcat(front, chunk);
    PackSextetsConcat(BytesBits(front), BytesBits(chunk));
    ChunkPacks(chunk);
  }

  lemma StdTextConcat(a: seq<Sextet>, b: seq<Sextet>)
    ensures StdText(a + b) == StdText(a) + StdText(b)
  {
    hide StdSymbol;
  }

  lemma UrlTextConcat(a: seq<Sextet>, b: seq<Sextet>)
    ensures UrlText(a + b) == UrlText(a) + UrlText(b)
  {
    hide UrlSymbol;
  }

  lemma PaddingShift(m: nat, n: nat)
    requires m % 4 == 0
    ensures Padding(m) == "" && Padding(m + n) == Padding(n)
  {
    assert (m + n) % 4 == n % 4;
  }

  lemma StdChunk(front: seq<Byte>, chunk: seq<Byte>)
    requires |front| % 3 == 0 && 1 <= |chunk| <= 3
    ensures StdEncode(front + chunk) == StdEncode(front) + StdText(ChunkSextets(chunk)) + Padding(|chunk| + 1)
  {
    hide PackSextets, BytesBits, StdText, ChunkSextets, Padding;
    var vs := PackSextets(BytesBits(front));
    ChunkSplits(front, chunk);
    StdTextConcat(vs, ChunkSextets(chunk));
    PaddingShift(|vs|, |chunk| + 1);
    assert StdEncode(front) == StdText(vs) + "";
  }

  lemma UrlChunk(front: seq<Byte>, chunk: seq<Byte>)
    requires |front| % 3 == 0 && 1 <= |chunk| <= 3
    ensures UrlEncode(front + chunk) == UrlEncode(front) + UrlText(ChunkSextets(chunk))
  {
    hide PackSextets, BytesBits, UrlText, ChunkSextets;
    ChunkSplits(front, chunk);
    UrlTextConcat(PackSextets(BytesBits(front)), ChunkSextets(chunk));
  }

  lemma StdEmpty()
    ensures StdEncode([]) == "" && UrlEncode([]) == ""
  {
  }

  lemma OneChunk(chunk: seq<Byte>)
    requires 1 <= |chunk| <= 3
    ensures StdEncode(chunk) == StdText(ChunkSextets(chunk)) + Padding(|chunk| + 1)
  {
    hide StdEncode, StdText, ChunkSextets, Padding;
    StdEmpty();
    StdChunk([], chunk);
    assert [] + chunk == chunk;
  }

  lemma VectorSextets()
    ensures ChunkSextets([0x66]) == [25, 32]
    ensures ChunkSextets([0x66, 0x6f]) == [25, 38, 60]
    ensures ChunkSextets([0x66, 0x6f, 0x6f]) == [25, 38, 61, 47]
    ensures ChunkSextets([0x62, 0x61, 0x72]) == [24, 38, 5, 50]
  {
  }

  /** Examples of section 10 of RFC 4648: "f", "fo", "foo" and "foobar". */
  lemma Vectors()
    ensures StdEncode([0x66]) == "Zg==" && StdEncode([0x66, 0x6f]) == "Zm8="
    ensures StdEncode([0x66, 0x6f, 0x6f]) == "Zm9v"
    ensures StdEncode([0x66, 0x6f, 0x6f, 0x62, 0x61, 0x72]) == "Zm9vYmFy"
  {
    hide StdEncode, ChunkSextets;
    VectorSextets();
    OneChunk([0x66]);
    OneChunk([0x66, 0x6f]);
    OneChunk([0x66, 0x6f, 0x6f]);
    StdChunk([0x66, 0x6f, 0x6f], [0x62, 0x61, 0x72]);
    var foo: seq<Byte>, bar: seq<Byte> := [0x66, 0x6f, 0x6f], [0x62, 0x61, 0x72];
    assert foo + bar == [0x66, 0x6f, 0x6f, 0x62, 0x61, 0x72];
  }

  /** Chunks of up to three bytes, the last one zero-filled and marked with '='. */
  method B64Encode(bytes: seq<Byte>) returns (out: string)
    ensures out == StdEncode(bytes)
  {
    hide StdEncode, Quad, Group, StdSymbol;
    out := "";
    var i := 0;
    assert StdEncode(bytes[..0]) == "" by { StdEmpty(); }
    while i < |bytes|
      invariant 0 <= i <= |bytes| && (i % 3 == 0 || i == |bytes|)
      invariant out == StdEncode(bytes[..i])
    {
      var next := if i + 3 <= |bytes| then i + 3 else |bytes|;
      var chunk := bytes[i..next];
      var b1 := if |chunk| > 1 then chunk[1] else 0;
      var b2 := if |chunk| > 2 then chunk[2] else 0;
      var (q0, q1, q2, q3) := Quad(Group(chunk[0], b1, b2));
      ghost var before := out;
      out := out + [StdSymbol(q0)];
      out := out + [StdSymbol(q1)];
      out := out + [if |chunk| > 1 then StdSymbol(q2) else '='];
      out := out + [if |chunk| > 2 then StdSymbol(q3) else '='];
      assert out == before + (StdText(ChunkSextets(chunk)) + Padding(|chunk| + 1));
      StdChunk(bytes[..i], chunk);
      assert bytes[..i] + chunk == bytes[..next];
      i := next;
    }
    assert bytes[..i] == bytes;
  }

  /** Exact groups of three bytes, then a remainder of one or two. */
  method B64UrlNoPad(bytes: seq<Byte>) returns (out: string)
    ensures out == UrlEncode(bytes)
  {
    hide UrlEncode, Quad, Group, UrlSymbol;
    out := "";
    var i := 0;
    assert UrlEncode(bytes[..0]) == "" by { StdEmpty(); }
    while i + 3 <= |bytes|
      invariant 0 <= i <= |bytes| && i % 3 == 0
      invariant out == UrlEncode(bytes[..i])
    {
      var c := bytes[i..i + 3];
      var (q0, q1, q2, q3) := Quad(Group(c[0], c[1], c[2]));
      ghost var before := out;
      out := out + [UrlSymbol(q0)];
      out := out + [UrlSymbol(q1)];
      out := out + [UrlSymbol(q2)];
      out := out + [UrlSymbol(q3)];
      assert out == before + UrlText(ChunkSextets(c));
      UrlChunk(bytes[..i], c);
      assert bytes[..i] + c == bytes[..i + 3];
      i := i + 3;
    }
    var rem := bytes[i..];
    assert bytes[..i] + rem == bytes;
    ghost var before := out;
    if |rem| == 1 {
      var (q0, q1, _, _) := Quad(Group(rem[0], 0, 0));
      out := out + [UrlSymbol(q0)];
      out := out + [UrlSymbol(q1)];
      assert out == before + UrlText(ChunkSextets(rem));
      UrlChunk(bytes[..i], rem);
    } else if |rem| == 2 {
      var (q0, q1, q2, _) := Quad(Group(rem[0], rem[1], 0));
      out := out + [UrlSymbol(q0)];
      out := out + [UrlSymbol(q1)];
      out := out + [UrlSymbol(q2)];
      assert out == before + UrlText(ChunkSextets(rem));
      UrlChunk(bytes[..i], rem);
    } else {
      assert bytes[..i] == bytes;
    }
  }

  // ---------- What the codecs promise together ----------

  lemma {:induction false} KeptConcat(a: string, b: string)
    ensures Kept(a + b) == (match (Kept(a), Kept(b)) case (Some(x), Some(y)) => Some(x + y) case _ => None)
    decreases |b|
  {
    hide SymbolValue, Skipped;
    if b == [] {
      assert a + b == a;
      assert Kept(a).Some? ==> Kept(a).value + [] == Kept(a).value;
    } else {
      var front := b[..|b| - 1];
      KeptConcat(a, front);
      assert (a + b)[..|a + b| - 1] == a + front;
      if Kept(a).Some? && Kept(front).Some? && SymbolValue(b[|b| - 1]).Some? {
        Assoc(Kept(a).value, Kept(front).value, [SymbolValue(b[|b| - 1]).value]);
      }
    }
  }

  /** Everything the decoder does not refuse. */
  const ACCEPTED: string := UPPER + LOWER + DIGITS + "+/-_=\n\r"

  lemma InUpper(c: char)
    ensures c in UPPER <==> 'A' <= c <= 'Z'
  {
    if 'A' <= c <= 'Z' {
      assert UPPER[c as int - 'A' as int] == c;
    }
  }

  lemma InLower(c: char)
    ensures c in LOWER <==> 'a' <= c <= 'z'
  {
    if 'a' <= c <= 'z' {
      assert LOWER[c as int - 'a' as int] == c;
    }
  }

  lemma InDigits(c: char)
    ensures c in DIGITS <==> '0' <= c <= '9'
  {
    if '0' <= c <= '9' {
      assert DIGITS[c as int - '0' as int] == c;
    }
  }

  predicate IsAccepted(c: char) {
    c in ACCEPTED
  }

  lemma AcceptedParts(c: char)
    ensures IsAccepted(c) <==> c in UPPER || c in LOWER || c in DIGITS || c in "+/-_=\n\r"
  {
  }

  lemma OthersListed(c: char)
    ensures c in "+/-_=\n\r" <==>
            c == '+' || c == '/' || c == '-' || c == '_' || c == '=' || c == '\n' || c == '\r'
  {
  }

  lemma AcceptedListed(c: char)
    ensures IsAccepted(c) <==> Skipped(c) || SymbolValue(c).Some?
  {
    hide IsAccepted;
    InUpper(c);
    InLower(c);
    InDigits(c);
    OthersListed(c);
    AcceptedParts(c);
  }

  lemma {:induction false} DecodeAccepts(s: string)
    ensures Decode(s).Some? <==> forall i :: 0 <= i < |s| ==> IsAccepted(s[i])
  {
    hide SymbolValue, Skipped, IsAccepted;
    if s != [] {
      var front := s[..|s| - 1];
      DecodeAccepts(front);
      AcceptedListed(s[|s| - 1]);
      assert forall i :: 0 <= i < |front| ==> front[i] == s[i];
    }
  }

  /** Decoding succeeds exactly on texts of the two alphabets, padding and line breaks. */
  lemma DecodeSucceedsIff(s: string)
    ensures Decode(s).Some? <==> forall i :: 0 <= i < |s| ==> s[i] in ACCEPTED
  {
    hide Decode;
    DecodeAccepts(s);
  }

  /** Other white space is not skipped: a blank or a tab anywhere makes decoding fail. */
  lemma OtherSpaceFails(a: string, b: string)
    ensures Decode(a + " " + b) == None && Decode(a + "\t" + b) == None
  {
    AcceptedListed(' ');
    AcceptedListed('\t');
    hide Decode, IsAccepted;
    DecodeAccepts(a + " " + b);
    DecodeAccepts(a + "\t" + b);
    assert (a + " " + b)[|a|] == ' ' && (a + "\t" + b)[|a|] == '\t';
  }

  lemma {:induction false} KeptNoise(noise: string)
    requires forall i :: 0 <= i < |noise| ==> Skipped(noise[i])
    ensures Kept(noise) == Some([])
  {
    if noise != [] {
      KeptNoise(noise[..|noise| - 1]);
    }
  }

  /** Line breaks and padding are invisible wherever they stand. */
  lemma SkippedAnywhere(a: string, noise: string, b: string)
    requires forall i :: 0 <= i < |noise| ==> Skipped(noise[i])
    ensures Decode(a + noise + b) == Decode(a + b)
  {
    hide SymbolValue, Skipped, PackBytes, SextetsBits;
    KeptNoise(noise);
    KeptConcat(a, noise);
    KeptConcat(a + noise, b);
    KeptConcat(a, b);
    assert Kept(a).Some? ==> Kept(a).value + [] == Kept(a).value;
  }

  /** The same symbol in either alphabet. */
  predicate SameSymbol(a: char, b: char) {
    a == b || (a in "+-" && b in "+-") || (a in "/_" && b in "/_")
  }

  lemma SameSymbolValue(a: char, b: char)
    requires SameSymbol(a, b)
    ensures SymbolValue(a) == SymbolValue(b) && Skipped(a) == Skipped(b)
  {
  }

  /** Exchanging the alphabets, symbol by symbol and in any mixture, changes nothing. */
  lemma {:induction false} AlphabetsInterchange(s: string, t: string)
    requires |s| == |t| && forall i :: 0 <= i < |s| ==> SameSymbol(s[i], t[i])
    ensures Kept(s) == Kept(t) && Decode(s) == Decode(t)
  {
    hide SymbolValue, Skipped, SameSymbol;
    if s != [] {
      var k := |s| - 1;
      AlphabetsInterchange(s[..k], t[..k]);
      SameSymbolValue(s[k], t[k]);
    }
  }

  lemma {:induction false} KeptText(vs: seq<Sextet>)
    ensures Kept(StdText(vs)) == Some(vs) == Kept(UrlText(vs))
  {
    hide SymbolValue, Skipped, StdSymbol, UrlSymbol;
    if vs != [] {
      var k := |vs| - 1;
      KeptText(vs[..k]);
      SymbolsDecode(vs[k]);
      assert StdText(vs)[..k] == StdText(vs[..k]) && UrlText(vs)[..k] == UrlText(vs[..k]);
      assert vs == vs[..k] + [vs[k]];
    }
  }

  lemma KeptEncoded(bytes: seq<Byte>)
    ensures Kept(StdEncode(bytes)) == Some(PackSextets(BytesBits(bytes))) == Kept(UrlEncode(bytes))
  {
    hide PackSextets, BytesBits, SymbolValue, StdText, UrlText;
    var vs := PackSextets(BytesBits(bytes));
    KeptText(vs);
    KeptNoise(Padding(|vs|));
    KeptConcat(StdText(vs), Padding(|vs|));
    assert vs + [] == vs;
  }

  lemma DecodeKept(s: string)
    requires Kept(s).Some?
    ensures Decode(s) == Some(PackBytes(SextetsBits(Kept(s).value)))
  {
  }

  /** decode(encode(x)) == x for both encoders. */
  lemma DecodeEncode(bytes: seq<Byte>)
    ensures Decode(StdEncode(bytes)) == Some(bytes) == Decode(UrlEncode(bytes))
  {
    hide *;
    KeptEncoded(bytes);
    var bits := BytesBits(bytes);
    PackSextetsBits(bits);
    PackBytesInverse(bytes, Zeros(Slack(|bits|)));
    DecodeKept(StdEncode(bytes));
    DecodeKept(UrlEncode(bytes));
  }

  /** Different inputs never share an encoding. */
  lemma EncodeInjective(a: seq<Byte>, b: seq<Byte>)
    ensures UrlEncode(a) == UrlEncode(b) ==> a == b
    ensures StdEncode(a) == StdEncode(b) ==> a == b
  {
    hide *;
    DecodeEncode(a);
    DecodeEncode(b);
  }

  function StripPadding(s: string): (r: string) {
    if s != [] && s[|s| - 1] == '=' then StripPadding(s[..|s| - 1]) else s
  }

  function Translate(s: string): (r: string)
    ensures |r| == |s|
  {
    seq(|s|, i requires 0 <= i < |s| => ToUrl(s[i]))
  }

  lemma {:induction false} StripPads(s: string, pad: string)
    requires s == [] || s[|s| - 1] != '='
    requires forall i :: 0 <= i < |pad| ==> pad[i] == '='
    ensures StripPadding(s + pad) == s
    decreases |pad|
  {
    if pad == [] {
      assert s + pad == s;
    } else {
      StripPads(s, pad[..|pad| - 1]);
      assert (s + pad)[..|s + pad| - 1] == s + pad[..|pad| - 1];
    }
  }

  /** The unpadded URL form is the padded standard form with its padding stripped and its two
      special symbols exchanged. */
  lemma UrlIsStdTranslated(bytes: seq<Byte>)
    ensures UrlEncode(bytes) == Translate(StripPadding(StdEncode(bytes)))
  {
    hide PackSextets, BytesBits, StdSymbol, UrlSymbol, ToUrl, SymbolValue, StripPadding;
    var vs := PackSextets(BytesBits(bytes));
    forall i | 0 <= i < |vs|
      ensures UrlSymbol(vs[i]) == ToUrl(StdSymbol(vs[i])) && StdSymbol(vs[i]) != '='
    {
      SymbolsDecode(vs[i]);
    }
    StripPads(StdText(vs), Padding(|vs|));
  }
}
