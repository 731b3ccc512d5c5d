/** SHA-1 as the loops of src/lib.rs:135-178, against the recursive definitions of sections
    4.1.1, 4.2.1, 5.1.1 and 6.1.2 of FIPS 180-4. */
module Sha1 {
  import opened Bits
  import opened Numbers

  type Word = bv32

  // ---------- FIPS 180-4 ----------

  function Rotl(x: Word, n: nat): (r: Word)
    requires 0 < n < 32
  {
    (x << n) | (x >> (32 - n))
  }

  function Ch(x: Word, y: Word, z: Word): (r: Word) {
    (x & y) ^ (!x & z)
  }

  function Parity(x: Word, y: Word, z: Word): (r: Word) {
    x ^ y ^ z
  }

  function Maj(x: Word, y: Word, z: Word): (r: Word) {
    (x & y) ^ (x & z) ^ (y & z)
  }

  function F(t: nat, x: Word, y: Word, z: Word): (r: Word)
    requires t < 80
  {
    if t < 20 then Ch(x, y, z) else if t < 40 then Parity(x, y, z)
    else if t < 60 then Maj(x, y, z) else Parity(x, y, z)
  }

  function K(t: nat): (r: Word)
    requires t < 80
  {
    if t < 20 then 0x5a827999 else if t < 40 then 0x6ed9eba1 else if t < 60 then 0x8f1bbcdc else 0xca62c1d6
  }

  /** Message schedule of one block of sixteen words. */
  function W(m: seq<Word>, t: nat): (r: Word)
    requires |m| == 16
  {
    if t < 16 then m[t] else Rotl(W(m, t - 3) ^ W(m, t - 8) ^ W(m, t - 14) ^ W(m, t - 16), 1)
  }

  /** Addition modulo 2^32. */
  function Sum(a: Word, b: Word, c: Word, d: Word, e: Word): (r: Word) {
    a + b + c + d + e
  }

  datatype State = State(a: Word, b: Word, c: Word, d: Word, e: Word)

  const INITIAL := State(0x67452301, 0xefcdab89, 0x98badcfe, 0x10325476, 0xc3d2e1f0)

  /** The working variables after t rounds. */
  function Rounds(m: seq<Word>, h: State, t: nat): (s: State)
    requires |m| == 16 && t <= 80
  {
    if t == 0 then h
    else
      var s := Rounds(m, h, t - 1);
      var temp := Sum(Rotl(s.a, 5), F(t - 1, s.b, s.c, s.d), s.e, K(t - 1), W(m, t - 1));
      State(temp, s.a, Rotl(s.b, 30), s.c, s.d)
  }

  function Add(x: State, y: State): (s: State) {
    State(x.a + y.a, x.b + y.b, x.c + y.c, x.d + y.d, x.e + y.e)
  }

  function BigEndian(b0: Byte, b1: Byte, b2: Byte, b3: Byte): (w: Word) {
    (b0 as Word << 24) | (b1 as Word << 16) | (b2 as Word << 8) | b3 as Word
  }

  function BlockWords(block: seq<Byte>): (m: seq<Word>)
    requires |block| == 64
    ensures |m| == 16
  {
    seq(16, i requires 0 <= i < 16 => BigEndian(block[4 * i], block[4 * i + 1], block[4 * i + 2], block[4 * i + 3]))
  }

  /** The intermediate hash value after n blocks. */
  function HashAfter(msg: seq<Byte>, n: nat): (h: State)
    requires 64 * n <= |msg|
  {
    if n == 0 then INITIAL
    else
      var h := HashAfter(msg, n - 1);
      Add(h, Rounds(BlockWords(msg[64 * n - 64..64 * n]), h, 80))
  }

  function WordBytes(w: Word): (r: seq<Byte>)
    ensures |r| == 4
  {
    [((w >> 24) & 0xff) as Byte, ((w >> 16) & 0xff) as Byte, ((w >> 8) & 0xff) as Byte, (w & 0xff) as Byte]
  }

  function DigestBytes(h: State): (r: seq<Byte>)
    ensures |r| == 20
  {
    WordBytes(h.a) + WordBytes(h.b) + WordBytes(h.c) + WordBytes(h.d) + WordBytes(h.e)
  }

  /** Zero bits between the one bit and the length block of an l-bit message. */
  function ZeroFill(l: nat): (k: nat)
    ensures k < 512
  {
    (447 - l) % 512
  }

  /** Section 5.1.1: the message, a one bit, k zero bits, the 64 binary digits of its length. */
  function FipsPad(bits: seq<bool>): (r: seq<bool>)
    requires |bits| < 0x1_0000_0000_0000_0000
  {
    bits + [true] + Zeros(ZeroFill(|bits|)) + Binary(|bits|, 64)
  }

  /** The digest of a message given as bits: section 6.1.2 over the padded message. */
  function FipsSha1(bits: seq<bool>): (r: seq<Byte>)
    requires |bits| < 0x1_0000_0000_0000_0000
    ensures |r| == 20
  {
    var msg := PackBytes(FipsPad(bits));
    DigestBytes(HashAfter(msg, |msg| / 64))
  }

  /** k is the least fill that reaches 448 modulo 512. */
  lemma ZeroFillLeast(l: nat, j: nat)
    ensures (l + 1 + ZeroFill(l)) % 512 == 448
    ensures (l + 1 + j) % 512 == 448 ==> ZeroFill(l) <= j
  {
    var k := ZeroFill(l);
    var q := (447 - l) / 512;
    assert 447 - l == 512 * q + k;
    assert l + 1 + k == 448 + 512 * (-q);
  }

  // ---------- Words ----------

  /** The first byte is the most significant. */
  lemma BigEndianBytes(b0: Byte, b1: Byte, b2: Byte, b3: Byte)
    ensures var w := BigEndian(b0, b1, b2, b3);
            && w >> 24 == b0 as Word && (w >> 16) & 0xff == b1 as Word
            && (w >> 8) & 0xff == b2 as Word && w & 0xff == b3 as Word
  {
  }

  lemma WordBytesRebuild(w: Word)
    ensures var r := WordBytes(w); BigEndian(r[0], r[1], r[2], r[3]) == w
  {
  }

  /** The rotations in use, written with their own shifts. */
  lemma RotlShifts(x: Word)
    ensures Rotl(x, 1) == (x << 1) | (x >> 31)
    ensures Rotl(x, 5) == (x << 5) | (x >> 27)
    ensures Rotl(x, 30) == (x << 30) | (x >> 2)
  {
  }

  lemma ShiftsMove(x: Word)
    ensures ((x << 1) | (x >> 31)) & 0x1 == x >> 31 && ((x << 1) | (x >> 31)) >> 1 == x & 0x7fff_ffff
    ensures ((x << 5) | (x >> 27)) & 0x1f == x >> 27 && ((x << 5) | (x >> 27)) >> 5 == x & 0x07ff_ffff
    ensures ((x << 30) | (x >> 2)) & 0x3fff_ffff == x >> 2 && ((x << 30) | (x >> 2)) >> 30 == x & 0x3
  {
  }

  /** A rotation to the left by n moves the n high bits below the others and changes nothing else. */
  lemma RotlMoves(x: Word)
    ensures var r := (x << 1) | (x >> 31);
            Rotl(x, 1) == r && r & 0x1 == x >> 31 && r >> 1 == x & 0x7fff_ffff
    ensures var r := (x << 5) | (x >> 27);
            Rotl(x, 5) == r && r & 0x1f == x >> 27 && r >> 5 == x & 0x07ff_ffff
    ensures var r := (x << 30) | (x >> 2);
            Rotl(x, 30) == r && r & 0x3fff_ffff == x >> 2 && r >> 30 == x & 0x3
  {
    hide Rotl;
    RotlShifts(x);
    ShiftsMove(x);
  }

  /** Addition carries and wraps at 2^32, in the sum of a round and in each word of the hash value. */
  lemma AdditionWraps()
    ensures Sum(0xffff_ffff, 1, 2, 3, 4) == 9
    ensures Sum(0x8000_0000, 0x4000_0000, 0x4000_0000, 0x1_0001, 0xffff) == 0x2_0000
    ensures Add(State(0xffff_ffff, 3, 5, 7, 9), State(2, 1, 3, 1, 0xffff_ffff)) == State(1, 4, 8, 8, 8)
  {
  }

  // ---------- The loops ----------

  function ZeroBytes(n: nat): (r: seq<Byte>)
    ensures |r| == n
  {
    seq(n, _ => 0)
  }

  /** The bit length as the code computes it: a u64 product, which wraps. */
  function BitLength(n: nat): (x: nat) {
    8 * n % 0x1_0000_0000_0000_0000
  }

  /** Big-endian bytes of a 64-bit number. */
  function LengthBytes(x: nat): (r: seq<Byte>)
    ensures |r| == 8
  {
    NumberBytes(x, 8)
  }

  /** Zero bytes between the marker byte and the length field. */
  function FillBytes(n: nat): (k: nat)
    ensures k < 64 && (n + 1 + k + 8) % 64 == 0
  {
    var k, q := (55 - n) % 64, (55 - n) / 64;
    assert n + 1 + k + 8 == 64 * (1 - q);
    k
  }

  function Padded(data: seq<Byte>): (r: seq<Byte>)
    ensures |r| % 64 == 0
  {
    data + [0x80] + ZeroBytes(FillBytes(|data|)) + LengthBytes(BitLength(|data|))
  }

  lemma FillContinues(len: nat, n: nat)
    requires n <= FillBytes(len) && (len + 1 + n) % 64 != 56
    ensures n < FillBytes(len)
  {
    var k, q := (55 - len) % 64, (55 - len) / 64;
    assert len + 1 + k == 56 + 64 * (-q);
  }

  lemma FillStops(len: nat, n: nat)
    requires n <= FillBytes(len) && (len + 1 + n) % 64 == 56
    ensures n == FillBytes(len)
  {
    var k, q := (55 - len) % 64, (55 - len) / 64;
    var p := (len + 1 + n) / 64;
    assert len + 1 + n == 56 + 64 * p && 55 - len == 64 * q + k;
    assert k - n == 64 * (-q - p);
  }

  method Pad(data: seq<Byte>) returns (msg: seq<Byte>)
    ensures msg == Padded(data)
  {
    hide LengthBytes, BitLength;
    var bitLen := BitLength(|data|);
    msg := data;
    msg := msg + [0x80];
    ghost var n := 0;
    while |msg| % 64 != 56
      invariant n <= FillBytes(|data|)
      invariant msg == data + [0x80] + ZeroBytes(n)
      decreases FillBytes(|data|) - n
    {
      FillContinues(|data|, n);
      assert ZeroBytes(n + 1) == ZeroBytes(n) + [0];
      msg := msg + [0];
      n := n + 1;
    }
    FillStops(|data|, n);
    msg := msg + LengthBytes(bitLen);
  }

  lemma ScheduleStep(m: seq<Word>, t: nat)
    requires |m| == 16
    ensures t < 16 ==> W(m, t) == m[t]
    ensures t >= 16 ==> W(m, t) == Rotl(W(m, t - 3) ^ W(m, t - 8) ^ W(m, t - 14) ^ W(m, t - 16), 1)
  {
  }

  /** The 80-word schedule, filled in place. */
  method Schedule(block: seq<Byte>) returns (w: array<Word>)
    requires |block| == 64
    ensures fresh(w) && w.Length == 80
    ensures forall t :: 0 <= t < 80 ==> w[t] == W(BlockWords(block), t)
  {
    hide BigEndian, Rotl, W;
    ghost var m := BlockWords(block);
    w := new Word[80](_ => 0);
    for i := 0 to 16
      invariant forall t :: 0 <= t < i ==> w[t] == W(m, t)
    {
      w[i] := BigEndian(block[i * 4], block[i * 4 + 1], block[i * 4 + 2], block[i * 4 + 3]);
      ScheduleStep(m, i);
    }
    for i := 16 to 80
      invariant forall t :: 0 <= t < i ==> w[t] == W(m, t)
    {
      w[i] := Rotl(w[i - 3] ^ w[i - 8] ^ w[i - 14] ^ w[i - 16], 1);
      ScheduleStep(m, i);
    }
  }

  function OrCh(b: Word, c: Word, d: Word): (r: Word) {
    (b & c) | (!b & d)
  }

  function OrMaj(b: Word, c: Word, d: Word): (r: Word) {
    (b & c) | (b & d) | (c & d)
  }

  function Xor(b: Word, c: Word, d: Word): (r: Word) {
    b ^ c ^ d
  }

  lemma ChForm(b: Word, c: Word, d: Word)
    ensures (b & c) | (!b & d) == (b & c) ^ (!b & d)
  {
  }

  lemma MajForm(b: Word, c: Word, d: Word)
    ensures (b & c) | (b & d) | (c & d) == (b & c) ^ (b & d) ^ (c & d)
  {
  }

  lemma OrChIsCh(b: Word, c: Word, d: Word)
    ensures OrCh(b, c, d) == Ch(b, c, d)
  {
    ChForm(b, c, d);
  }

  lemma OrMajIsMaj(b: Word, c: Word, d: Word)
    ensures OrMaj(b, c, d) == Maj(b, c, d)
  {
    MajForm(b, c, d);
  }

  /** The OR forms of the code are the exclusive-or forms of the standard. */
  lemma OrForms(b: Word, c: Word, d: Word)
    ensures OrCh(b, c, d) == Ch(b, c, d) && Xor(b, c, d) == Parity(b, c, d) && OrMaj(b, c, d) == Maj(b, c, d)
  {
    hide OrCh, OrMaj, Ch, Maj;
    OrChIsCh(b, c, d);
    OrMajIsMaj(b, c, d);
  }

  /** The function and constant of round i as the code writes them. */
  method RoundFunction(i: nat, b: Word, c: Word, d: Word) returns (f: Word, k: Word)
    requires i < 80
    ensures f == F(i, b, c, d) && k == K(i)
  {
    hide OrCh, OrMaj, Xor, Ch, Maj, Parity;
    OrForms(b, c, d);
    if i < 20 {
      f, k := OrCh(b, c, d), 0x5A82_7999;
    } else if i < 40 {
      f, k := Xor(b, c, d), 0x6ED9_EBA1;
    } else if i < 60 {
      f, k := OrMaj(b, c, d), 0x8F1B_BCDC;
    } else {
      f, k := Xor(b, c, d), 0xCA62_C1D6;
    }
  }

  ghost function Words(h: State): (r: seq<Word>)
    ensures |r| == 5
  {
    [h.a, h.b, h.c, h.d, h.e]
  }

  lemma RoundStep(m: seq<Word>, h: State, t: nat)
    requires |m| == 16 && t < 80
    ensures var s := Rounds(m, h, t);
            Rounds(m, h, t + 1)
            == State(Sum(Rotl(s.a, 5), F(t, s.b, s.c, s.d), s.e, K(t), W(m, t)), s.a, Rotl(s.b, 30), s.c, s.d)
  {
    hide W, Rotl, F, K, Sum;
  }

  lemma RoundsZero(m: seq<Word>, h: State)
    requires |m| == 16
    ensures Rounds(m, h, 0) == h
  {
  }

  /** The eighty rounds over the five rotating variables. */
  method RunRounds(block: seq<Byte>, start: State) returns (s: State)
    requires |block| == 64
    ensures s == Rounds(BlockWords(block), start, 80)
  {
    hide W, Rotl, BlockWords, F, K, Rounds, Sum;
    ghost var m := BlockWords(block);
    var w := Schedule(block);
    var a, b, c, d, e := start.a, start.b, start.c, start.d, start.e;
    RoundsZero(m, start);
    for i := 0 to 80
      invariant State(a, b, c, d, e) == Rounds(m, start, i)
      invariant forall t :: 0 <= t < 80 ==> w[t] == W(m, t)
    {
      RoundStep(m, start, i);
      var f, k := RoundFunction(i, b, c, d);
      var tmp := Sum(Rotl(a, 5), f, e, k, w[i]);
      e := d;
      d := c;
      c := Rotl(b, 30);
      b := a;
      a := tmp;
    }
    s := State(a, b, c, d, e);
  }

  /** One block folded into the running hash, in place. */
  method Compress(h: array<Word>, block: seq<Byte>, ghost start: State)
    requires h.Length == 5 && |block| == 64 && h[..] == Words(start)
    modifies h
    ensures h[..] == Words(Add(start, Rounds(BlockWords(block), start, 80)))
  {
    hide BlockWords, Rounds, Add;
    var before := State(h[0], h[1], h[2], h[3], h[4]);
    assert before == start by {
      assert h[..][0] == start.a && h[..][1] == start.b && h[..][2] == start.c
        && h[..][3] == start.d && h[..][4] == start.e;
    }
    var s := RunRounds(block, before);
    var next := Add(before, s);
    h[0] := next.a;
    h[1] := next.b;
    h[2] := next.c;
    h[3] := next.d;
    h[4] := next.e;
  }

  // ---------- Padding ----------

  lemma {:induction false} ZeroBytesBits(n: nat)
    ensures BytesBits(ZeroBytes(n)) == Zeros(8 * n)
  {
    if n > 0 {
      ZeroBytesBits(n - 1);
      assert ZeroBytes(n)[1..] == ZeroBytes(n - 1);
      assert ByteBits(0) == Zeros(8);
      assert Zeros(8) + Zeros(8 * (n - 1)) == Zeros(8 * n);
    }
  }

  lemma MarkerBits()
    ensures BytesBits([0x80]) == [true] + Zeros(7)
  {
    assert BytesBits([0x80]) == ByteBits(0x80) + BytesBits([]);
    assert ByteBits(0x80) == [true, false, false, false, false, false, false, false];
  }

  lemma FillAgrees(n: nat)
    ensures ZeroFill(8 * n) == 7 + 8 * FillBytes(n)
  {
    var k, q := (55 - n) % 64, (55 - n) / 64;
    assert 447 - 8 * n == 512 * q + (7 + 8 * k);
  }

  lemma PaddedBits(data: seq<Byte>)
    ensures var k := FillBytes(|data|);
            BytesBits(Padded(data))
            == BytesBits(data) + BytesBits([0x80]) + BytesBits(ZeroBytes(k)) + BytesBits(LengthBytes(BitLength(|data|)))
  {
    hide LengthBytes, BytesBits, ZeroBytes, BitLength, FillBytes;
    var k := FillBytes(|data|);
    BytesBitsConcat(data, [0x80]);
    BytesBitsConcat(data + [0x80], ZeroBytes(k));
    BytesBitsConcat(data + [0x80] + ZeroBytes(k), LengthBytes(BitLength(|data|)));
  }

  lemma ZerosConcat(a: nat, b: nat)
    ensures Zeros(a) + Zeros(b) == Zeros(a + b)
  {
  }

  /** The marker byte and the zero bytes are the one bit and the zero bits. */
  lemma FillBits(front: seq<bool>, k: nat)
    ensures front + BytesBits([0x80]) + BytesBits(ZeroBytes(k)) == front + [true] + Zeros(7 + 8 * k)
  {
    hide *;
    ZeroBytesBits(k);
    MarkerBits();
    ZerosConcat(7, 8 * k);
    Assoc(front, [true], Zeros(7));
    Assoc(front + [true], Zeros(7), Zeros(8 * k));
  }

  /** The length field holds the binary digits of the length in bits. */
  lemma LengthField(n: nat)
    requires n < 0x2000_0000_0000_0000
    ensures BytesBits(LengthBytes(BitLength(n))) == Binary(8 * n, 64)
  {
    assert BitLength(n) == 8 * n;
    hide BytesBits, Binary, NumberBytes, BitLength;
    NumberBytesBits(8 * n, 8);
  }

  /** The byte-wise padding is the bit-wise padding of the standard. */
  lemma PaddedIsFips(data: seq<Byte>)
    requires |data| < 0x2000_0000_0000_0000
    ensures BytesBits(Padded(data)) == FipsPad(BytesBits(data))
  {
    hide BytesBits, Zeros, ZeroBytes, ZeroFill, BitLength, LengthBytes, Padded, FillBytes, Binary;
    PaddedBits(data);
    FillBits(BytesBits(data), FillBytes(|data|));
    FillAgrees(|data|);
    LengthField(|data|);
  }

  lemma PaddingMarks(a: seq<Byte>, b: seq<Byte>)
    requires |a| < |b|
    ensures Padded(a) != Padded(b)
  {
    hide LengthBytes, BitLength;
    assert Padded(b)[|b|] == 0x80 && |b| < |Padded(b)| - 8;
    if |Padded(a)| == |Padded(b)| {
      assert Padded(a)[|b|] == 0;
    }
  }

  /** Different messages are never padded to the same blocks, whatever their length field says. */
  lemma PaddingInjective(a: seq<Byte>, b: seq<Byte>)
    ensures Padded(a) == Padded(b) <==> a == b
  {
    if |a| < |b| {
      PaddingMarks(a, b);
    } else if |b| < |a| {
      PaddingMarks(b, a);
    } else if Padded(a) == Padded(b) {
      assert a == Padded(a)[..|a|] && b == Padded(b)[..|b|];
    }
  }

  /** The digest as a function of bytes. */
  function Hash(data: seq<Byte>): (r: seq<Byte>)
    ensures |r| == 20
  {
    DigestBytes(HashAfter(Padded(data), |Padded(data)| / 64))
  }

  lemma HashIsFips(data: seq<Byte>)
    requires |data| < 0x2000_0000_0000_0000
    ensures Hash(data) == FipsSha1(BytesBits(data))
  {
    hide Padded, BytesBits, PackBytes, FipsPad, DigestBytes, HashAfter;
    PaddedIsFips(data);
    PackBytesInverse(Padded(data), []);
    assert BytesBits(Padded(data)) + [] == BytesBits(Padded(data));
  }

  lemma HashStep(msg: seq<Byte>, i: nat)
    requires 64 * (i + 1) <= |msg|
    ensures HashAfter(msg, 0) == INITIAL
    ensures var h := HashAfter(msg, i);
            HashAfter(msg, i + 1) == Add(h, Rounds(BlockWords(msg[64 * i..64 * (i + 1)]), h, 80))
  {
    hide Rounds, Add, BlockWords;
  }

  /** The loop over the 64-byte blocks. */
  method HashBlocks(msg: seq<Byte>) returns (h: array<Word>)
    ensures fresh(h) && h.Length == 5 && h[..] == Words(HashAfter(msg, |msg| / 64))
  {
    hide Rounds, Add, BlockWords;
    h := new Word[5];
    h[0], h[1], h[2], h[3], h[4] := 0x6745_2301, 0xEFCD_AB89, 0x98BA_DCFE, 0x1032_5476, 0xC3D2_E1F0;
    var i := 0;
    assert h[..] == Words(HashAfter(msg, 0));
    hide HashAfter;
    while 64 * (i + 1) <= |msg|
      invariant 0 <= 64 * i <= |msg|
      invariant h[..] == Words(HashAfter(msg, i))
    {
      HashStep(msg, i);
      Compress(h, msg[64 * i..64 * (i + 1)], HashAfter(msg, i));
      i := i + 1;
    }
    assert i == |msg| / 64;
  }

  /** The loops compute the standard's digest for every message the standard covers; beyond that
      the length field wraps and Hash says what comes out. */
  method Digest(data: seq<Byte>) returns (out: seq<Byte>)
    ensures out == Hash(data)
    ensures |data| < 0x2000_0000_0000_0000 ==> out == FipsSha1(BytesBits(data))
  {
    hide HashAfter, Padded, WordBytes, FipsSha1, BytesBits;
    var msg := Pad(data);
    var h := HashBlocks(msg);
    ghost var final := HashAfter(msg, |msg| / 64);
    assert h[..][0] == final.a && h[..][1] == final.b && h[..][2] == final.c
      && h[..][3] == final.d && h[..][4] == final.e;
    out := [];
    for i := 0 to 5
      invariant |out| == 4 * i
      invariant i == 1 ==> out == WordBytes(final.a)
      invariant i == 2 ==> out == WordBytes(final.a) + WordBytes(final.b)
      invariant i == 3 ==> out == WordBytes(final.a) + WordBytes(final.b) + WordBytes(final.c)
      invariant i == 4 ==> out == WordBytes(final.a) + WordBytes(final.b) + WordBytes(final.c) + WordBytes(final.d)
      invariant i == 5 ==> out == DigestBytes(final)
      invariant h[..] == Words(final)
    {
      out := out + WordBytes(h[i]);
    }
    if |data| < 0x2000_0000_0000_0000 {
      HashIsFips(data);
    }
  }
}
