/** Bit strings: the common yardstick against which the codecs and the SHA-1 padding are stated.
    Bytes, base64 sextets and 64-bit length fields are all read most significant bit first. */
module Bits {
  type Byte = bv8
  type Sextet = bv6
  type Hash32 = h: seq<Byte> | |h| == 32 witness seq(32, _ => 0 as Byte)

  datatype Option<+T> = None | Some(value: T)

  function ByteBits(b: Byte): (r: seq<bool>)
    ensures |r| == 8
  {
    [b & 0x80 != 0, b & 0x40 != 0, b & 0x20 != 0, b & 0x10 != 0,
     b & 0x08 != 0, b & 0x04 != 0, b & 0x02 != 0, b & 0x01 != 0]
  }

  function SextetBits(v: Sextet): (r: seq<bool>)
    ensures |r| == 6
  {
    [v & 0x20 != 0, v & 0x10 != 0, v & 0x08 != 0, v & 0x04 != 0, v & 0x02 != 0, v & 0x01 != 0]
  }

  function BytesBits(bs: seq<Byte>): (r: seq<bool>)
    ensures |r| == 8 * |bs|
  {
    if bs == [] then [] else ByteBits(bs[0]) + BytesBits(bs[1..])
  }

  function SextetsBits(vs: seq<Sextet>): (r: seq<bool>)
    ensures |r| == 6 * |vs|
  {
    if vs == [] then [] else SextetBits(vs[0]) + SextetsBits(vs[1..])
  }

  function ByteOf(b7: bool, b6: bool, b5: bool, b4: bool, b3: bool, b2: bool, b1: bool, b0: bool): (b: Byte)
    ensures (b & 0x80 != 0) == b7 && (b & 0x40 != 0) == b6 && (b & 0x20 != 0) == b5 && (b & 0x10 != 0) == b4
    ensures (b & 0x08 != 0) == b3 && (b & 0x04 != 0) == b2 && (b & 0x02 != 0) == b1 && (b & 0x01 != 0) == b0
  {
    (if b7 then 0x80 else 0) | (if b6 then 0x40 else 0) | (if b5 then 0x20 else 0) | (if b4 then 0x10 else 0) |
    (if b3 then 0x08 else 0) | (if b2 then 0x04 else 0) | (if b1 then 0x02 else 0) | (if b0 then 0x01 else 0)
  }

  function SextetOf(b5: bool, b4: bool, b3: bool, b2: bool, b1: bool, b0: bool): (v: Sextet)
    ensures (v & 0x20 != 0) == b5 && (v & 0x10 != 0) == b4 && (v & 0x08 != 0) == b3
    ensures (v & 0x04 != 0) == b2 && (v & 0x02 != 0) == b1 && (v & 0x01 != 0) == b0
  {
    (if b5 then 0x20 else 0) | (if b4 then 0x10 else 0) | (if b3 then 0x08 else 0) |
    (if b2 then 0x04 else 0) | (if b1 then 0x02 else 0) | (if b0 then 0x01 else 0)
  }

  function BitsByte(bs: seq<bool>): (b: Byte)
    requires |bs| == 8
  {
    ByteOf(bs[0], bs[1], bs[2], bs[3], bs[4], bs[5], bs[6], bs[7])
  }

  function BitsSextet(bs: seq<bool>): (v: Sextet)
    requires |bs| == 6
  {
    SextetOf(bs[0], bs[1], bs[2], bs[3], bs[4], bs[5])
  }

  /** Whole bytes of a bit string; a tail of fewer than eight bits is dropped. */
  function PackBytes(bits: seq<bool>): (r: seq<Byte>)
    ensures |r| == |bits| / 8
  {
    if |bits| < 8 then [] else [BitsByte(bits[..8])] + PackBytes(bits[8..])
  }

  function Zeros(n: nat): (r: seq<bool>)
    ensures |r| == n
  {
    seq(n, _ => false)
  }

  /** Sextets of a bit string; the last one is completed with zero bits on the right. */
  function PackSextets(bits: seq<bool>): (r: seq<Sextet>)
    ensures |r| == (|bits| + 5) / 6
  {
    if bits == [] then []
    else if |bits| < 6 then [BitsSextet(bits + Zeros(6 - |bits|))]
    else [BitsSextet(bits[..6])] + PackSextets(bits[6..])
  }

  /** Zero bits needed to complete the last sextet. */
  function Slack(n: nat): (k: nat)
    ensures k < 6 && (n + k) % 6 == 0
  {
    6 * ((n + 5) / 6) - n
  }

  lemma BitsByteBits(bs: seq<bool>)
    requires |bs| == 8
    ensures ByteBits(BitsByte(bs)) == bs
  {
    hide ByteOf;
  }

  lemma BitsSextetBits(bs: seq<bool>)
    requires |bs| == 6
    ensures SextetBits(BitsSextet(bs)) == bs
  {
    hide SextetOf;
  }

  /** Packing keeps exactly the whole bytes. */
  lemma {:induction false} PackBytesBits(bits: seq<bool>)
    ensures BytesBits(PackBytes(bits)) == bits[..8 * (|bits| / 8)]
  {
    hide ByteBits, BitsByte;
    if |bits| >= 8 {
      var rest := bits[8..];
      PackBytesBits(rest);
      BitsByteBits(bits[..8]);
      assert PackBytes(bits)[1..] == PackBytes(rest);
      assert bits[..8 * (|bits| / 8)] == bits[..8] + rest[..8 * (|rest| / 8)];
    }
  }

  lemma Assoc<T>(a: seq<T>, b: seq<T>, c: seq<T>)
    ensures (a + b) + c == a + (b + c)
  {
  }

  /** Packing sextets loses nothing and adds only the zero bits that complete the last one. */
  lemma {:induction false} PackSextetsBits(bits: seq<bool>)
    ensures SextetsBits(PackSextets(bits)) == bits + Zeros(Slack(|bits|))
  {
    hide SextetBits, BitsSextet;
    if 0 < |bits| < 6 {
      BitsSextetBits(bits + Zeros(6 - |bits|));
    } else if |bits| >= 6 {
      var rest := bits[6..];
      PackSextetsBits(rest);
      BitsSextetBits(bits[..6]);
      assert PackSextets(bits)[1..] == PackSextets(rest);
      assert bits == bits[..6] + rest && Slack(|bits|) == Slack(|rest|);
      Assoc(bits[..6], rest, Zeros(Slack(|rest|)));
    }
  }

  lemma {:induction false} BytesBitsConcat(a: seq<Byte>, b: seq<Byte>)
    ensures BytesBits(a + b) == BytesBits(a) + BytesBits(b)
  {
    hide ByteBits;
    if a == [] {
      assert a + b == b;
    } else {
      assert (a + b)[0] == a[0] && (a + b)[1..] == a[1..] + b;
      BytesBitsConcat(a[1..], b);
      Assoc(ByteBits(a[0]), BytesBits(a[1..]), BytesBits(b));
    }
  }

  lemma {:induction false} SextetsBitsConcat(a: seq<Sextet>, b: seq<Sextet>)
    ensures SextetsBits(a + b) == SextetsBits(a) + SextetsBits(b)
  {
    hide SextetBits;
    if a == [] {
      assert a + b == b;
    } else {
      assert (a + b)[0] == a[0] && (a + b)[1..] == a[1..] + b;
      SextetsBitsConcat(a[1..], b);
      Assoc(SextetBits(a[0]), SextetsBits(a[1..]), SextetsBits(b));
    }
  }

  lemma ByteBitsInjective(a: Byte, b: Byte)
    requires ByteBits(a) == ByteBits(b)
    ensures a == b
  {
    assert forall i :: 0 <= i < 8 ==> ByteBits(a)[i] == ByteBits(b)[i];
  }

  lemma SextetBitsInjective(a: Sextet, b: Sextet)
    requires SextetBits(a) == SextetBits(b)
    ensures a == b
  {
    assert forall i :: 0 <= i < 6 ==> SextetBits(a)[i] == SextetBits(b)[i];
  }

  lemma {:induction false} BytesBitsInjective(a: seq<Byte>, b: seq<Byte>)
    requires BytesBits(a) == BytesBits(b)
    ensures a == b
  {
    if a != [] {
      assert BytesBits(a)[..8] == ByteBits(a[0]) && BytesBits(b)[..8] == ByteBits(b[0]);
      ByteBitsInjective(a[0], b[0]);
      assert BytesBits(a)[8..] == BytesBits(a[1..]) && BytesBits(b)[8..] == BytesBits(b[1..]);
      BytesBitsInjective(a[1..], b[1..]);
    }
  }

  lemma {:induction false} SextetsBitsInjective(a: seq<Sextet>, b: seq<Sextet>)
    requires SextetsBits(a) == SextetsBits(b)
    ensures a == b
  {
    if a != [] {
      assert SextetsBits(a)[..6] == SextetBits(a[0]) && SextetsBits(b)[..6] == SextetBits(b[0]);
      SextetBitsInjective(a[0], b[0]);
      assert SextetsBits(a)[6..] == SextetsBits(a[1..]) && SextetsBits(b)[6..] == SextetsBits(b[1..]);
      SextetsBitsInjective(a[1..], b[1..]);
    }
  }

  /** Packing undoes unpacking, whatever partial byte follows. */
  lemma PackBytesInverse(bs: seq<Byte>, tail: seq<bool>)
    requires |tail| < 8
    ensures PackBytes(BytesBits(bs) + tail) == bs
  {
    hide *;
    var bits := BytesBits(bs) + tail;
    assert |bits| / 8 == |bs| && bits[..8 * |bs|] == BytesBits(bs);
    PackBytesBits(bits);
    BytesBitsInjective(PackBytes(bits), bs);
  }

  lemma SlackOfTail(m: nat, n: nat)
    requires m % 6 == 0
    ensures Slack(m) == 0 && Slack(m + n) == Slack(n)
  {
    assert (m + n) % 6 == n % 6;
  }

  lemma PackSextetsConcat(a: seq<bool>, b: seq<bool>)
    requires |a| % 6 == 0
    ensures PackSextets(a + b) == PackSextets(a) + PackSextets(b)
  {
    hide *;
    var pa, pb, pad := PackSextets(a), PackSextets(b), Zeros(Slack(|b|));
    SlackOfTail(|a|, |b|);
    assert a + Zeros(Slack(|a|)) == a && |a + b| == |a| + |b|;
    PackSextetsBits(a);
    PackSextetsBits(b);
    PackSextetsBits(a + b);
    SextetsBitsConcat(pa, pb);
    Assoc(a, b, pad);
    SextetsBitsInjective(PackSextets(a + b), pa + pb);
  }
}
