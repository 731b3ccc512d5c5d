/** Numbers as binary digits and as bytes, most significant first. */
module Numbers {
  import opened Bits

  /** The k low binary digits of a number, most significant first. */
  function Binary(n: nat, k: nat): (r: seq<bool>)
    ensures |r| == k
  {
    if k == 0 then [] else Binary(n / 2, k - 1) + [n % 2 == 1]
  }

  lemma BinaryTwo(n: nat, k: nat)
    ensures Binary(n, k + 2) == Binary(n / 4, k) + [n / 2 % 2 == 1, n % 2 == 1]
  {
    assert Binary(n, k + 2) == Binary(n / 2, k + 1) + [n % 2 == 1];
    assert Binary(n / 2, k + 1) == Binary(n / 2 / 2, k) + [n / 2 % 2 == 1];
    assert n / 2 / 2 == n / 4;
  }

  lemma BinaryFour(n: nat, k: nat)
    ensures Binary(n, k + 4) == Binary(n / 16, k) + [n / 8 % 2 == 1, n / 4 % 2 == 1, n / 2 % 2 == 1, n % 2 == 1]
  {
    hide Binary;
    BinaryTwo(n, k + 2);
    BinaryTwo(n / 4, k);
    assert n / 4 / 2 == n / 8 && n / 4 / 4 == n / 16;
  }

  function Pow2(j: nat): (p: nat)
    ensures p > 0
  {
    if j == 0 then 1 else 2 * Pow2(j - 1)
  }

  /** Digits of a number built from a high and a low part. */
  lemma {:induction false} BinaryJoin(q: nat, v: nat, k: nat, j: nat)
    requires v < Pow2(j)
    ensures Binary(Pow2(j) * q + v, k + j) == Binary(q, k) + Binary(v, j)
    decreases j
  {
    if j == 0 {
      assert Pow2(0) * q + v == q;
    } else {
      var r := Pow2(j - 1) * q;
      assert Pow2(j) * q == 2 * r;
      BinaryJoin(q, v / 2, k, j - 1);
      assert (2 * r + v) / 2 == r + v / 2 && (2 * r + v) % 2 == v % 2;
      assert Binary(2 * r + v, k + j) == Binary(r + v / 2, k + j - 1) + [v % 2 == 1];
    }
  }

  lemma PowEight()
    ensures Pow2(8) == 256
  {
    assert Pow2(4) == 16;
  }

  lemma ByteDigits(v: nat)
    requires v < 256
    ensures ByteBits(v as Byte)
            == [v / 128 % 2 == 1, v / 64 % 2 == 1, v / 32 % 2 == 1, v / 16 % 2 == 1,
                v / 8 % 2 == 1, v / 4 % 2 == 1, v / 2 % 2 == 1, v % 2 == 1]
  {
  }

  lemma Quotients(v: nat)
    ensures v / 16 / 2 == v / 32 && v / 16 / 4 == v / 64 && v / 16 / 8 == v / 128
  {
  }

  lemma BinaryEight(v: nat)
    ensures Binary(v, 8)
            == [v / 128 % 2 == 1, v / 64 % 2 == 1, v / 32 % 2 == 1, v / 16 % 2 == 1,
                v / 8 % 2 == 1, v / 4 % 2 == 1, v / 2 % 2 == 1, v % 2 == 1]
  {
    assert Binary(v / 16 / 16, 0) == [];
    hide Binary;
    BinaryFour(v, 4);
    BinaryFour(v / 16, 0);
    Quotients(v);
  }

  lemma BinaryLow(n: nat, k: nat)
    ensures Binary(n, k + 8) == Binary(n / 256, k) + ByteBits((n % 256) as Byte)
  {
    hide Binary, ByteBits;
    PowEight();
    BinaryJoin(n / 256, n % 256, k, 8);
    BinaryEight(n % 256);
    ByteDigits(n % 256);
  }

  /** A number below 2^(8k) as k bytes, most significant first. */
  function NumberBytes(n: nat, k: nat): (r: seq<Byte>)
    ensures |r| == k
  {
    if k == 0 then [] else NumberBytes(n / 256, k - 1) + [(n % 256) as Byte]
  }

  lemma NumberBytesStep(n: nat, k: nat)
    requires k > 0
    ensures NumberBytes(n, k) == NumberBytes(n / 256, k - 1) + [(n % 256) as Byte]
  {
  }

  lemma OneByteBits(b: Byte)
    ensures BytesBits([b]) == ByteBits(b)
  {
    assert BytesBits([b]) == ByteBits(b) + BytesBits([]);
  }

  /** The bits of those bytes are the binary digits of the number. */
  lemma {:induction false} NumberBytesBits(n: nat, k: nat)
    ensures BytesBits(NumberBytes(n, k)) == Binary(n, 8 * k)
  {
    if k > 0 {
      hide *;
      NumberBytesBits(n / 256, k - 1);
      NumberBytesStep(n, k);
      BytesBitsConcat(NumberBytes(n / 256, k - 1), [(n % 256) as Byte]);
      OneByteBits((n % 256) as Byte);
      BinaryLow(n, 8 * (k - 1));
      assert 8 * (k - 1) + 8 == 8 * k;
    }
  }
}
