/** Bit-level views of naturals: shifts, low bits and bit length, all by halving. */
module Bits {
  import opened PowersOfTwo

  /** n shifted right by k. */
  function Shr(n: nat, k: nat): nat {
    if k == 0 then n else Shr(n / 2, k - 1)
  }

  /** n modulo 2^c. */
  function LowBits(n: nat, c: nat): nat {
    if c == 0 then 0 else n % 2 + 2 * LowBits(n / 2, c - 1)
  }

  /** The number of significant bits. */
  function NumBits(n: nat): nat {
    if n == 0 then 0 else 1 + NumBits(n / 2)
  }

  lemma {:induction false} SplitAt(n: nat, c: nat)
    ensures n == LowBits(n, c) + Pow2(c) * Shr(n, c)
    ensures LowBits(n, c) < Pow2(c)
  {
    if c > 0 {
      SplitAt(n / 2, c - 1);
      TwiceProduct(Pow2(c - 1), Shr(n / 2, c - 1));
    }
  }

  lemma TwiceProduct(p: nat, s: nat)
    ensures (p + p) * s == 2 * (p * s)
  {
  }

  lemma {:induction false} ShrAdd(n: nat, j: nat, k: nat)
    ensures Shr(Shr(n, j), k) == Shr(n, j + k)
  {
    if j > 0 { ShrAdd(n / 2, j - 1, k); }
  }

  lemma {:induction false} ShrSmall(n: nat, k: nat)
    requires n < Pow2(k)
    ensures Shr(n, k) == 0
  {
    if k > 0 { ShrSmall(n / 2, k - 1); }
  }

  lemma LowBitsSmall(n: nat, c: nat)
    requires n < Pow2(c)
    ensures LowBits(n, c) == n
  {
    SplitAt(n, c);
    ShrSmall(n, c);
  }

  /** Bit length and powers of two. */
  lemma {:induction false} NumBitsBound(n: nat, k: nat)
    ensures NumBits(n) <= k <==> n < Pow2(k)
    decreases k
  {
    if n > 0 && k > 0 {
      NumBitsBound(n / 2, k - 1);
      Pow2Double(k - 1);
    }
  }

  // ----------------------------------------------------------------- byte strings

  type Byte = x: int | 0 <= x < 256 witness 0

  /** The integer a little-endian byte string stands for. */
  function FromBytes(b: seq<Byte>): nat {
    if |b| == 0 then 0 else b[0] + 256 * FromBytes(b[1..])
  }

  lemma ByteBits(x: Byte)
    ensures NumBits(x) <= 8
  {
    assert Pow2(2) == 4 && Pow2(4) == 16 && Pow2(6) == 64 && Pow2(8) == 256;
    NumBitsBound(x, 8);
  }

  lemma NumBitsHalf(x: nat, r: nat)
    requires r > 0
    ensures x < 2 ==> NumBits(x + 2 * r) == 1 + NumBits(r)
  {
    if x < 2 { assert (x + 2 * r) / 2 == r; }
  }

  lemma {:induction false} NumBitsShift(x: nat, c: nat, r: nat)
    requires r > 0 && x < Pow2(c)
    ensures NumBits(x + Pow2(c) * r) == c + NumBits(r)
  {
    hide NumBits;
    if c > 0 {
      Pow2Double(c - 1);
      ShiftHalves(x, Pow2(c - 1), r);
      NumBitsHalf(x % 2, x / 2 + Pow2(c - 1) * r);
      NumBitsShift(x / 2, c - 1, r);
    }
  }

  lemma ShiftHalves(x: nat, p: nat, r: nat)
    requires p > 0 && r > 0
    ensures x / 2 + p * r > 0
    ensures x + (p + p) * r == x % 2 + 2 * (x / 2 + p * r)
  {
    MulPos(p, r);
    assert (p + p) * r == 2 * (p * r);
  }

  lemma MulPos(p: nat, r: nat)
    requires p > 0 && r > 0
    ensures p * r > 0
  {
  }

  /** Zero bytes above position k do not count. */
  lemma {:induction false} TopByte(b: seq<Byte>, k: nat)
    requires k < |b| && b[k] != 0
    requires forall i :: k < i < |b| ==> b[i] == 0
    ensures FromBytes(b) > 0 && NumBits(FromBytes(b)) == 8 * k + NumBits(b[k])
  {
    if k == 0 {
      ZeroBytes(b[1..]);
    } else {
      TopByte(b[1..], k - 1);
      assert Pow2(2) == 4 && Pow2(4) == 16 && Pow2(6) == 64 && Pow2(8) == 256;
      NumBitsShift(b[0], 8, FromBytes(b[1..]));
    }
  }

  lemma {:induction false} ZeroBytes(b: seq<Byte>)
    requires forall i :: 0 <= i < |b| ==> b[i] == 0
    ensures FromBytes(b) == 0
  {
    if |b| > 0 { ZeroBytes(b[1..]); }
  }

  /** Leading zeros of a byte. */
  function LeadingZeros(x: Byte): (z: int)
    ensures z == 8 - NumBits(x) && z >= 0
  {
    ByteBits(x);
    8 - NumBits(x)
  }

  /** The scan from the top byte finds the bit length of the whole. */
  method ScalarNumBits(bytes: seq<Byte>) returns (bits: nat)
    ensures bits == NumBits(FromBytes(bytes))
  {
    hide FromBytes, NumBits;
    var i := |bytes|;
    while i > 0
      invariant 0 <= i <= |bytes|
      invariant forall k :: i <= k < |bytes| ==> bytes[k] == 0
    {
      i := i - 1;
      if bytes[i] != 0 {
        TopByte(bytes, i);
        return i * 8 + (8 - LeadingZeros(bytes[i]));
      }
    }
    ZeroBytes(bytes);
    NumBitsZero();
    bits := 0;
  }

  lemma NumBitsZero()
    ensures NumBits(0) == 0
  {
  }
}
