/** Single bits of integers and byte strings. */
module Bits {
  import opened Bytes
  import opened Remainders

  /** Bit k of n, counted from the least significant. */
  function Bit(n: nat, k: nat): (b: nat)
    ensures b < 2
  {
    n / Exp2(k) % 2
  }

  lemma {:induction false} QuotientIsUnique(a: nat, p: nat, k: nat, r: nat)
    requires r < p && a == p * k + r
    ensures a / p == k
  {
    RemainderIsUnique(a, p, k, r);
    var k' := a / p;
    assert p * k' == p * k;
    assert k' < k ==> p * (k' + 1) <= p * k;
    assert k < k' ==> p * (k + 1) <= p * k';
    assert p * (k' + 1) == p * k' + p && p * (k + 1) == p * k + p;
  }

  lemma {:induction false} QuotientOfHalf(n: nat, e: nat)
    requires e > 0
    ensures n / (2 * e) == (n / 2) / e
  {
    var q, r := (n / 2) / e, (n / 2) % e;
    assert n / 2 == e * q + r;
    assert (2 * e) * q == 2 * (e * q);
    QuotientIsUnique(n, 2 * e, q, 2 * r + n % 2);
  }

  /** Bit k + 1 of n is bit k of its half. */
  lemma {:induction false} BitOfHalf(n: nat, k: nat)
    ensures Bit(n, 0) == n % 2
    ensures Bit(n, k + 1) == Bit(n / 2, k)
  {
    QuotientOfHalf(n, Exp2(k));
    assert Exp2(0) == 1;
  }

  /** Bits from the eighth on are those of the bytes before the last. */
  lemma {:induction false} BitOfRest(rest: nat, last: byte, k: nat)
    ensures Bit(rest * 256 + last, k + 8) == Bit(rest, k)
  {
    hide Bit;
    BitOfHalf(rest * 256 + last, k + 7);
    BitOfHalf(rest * 128 + last / 2, k + 6);
    BitOfHalf(rest * 64 + last / 4, k + 5);
    BitOfHalf(rest * 32 + last / 8, k + 4);
    BitOfHalf(rest * 16 + last / 16, k + 3);
    BitOfHalf(rest * 8 + last / 32, k + 2);
    BitOfHalf(rest * 4 + last / 64, k + 1);
    BitOfHalf(rest * 2 + last / 128, k);
  }

  /** What is added above bit m leaves the bits below it alone. */
  lemma {:induction false} HighBitsDoNotCount(high: nat, low: nat, m: nat, k: nat)
    requires k < m
    ensures Bit(Exp2(m) * high + low, k) == Bit(low, k)
  {
    hide Bit;
    var n := Exp2(m) * high + low;
    var half := Exp2(m - 1) * high;
    assert n == 2 * half + low by {
      assert (2 * Exp2(m - 1)) * high == 2 * half;
    }
    hide Exp2;
    if k == 0 {
      BitOfHalf(n, 0);
      BitOfHalf(low, 0);
    } else {
      BitOfHalf(n, k - 1);
      BitOfHalf(low, k - 1);
      assert n / 2 == half + low / 2;
      HighBitsDoNotCount(high, low / 2, m - 1, k - 1);
    }
  }

  lemma {:induction false} BitOfRemainder(n: nat, m: nat, k: nat)
    requires k < m
    ensures Bit(n % Exp2(m), k) == Bit(n, k)
  {
    hide Bit, Exp2;
    var e := Exp2(m);
    var high, low := n / e, n % e;
    assert n == e * high + low;
    HighBitsDoNotCount(high, low, m, k);
  }

  lemma {:induction false} HalvesOfXor(a: nat, b: nat, bits: nat)
    requires bits > 0
    ensures XorBits(a, b, bits) % 2 == (a % 2 + b % 2) % 2
    ensures XorBits(a, b, bits) / 2 == XorBits(a / 2, b / 2, bits - 1)
  {
    LowBitTwice(a, b, XorBits(a / 2, b / 2, bits - 1));
  }

  /** Exclusive or adds bits without carrying. */
  lemma {:induction false} BitOfXor(a: nat, b: nat, bits: nat, k: nat)
    requires k < bits
    ensures Bit(XorBits(a, b, bits), k) == (Bit(a, k) + Bit(b, k)) % 2
  {
    hide Bit, Exp2, XorBits;
    var x := XorBits(a, b, bits);
    HalvesOfXor(a, b, bits);
    BitOfHalf(x, if k == 0 then 0 else k - 1);
    BitOfHalf(a, if k == 0 then 0 else k - 1);
    BitOfHalf(b, if k == 0 then 0 else k - 1);
    if k > 0 {
      BitOfXor(a / 2, b / 2, bits - 1, k - 1);
    }
  }

  lemma {:induction false} BitOfXorByte(a: seq<byte>, b: seq<byte>, q: nat, k: nat)
    requires |a| == |b| && q < |a| && k < 8
    ensures Bit(Xor(a, b)[q], k) == (Bit(a[q], k) + Bit(b[q], k)) % 2
  {
    hide Bit;
    BitOfXor(a[q], b[q], 8, k);
  }

  /** Byte strings are read with the most significant byte first. */
  lemma {:induction false} BitOfBytes(s: seq<byte>, q: nat, k: nat)
    requires q < |s| && k < 8
    ensures Bit(FromBytes(s), 8 * (|s| - 1 - q) + k) == Bit(s[q], k)
    decreases |s|
  {
    hide Bit;
    var n := |s| - 1;
    var rest := FromBytes(s[..n]);
    assert FromBytes(s) == rest * 256 + s[n];
    hide FromBytes;
    if q == n {
      assert Exp2(8) == 256;
      HighBitsDoNotCount(rest, s[n], 8, k);
    } else {
      BitOfRest(rest, s[n], 8 * (n - 1 - q) + k);
      BitOfBytes(s[..n], q, k);
    }
  }

  lemma {:induction false} BitOfFilled(n: nat, length: nat, q: nat, k: nat)
    requires n < ByteBound(length) && q < length && k < 8
    ensures Bit(FillBytes(n, length)[q], k) == Bit(n, 8 * (length - 1 - q) + k)
  {
    hide Bit, ByteBound;
    BitOfBytes(FillBytes(n, length), q, k);
  }

  /** The bits make the number. */
  lemma {:induction false} SameBitsSameNumber(a: nat, b: nat, bits: nat)
    requires a < Exp2(bits) && b < Exp2(bits) && forall k: nat | k < bits :: Bit(a, k) == Bit(b, k)
    ensures a == b
  {
    hide Bit;
    if bits > 0 {
      BitOfHalf(a, 0);
      BitOfHalf(b, 0);
      forall k: nat | k < bits - 1
        ensures Bit(a / 2, k) == Bit(b / 2, k)
      {
        BitOfHalf(a, k);
        BitOfHalf(b, k);
      }
      SameBitsSameNumber(a / 2, b / 2, bits - 1);
    }
  }
}
