/** Bytes, big-endian integers and the block cipher that the rest of the model takes as a value. */
module Bytes {

  type byte = x: int | 0 <= x < 256

  /** 256 to the power `length`: one more than the largest value of that many bytes. */
  function ByteBound(length: nat): (r: nat)
    ensures r > 0
  {
    if length == 0 then 1 else 256 * ByteBound(length - 1)
  }

  /** big.Int.SetBytes, binary.BigEndian.Uint64: the big-endian value of a byte string. */
  function FromBytes(s: seq<byte>): (n: nat)
    ensures n < ByteBound(|s|)
  {
    if s == [] then 0 else FromBytes(s[..|s| - 1]) * 256 + s[|s| - 1]
  }

  /** big.Int.FillBytes, binary.BigEndian.PutUint64: the big-endian value, zero-padded to `length` bytes. */
  function FillBytes(n: nat, length: nat): (s: seq<byte>)
    requires n < ByteBound(length)
    ensures |s| == length
    ensures FromBytes(s) == n
  {
    if length == 0 then [] else
      var s := FillBytes(n / 256, length - 1) + [n % 256];
      assert s[..|s| - 1] == FillBytes(n / 256, length - 1);
      s
  }

  lemma {:induction false} FillBytesOfFromBytes(s: seq<byte>)
    ensures FillBytes(FromBytes(s), |s|) == s
  {
    if s != [] {
      FillBytesOfFromBytes(s[..|s| - 1]);
    }
  }

  /** Leading zero bytes do not change the value. */
  lemma {:induction false} LeadingZero(s: seq<byte>)
    ensures FromBytes([0] + s) == FromBytes(s)
  {
    if s != [] {
      assert ([0] + s)[..|s|] == [0] + s[..|s| - 1];
      LeadingZero(s[..|s| - 1]);
    }
  }

  function Exp2(bits: nat): (r: nat)
    ensures r > 0
  {
    if bits == 0 then 1 else 2 * Exp2(bits - 1)
  }

  lemma {:induction false} ByteBoundIsExp2(length: nat)
    ensures ByteBound(length) == Exp2(8 * length)
  {
    if length > 0 {
      ByteBoundIsExp2(length - 1);
      var k := 8 * (length - 1);
      assert Exp2(k + 4) == 16 * Exp2(k) by { assert Exp2(k + 2) == 4 * Exp2(k); }
      assert Exp2(k + 8) == 16 * Exp2(k + 4) by { assert Exp2(k + 6) == 4 * Exp2(k + 4); }
    }
  }

  /** Exclusive or of the low `bits` bits. */
  function XorBits(a: nat, b: nat, bits: nat): (r: nat)
    ensures r < Exp2(bits)
  {
    if bits == 0 then 0 else (a + b) % 2 + 2 * XorBits(a / 2, b / 2, bits - 1)
  }

  lemma {:induction false} LowBitTwice(a: nat, b: nat, high: nat)
    ensures var x := (a + b) % 2 + 2 * high; x / 2 == high && (x + b) % 2 == a % 2
  {
  }

  lemma {:induction false} XorBitsTwice(a: nat, b: nat, bits: nat)
    requires a < Exp2(bits)
    ensures XorBits(XorBits(a, b, bits), b, bits) == a
  {
    if bits > 0 {
      LowBitTwice(a, b, XorBits(a / 2, b / 2, bits - 1));
      XorBitsTwice(a / 2, b / 2, bits - 1);
    }
  }

  function XorByte(a: byte, b: byte): byte {
    assert Exp2(8) == 256;
    XorBits(a, b, 8)
  }

  /** Bytewise exclusive or of two strings of one length. */
  function Xor(a: seq<byte>, b: seq<byte>): (r: seq<byte>)
    requires |a| == |b|
    ensures |r| == |a|
  {
    seq(|a|, i requires 0 <= i < |a| => XorByte(a[i], b[i]))
  }

  lemma {:induction false} XorTwice(a: seq<byte>, b: seq<byte>)
    requires |a| == |b|
    ensures Xor(Xor(a, b), b) == a
  {
    forall i | 0 <= i < |a|
      ensures XorByte(XorByte(a[i], b[i]), b[i]) == a[i]
    {
      assert Exp2(8) == 256;
      XorBitsTwice(a[i], b[i], 8);
    }
  }

  type Block = s: seq<byte> | |s| == 16 witness seq(16, _ => 0)

  datatype RawCipher = RawCipher(encrypt: (seq<byte>, Block) -> Block, decrypt: (seq<byte>, Block) -> Block)

  ghost predicate MutuallyInverse(c: RawCipher) {
    && (forall key: seq<byte>, b: Block :: c.decrypt(key, c.encrypt(key, b)) == b)
    && (forall key: seq<byte>, b: Block :: c.encrypt(key, c.decrypt(key, b)) == b)
  }

  /** A keyed permutation of 16-byte blocks. AES is one; nothing else about AES is used. */
  type BlockCipher = c: RawCipher | MutuallyInverse(c)
    witness RawCipher((key: seq<byte>, b: Block) => b, (key: seq<byte>, b: Block) => b)

  /** The key lengths `aes.NewCipher` accepts. */
  predicate IsAesKey(key: seq<byte>) {
    |key| == 16 || |key| == 24 || |key| == 32
  }
}
