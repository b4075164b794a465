/**
 The symmetric operations of registration (internal/wire/registration/crypto.go), from the HMAC, the cipher and single
 bits alone.
 */
module CryptoInFull {
  import opened Bytes
  import opened Bits
  import opened RegistrationCrypto
  import opened RegistrationWire

  // ---------- PBKDF2 ----------

  /** How many of the strings have bit k set in byte p. */
  ghost function Ones(us: seq<Mac>, p: nat, k: nat): nat
    requires p < MAC_BYTES
  {
    if us == [] then 0 else Ones(us[..|us| - 1], p, k) + us[|us| - 1][p] / Exp2(k) % 2
  }

  /** U_1 is the HMAC of salt and counter, and each next one that of the one before. */
  ghost predicate AreIterates(hmac: Hmac, password: seq<byte>, first: seq<byte>, us: seq<Mac>) {
    && |us| > 0 && us[0] == hmac(password, first)
    && forall j | 0 <= j < |us| - 1 :: us[j + 1] == hmac(password, us[j])
  }

  lemma {:induction false} FoldedIsParity(hmac: Hmac, password: seq<byte>, salt: seq<byte>, counter: seq<byte>, n: nat)
    returns (us: seq<Mac>)
    requires n > 0
    ensures |us| == n && AreIterates(hmac, password, salt + counter, us)
    ensures us[n - 1] == Iterate(hmac, password, salt, counter, n)
    ensures forall p: nat, k: nat | p < MAC_BYTES && k < 8 ::
              Folded(hmac, password, salt, counter, n)[p] / Exp2(k) % 2 == Ones(us, p, k) % 2
  {
    var u := Iterate(hmac, password, salt, counter, n);
    if n == 1 {
      us := [u];
      forall p: nat, k: nat | p < MAC_BYTES && k < 8
        ensures u[p] / Exp2(k) % 2 == Ones(us, p, k) % 2
      {
        OneMoreOne([], u, p, k);
      }
    } else {
      var before := FoldedIsParity(hmac, password, salt, counter, n - 1);
      us := before + [u];
      var t := Folded(hmac, password, salt, counter, n - 1);
      assert Folded(hmac, password, salt, counter, n) == Xor(t, u);
      assert AreIterates(hmac, password, salt + counter, us);
      hide Folded, Iterate, Xor, AreIterates;
      forall p: nat, k: nat | p < MAC_BYTES && k < 8
        ensures Xor(t, u)[p] / Exp2(k) % 2 == Ones(us, p, k) % 2
      {
        OneMoreOne(before, u, p, k);
        XoredParity(t, u, p, k, Ones(before, p, k));
      }
    }
  }

  lemma {:induction false} OneMoreOne(us: seq<Mac>, u: Mac, p: nat, k: nat)
    requires p < MAC_BYTES
    ensures Ones(us + [u], p, k) == Ones(us, p, k) + Bit(u[p], k)
  {
    assert (us + [u])[..|us|] == us;
  }

  lemma {:induction false} XoredParity(t: Mac, u: Mac, p: nat, k: nat, ones: nat)
    requires p < MAC_BYTES && k < 8 && t[p] / Exp2(k) % 2 == ones % 2
    ensures Xor(t, u)[p] / Exp2(k) % 2 == (ones + Bit(u[p], k)) % 2
  {
    BitOfXorByte(t, u, p, k);
    assert Bit(t[p], k) == ones % 2 && Bit(Xor(t, u)[p], k) == Xor(t, u)[p] / Exp2(k) % 2;
    hide Bit, Xor, Exp2;
  }

  /** Where block i is in the derived key. */
  lemma {:induction false} BlockAt(hmac: Hmac, password: seq<byte>, salt: seq<byte>, iterations: nat, n: nat, i: nat)
    requires iterations > 0 && 1 <= i <= n
    ensures Blocks(hmac, password, salt, iterations, n)[MAC_BYTES * (i - 1)..MAC_BYTES * i] ==
            Folded(hmac, password, salt, Counter(i), iterations)
  {
    hide Folded, Counter;
    var blocks := Blocks(hmac, password, salt, iterations, n);
    var before := Blocks(hmac, password, salt, iterations, n - 1);
    assert blocks[..MAC_BYTES * (n - 1)] == before;
    if i < n {
      BlockAt(hmac, password, salt, iterations, n - 1, i);
      assert blocks[MAC_BYTES * (i - 1)..MAC_BYTES * i] == before[MAC_BYTES * (i - 1)..MAC_BYTES * i];
    }
  }

  /**
   Byte p of block i of a derived key, bit by bit: the parity of that bit over all iterates for counter i.
   */
  lemma {:induction false} DerivedIsParity(hmac: Hmac, password: seq<byte>, salt: seq<byte>, iterations: nat,
                                           length: nat,
                                           i: nat)
    returns (us: seq<Mac>)
    requires iterations > 0 && 1 <= i < 0x1_0000_0000 && MAC_BYTES * (i - 1) < length
    ensures i < ByteBound(4) && |us| == iterations && AreIterates(hmac, password, salt + FillBytes(i, 4), us)
    ensures forall p: nat, k: nat | p < MAC_BYTES && k < 8 && MAC_BYTES * (i - 1) + p < length ::
              Derived(hmac, password, salt, iterations, length)[MAC_BYTES * (i - 1) + p] / Exp2(k) % 2 ==
              Ones(us, p, k) % 2
  {
    assert ByteBound(4) == 0x1_0000_0000;
    SmallCounter(i);
    us := FoldedIsParity(hmac, password, salt, Counter(i), iterations);
    var n := BlockCount(length);
    assert i <= n;
    BlockAt(hmac, password, salt, iterations, n, i);
    hide Folded, Blocks, Counter, FillBytes, ByteBound, AreIterates, Ones, BlockCount;
    var blocks := Blocks(hmac, password, salt, iterations, n);
    var block := Folded(hmac, password, salt, Counter(i), iterations);
    forall p: nat | p < MAC_BYTES && MAC_BYTES * (i - 1) + p < length
      ensures Derived(hmac, password, salt, iterations, length)[MAC_BYTES * (i - 1) + p] == block[p]
    {
      assert blocks[MAC_BYTES * (i - 1)..MAC_BYTES * i][p] == blocks[MAC_BYTES * (i - 1) + p];
    }
  }

  /** The session keys: 10000 iterations, 32 bytes to authenticate and 16 to wrap with. */
  lemma {:induction false} KeysAreDerived(s: RawSuite, shared: seq<byte>, salt: seq<byte>)
    ensures var (authKey, wrapKey) := DeriveKeys(s, shared, salt);
      |authKey| == 32 && |wrapKey| == 16 && authKey + wrapKey == Derived(s.hmac, shared, salt, 10000, 48)
  {
    hide Derived;
    var derived := Derived(s.hmac, shared, salt, 10000, 48);
    assert derived[..32] + derived[32..] == derived;
  }

  // ---------- CBC, padding and wrapping ----------

  /** Bit by bit, x is a with b added without carrying. */
  ghost predicate IsXor(x: seq<byte>, a: seq<byte>, b: seq<byte>) {
    |x| == |a| == |b| && forall p: nat, k: nat | p < |x| && k < 8 ::
      x[p] / Exp2(k) % 2 == (a[p] / Exp2(k) % 2 + b[p] / Exp2(k) % 2) % 2
  }

  lemma {:induction false} XorIsXor(a: seq<byte>, b: seq<byte>)
    requires |a| == |b|
    ensures IsXor(Xor(a, b), a, b)
  {
    forall p: nat, k: nat | p < |a| && k < 8
      ensures Xor(a, b)[p] / Exp2(k) % 2 == (a[p] / Exp2(k) % 2 + b[p] / Exp2(k) % 2) % 2
    {
      BitOfXorByte(a, b, p, k);
      assert Bit(Xor(a, b)[p], k) == Xor(a, b)[p] / Exp2(k) % 2;
    }
  }

  ghost function BlockOf(s: seq<byte>, i: nat): seq<byte>
    requires 16 * i + 16 <= |s|
  {
    s[16 * i..16 * i + 16]
  }

  /** Block i of the ciphertext encrypts the exclusive or of the plaintext's with the one before, or the vector. */
  ghost predicate ChainsAt(c: BlockCipher, key: seq<byte>, iv: Block, plain: seq<byte>, cipher: seq<byte>, i: nat)
    requires |cipher| == |plain| >= 16 * i + 16
  {
    exists x: Block :: IsXor(x, BlockOf(plain, i), if i == 0 then iv else BlockOf(cipher, i - 1)) &&
                       BlockOf(cipher, i) == c.encrypt(key, x)
  }

  ghost predicate IsChained(c: BlockCipher, key: seq<byte>, iv: Block, plain: seq<byte>, cipher: seq<byte>) {
    |cipher| == |plain| && forall i: nat | 16 * i + 16 <= |plain| :: ChainsAt(c, key, iv, plain, cipher, i)
  }

  lemma {:induction false} EncryptIsChained(c: BlockCipher, key: seq<byte>, iv: Block, plain: seq<byte>)
    requires |plain| % BLOCK_BYTES == 0
    ensures IsChained(c, key, iv, plain, CbcEncrypt(c, key, iv, plain))
    decreases |plain|
  {
    if plain != [] {
      var first: Block := plain[..16];
      var x: Block := Xor(first, iv);
      var b := c.encrypt(key, x);
      var rest := CbcEncrypt(c, key, b, plain[16..]);
      var cipher := CbcEncrypt(c, key, iv, plain);
      assert cipher == b + rest;
      EncryptIsChained(c, key, b, plain[16..]);
      XorIsXor(first, iv);
      hide Xor, CbcEncrypt, IsXor, IsChained;
      assert BlockOf(plain, 0) == first && BlockOf(cipher, 0) == b;
      ChainedOn(c, key, iv, x, plain, cipher);
    }
  }

  lemma {:induction false} ChainedOn(c: BlockCipher, key: seq<byte>, iv: Block, x: Block, plain: seq<byte>,
                                     cipher: seq<byte>)
    requires |plain| == |cipher| >= 16 && IsXor(x, BlockOf(plain, 0), iv) && BlockOf(cipher, 0) == c.encrypt(key, x)
    requires IsChained(c, key, cipher[..16], plain[16..], cipher[16..])
    ensures IsChained(c, key, iv, plain, cipher)
  {
    hide IsXor;
    forall i: nat | 16 * i + 16 <= |plain|
      ensures ChainsAt(c, key, iv, plain, cipher, i)
    {
      if i == 0 {
        assert IsXor(x, BlockOf(plain, i), iv);
      } else {
        var j := i - 1;
        assert ChainsAt(c, key, cipher[..16], plain[16..], cipher[16..], j);
        var y: Block :|
          && IsXor(y, BlockOf(plain[16..], j), if j == 0 then cipher[..16] else BlockOf(cipher[16..], j - 1))
          && BlockOf(cipher[16..], j) == c.encrypt(key, y);
        BlockOfTail(plain, j);
        BlockOfTail(cipher, j);
        if j > 0 {
          BlockOfTail(cipher, j - 1);
        }
        assert BlockOf(cipher, 0) == cipher[..16];
        assert IsXor(y, BlockOf(plain, i), BlockOf(cipher, i - 1));
      }
    }
  }

  lemma {:induction false} BlockOfTail(s: seq<byte>, j: nat)
    requires 16 * j + 32 <= |s|
    ensures BlockOf(s[16..], j) == BlockOf(s, j + 1)
  {
  }

  /** The plaintext of wrapping: the data, eight bytes of its MAC, and n bytes n. */
  ghost predicate IsPaddedBy(hmac: Hmac, authKey: seq<byte>, data: seq<byte>, plain: seq<byte>, n: byte) {
    |plain| == |data| + 8 + n && plain == data + hmac(authKey, data)[..8] + seq(n, _ => n)
  }

  /** The padding fills up the last block. */
  ghost predicate IsPadded(hmac: Hmac, authKey: seq<byte>, data: seq<byte>, plain: seq<byte>) {
    |plain| % 16 == 0 && exists n: byte :: 1 <= n <= 16 && IsPaddedBy(hmac, authKey, data, plain, n)
  }

  lemma {:induction false} PadIsPadded(hmac: Hmac, authKey: seq<byte>, data: seq<byte>)
    ensures IsPadded(hmac, authKey, data, Pad(data + Tag(hmac, authKey, data), 16))
  {
    OneIsJoined(data);
    var tagged := data + Tag(hmac, authKey, data);
    assert tagged == data + hmac(authKey, data)[..8];
    var n := Padding(|tagged|, 16);
    hide Padding, Tag;
    assert Repeat(n % 256, n) == seq(n, _ => n);
    assert IsPaddedBy(hmac, authKey, data, Pad(tagged, 16), n);
  }

  lemma {:induction false} OneIsJoined(data: seq<byte>)
    ensures Joined([data]) == data
  {
    assert [data][..0] == [];
  }

  /** Wrapping, in full. With `UnwrapInvertsWrap` this says what unwrapping does too. */
  lemma {:induction false} WrappedInFull(c: BlockCipher, hmac: Hmac, data: seq<byte>, authKey: seq<byte>,
                                         wrapKey: seq<byte>, iv: Block)
    returns (plain: seq<byte>, cipher: seq<byte>)
    ensures Wrapped(c, hmac, data, authKey, wrapKey, iv).Ok? <==>
            |wrapKey| == 16 || |wrapKey| == 24 || |wrapKey| == 32
    ensures Wrapped(c, hmac, data, authKey, wrapKey, iv).Ok? ==>
      && IsPadded(hmac, authKey, data, plain) && IsChained(c, wrapKey, iv, plain, cipher)
      && Wrapped(c, hmac, data, authKey, wrapKey, iv).value == cipher + iv
  {
    plain := Pad(data + Tag(hmac, authKey, data), BLOCK_BYTES);
    PadIsPadded(hmac, authKey, data);
    hide Pad, CbcEncrypt, IsChained, IsPadded, Tag;
    EncryptIsChained(c, wrapKey, iv, plain);
    cipher := CbcEncrypt(c, wrapKey, iv, plain);
  }
}
