/**
 The symmetric cryptography of the registration protocol (internal/wire/registration/crypto.go): padding, chaining,
 authenticated wrapping and key derivation, over any HMAC and any block cipher.
 */
module RegistrationCrypto {
  import opened Results
  import opened Bytes
  import opened Randomness
  import opened Remainders

  const MAC_BYTES := 32
  const TAG_BYTES := 8
  const BLOCK_BYTES := 16

  type Mac = s: seq<byte> | |s| == MAC_BYTES witness seq(MAC_BYTES, _ => 0)

  /** HMAC-SHA-256 as a function of key and message. Nothing is assumed of it. */
  type Hmac = (seq<byte>, seq<byte>) -> Mac

  // ---------- hashMAC and join ----------

  function Joined(values: seq<seq<byte>>): seq<byte> {
    if values == [] then [] else Joined(values[..|values| - 1]) + values[|values| - 1]
  }

  function HashMac(hmac: Hmac, key: seq<byte>, values: seq<seq<byte>>): Mac {
    hmac(key, Joined(values))
  }

  /** join */
  method Join(values: seq<seq<byte>>) returns (result: seq<byte>)
    ensures result == Joined(values)
  {
    result := [];
    for k := 0 to |values|
      invariant result == Joined(values[..k])
    {
      assert values[..k + 1][..k] == values[..k];
      result := result + values[k];
    }
    assert values[..|values|] == values;
  }

  // ---------- padding, section 6.3 of RFC 5652 ----------

  function Padding(length: nat, size: nat): (padding: nat)
    requires size > 0
    ensures 1 <= padding <= size && (length + padding) % size == 0
  {
    PaddedLength(length, size);
    size - length % size
  }

  lemma {:induction false} PaddedLength(length: nat, size: nat)
    requires size > 0
    ensures (length + (size - length % size)) % size == 0
  {
    var k := length / size;
    assert length + (size - length % size) == size * (k + 1);
    RemainderIsUnique(length + (size - length % size), size, k + 1, 0);
  }

  function Repeat(b: byte, count: nat): (s: seq<byte>)
    ensures |s| == count
  {
    seq(count, _ => b)
  }

  function Pad(value: seq<byte>, size: nat): (padded: seq<byte>)
    requires size > 0
    ensures |padded| == |value| + Padding(|value|, size)
  {
    value + Repeat(Padding(|value|, size) % 256, Padding(|value|, size))
  }

  function Unpad(value: seq<byte>, size: nat): Result<seq<byte>>
    requires size > 0
  {
    if |value| == 0 || |value| % size != 0 then Err("invalid padding")
    else
      var padding := value[|value| - 1];
      if padding == 0 || padding > size || padding > |value| then Err("invalid padding")
      else if value[|value| - padding..] != Repeat(padding, padding) then Err("invalid padding")
      else Ok(value[..|value| - padding])
  }

  /** pkcs7Pad */
  method Pkcs7Pad(value: seq<byte>, size: nat) returns (result: seq<byte>)
    requires size > 0
    ensures result == Pad(value, size)
  {
    var padding := size - |value| % size;
    var padded := new byte[|value| + padding](k => if 0 <= k < |value| then value[k] else 0);
    for index := |value| to padded.Length
      invariant padded[..index] == value + Repeat(padding % 256, index - |value|)
    {
      padded[index] := padding % 256;
    }
    return padded[..];
  }

  /** pkcs7Unpad */
  method Pkcs7Unpad(value: seq<byte>, size: nat) returns (result: Result<seq<byte>>)
    requires size > 0
    ensures result == Unpad(value, size)
  {
    if |value| == 0 || |value| % size != 0 {
      return Err("invalid padding");
    }
    var padding := value[|value| - 1];
    if padding == 0 || padding > size || padding > |value| {
      return Err("invalid padding");
    }
    var valid := 1;
    var tail := value[|value| - padding..];
    for index := 0 to |tail|
      invariant valid == 0 || valid == 1
      invariant valid == 1 <==> forall k | 0 <= k < index :: tail[k] == padding
    {
      valid := if tail[index] == padding then valid else 0;
    }
    if valid != 1 {
      assert exists k | 0 <= k < |tail| :: tail[k] != Repeat(padding, padding)[k];
      return Err("invalid padding");
    }
    assert tail == Repeat(padding, padding);
    return Ok(value[..|value| - padding]);
  }

  /** Padding comes off again exactly when its length fits a byte; for blocks of up to 255 bytes it always does. */
  lemma {:induction false} UnpadInvertsPad(value: seq<byte>, size: nat)
    requires size > 0
    ensures Unpad(Pad(value, size), size) == Ok(value) <==> Padding(|value|, size) < 256
  {
    hide Padding;
    var padding := Padding(|value|, size);
    var padded := Pad(value, size);
    assert padded[|padded| - 1] == padding % 256;
    if padding < 256 {
      assert padded[|padded| - padding..] == Repeat(padding, padding);
      assert padded[..|padded| - padding] == value;
    } else if Unpad(padded, size).Ok? {
      assert |Unpad(padded, size).value| == |padded| - padding % 256;
    }
  }

  /** Whatever unpads is the padding of what it unpads to. */
  lemma {:induction false} PadInvertsUnpad(padded: seq<byte>, size: nat)
    requires size > 0 && Unpad(padded, size).Ok?
    ensures Pad(Unpad(padded, size).value, size) == padded
  {
    var value := Unpad(padded, size).value;
    var padding := padded[|padded| - 1];
    PaddingIsDetermined(|value|, padding, size);
    assert padded == value + padded[|padded| - padding..];
  }

  lemma {:induction false} PaddingIsDetermined(length: nat, padding: nat, size: nat)
    requires 1 <= padding <= size && (length + padding) % size == 0
    ensures Padding(length, size) == padding
  {
    var k := (length + padding) / size;
    assert length + padding == size * k;
    var m := length / size;
    assert length == size * m + length % size;
    assert size * (m + 1) == size * m + size && size * (k + 1) == size * k + size;
    assert k <= m ==> size * k <= size * m;
    assert k >= m + 2 ==> size * k >= size * (m + 2) == size * m + 2 * size;
    assert k == m + 1;
  }

  // ---------- cipher block chaining ----------

  function CbcEncrypt(c: BlockCipher, key: seq<byte>, iv: Block, plain: seq<byte>): (cipher: seq<byte>)
    requires |plain| % BLOCK_BYTES == 0
    ensures |cipher| == |plain|
    decreases |plain|
  {
    if plain == [] then [] else
      var b := c.encrypt(key, Xor(plain[..BLOCK_BYTES], iv));
      b + CbcEncrypt(c, key, b, plain[BLOCK_BYTES..])
  }

  function CbcDecrypt(c: BlockCipher, key: seq<byte>, iv: Block, cipher: seq<byte>): (plain: seq<byte>)
    requires |cipher| % BLOCK_BYTES == 0
    ensures |plain| == |cipher|
    decreases |cipher|
  {
    if cipher == [] then [] else
      var b: Block := cipher[..BLOCK_BYTES];
      Xor(c.decrypt(key, b), iv) + CbcDecrypt(c, key, b, cipher[BLOCK_BYTES..])
  }

  lemma {:induction false} DecryptInvertsEncrypt(c: BlockCipher, key: seq<byte>, iv: Block, plain: seq<byte>)
    requires |plain| % BLOCK_BYTES == 0
    ensures CbcDecrypt(c, key, iv, CbcEncrypt(c, key, iv, plain)) == plain
    decreases |plain|
  {
    hide Xor;
    if plain != [] {
      var b := c.encrypt(key, Xor(plain[..BLOCK_BYTES], iv));
      var rest := CbcEncrypt(c, key, b, plain[BLOCK_BYTES..]);
      var cipher: seq<byte> := b + rest;
      assert cipher[..BLOCK_BYTES] == b && cipher[BLOCK_BYTES..] == rest;
      XorTwice(plain[..BLOCK_BYTES], iv);
      DecryptInvertsEncrypt(c, key, b, plain[BLOCK_BYTES..]);
      assert plain[..BLOCK_BYTES] + plain[BLOCK_BYTES..] == plain;
    }
  }

  lemma {:induction false} EncryptInvertsDecrypt(c: BlockCipher, key: seq<byte>, iv: Block, cipher: seq<byte>)
    requires |cipher| % BLOCK_BYTES == 0
    ensures CbcEncrypt(c, key, iv, CbcDecrypt(c, key, iv, cipher)) == cipher
    decreases |cipher|
  {
    hide Xor;
    if cipher != [] {
      var b: Block := cipher[..BLOCK_BYTES];
      var first := Xor(c.decrypt(key, b), iv);
      var rest := CbcDecrypt(c, key, b, cipher[BLOCK_BYTES..]);
      var plain := first + rest;
      assert plain[..BLOCK_BYTES] == first && plain[BLOCK_BYTES..] == rest;
      XorTwice(c.decrypt(key, b), iv);
      EncryptInvertsDecrypt(c, key, b, cipher[BLOCK_BYTES..]);
      assert cipher[..BLOCK_BYTES] + cipher[BLOCK_BYTES..] == cipher;
    }
  }

  // ---------- wrap and unwrap ----------

  const NO_CIPHER := "registration: create wrapping cipher"

  function Tag(hmac: Hmac, authKey: seq<byte>, data: seq<byte>): (tag: seq<byte>)
    ensures |tag| == TAG_BYTES
  {
    HashMac(hmac, authKey, [data])[..TAG_BYTES]
  }

  function Wrapped(c: BlockCipher, hmac: Hmac, data: seq<byte>, authKey: seq<byte>, wrapKey: seq<byte>, iv: Block)
    : (r: Result<seq<byte>>)
  {
    if !IsAesKey(wrapKey) then Err(NO_CIPHER)
    else Ok(CbcEncrypt(c, wrapKey, iv, Pad(data + Tag(hmac, authKey, data), BLOCK_BYTES)) + iv)
  }

  function Unwrapped(c: BlockCipher, hmac: Hmac, data: seq<byte>, authKey: seq<byte>, wrapKey: seq<byte>)
    : (r: Result<seq<byte>>)
  {
    if |data| < 2 * BLOCK_BYTES || |data| % BLOCK_BYTES != 0 then Err("registration: invalid wrapped value length")
    else if !IsAesKey(wrapKey) then Err("registration: create unwrapping cipher")
    else
      var n := |data| - BLOCK_BYTES;
      var plain := Unpad(CbcDecrypt(c, wrapKey, data[n..], data[..n]), BLOCK_BYTES);
      if plain.Err? || |plain.value| < TAG_BYTES then Err("registration: invalid wrapped value padding")
      else
        var m := |plain.value| - TAG_BYTES;
        if plain.value[m..] != Tag(hmac, authKey, plain.value[..m]) then
          Err("registration: wrapped value integrity check failed")
        else Ok(plain.value[..m])
  }

  method Wrap(c: BlockCipher, hmac: Hmac, data: seq<byte>, authKey: seq<byte>, wrapKey: seq<byte>, random: Source)
    returns (r: Result<seq<byte>>)
    modifies random
    ensures r.Ok? <==> IsAesKey(wrapKey) && |old(random.pending)| >= BLOCK_BYTES
    ensures r.Ok? ==>
      && old(random.pending)[BLOCK_BYTES..] == random.pending
      && r == Wrapped(c, hmac, data, authKey, wrapKey, old(random.pending)[..BLOCK_BYTES])
  {
    if !IsAesKey(wrapKey) {
      return Err(NO_CIPHER);
    }
    ghost var before := random.pending;
    var iv := random.ReadFull(BLOCK_BYTES);
    if iv == None {
      return Err("EOF");
    }
    assert before[..BLOCK_BYTES] == iv.value;
    var tag := HashMac(hmac, authKey, [data])[..TAG_BYTES];
    var plain := Pkcs7Pad(data + tag, BLOCK_BYTES);
    return Ok(CbcEncrypt(c, wrapKey, iv.value, plain) + iv.value);
  }

  method Unwrap(c: BlockCipher, hmac: Hmac, data: seq<byte>, authKey: seq<byte>, wrapKey: seq<byte>)
    returns (r: Result<seq<byte>>)
    ensures r == Unwrapped(c, hmac, data, authKey, wrapKey)
  {
    hide CbcDecrypt, Unpad;
    if |data| < 2 * BLOCK_BYTES || |data| % BLOCK_BYTES != 0 {
      return Err("registration: invalid wrapped value length");
    }
    if !IsAesKey(wrapKey) {
      return Err("registration: create unwrapping cipher");
    }
    var iv, ciphertext := data[|data| - BLOCK_BYTES..], data[..|data| - BLOCK_BYTES];
    var plain := Pkcs7Unpad(CbcDecrypt(c, wrapKey, iv, ciphertext), BLOCK_BYTES);
    if plain.Err? || |plain.value| < TAG_BYTES {
      return Err("registration: invalid wrapped value padding");
    }
    var m := |plain.value| - TAG_BYTES;
    var value, tag := plain.value[..m], plain.value[m..];
    if tag != HashMac(hmac, authKey, [value])[..TAG_BYTES] {
      return Err("registration: wrapped value integrity check failed");
    }
    return Ok(value);
  }

  lemma {:induction false} UnwrapAfterWrap(c: BlockCipher, hmac: Hmac, data: seq<byte>, authKey: seq<byte>,
                                           wrapKey: seq<byte>, iv: Block)
    requires IsAesKey(wrapKey)
    ensures Unwrapped(c, hmac, Wrapped(c, hmac, data, authKey, wrapKey, iv).value, authKey, wrapKey) == Ok(data)
  {
    hide CbcEncrypt, CbcDecrypt, Tag, Pad, Unpad;
    var tagged := data + Tag(hmac, authKey, data);
    var padded := Pad(tagged, BLOCK_BYTES);
    var cipher := CbcEncrypt(c, wrapKey, iv, padded);
    var wrapped := cipher + iv;
    assert wrapped[|cipher|..] == iv && wrapped[..|cipher|] == cipher;
    DecryptInvertsEncrypt(c, wrapKey, iv, padded);
    UnpadInvertsPad(tagged, BLOCK_BYTES);
    assert tagged[..|data|] == data && tagged[|data|..] == Tag(hmac, authKey, data);
  }

  lemma {:induction false} WrapAfterUnwrap(c: BlockCipher, hmac: Hmac, wrapped: seq<byte>, authKey: seq<byte>,
                                           wrapKey: seq<byte>)
    requires Unwrapped(c, hmac, wrapped, authKey, wrapKey).Ok?
    ensures var data := Unwrapped(c, hmac, wrapped, authKey, wrapKey).value;
      Wrapped(c, hmac, data, authKey, wrapKey, wrapped[|wrapped| - BLOCK_BYTES..]) == Ok(wrapped)
  {
    hide CbcEncrypt, CbcDecrypt, Tag, Pad, Unpad;
    var n := |wrapped| - BLOCK_BYTES;
    var iv: Block, cipher := wrapped[n..], wrapped[..n];
    var padded := CbcDecrypt(c, wrapKey, iv, cipher);
    var tagged := Unpad(padded, BLOCK_BYTES).value;
    var m := |tagged| - TAG_BYTES;
    assert tagged[..m] + tagged[m..] == tagged;
    PadInvertsUnpad(padded, BLOCK_BYTES);
    EncryptInvertsDecrypt(c, wrapKey, iv, cipher);
    assert cipher + iv == wrapped;
  }

  /** unwrap succeeds exactly on what wrap can produce for some initialisation vector, and inverts it. */
  lemma {:induction false} UnwrapInvertsWrap(c: BlockCipher, hmac: Hmac, data: seq<byte>, authKey: seq<byte>,
                                             wrapKey: seq<byte>, wrapped: seq<byte>)
    ensures Unwrapped(c, hmac, wrapped, authKey, wrapKey) == Ok(data) <==>
            exists iv: Block :: Wrapped(c, hmac, data, authKey, wrapKey, iv) == Ok(wrapped)
  {
    hide Wrapped, Unwrapped;
    if Unwrapped(c, hmac, wrapped, authKey, wrapKey) == Ok(data) {
      WrapAfterUnwrap(c, hmac, wrapped, authKey, wrapKey);
      UnwrappableIsLong(c, hmac, wrapped, authKey, wrapKey);
      var iv: Block := wrapped[|wrapped| - BLOCK_BYTES..];
      assert Wrapped(c, hmac, data, authKey, wrapKey, iv) == Ok(wrapped);
    }
    if exists iv: Block :: Wrapped(c, hmac, data, authKey, wrapKey, iv) == Ok(wrapped) {
      var iv: Block :| Wrapped(c, hmac, data, authKey, wrapKey, iv) == Ok(wrapped);
      assert IsAesKey(wrapKey) by { WrappingNeedsKey(c, hmac, data, authKey, wrapKey, iv); }
      UnwrapAfterWrap(c, hmac, data, authKey, wrapKey, iv);
    }
  }

  lemma {:induction false} UnwrappableIsLong(c: BlockCipher, hmac: Hmac, wrapped: seq<byte>, authKey: seq<byte>,
                                             wrapKey: seq<byte>)
    requires Unwrapped(c, hmac, wrapped, authKey, wrapKey).Ok?
    ensures |wrapped| >= 2 * BLOCK_BYTES
  {
  }

  lemma {:induction false} WrappingNeedsKey(c: BlockCipher, hmac: Hmac, data: seq<byte>, authKey: seq<byte>,
                                            wrapKey: seq<byte>, iv: Block)
    ensures Wrapped(c, hmac, data, authKey, wrapKey, iv).Ok? <==> IsAesKey(wrapKey)
    ensures Wrapped(c, hmac, data, authKey, wrapKey, iv).Ok? ==>
      |Wrapped(c, hmac, data, authKey, wrapKey, iv).value| ==
        |data| + TAG_BYTES + Padding(|data| + TAG_BYTES, BLOCK_BYTES) + BLOCK_BYTES
  {
  }

  // ---------- PBKDF2, section 5.2 of RFC 8018 ----------

  const COUNTERS := 0x1_0000_0000

  /** The 32-bit block counter, which Go lets wrap around. */
  function Counter(block: nat): (s: seq<byte>)
    ensures |s| == 4
  {
    assert ByteBound(4) == COUNTERS;
    FillBytes(block % COUNTERS, 4)
  }

  /** U_k: the k-th iterate for the block whose counter is `counter`. */
  function Iterate(hmac: Hmac, password: seq<byte>, salt: seq<byte>, counter: seq<byte>, k: nat): Mac
    requires k > 0
  {
    hmac(password, if k == 1 then salt + counter else Iterate(hmac, password, salt, counter, k - 1))
  }

  /** T: the exclusive or of the first k iterates. */
  function Folded(hmac: Hmac, password: seq<byte>, salt: seq<byte>, counter: seq<byte>, k: nat): Mac
    requires k > 0
  {
    if k == 1 then Iterate(hmac, password, salt, counter, 1)
    else Xor(Folded(hmac, password, salt, counter, k - 1), Iterate(hmac, password, salt, counter, k))
  }

  /** T_1, ..., T_n end to end. */
  function Blocks(hmac: Hmac, password: seq<byte>, salt: seq<byte>, iterations: nat, n: nat): (s: seq<byte>)
    requires iterations > 0
    ensures |s| == MAC_BYTES * n
  {
    if n == 0 then [] else
      Blocks(hmac, password, salt, iterations, n - 1) + Folded(hmac, password, salt, Counter(n), iterations)
  }

  /** How many blocks `length` bytes take. */
  function BlockCount(length: nat): (n: nat)
    ensures MAC_BYTES * n >= length && (n > 0 ==> MAC_BYTES * (n - 1) < length)
  {
    (length + MAC_BYTES - 1) / MAC_BYTES
  }

  function Derived(hmac: Hmac, password: seq<byte>, salt: seq<byte>, iterations: nat, length: nat): (s: seq<byte>)
    requires iterations > 0
    ensures |s| == length
  {
    Blocks(hmac, password, salt, iterations, BlockCount(length))[..length]
  }

  /** t ^= u, byte by byte and in place. */
  method XorInto(t: array<byte>, u: Mac)
    requires t.Length == MAC_BYTES
    modifies t
    ensures t[..] == Xor(old(t[..]), u)
  {
    hide XorByte;
    for offset := 0 to t.Length
      invariant forall k | 0 <= k < offset :: t[k] == XorByte(old(t[k]), u[k])
      invariant forall k | offset <= k < t.Length :: t[k] == old(t[k])
    {
      t[offset] := XorByte(t[offset], u[offset]);
    }
  }

  /** One block of pbkdf2SHA256. Fewer than one iteration is one iteration. */
  method FoldBlock(hmac: Hmac, password: seq<byte>, salt: seq<byte>, counter: seq<byte>, iterations: int)
    returns (block: Mac)
    ensures block == Folded(hmac, password, salt, counter, if iterations > 0 then iterations else 1)
  {
    hide Xor;
    var u: Mac := hmac(password, salt + counter);
    var t := new byte[MAC_BYTES](k requires 0 <= k < MAC_BYTES => u[k]);
    assert t[..] == u;
    var index := 1;
    while index < iterations
      invariant 1 <= index && (index <= iterations || index == 1)
      invariant u == Iterate(hmac, password, salt, counter, index)
      invariant t[..] == Folded(hmac, password, salt, counter, index)
    {
      u := hmac(password, u);
      XorInto(t, u);
      index := index + 1;
    }
    return t[..];
  }

  lemma {:induction false} CounterWraps(n: nat)
    ensures Counter(n % COUNTERS) == Counter(n)
    ensures (n % COUNTERS + 1) % COUNTERS == (n + 1) % COUNTERS
  {
    hide FillBytes, ByteBound;
    RemainderIsUnique(n % COUNTERS, COUNTERS, 0, n % COUNTERS);
    assert n + 1 == COUNTERS * (n / COUNTERS) + (n % COUNTERS + 1);
    ModOfMultiple(n % COUNTERS + 1, n / COUNTERS, COUNTERS);
  }

  lemma {:induction false} BlocksSuffice(length: nat, n: nat)
    requires MAC_BYTES * n >= length && (n > 0 ==> MAC_BYTES * (n - 1) < length)
    ensures n == BlockCount(length)
  {
  }

  /** pbkdf2SHA256 */
  method Pbkdf2(hmac: Hmac, password: seq<byte>, salt: seq<byte>, iterations: int, length: nat) returns (r: seq<byte>)
    ensures r == Derived(hmac, password, salt, if iterations > 0 then iterations else 1, length)
  {
    hide Counter, BlockCount, Folded;
    ghost var rounds := if iterations > 0 then iterations else 1;
    r := [];
    var block := 1;
    ghost var n := 0;
    while |r| < length
      invariant block == (n + 1) % COUNTERS
      invariant r == Blocks(hmac, password, salt, rounds, n)
      invariant n > 0 ==> MAC_BYTES * (n - 1) < length
      decreases length - |r|
    {
      CounterWraps(n + 1);
      var t := FoldBlock(hmac, password, salt, Counter(block), iterations);
      r := r + t;
      block := (block + 1) % COUNTERS;
      n := n + 1;
    }
    BlocksSuffice(length, n);
    return r[..length];
  }

  /** The derived key of RFC 8018, whose block indexes are not reduced. */
  function RfcBlocks(hmac: Hmac, password: seq<byte>, salt: seq<byte>, iterations: nat, n: nat): seq<byte>
    requires iterations > 0 && n < ByteBound(4)
  {
    if n == 0 then [] else
      RfcBlocks(hmac, password, salt, iterations, n - 1) + Folded(hmac, password, salt, FillBytes(n, 4), iterations)
  }

  lemma {:induction false} SmallCounter(n: nat)
    requires n < ByteBound(4)
    ensures Counter(n) == FillBytes(n, 4)
  {
    hide FillBytes;
    assert ByteBound(4) == COUNTERS;
  }

  /** Below the RFC's limit on the length the counter does not wrap, and the output is the RFC's. */
  lemma {:induction false} DerivedIsRfc(hmac: Hmac, password: seq<byte>, salt: seq<byte>, iterations: nat, n: nat)
    requires iterations > 0 && n < ByteBound(4)
    ensures Blocks(hmac, password, salt, iterations, n) == RfcBlocks(hmac, password, salt, iterations, n)
  {
    hide Folded, FillBytes, ByteBound, Counter;
    if n > 0 {
      SmallCounter(n);
      DerivedIsRfc(hmac, password, salt, iterations, n - 1);
    }
  }

  lemma {:induction false} FewerBlocksArePrefix(hmac: Hmac, password: seq<byte>, salt: seq<byte>, iterations: nat,
                                                m: nat, n: nat)
    requires iterations > 0 && m <= n
    ensures Blocks(hmac, password, salt, iterations, m) <= Blocks(hmac, password, salt, iterations, n)
    decreases n
  {
    hide Folded, Counter;
    if m < n {
      FewerBlocksArePrefix(hmac, password, salt, iterations, m, n - 1);
    }
  }

  /** Past the limit nothing fails: the counter has wrapped, and block 2^32 + n repeats block n. */
  lemma {:induction false} BlocksRepeat(hmac: Hmac, password: seq<byte>, salt: seq<byte>, iterations: nat, n: nat)
    requires iterations > 0 && n > 0
    ensures Blocks(hmac, password, salt, iterations, COUNTERS + n)[MAC_BYTES * (COUNTERS + n - 1)..] ==
            Blocks(hmac, password, salt, iterations, n)[MAC_BYTES * (n - 1)..]
  {
    hide Folded, Counter;
    CounterWraps(n);
    CounterWraps(COUNTERS + n);
    ModOfMultiple(n, 1, COUNTERS);
  }

  /** A shorter key is the beginning of a longer one. */
  lemma {:induction false} ShorterIsPrefix(hmac: Hmac, password: seq<byte>, salt: seq<byte>, iterations: nat,
                                           shorter: nat, longer: nat)
    requires iterations > 0 && shorter <= longer
    ensures Derived(hmac, password, salt, iterations, shorter) <= Derived(hmac, password, salt, iterations, longer)
  {
    hide Blocks;
    var m, n := BlockCount(shorter), BlockCount(longer);
    FewerBlocksArePrefix(hmac, password, salt, iterations, m, n);
    var few, many := Blocks(hmac, password, salt, iterations, m), Blocks(hmac, password, salt, iterations, n);
    assert few == many[..|few|];
    assert few[..shorter] == many[..longer][..shorter];
  }
}
