/**
 The Diffie-Hellman exchange of the registration protocol (internal/wire/registration/crypto.go) over a group of the
 shape of group 14, section 3 of RFC 3526: a prime p = 2q + 1 and the generator 2.
 */
module DiffieHellman {
  import opened Results
  import opened Bytes
  import opened ModularPower
  import opened Remainders
  import opened Randomness

  const PUBLIC_BYTES := 256
  const PRIVATE_BYTES := 32

  datatype RawGroup = RawGroup(p: nat, q: nat)

  /** What is assumed of the group: the number theory, and the sizes the encodings rely on. */
  ghost predicate IsGroup(g: RawGroup) {
    && g.p == 2 * g.q + 1 && g.q % 2 == 1 && IsPrime(g.q)
    && Pow(2, g.q) % g.p == 1
    && g.q > ByteBound(PRIVATE_BYTES) && g.p < ByteBound(PUBLIC_BYTES)
  }

  /** publicBytes: 2^x mod p behind a zero byte, 257 bytes in all. */
  function PublicBytes(g: RawGroup, x: nat): (s: seq<byte>)
    requires 0 < g.p < ByteBound(PUBLIC_BYTES)
    ensures |s| == PUBLIC_BYTES + 1
  {
    [0] + FillBytes(Pow(2, x) % g.p, PUBLIC_BYTES)
  }

  /** sharedBytes, with its checks of length, range and subgroup. */
  function SharedBytes(g: RawGroup, x: nat, other: seq<byte>): (r: Result<seq<byte>>)
    requires 2 < g.p < ByteBound(PUBLIC_BYTES)
    ensures r.Ok? ==> |r.value| == PUBLIC_BYTES
  {
    if |other| != PUBLIC_BYTES && !(|other| == PUBLIC_BYTES + 1 && other[0] == 0) then
      Err("registration: invalid device DH contribution length")
    else
      var y := FromBytes(other);
      if y < 2 || y > g.p - 2 then Err("registration: invalid device DH public key")
      else if Pow(y, (g.p - 1) / 2) % g.p != 1 then
        Err("registration: device DH public key is outside the expected subgroup")
      else Ok(FillBytes(Pow(y, x) % g.p, PUBLIC_BYTES))
  }

  /** A public value in 257 bytes, the first of them zero. */
  lemma {:induction false} PublicInFull(g: RawGroup, x: nat)
    requires 0 < g.p < ByteBound(256)
    ensures |PublicBytes(g, x)| == 257 && PublicBytes(g, x)[0] == 0 && FromBytes(PublicBytes(g, x)) == Pow(2, x) % g.p
  {
    PublicDecodes(g, x);
  }

  /** Which values from the other side are accepted, and the secret in 256 bytes. */
  lemma {:induction false} SharedInFull(g: RawGroup, x: nat, other: seq<byte>)
    requires 2 < g.p < ByteBound(256)
    ensures SharedBytes(g, x, other).Ok? <==>
            && (|other| == 256 || (|other| == 257 && other[0] == 0))
            && 2 <= FromBytes(other) <= g.p - 2 && Pow(FromBytes(other), (g.p - 1) / 2) % g.p == 1
    ensures SharedBytes(g, x, other).Ok? ==>
      && |SharedBytes(g, x, other).value| == 256
      && FromBytes(SharedBytes(g, x, other).value) == Pow(FromBytes(other), x) % g.p
  {
    hide Pow, ByteBound, FromBytes;
  }

  /** A private key newDH can produce. */
  predicate IsPrivate(x: nat) {
    0 < x < ByteBound(PRIVATE_BYTES)
  }

  /** A public value lies in the subgroup of order q. */
  lemma {:induction false} PublicIsInSubgroup(g: RawGroup, x: nat)
    requires IsGroup(g)
    ensures Pow(Pow(2, x) % g.p, g.q) % g.p == 1
  {
    hide Pow, ByteBound;
    PowOfRemainder(Pow(2, x), g.q, g.p);
    PowOfProduct(2, x, g.q);
    PowOfProduct(2, g.q, x);
    assert x * g.q == g.q * x;
    PowOfRemainder(Pow(2, g.q), x, g.p);
    PowOfOne(x);
    RemainderIsUnique(1, g.p, 0, 1);
  }

  /** A public value is never 0, 1 or p - 1, so it passes the range check. */
  lemma {:induction false} PublicIsInRange(g: RawGroup, x: nat)
    requires IsGroup(g) && IsPrivate(x)
    ensures 2 <= Pow(2, x) % g.p <= g.p - 2
  {
    hide Pow, ByteBound;
    var y := Pow(2, x) % g.p;
    PublicIsInSubgroup(g, x);
    RemainderIsUnique(2, g.p, 0, 2);
    NoSmallerPowerIsOne(2, g.q, x, g.p);
    if y == 0 {
      PowOfZero(g.q);
      RemainderIsUnique(0, g.p, 0, 0);
    }
    if y == g.p - 1 {
      OddPowerOfMinusOne(g.p, g.q);
    }
  }

  lemma {:induction false} PowOfZero(e: nat)
    requires e > 0
    ensures Pow(0, e) == 0
  {
  }

  /** The value behind a public encoding, with or without its leading zero byte. */
  lemma {:induction false} PublicDecodes(g: RawGroup, x: nat)
    requires 0 < g.p < ByteBound(PUBLIC_BYTES)
    ensures FromBytes(PublicBytes(g, x)) == Pow(2, x) % g.p
    ensures FromBytes(PublicBytes(g, x)[1..]) == Pow(2, x) % g.p
  {
    hide Pow, ByteBound, FromBytes, FillBytes;
    var s := FillBytes(Pow(2, x) % g.p, PUBLIC_BYTES);
    LeadingZero(s);
    assert PublicBytes(g, x)[1..] == s;
  }

  /** Raising to x what was raised to y is raising to y what was raised to x. */
  lemma {:induction false} PowersCommute(p: nat, x: nat, y: nat)
    requires p > 0
    ensures Pow(Pow(2, x) % p, y) % p == Pow(Pow(2, y) % p, x) % p
  {
    hide Pow;
    PowOfRemainder(Pow(2, x), y, p);
    PowOfRemainder(Pow(2, y), x, p);
    PowOfProduct(2, x, y);
    PowOfProduct(2, y, x);
    assert x * y == y * x;
  }

  /** What one side computes from the other's public bytes, in either of the two encodings. */
  lemma {:induction false} SharedIsPower(g: RawGroup, x: nat, y: nat)
    requires IsGroup(g) && IsPrivate(x)
    ensures Pow(Pow(2, x) % g.p, y) % g.p < ByteBound(PUBLIC_BYTES)
    ensures SharedBytes(g, y, PublicBytes(g, x)) == Ok(FillBytes(Pow(Pow(2, x) % g.p, y) % g.p, PUBLIC_BYTES))
    ensures SharedBytes(g, y, PublicBytes(g, x)[1..]) == SharedBytes(g, y, PublicBytes(g, x))
  {
    hide Pow, ByteBound, FromBytes, FillBytes;
    PublicDecodes(g, x);
    PublicIsInRange(g, x);
    PublicIsInSubgroup(g, x);
    assert (g.p - 1) / 2 == g.q;
  }

  /** Any two honest sides accept each other's public bytes and share one 256-byte secret. */
  lemma {:induction false} HonestSidesAgree(g: RawGroup, x: nat, y: nat)
    requires IsGroup(g) && IsPrivate(x) && IsPrivate(y)
    ensures SharedBytes(g, x, PublicBytes(g, y)).Ok?
    ensures SharedBytes(g, x, PublicBytes(g, y)) == SharedBytes(g, y, PublicBytes(g, x))
    ensures SharedBytes(g, x, PublicBytes(g, y)[1..]) == SharedBytes(g, y, PublicBytes(g, x))
  {
    hide Pow, ByteBound, PublicBytes, SharedBytes, FillBytes;
    SharedIsPower(g, x, y);
    SharedIsPower(g, y, x);
    PowersCommute(g.p, x, y);
  }

  // ---------- group 14 ----------

  const GROUP_14_PRIME: nat :=
    0xFFFFFFFFFFFFFFFFC90FDAA22168C234C4C6628B80DC1CD129024E088A67CC74020BBEA63B139B22514A08798E3404DDEF9519B3CD3A431B302B0A6DF25F14374FE1356D6D51C245E485B576625E7EC6F44C42E9A637ED6B0BFF5CB6F406B7EDEE386BFB5A899FA5AE9F24117C4B1FE649286651ECE45B3DC2007CB8A163BF0598DA48361C55D39A69163FA8FD24CF5F83655D23DCA3AD961C62F356208552BB9ED529077096966D670C354E4ABC9804F1746C08CA18217C32905E462E36CE3BE39E772C180E86039B2783A2EC07A28FB5C55DF06F4C52C9DE2BCBF6955817183995497CEA956AE515D2261898FA051015728E5A8AACAA68FFFFFFFFFFFFFFFF

  const GROUP_14_ORDER: nat :=
    0x7FFFFFFFFFFFFFFFE487ED5110B4611A62633145C06E0E68948127044533E63A0105DF531D89CD9128A5043CC71A026EF7CA8CD9E69D218D98158536F92F8A1BA7F09AB6B6A8E122F242DABB312F3F637A262174D31BF6B585FFAE5B7A035BF6F71C35FDAD44CFD2D74F9208BE258FF324943328F6722D9EE1003E5C50B1DF82CC6D241B0E2AE9CD348B1FD47E9267AFC1B2AE91EE51D6CB0E3179AB1042A95DCF6A9483B84B4B36B3861AA7255E4C0278BA3604650C10BE19482F23171B671DF1CF3B960C074301CD93C1D17603D147DAE2AEF837A62964EF15E5FB4AAC0B8C1CCAA4BE754AB5728AE9130C4C7D02880AB9472D455655347FFFFFFFFFFFFFFF

  const GROUP_14 := RawGroup(GROUP_14_PRIME, GROUP_14_ORDER)

  lemma {:induction false} ByteBoundOfSum(m: nat, n: nat)
    ensures ByteBound(m + n) == ByteBound(m) * ByteBound(n)
  {
    if m > 0 {
      ByteBoundOfSum(m - 1, n);
      assert 256 * (ByteBound(m - 1) * ByteBound(n)) == (256 * ByteBound(m - 1)) * ByteBound(n);
    }
  }

  lemma {:induction false} PrivateBound()
    ensures ByteBound(PRIVATE_BYTES) < GROUP_14_ORDER
  {
    hide ByteBound;
    assert ByteBound(4) == 0x1_0000_0000 by { ByteBoundOfFour(); }
    ByteBoundOfSum(4, 4);
    ByteBoundOfSum(8, 8);
    ByteBoundOfSum(16, 16);
  }

  lemma {:induction false} PublicBound()
    ensures GROUP_14_PRIME < ByteBound(PUBLIC_BYTES)
  {
    hide ByteBound;
    assert ByteBound(4) == 0x1_0000_0000 by { ByteBoundOfFour(); }
    ByteBoundOfSum(4, 4);
    ByteBoundOfSum(8, 8);
    ByteBoundOfSum(16, 16);
    ByteBoundOfSum(32, 32);
    ByteBoundOfSum(64, 64);
    ByteBoundOfSum(128, 128);
  }

  lemma {:induction false} ByteBoundOfFour()
    ensures ByteBound(4) == 0x1_0000_0000
  {
  }

  /** The prime in the source has every size the exchange needs; its number theory is RFC 3526's. */
  lemma {:induction false} Group14IsGroup()
    requires IsPrime(GROUP_14.q) && Pow(2, GROUP_14.q) % GROUP_14.p == 1
    ensures IsGroup(GROUP_14)
  {
    hide Pow, ByteBound, IsPrime;
    PrivateBound();
    PublicBound();
  }

  // ---------- newDH ----------

  const ATTEMPTS := 8

  /** The first key, among up to eight draws of 32 bytes, that is not zero; and what is left of the stream. */
  function Draw(pending: seq<byte>, attempts: nat): Result<(nat, seq<byte>)> {
    if attempts == 0 then Err("registration: randomness produced a zero DH key")
    else if |pending| < PRIVATE_BYTES then Err("EOF")
    else if FromBytes(pending[..PRIVATE_BYTES]) != 0 then
      Ok((FromBytes(pending[..PRIVATE_BYTES]), pending[PRIVATE_BYTES..]))
    else Draw(pending[PRIVATE_BYTES..], attempts - 1)
  }

  lemma {:induction false} DrawInFull(pending: seq<byte>, attempts: nat)
    ensures Draw(pending, attempts).Ok? <==>
            exists k: nat :: k < attempts && IsFirstKey(pending, k)
    ensures forall k: nat | k < attempts && IsFirstKey(pending, k) ::
              Draw(pending, attempts) == Ok((FromBytes(pending[32 * k..32 * k + 32]), pending[32 * k + 32..]))
    decreases attempts
  {
    hide FromBytes, IsFirstKey;
    if attempts > 0 && |pending| >= 32 {
      FirstKeyAtStart(pending);
      if FromBytes(pending[..32]) == 0 {
        var rest := pending[32..];
        DrawInFull(rest, attempts - 1);
        if Draw(pending, attempts).Ok? {
          var k: nat :| k < attempts - 1 && IsFirstKey(rest, k);
          FirstKeyOfRest(pending, k);
        }
        forall k: nat | k < attempts && IsFirstKey(pending, k)
          ensures Draw(pending, attempts) == Ok((FromBytes(pending[32 * k..32 * k + 32]), pending[32 * k + 32..]))
        {
          FirstKeyOfRest(pending, k - 1);
        }
      }
    } else {
      forall k: nat | k < attempts
        ensures !IsFirstKey(pending, k)
      {
        FirstKeyNeedsBytes(pending, k);
      }
    }
  }

  lemma {:induction false} FirstKeyNeedsBytes(pending: seq<byte>, k: nat)
    ensures IsFirstKey(pending, k) ==> |pending| >= 32 * k + 32
  {
    hide FromBytes;
  }

  lemma {:induction false} FirstKeyAtStart(pending: seq<byte>)
    requires |pending| >= 32
    ensures IsFirstKey(pending, 0) <==> FromBytes(pending[..32]) != 0
    ensures forall k: nat | IsFirstKey(pending, k) :: |pending| >= 32 * k + 32
    ensures forall k: nat | k > 0 && IsFirstKey(pending, k) :: FromBytes(pending[..32]) == 0
    ensures pending[32 * 0..32 * 0 + 32] == pending[..32] && pending[32 * 0 + 32..] == pending[32..]
  {
    hide FromBytes;
    assert pending[32 * 0..32 * 0 + 32] == pending[..32];
  }

  /** The k-th 32 bytes are not all zero, and all before are. */
  ghost predicate IsFirstKey(pending: seq<byte>, k: nat) {
    && |pending| >= 32 * k + 32 && FromBytes(pending[32 * k..32 * k + 32]) != 0
    && forall j: nat | j < k :: FromBytes(pending[32 * j..32 * j + 32]) == 0
  }

  lemma {:induction false} FirstKeyOfRest(pending: seq<byte>, k: nat)
    requires |pending| >= 32 && FromBytes(pending[..32]) == 0
    ensures IsFirstKey(pending[32..], k) <==> IsFirstKey(pending, k + 1)
    ensures |pending| >= 32 * k + 64 ==>
      pending[32..][32 * k..32 * k + 32] == pending[32 * (k + 1)..32 * (k + 1) + 32] &&
      pending[32..][32 * k + 32..] == pending[32 * (k + 1) + 32..]
  {
    hide FromBytes;
    var rest := pending[32..];
    forall j: nat | |pending| >= 32 * j + 64
      ensures rest[32 * j..32 * j + 32] == pending[32 * (j + 1)..32 * (j + 1) + 32]
    {
    }
    if IsFirstKey(rest, k) {
      forall j: nat | j < k + 1
        ensures FromBytes(pending[32 * j..32 * j + 32]) == 0
      {
        if j > 0 {
          assert FromBytes(rest[32 * (j - 1)..32 * (j - 1) + 32]) == 0;
        }
      }
    }
    if IsFirstKey(pending, k + 1) {
      forall j: nat | j < k
        ensures FromBytes(rest[32 * j..32 * j + 32]) == 0
      {
        assert FromBytes(pending[32 * (j + 1)..32 * (j + 1) + 32]) == 0;
      }
    }
  }

  method NewDh(random: Source) returns (r: Result<nat>)
    modifies random
    ensures Draw(old(random.pending), ATTEMPTS).Ok? ==>
      r.Ok? && (r.value, random.pending) == Draw(old(random.pending), ATTEMPTS).value
    ensures Draw(old(random.pending), ATTEMPTS).Err? ==> r == Err(Draw(old(random.pending), ATTEMPTS).error)
  {
    hide FromBytes;
    ghost var goal := Draw(random.pending, ATTEMPTS);
    for attempt := 0 to ATTEMPTS
      invariant goal == Draw(random.pending, ATTEMPTS - attempt)
    {
      ghost var before := random.pending;
      var value := random.ReadFull(PRIVATE_BYTES);
      if value == None {
        return Err("EOF");
      }
      assert before[..PRIVATE_BYTES] == value.value && before[PRIVATE_BYTES..] == random.pending;
      var private := FromBytes(value.value);
      if private != 0 {
        return Ok(private);
      }
    }
    return Err("registration: randomness produced a zero DH key");
  }

  /** Every key drawn is private in the sense the exchange needs. */
  lemma {:induction false} DrawnIsPrivate(pending: seq<byte>, attempts: nat)
    requires Draw(pending, attempts).Ok?
    ensures IsPrivate(Draw(pending, attempts).value.0)
    decreases attempts
  {
    hide ByteBound;
    if FromBytes(pending[..PRIVATE_BYTES]) == 0 {
      DrawnIsPrivate(pending[PRIVATE_BYTES..], attempts - 1);
    }
  }
}
