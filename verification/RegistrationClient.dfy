/**
 The client's Register (internal/wire/registration/registration.go) as it goes along: what it draws and when, what it
 does with each answer, and the clean-up on every path.
 */
module RegistrationClient {
  import opened Results
  import opened Bytes
  import opened Randomness
  import opened DiffieHellman
  import opened RegistrationCrypto
  import opened RegistrationWire
  import opened RegistrationEmulator
  import opened Registration

  const RANDOMNESS := "EOF"

  const NO_VECTOR: Block := seq(BLOCK_BYTES, _ => 0)

  function HexDigit(n: nat): byte
    requires n < 16
  {
    if n < 10 then 48 + n else 87 + n
  }

  function Hex(value: seq<byte>): (s: seq<byte>)
    ensures |s| == 2 * |value|
  {
    if value == [] then [] else [HexDigit(value[0] / 16), HexDigit(value[0] % 16)] + Hex(value[1..])
  }

  /** randomUUID: version 4, in its textual form. */
  function Uuid(drawn: seq<byte>): (id: seq<byte>)
    requires |drawn| == 16
    ensures |id| == 36
  {
    var encoded := Hex(drawn[6 := drawn[6] % 16 + 0x40][8 := drawn[8] % 64 + 0x80]);
    encoded[..8] + [45] + encoded[8..12] + [45] + encoded[12..16] + [45] + encoded[16..20] + [45] + encoded[20..]
  }

  /** The value of a lower-case hexadecimal digit in ASCII. */
  function DigitValue(c: byte): int {
    if 48 <= c <= 57 then c - 48 else if 97 <= c <= 102 then c - 87 else -1
  }

  /** Where the digits of byte i are: after the dashes that stand before it. */
  function DigitsOf(i: nat): nat {
    2 * i + if i >= 10 then 4 else if i >= 8 then 3 else if i >= 6 then 2 else if i >= 4 then 1 else 0
  }

  /** What byte i becomes: two of them carry the version and the variant. */
  function Stamped(drawn: seq<byte>, i: nat): byte
    requires |drawn| == 16 && i < 16
  {
    if i == 6 then 64 + drawn[6] % 16 else if i == 8 then 128 + drawn[8] % 64 else drawn[i]
  }

  lemma {:induction false} HexAt(value: seq<byte>, i: nat)
    requires i < |value|
    ensures DigitValue(Hex(value)[2 * i]) == value[i] / 16 && DigitValue(Hex(value)[2 * i + 1]) == value[i] % 16
  {
    if i > 0 {
      HexAt(value[1..], i - 1);
      assert value[1..][i - 1] == value[i];
      assert Hex(value)[2 * i] == Hex(value[1..])[2 * (i - 1)];
      assert Hex(value)[2 * i + 1] == Hex(value[1..])[2 * (i - 1) + 1];
    }
  }

  /** The ID: 36 characters, four dashes, and the bytes in between. */
  lemma {:induction false} UuidInFull(drawn: seq<byte>, i: nat)
    requires |drawn| == 16 && i < 16
    ensures |Uuid(drawn)| == 36
    ensures Uuid(drawn)[8] == Uuid(drawn)[13] == Uuid(drawn)[18] == Uuid(drawn)[23] == 45
    ensures DigitsOf(i) + 1 < 36
    ensures DigitValue(Uuid(drawn)[DigitsOf(i)]) == Stamped(drawn, i) / 16
    ensures DigitValue(Uuid(drawn)[DigitsOf(i) + 1]) == Stamped(drawn, i) % 16
  {
    var stamped := drawn[6 := drawn[6] % 16 + 0x40][8 := drawn[8] % 64 + 0x80];
    var encoded := Hex(stamped);
    HexAt(stamped, i);
    hide Hex, DigitValue;
    assert Uuid(drawn)[DigitsOf(i)] == encoded[2 * i] && Uuid(drawn)[DigitsOf(i) + 1] == encoded[2 * i + 1];
  }

  /** What a whole run draws from the client's randomness, beside the RSA key; none if it ends too early. */
  function Coins(random: seq<byte>, key: Key): Option<ClientCoins> {
    var drawn := Draw(random, ATTEMPTS);
    if drawn.Err? || |drawn.value.1| < 80 then None
    else
      var (x, rest) := drawn.value;
      Some(ClientCoins(x, rest[..16], rest[16..32], rest[32..48], key, Uuid(rest[48..64]), rest[64..80]))
  }

  /** In which order: the exponent, the nonce, the secret and its vector, the ID and the vector for the identity. */
  lemma {:induction false} CoinsInFull(random: seq<byte>, key: Key, k: nat)
    requires k < 8 && IsFirstKey(random, k)
    ensures |random| < 32 * k + 112 ==> Coins(random, key) == None
    ensures |random| >= 32 * k + 112 ==>
      var rest := random[32 * k + 32..];
      Coins(random, key) ==
        Some(ClientCoins(FromBytes(random[32 * k..32 * k + 32]), rest[..16], rest[16..32], rest[32..48], key,
                         Uuid(rest[48..64]), rest[64..80]))
  {
    DrawInFull(random, 8);
    hide Draw, Uuid, FromBytes, IsFirstKey;
  }

  /** What is drawn is what honest runs need. */
  lemma {:induction false} DrawnCoinsAreFair(random: seq<byte>, key: Key)
    requires Coins(random, key).Some? && Is2048Bit(key)
    ensures FairCoins(Coins(random, key).value)
  {
    DrawnIsPrivate(random, ATTEMPTS);
  }

  /** Messages depend on what has been drawn by then. */
  lemma {:induction false} LaterCoinsDoNotMatter(s: RawSuite, coins: ClientCoins, full: ClientCoins, m: Message,
                                                 pin: seq<byte>, c: AfterM2)
    ensures coins == full.(rs := coins.rs, rsIv := coins.rsIv, key := coins.key, clientId := coins.clientId,
                           identityIv := coins.identityIv) ==>
              MakeM2(s, coins, m) == MakeM2(s, full, m)
    ensures coins == full.(key := coins.key, clientId := coins.clientId, identityIv := coins.identityIv) ==>
              MakeM4(s, coins, pin, c, m) == MakeM4(s, full, pin, c, m)
  {
    hide Hash, DecodeField, DecodeRange, Wrapped, SharedBytes, PublicBytes, DeriveKeys, Joined;
  }

  /** The next n bytes of a stream of which `at` bytes of `rest` have been read. */
  method Next(random: Source, n: nat, ghost rest: seq<byte>, ghost at: nat) returns (r: Option<seq<byte>>)
    requires at <= |rest| && random.pending == rest[at..]
    modifies random
    ensures r.Some? <==> |rest| >= at + n
    ensures r.Some? ==> r.value == rest[at..at + n] && random.pending == rest[at + n..]
  {
    r := random.ReadFull(n);
    assert r.Some? ==> rest[at..][..n] == r.value && rest[at..][n..] == random.pending;
  }

  /**
   Register, against an emulator that nobody else talks to. `pin` and `key` are what the PIN provider and the RSA
   generator answer, if they do. It goes as the run function says if nothing that the client draws or asks for fails,
   and otherwise nothing is registered; the transcript is cleaned up either way.
   */
  method Register(random: Source, pin: Option<seq<byte>>, key: Option<Key>, device: Emulator, deviceRandom: Source)
    returns (r: Result<Registered>)
    requires random != deviceRandom
    modifies random, device, deviceRandom
    ensures device.transcript == BLANK && device.pin == old(device.pin)
    ensures
      if pin.Some? && key.Some? && Coins(old(random.pending), key.value).Some? then
        var run := Run(device.suite, Coins(old(random.pending), key.value).value, pin.value, old(device.pin),
                       device.certificate, old(deviceRandom.pending));
        r == run.0 && device.registered == old(device.registered) + run.1
      else r.Err? && device.registered == old(device.registered)
  {
    device.Cleanup();
    r := Exchange(random, pin, key, device, deviceRandom);
    device.Cleanup();
  }

  /** The exchange between the first clean-up and the deferred one. */
  method Exchange(random: Source, pin: Option<seq<byte>>, key: Option<Key>, device: Emulator, deviceRandom: Source)
    returns (r: Result<Registered>)
    requires random != deviceRandom && device.transcript == BLANK
    modifies random, device, deviceRandom
    ensures device.pin == old(device.pin)
    ensures
      if pin.Some? && key.Some? && Coins(old(random.pending), key.value).Some? then
        var run := Run(device.suite, Coins(old(random.pending), key.value).value, pin.value, old(device.pin),
                       device.certificate, old(deviceRandom.pending));
        r == run.0 && device.registered == old(device.registered) + run.1
      else r.Err? && device.registered == old(device.registered)
  {
    hide PinStep, HashStep, CaStep, RegistrationStep, MakeM2, MakeM4, MakeM6, Draw, AfterDraws, Uuid;
    var suite := device.suite;
    ghost var stream := random.pending;
    var m1 := device.ServePin(deviceRandom);
    if m1.Err? {
      return Err(m1.error);
    }
    var x := NewDh(random);
    if x.Err? {
      return Err(x.error);
    }
    ghost var rest := random.pending;
    var nonce2 := Next(random, 16, rest, 0);
    if nonce2 == None {
      return Err(RANDOMNESS);
    }
    var coins := ClientCoins(x.value, nonce2.value, [], NO_VECTOR, Key(0), [], NO_VECTOR);
    ghost var full := if key.Some? && Coins(stream, key.value).Some? then Coins(stream, key.value).value else coins;
    LaterCoinsDoNotMatter(suite, coins, full, m1.value, [], AfterM2([], [], [], [], [], [], []));
    var m2 := MakeM2(suite, coins, m1.value);
    if m2.Err? {
      return Err(m2.error);
    }
    var m3 := device.ServeHash(m2.value.1);
    if m3.Err? {
      return Err(m3.error);
    }
    if pin == None {
      return Err("registration: PIN provider");
    }
    var rs := Next(random, 16, rest, 16);
    if rs == None {
      return Err(RANDOMNESS);
    }
    var rsIv := Next(random, BLOCK_BYTES, rest, 32);
    if rsIv == None {
      return Err(RANDOMNESS);
    }
    coins := coins.(rs := rs.value, rsIv := rsIv.value);
    LaterCoinsDoNotMatter(suite, coins, full, m3.value, pin.value, m2.value.0);
    var m4 := MakeM4(suite, coins, pin.value, m2.value.0, m3.value);
    if m4.Err? {
      return Err(m4.error);
    }
    var m5 := device.ServeCa(m4.value.1, deviceRandom);
    if m5.Err? {
      return Err(m5.error);
    }
    if key == None {
      return Err("registration: generate RSA key");
    }
    var id := Next(random, 16, rest, 48);
    if id == None {
      return Err(RANDOMNESS);
    }
    var identityIv := Next(random, BLOCK_BYTES, rest, 64);
    if identityIv == None {
      return Err(RANDOMNESS);
    }
    coins := coins.(key := key.value, clientId := Uuid(id.value), identityIv := identityIv.value);
    assert Coins(stream, key.value) == Some(coins);
    var m6 := MakeM6(suite, coins, m2.value.0, m4.value.0, m5.value);
    if m6.Err? {
      return Err(m6.error);
    }
    var done := device.ServeRegistration(m6.value.1);
    if done.Err? {
      return Err(done.error);
    }
    return Ok(Registered(coins.clientId, coins.key, m6.value.0));
  }
}
