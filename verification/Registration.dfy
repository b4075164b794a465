/**
 The client side of registration (internal/wire/registration/registration.go), and what the two sides achieve
 together: honest runs register, runs with different PINs do not.
 */
module Registration {
  import opened Results
  import opened Bytes
  import opened DiffieHellman
  import opened RegistrationCrypto
  import opened RegistrationWire
  import opened RegistrationEmulator

  /** What the client draws: its exponent, nonce and secret, the vectors for wrapping, its RSA key and its ID. */
  datatype ClientCoins = ClientCoins(x: nat, nonce2: seq<byte>, rs: seq<byte>, rsIv: Block, key: Key,
                                     clientId: seq<byte>, identityIv: Block)

  predicate FairCoins(coins: ClientCoins) {
    IsPrivate(coins.x) && |coins.nonce2| == 16 && |coins.rs| == 16 && |coins.clientId| == 36 && Is2048Bit(coins.key)
  }

  /** What the client remembers after sending M2. */
  datatype AfterM2 = AfterM2(nonce1: seq<byte>, mac: seq<byte>, otherRaw: seq<byte>, publicKey: seq<byte>,
                             authKey: seq<byte>, wrapKey: seq<byte>, m2hmac: seq<byte>)

  /** What it remembers besides after sending M4. */
  datatype AfterM4 = AfterM4(psk: seq<byte>, eHash: seq<byte>, m3hmac: seq<byte>, rHash: seq<byte>,
                             wrappedRs: seq<byte>, m4hmac: seq<byte>)

  function MakeM2(s: RawSuite, coins: ClientCoins, m1: Message): Result<(AfterM2, Message)> {
    var nonce1, mac := DecodeField(s, m1.a, 16), DecodeField(s, m1.b, 6);
    var otherRaw := DecodeRange(s, m1.c, 256, 257);
    if nonce1.None? || mac.None? || otherRaw.None? then Err("registration: invalid M1")
    else
      var publicKey := PublicBytes(s.group, coins.x);
      var shared := SharedBytes(s.group, coins.x, otherRaw.value);
      if shared.Err? then Err(shared.error)
      else
        var (authKey, wrapKey) := DeriveKeys(s, shared.value, Joined([nonce1.value, mac.value, coins.nonce2]));
        var m2hmac := Hash(s, authKey, [nonce1.value, mac.value, otherRaw.value, nonce1.value, coins.nonce2, mac.value,
                                        publicKey]);
        Ok((AfterM2(nonce1.value, mac.value, otherRaw.value, publicKey, authKey, wrapKey, m2hmac),
            EMPTY.(a := s.encode(nonce1.value), b := s.encode(coins.nonce2), c := s.encode(mac.value),
                   d := s.encode(publicKey), e := s.encode(m2hmac))))
  }

  function MakeM4(s: RawSuite, coins: ClientCoins, pin: seq<byte>, c: AfterM2, m3: Message)
    : Result<(AfterM4, Message)>
  {
    var nonce2, eHash, m3hmac := DecodeField(s, m3.a, 16), DecodeField(s, m3.b, 32), DecodeField(s, m3.e, 32);
    if nonce2.None? || nonce2.value != coins.nonce2 then Err("registration: M3 nonce mismatch")
    else if eHash.None? || m3hmac.None? then Err("registration: invalid M3")
    else
      var wantM3 := Hash(s, c.authKey, [c.nonce1, coins.nonce2, c.mac, c.publicKey, c.m2hmac, coins.nonce2,
                                       eHash.value]);
      if m3hmac.value != wantM3 then Err("registration: M3 transcript authentication failed")
      else if !ValidPin(pin) || |pin| > 64 then Err("registration: invalid PIN")
      else
        var psk := Hash(s, c.authKey, [pin]);
        var rHash := Hash(s, c.authKey, [coins.rs, psk, c.otherRaw, c.publicKey]);
        var wrappedRs := Wrapped(s.cipher, s.hmac, coins.rs, c.authKey, c.wrapKey, coins.rsIv);
        if wrappedRs.Err? then Err(wrappedRs.error)
        else
          var m4hmac := Hash(s, c.authKey, [coins.nonce2, eHash.value, m3hmac.value, c.nonce1, rHash, wrappedRs.value]);
          Ok((AfterM4(psk, eHash.value, m3hmac.value, rHash, wrappedRs.value, m4hmac),
              EMPTY.(a := s.encode(c.nonce1), b := s.encode(rHash), d := s.encode(wrappedRs.value),
                     e := s.encode(m4hmac))))
  }

  /** The device's certificate, and M6. */
  function MakeM6(s: RawSuite, coins: ClientCoins, c: AfterM2, c4: AfterM4, m5: Message): Result<(seq<byte>, Message)> {
    var nonce2, m5hmac := DecodeField(s, m5.a, 16), DecodeField(s, m5.e, 32);
    var wrappedCertificate := DecodeRange(s, m5.d, 32, MAX_RESPONSE_SIZE / 2);
    if nonce2.None? || nonce2.value != coins.nonce2 then Err("registration: M5 nonce mismatch")
    else if wrappedCertificate.None? || m5hmac.None? then Err("registration: invalid M5")
    else
      var wantM5 := Hash(s, c.authKey, [c.nonce1, c4.rHash, c4.wrappedRs, c4.m4hmac, coins.nonce2,
                                        wrappedCertificate.value]);
      if m5hmac.value != wantM5 then Err("registration: M5 transcript authentication failed")
      else
        var esCertificate := Unwrapped(s.cipher, s.hmac, wrappedCertificate.value, c.authKey, c.wrapKey);
        if esCertificate.Err? || |esCertificate.value| <= 16 then
          Err("registration: invalid wrapped device certificate")
        else
          var es, certificate := esCertificate.value[..16], esCertificate.value[16..];
          var wantEHash := Hash(s, c.authKey, [es, c4.psk, c.otherRaw, c.publicKey]);
          if c4.eHash != wantEHash then Err("registration: PIN or device certificate authentication failed")
          else if !s.certificateOk(certificate) then Err("registration: device returned invalid certificate PEM")
          else
            var identity := coins.clientId + s.marshalKey(coins.key);
            var wrappedIdentity := Wrapped(s.cipher, s.hmac, identity, c.authKey, c.wrapKey, coins.identityIv);
            if wrappedIdentity.Err? then Err(wrappedIdentity.error)
            else
              var m6hmac := Hash(s, c.authKey, [coins.nonce2, wrappedCertificate.value, m5hmac.value, c.nonce1,
                                                wrappedIdentity.value]);
              Ok((certificate, EMPTY.(a := s.encode(c.nonce1), d := s.encode(wrappedIdentity.value),
                                      e := s.encode(m6hmac))))
  }

  /** Result: the client's ID, its key, and the device's certificate. */
  datatype Registered = Registered(clientId: seq<byte>, key: Key, certificate: seq<byte>)

  /** One run of Register against a device that starts blank: its result, and what the device registered. */
  function Run(s: RawSuite, coins: ClientCoins, pin: seq<byte>, devicePin: seq<byte>, certificate: seq<byte>,
               random: seq<byte>): (Result<Registered>, seq<(seq<byte>, Key)>)
  {
    var (t1, m1) := PinStep(s, BLANK, random);
    if m1.Err? then (Err(m1.error), []) else
    var m2 := MakeM2(s, coins, m1.value);
    if m2.Err? then (Err(m2.error), []) else
    var (t2, m3) := HashStep(s, devicePin, t1, m2.value.1);
    if m3.Err? then (Err(m3.error), []) else
    var m4 := MakeM4(s, coins, pin, m2.value.0, m3.value);
    if m4.Err? then (Err(m4.error), []) else
    var (t3, m5) := CaStep(s, devicePin, certificate, t2, m4.value.1, AfterDraws(random));
    if m5.Err? then (Err(m5.error), []) else
    var m6 := MakeM6(s, coins, m2.value.0, m4.value.0, m5.value);
    if m6.Err? then (Err(m6.error), []) else
    var done := RegistrationStep(s, t3, m6.value.1).1;
    if done.Err? then (Err(done.error), []) else
    (Ok(Registered(coins.clientId, coins.key, m6.value.0)), [done.value])
  }

  // ---------- both sides after M2 ----------

  /** The device's draws: its exponent is private, and one more block of randomness is left for later. */
  predicate FairRandom(random: seq<byte>) {
    |random| >= 38 && Draw(random[38..], ATTEMPTS).Ok? && |AfterDraws(random)| >= BLOCK_BYTES
  }

  function DeviceExponent(random: seq<byte>): nat
    requires FairRandom(random)
  {
    Draw(random[38..], ATTEMPTS).value.0
  }

  /** The keys both sides derive. */
  function SessionKeys(s: RawSuite, coins: ClientCoins, random: seq<byte>): (seq<byte>, seq<byte>)
    requires FairRandom(random)
  {
    var shared := SharedBytes(s.group, coins.x, PublicBytes(s.group, DeviceExponent(random)));
    DeriveKeys(s, if shared.Ok? then shared.value else [], Joined([random[..16], random[16..22], coins.nonce2]))
  }

  lemma {:induction false} FieldSurvives(s: RawSuite, value: seq<byte>, minimum: nat, maximum: nat)
    requires Lawful(s) && minimum <= |value| <= maximum
    ensures DecodeRange(s, s.encode(value), minimum, maximum) == Some(value)
    ensures minimum == maximum ==> DecodeField(s, s.encode(value), minimum) == Some(value)
  {
  }

  /** What a device whose exponent is y sends as M1. */
  function M1(s: RawSuite, nonce1: seq<byte>, mac: seq<byte>, y: nat): Message {
    EMPTY.(a := s.encode(nonce1), b := s.encode(mac), c := s.encode(PublicBytes(s.group, y)))
  }

  /** A client answers an honest M1, and derives the keys that the device will derive from its answer. */
  lemma {:induction false} ClientAnswers(s: RawSuite, coins: ClientCoins, nonce1: seq<byte>, mac: seq<byte>, y: nat)
    requires Lawful(s) && FairCoins(coins) && IsPrivate(y) && |nonce1| == 16 && |mac| == 6
    ensures var shared := SharedBytes(s.group, y, PublicBytes(s.group, coins.x));
      var m2 := MakeM2(s, coins, M1(s, nonce1, mac, y));
      && shared.Ok? && shared == SharedBytes(s.group, coins.x, PublicBytes(s.group, y)) && m2.Ok?
      && var (c, message) := m2.value;
      && (c.authKey, c.wrapKey) == DeriveKeys(s, shared.value, Joined([nonce1, mac, coins.nonce2]))
      && c == AfterM2(nonce1, mac, PublicBytes(s.group, y), PublicBytes(s.group, coins.x), c.authKey, c.wrapKey,
                      c.m2hmac)
      && c.m2hmac == Hash(s, c.authKey, [nonce1, mac, c.otherRaw, nonce1, coins.nonce2, mac, c.publicKey])
      && message == EMPTY.(a := s.encode(nonce1), b := s.encode(coins.nonce2), c := s.encode(mac),
                           d := s.encode(c.publicKey), e := s.encode(c.m2hmac))
  {
    hide PublicBytes, SharedBytes, DeriveKeys, Hash, Joined, DecodeField, DecodeRange, IsGroup;
    HonestSidesAgree(s.group, coins.x, y);
    FieldSurvives(s, nonce1, 16, 16);
    FieldSurvives(s, mac, 6, 6);
    FieldSurvives(s, PublicBytes(s.group, y), 256, 257);
  }

  lemma {:induction false} FirstMessages(s: RawSuite, coins: ClientCoins, random: seq<byte>)
    requires Lawful(s) && FairCoins(coins) && FairRandom(random)
    ensures var (t1, m1) := PinStep(s, BLANK, random);
      && m1.Ok?
      && var m2 := MakeM2(s, coins, m1.value);
      && m2.Ok?
      && var c := m2.value.0;
      var (authKey, wrapKey) := SessionKeys(s, coins, random);
      && t1 == BLANK.(dh := Some(DeviceExponent(random)), nonce1 := random[..16], mac := random[16..22],
                      otherRaw := PublicBytes(s.group, DeviceExponent(random)), es := random[22..38])
      && c == AfterM2(t1.nonce1, t1.mac, t1.otherRaw, PublicBytes(s.group, coins.x), authKey, wrapKey, c.m2hmac)
      && c.m2hmac == Hash(s, authKey, [t1.nonce1, t1.mac, t1.otherRaw, t1.nonce1, coins.nonce2, t1.mac, c.publicKey])
      && m2.value.1 == EMPTY.(a := s.encode(t1.nonce1), b := s.encode(coins.nonce2), c := s.encode(t1.mac),
                              d := s.encode(c.publicKey), e := s.encode(c.m2hmac))
  {
    hide PublicBytes, SharedBytes, DeriveKeys, Hash, Joined, MakeM2, Lawful;
    DrawnIsPrivate(random[38..], ATTEMPTS);
    ClientAnswers(s, coins, random[..16], random[16..22], DeviceExponent(random));
    hide Draw;
  }

  // ---------- both sides after M3 ----------

  /** Client and device hold the same transcript and the same keys. */
  ghost predicate Paired(s: RawSuite, coins: ClientCoins, devicePin: seq<byte>, c: AfterM2, t: Transcript) {
    && t.nonce1 == c.nonce1 && |c.nonce1| == 16 && t.mac == c.mac && t.nonce2 == coins.nonce2 && |coins.nonce2| == 16
    && t.otherRaw == c.otherRaw && t.clientPublic == c.publicKey && |t.es| == 16
    && t.authKey == c.authKey && |c.authKey| == 32 && t.wrapKey == c.wrapKey && |c.wrapKey| == 16
    && t.m2hmac == c.m2hmac
    && t.eHash == Hash(s, c.authKey, [t.es, Hash(s, c.authKey, [devicePin]), c.otherRaw, c.publicKey])
    && t.m3hmac == Hash(s, c.authKey, [c.nonce1, coins.nonce2, c.mac, c.publicKey, c.m2hmac, coins.nonce2, t.eHash])
  }

  /** The device accepts M2 from a client with the same keys. */
  lemma {:induction false} HashAnswers(s: RawSuite, coins: ClientCoins, devicePin: seq<byte>, c: AfterM2, t: Transcript)
    requires Lawful(s) && t.dh.Some? && |t.es| == 16
    requires t.nonce1 == c.nonce1 && |c.nonce1| == 16 && t.mac == c.mac && |c.mac| == 6 && |coins.nonce2| == 16
    requires t.otherRaw == c.otherRaw && |c.publicKey| == 257
    requires var shared := SharedBytes(s.group, t.dh.value, c.publicKey);
      shared.Ok? && (c.authKey, c.wrapKey) == DeriveKeys(s, shared.value, Joined([c.nonce1, c.mac, coins.nonce2]))
    requires c.m2hmac == Hash(s, c.authKey, [c.nonce1, c.mac, c.otherRaw, c.nonce1, coins.nonce2, c.mac, c.publicKey])
    ensures var m2 := EMPTY.(a := s.encode(c.nonce1), b := s.encode(coins.nonce2), c := s.encode(c.mac),
                             d := s.encode(c.publicKey), e := s.encode(c.m2hmac));
      var (t2, m3) := HashStep(s, devicePin, t, m2);
      && m3 == Ok(EMPTY.(a := s.encode(coins.nonce2), b := s.encode(t2.eHash), e := s.encode(t2.m3hmac)))
      && Paired(s, coins, devicePin, c, t2)
      && t2.wrappedCertificate == t.wrappedCertificate && t2.dh == t.dh && t2.es == t.es
  {
    hide SharedBytes, DeriveKeys, Hash, Joined, DecodeField, DecodeRange, IsGroup;
    FieldSurvives(s, c.nonce1, 16, 16);
    FieldSurvives(s, coins.nonce2, 16, 16);
    FieldSurvives(s, c.mac, 6, 6);
    FieldSurvives(s, c.publicKey, 257, 257);
    FieldSurvives(s, c.m2hmac, 32, 32);
  }

  lemma {:induction false} DeviceAgrees(s: RawSuite, coins: ClientCoins, random: seq<byte>)
    requires Lawful(s) && FairCoins(coins) && FairRandom(random)
    ensures var shared := SharedBytes(s.group, DeviceExponent(random), PublicBytes(s.group, coins.x));
      && shared.Ok?
      && SessionKeys(s, coins, random) ==
           DeriveKeys(s, shared.value, Joined([random[..16], random[16..22], coins.nonce2]))
  {
    hide PublicBytes, SharedBytes, DeriveKeys, Joined, IsGroup;
    DrawnIsPrivate(random[38..], ATTEMPTS);
    HonestSidesAgree(s.group, coins.x, DeviceExponent(random));
  }

  lemma {:induction false} SecondMessages(s: RawSuite, coins: ClientCoins, devicePin: seq<byte>, random: seq<byte>)
    requires Lawful(s) && FairCoins(coins) && FairRandom(random)
    requires PinStep(s, BLANK, random).1.Ok? && MakeM2(s, coins, PinStep(s, BLANK, random).1.value).Ok?
    ensures var (t1, m1) := PinStep(s, BLANK, random);
      var (c, m2) := MakeM2(s, coins, m1.value).value;
      var (t2, m3) := HashStep(s, devicePin, t1, m2);
      && (c.authKey, c.wrapKey) == SessionKeys(s, coins, random)
      && m3 == Ok(EMPTY.(a := s.encode(coins.nonce2), b := s.encode(t2.eHash), e := s.encode(t2.m3hmac)))
      && Paired(s, coins, devicePin, c, t2)
  {
    hide PublicBytes, SharedBytes, DeriveKeys, Hash, Joined, IsGroup, Draw, PinStep, MakeM2, HashStep, Paired;
    hide SessionKeys, DeviceExponent;
    FirstMessages(s, coins, random);
    DeviceAgrees(s, coins, random);
    var (t1, m1) := PinStep(s, BLANK, random);
    var (c, m2) := MakeM2(s, coins, m1.value).value;
    HashAnswers(s, coins, devicePin, c, t1);
  }

  // ---------- M4: the PIN decides ----------

  lemma {:induction false} ThirdMessages(s: RawSuite, coins: ClientCoins, pin: seq<byte>, devicePin: seq<byte>,
                                         c: AfterM2, t: Transcript)
    requires Lawful(s) && FairCoins(coins) && Paired(s, coins, devicePin, c, t) && ValidPin(pin) && |pin| <= 64
    ensures var m3 := EMPTY.(a := s.encode(coins.nonce2), b := s.encode(t.eHash), e := s.encode(t.m3hmac));
      var m4 := MakeM4(s, coins, pin, c, m3);
      && m4.Ok?
      && var (c4, message) := m4.value;
      && c4.psk == Hash(s, c.authKey, [pin]) && c4.eHash == t.eHash && c4.m3hmac == t.m3hmac
      && c4.rHash == Hash(s, c.authKey, [coins.rs, c4.psk, c.otherRaw, c.publicKey])
      && Wrapped(s.cipher, s.hmac, coins.rs, c.authKey, c.wrapKey, coins.rsIv) == Ok(c4.wrappedRs)
      && |c4.wrappedRs| == 48
      && c4.m4hmac == Hash(s, c.authKey, [coins.nonce2, t.eHash, t.m3hmac, c.nonce1, c4.rHash, c4.wrappedRs])
      && |c4.rHash| == 32 && |c4.m4hmac| == 32
      && message == EMPTY.(a := s.encode(c.nonce1), b := s.encode(c4.rHash), d := s.encode(c4.wrappedRs),
                           e := s.encode(c4.m4hmac))
  {
    WrappingNeedsKey(s.cipher, s.hmac, coins.rs, c.authKey, c.wrapKey, coins.rsIv);
    hide Hash, DecodeField, DecodeRange, Wrapped, IsGroup;
    FieldSurvives(s, coins.nonce2, 16, 16);
    FieldSurvives(s, t.eHash, 32, 32);
    FieldSurvives(s, t.m3hmac, 32, 32);
  }

  /** On an honest M4 the device's decision is the comparison of the two PIN proofs. */
  lemma {:induction false} PinDecides(s: RawSuite, coins: ClientCoins, pin: seq<byte>, devicePin: seq<byte>,
                                      certificate: seq<byte>, c: AfterM2, c4: AfterM4, t: Transcript, random: seq<byte>)
    requires Lawful(s) && FairCoins(coins) && Paired(s, coins, devicePin, c, t) && |random| >= BLOCK_BYTES
    requires c4.rHash == Hash(s, c.authKey, [coins.rs, Hash(s, c.authKey, [pin]), c.otherRaw, c.publicKey])
    requires Wrapped(s.cipher, s.hmac, coins.rs, c.authKey, c.wrapKey, coins.rsIv) == Ok(c4.wrappedRs)
    requires |c4.wrappedRs| == 48 && |c4.rHash| == 32 && |c4.m4hmac| == 32
    requires c4.m4hmac == Hash(s, c.authKey, [coins.nonce2, t.eHash, t.m3hmac, c.nonce1, c4.rHash, c4.wrappedRs])
    ensures var m4 := EMPTY.(a := s.encode(c.nonce1), b := s.encode(c4.rHash), d := s.encode(c4.wrappedRs),
                             e := s.encode(c4.m4hmac));
      var (t', m5) := CaStep(s, devicePin, certificate, t, m4, random);
      if c4.rHash == Hash(s, c.authKey, [coins.rs, Hash(s, c.authKey, [devicePin]), c.otherRaw, c.publicKey]) then
        && m5 == Ok(EMPTY.(a := s.encode(coins.nonce2), d := s.encode(t'.wrappedCertificate), e := s.encode(t'.m5hmac)))
        && Wrapped(s.cipher, s.hmac, t.es + certificate, c.authKey, c.wrapKey, random[..BLOCK_BYTES]) ==
             Ok(t'.wrappedCertificate)
        && t' == t.(wrappedCertificate := t'.wrappedCertificate, m5hmac := t'.m5hmac) && |t'.m5hmac| == 32
        && t'.m5hmac == Hash(s, c.authKey, [c.nonce1, c4.rHash, c4.wrappedRs, c4.m4hmac, coins.nonce2,
                                            t'.wrappedCertificate])
      else m5 == Err(REJECTED) && t' == t
  {
    UnwrapAfterWrap(s.cipher, s.hmac, coins.rs, c.authKey, c.wrapKey, coins.rsIv);
    WrappingNeedsKey(s.cipher, s.hmac, t.es + certificate, c.authKey, c.wrapKey, random[..BLOCK_BYTES]);
    hide Hash, DecodeField, DecodeRange, Wrapped, Unwrapped, IsGroup;
    FieldSurvives(s, c.nonce1, 16, 16);
    FieldSurvives(s, c4.rHash, 32, 32);
    FieldSurvives(s, c4.wrappedRs, 32, 128);
    FieldSurvives(s, c4.m4hmac, 32, 32);
  }

  // ---------- M5 and M6 ----------

  /** The lengths that the fields for the wrapped certificate and the wrapped identity allow. */
  predicate Fits(data: seq<byte>) {
    |data| + TAG_BYTES + Padding(|data| + TAG_BYTES, BLOCK_BYTES) + BLOCK_BYTES <= MAX_RESPONSE_SIZE / 2
  }

  lemma {:induction false} WrappedFits(s: RawSuite, data: seq<byte>, authKey: seq<byte>, wrapKey: seq<byte>, iv: Block)
    requires |wrapKey| == 16
    ensures var r := Wrapped(s.cipher, s.hmac, data, authKey, wrapKey, iv);
      && r.Ok? && 32 <= |r.value| && (|data| > 36 ==> |r.value| >= 64)
      && (Fits(data) <==> |r.value| <= MAX_RESPONSE_SIZE / 2)
  {
    WrappingNeedsKey(s.cipher, s.hmac, data, authKey, wrapKey, iv);
    hide Wrapped;
    var padding := Padding(|data| + TAG_BYTES, BLOCK_BYTES);
  }

  lemma {:induction false} LastMessages(s: RawSuite, coins: ClientCoins, devicePin: seq<byte>, certificate: seq<byte>,
                                        c: AfterM2, c4: AfterM4, t: Transcript, t': Transcript, iv: Block)
    requires Lawful(s) && FairCoins(coins) && Paired(s, coins, devicePin, c, t) && s.certificateOk(certificate)
    requires Fits(t.es + certificate) && Fits(coins.clientId + s.marshalKey(coins.key))
    requires c4.psk == Hash(s, c.authKey, [devicePin]) && c4.eHash == t.eHash
    requires Wrapped(s.cipher, s.hmac, t.es + certificate, c.authKey, c.wrapKey, iv) == Ok(t'.wrappedCertificate)
    requires t' == t.(wrappedCertificate := t'.wrappedCertificate, m5hmac := t'.m5hmac) && |t'.m5hmac| == 32
    requires t'.m5hmac == Hash(s, c.authKey, [c.nonce1, c4.rHash, c4.wrappedRs, c4.m4hmac, coins.nonce2,
                                              t'.wrappedCertificate])
    ensures var m5 := EMPTY.(a := s.encode(coins.nonce2), d := s.encode(t'.wrappedCertificate),
                             e := s.encode(t'.m5hmac));
      var m6 := MakeM6(s, coins, c, c4, m5);
      && m6.Ok? && m6.value.0 == certificate
      && RegistrationStep(s, t', m6.value.1).1 == Ok((coins.clientId, coins.key))
  {
    hide Hash, DecodeField, DecodeRange, Wrapped, Unwrapped, IsGroup;
    var esCertificate := t.es + certificate;
    var identity := coins.clientId + s.marshalKey(coins.key);
    assert esCertificate[..16] == t.es && esCertificate[16..] == certificate;
    assert identity[..36] == coins.clientId && identity[36..] == s.marshalKey(coins.key);
    assert certificate != [] && |identity| > 36;
    WrappedFits(s, esCertificate, c.authKey, c.wrapKey, iv);
    WrappedFits(s, identity, c.authKey, c.wrapKey, coins.identityIv);
    UnwrapAfterWrap(s.cipher, s.hmac, esCertificate, c.authKey, c.wrapKey, iv);
    UnwrapAfterWrap(s.cipher, s.hmac, identity, c.authKey, c.wrapKey, coins.identityIv);
    var wrappedIdentity := Wrapped(s.cipher, s.hmac, identity, c.authKey, c.wrapKey, coins.identityIv).value;
    FieldSurvives(s, coins.nonce2, 16, 16);
    FieldSurvives(s, t'.wrappedCertificate, 32, MAX_RESPONSE_SIZE / 2);
    FieldSurvives(s, t'.m5hmac, 32, 32);
    FieldSurvives(s, c.nonce1, 16, 16);
    FieldSurvives(s, wrappedIdentity, 64, MAX_RESPONSE_SIZE / 2);
    var m6hmac := Hash(s, c.authKey, [coins.nonce2, t'.wrappedCertificate, t'.m5hmac, c.nonce1, wrappedIdentity]);
    FieldSurvives(s, m6hmac, 32, 32);
  }

  // ---------- whole runs ----------

  /** An honest run with one PIN: all six messages pass, and the device registers just what the client returns. */
  lemma {:induction false} HonestRunRegisters(s: RawSuite, coins: ClientCoins, pin: seq<byte>, certificate: seq<byte>,
                                              random: seq<byte>)
    requires Lawful(s) && FairCoins(coins) && FairRandom(random) && ValidPin(pin) && |pin| <= 64
    requires s.certificateOk(certificate)
    requires Fits(random[22..38] + certificate) && Fits(coins.clientId + s.marshalKey(coins.key))
    ensures Run(s, coins, pin, pin, certificate, random) ==
            (Ok(Registered(coins.clientId, coins.key, certificate)), [(coins.clientId, coins.key)])
  {
    hide PinStep, MakeM2, HashStep, MakeM4, CaStep, MakeM6, RegistrationStep, Hash, Wrapped, Paired, Lawful, IsGroup;
    FirstMessages(s, coins, random);
    SecondMessages(s, coins, pin, random);
    var (t1, m1) := PinStep(s, BLANK, random);
    var (c, m2) := MakeM2(s, coins, m1.value).value;
    var (t2, m3) := HashStep(s, pin, t1, m2);
    assert t2.es == t1.es by { hide *; HashKeepsSecret(s, pin, t1, m2); }
    ThirdMessages(s, coins, pin, pin, c, t2);
    var (c4, m4) := MakeM4(s, coins, pin, c, m3.value).value;
    var rest := AfterDraws(random);
    PinDecides(s, coins, pin, pin, certificate, c, c4, t2, rest);
    var (t3, m5) := CaStep(s, pin, certificate, t2, m4, rest);
    LastMessages(s, coins, pin, certificate, c, c4, t2, t3, rest[..BLOCK_BYTES]);
  }

  lemma {:induction false} HashKeepsSecret(s: RawSuite, pin: seq<byte>, t: Transcript, m2: Message)
    ensures HashStep(s, pin, t, m2).0.es == t.es
  {
    hide DeriveKeys, SharedBytes, Hash, DecodeField, Joined;
  }

  /** Different messages among the given ones have different MACs under the key. */
  ghost predicate NoCollision(hmac: Hmac, key: seq<byte>, messages: set<seq<byte>>) {
    forall m, m' | m in messages && m' in messages :: hmac(key, m) == hmac(key, m') ==> m == m'
  }

  /** The message whose MAC proves knowledge of a PIN. */
  function PinProof(s: RawSuite, key: seq<byte>, coins: ClientCoins, pin: seq<byte>, random: seq<byte>): seq<byte>
    requires FairRandom(random)
  {
    Joined([coins.rs, Hash(s, key, [pin]), PublicBytes(s.group, DeviceExponent(random)), PublicBytes(s.group, coins.x)])
  }

  /** The MAC inputs of a run that depend on the PINs. */
  function PinMessages(s: RawSuite, coins: ClientCoins, pin: seq<byte>, devicePin: seq<byte>, random: seq<byte>)
    : set<seq<byte>>
    requires FairRandom(random)
  {
    var key := SessionKeys(s, coins, random).0;
    {pin, devicePin, PinProof(s, key, coins, pin, random), PinProof(s, key, coins, devicePin, random)}
  }

  lemma {:induction false} JoinedFour(a: seq<byte>, b: seq<byte>, c: seq<byte>, d: seq<byte>)
    ensures Joined([a, b, c, d]) == a + b + c + d && Joined([a]) == a
  {
    assert [a, b, c, d][..3] == [a, b, c] && [a, b, c][..2] == [a, b] && [a, b][..1] == [a];
    assert Joined([a]) == a;
    assert Joined([a, b]) == a + b;
    assert Joined([a, b, c]) == a + b + c;
  }

  /** Without a collision, different PINs have different proofs. */
  lemma {:induction false} ProofsDiffer(s: RawSuite, key: seq<byte>, rs: seq<byte>, pin: seq<byte>,
                                        devicePin: seq<byte>, otherRaw: seq<byte>, publicKey: seq<byte>)
    requires pin != devicePin
    requires NoCollision(s.hmac, key, {pin, devicePin, Joined([rs, Hash(s, key, [pin]), otherRaw, publicKey]),
                                       Joined([rs, Hash(s, key, [devicePin]), otherRaw, publicKey])})
    ensures Hash(s, key, [rs, Hash(s, key, [pin]), otherRaw, publicKey]) !=
            Hash(s, key, [rs, Hash(s, key, [devicePin]), otherRaw, publicKey])
  {
    var p, q := Hash(s, key, [pin]), Hash(s, key, [devicePin]);
    JoinedFour(pin, p, otherRaw, publicKey);
    JoinedFour(devicePin, q, otherRaw, publicKey);
    JoinedFour(rs, p, otherRaw, publicKey);
    JoinedFour(rs, q, otherRaw, publicKey);
    hide Joined;
    assert p != q;
    var m, m' := rs + p + otherRaw + publicKey, rs + q + otherRaw + publicKey;
    assert m[|rs|..|rs| + 32] == p && m'[|rs|..|rs| + 32] == q;
  }

  lemma {:induction false} DifferentProofIsRefused(s: RawSuite, coins: ClientCoins, pin: seq<byte>,
                                                   devicePin: seq<byte>, certificate: seq<byte>, random: seq<byte>)
    requires Lawful(s) && FairCoins(coins) && FairRandom(random) && ValidPin(pin) && |pin| <= 64
    requires var key := SessionKeys(s, coins, random).0;
      var otherRaw, publicKey := PublicBytes(s.group, DeviceExponent(random)), PublicBytes(s.group, coins.x);
      Hash(s, key, [coins.rs, Hash(s, key, [pin]), otherRaw, publicKey]) !=
      Hash(s, key, [coins.rs, Hash(s, key, [devicePin]), otherRaw, publicKey])
    ensures Run(s, coins, pin, devicePin, certificate, random) == (Err(REJECTED), [])
  {
    hide PinStep, MakeM2, HashStep, MakeM4, CaStep, MakeM6, RegistrationStep, Hash, Wrapped, Paired, Lawful, IsGroup;
    hide SessionKeys, DeviceExponent, PublicBytes;
    FirstMessages(s, coins, random);
    SecondMessages(s, coins, devicePin, random);
    var (t1, m1) := PinStep(s, BLANK, random);
    var (c, m2) := MakeM2(s, coins, m1.value).value;
    var (t2, m3) := HashStep(s, devicePin, t1, m2);
    ThirdMessages(s, coins, pin, devicePin, c, t2);
    var (c4, m4) := MakeM4(s, coins, pin, c, m3.value).value;
    PinDecides(s, coins, pin, devicePin, certificate, c, c4, t2, AfterDraws(random));
  }

  /**
   An honest run registers if and only if the two PINs are the same: with different PINs, and no MAC collision among
   the messages they enter, the device refuses the proof in M4 and registers nothing.
   */
  lemma {:induction false} PinsDecideRun(s: RawSuite, coins: ClientCoins, pin: seq<byte>, devicePin: seq<byte>,
                                         certificate: seq<byte>, random: seq<byte>)
    requires Lawful(s) && FairCoins(coins) && FairRandom(random) && ValidPin(pin) && |pin| <= 64
    requires s.certificateOk(certificate)
    requires Fits(random[22..38] + certificate) && Fits(coins.clientId + s.marshalKey(coins.key))
    requires NoCollision(s.hmac, SessionKeys(s, coins, random).0, PinMessages(s, coins, pin, devicePin, random))
    ensures Run(s, coins, pin, devicePin, certificate, random) ==
            if pin == devicePin then
              (Ok(Registered(coins.clientId, coins.key, certificate)), [(coins.clientId, coins.key)])
            else (Err(REJECTED), [])
  {
    if pin == devicePin {
      HonestRunRegisters(s, coins, pin, certificate, random);
    } else {
      RunProofsDiffer(s, coins, pin, devicePin, random);
      DifferentProofIsRefused(s, coins, pin, devicePin, certificate, random);
    }
  }

  lemma {:induction false} RunProofsDiffer(s: RawSuite, coins: ClientCoins, pin: seq<byte>, devicePin: seq<byte>,
                                           random: seq<byte>)
    requires FairRandom(random) && pin != devicePin
    requires NoCollision(s.hmac, SessionKeys(s, coins, random).0, PinMessages(s, coins, pin, devicePin, random))
    ensures var key := SessionKeys(s, coins, random).0;
      var otherRaw, publicKey := PublicBytes(s.group, DeviceExponent(random)), PublicBytes(s.group, coins.x);
      Hash(s, key, [coins.rs, Hash(s, key, [pin]), otherRaw, publicKey]) !=
      Hash(s, key, [coins.rs, Hash(s, key, [devicePin]), otherRaw, publicKey])
  {
    hide Joined, NoCollision, SessionKeys, DeviceExponent, PublicBytes, Hash, FairRandom;
    ProofsDiffer(s, SessionKeys(s, coins, random).0, coins.rs, pin, devicePin,
                 PublicBytes(s.group, DeviceExponent(random)), PublicBytes(s.group, coins.x));
  }
}
