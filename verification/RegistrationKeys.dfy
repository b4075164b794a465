/**
 Which keys a registration is checked under (internal/wire/registration/emulator.go). A hash step replaces the session
 keys and leaves the rest of the transcript as it is, so the keys need not be those the PIN was proved under.
 */
module RegistrationKeys {
  import opened Results
  import opened Bytes
  import opened DiffieHellman
  import opened RegistrationCrypto
  import opened RegistrationWire
  import opened RegistrationEmulator
  import opened RegistrationTrace
  import opened Registration

  function Keys(t: Transcript): (seq<byte>, seq<byte>) {
    (t.authKey, t.wrapKey)
  }

  /** The keys that a hash step derives from M2. */
  function HashedKeys(s: RawSuite, t: Transcript, m2: Message): (seq<byte>, seq<byte>) {
    var nonce1, nonce2, mac := DecodeField(s, m2.a, 16), DecodeField(s, m2.b, 16), DecodeField(s, m2.c, 6);
    var clientPublic := DecodeField(s, m2.d, 257);
    if t.dh.None? || nonce1.None? || nonce2.None? || mac.None? || clientPublic.None? then ([], [])
    else
      var shared := SharedBytes(s.group, t.dh.value, clientPublic.value);
      if shared.Err? then ([], [])
      else DeriveKeys(s, shared.value, Joined([nonce1.value, mac.value, nonce2.value]))
  }

  /** No request from index `from` on is an accepted hash step. */
  ghost predicate NoHash(s: RawSuite, certificate: seq<byte>, start: Device, rs: seq<Request>, from: nat) {
    forall k | from <= k < |rs| :: !HashAccepted(s, After(s, certificate, start, rs[..k]), rs[k])
  }

  /**
   An accepted hash step replaces the keys, and neither certificate nor M5; nothing but it and a reset touches them.
   */
  lemma {:induction false} HashReplacesKeys(s: RawSuite, certificate: seq<byte>, d: Device, r: Request)
    ensures var t, t' := d.transcript, Handle(s, certificate, d, r).transcript;
      && (HashAccepted(s, d, r) ==>
            && Keys(t') == HashedKeys(s, t, r.m2)
            && t'.nonce1 == t.nonce1 && t'.wrappedCertificate == t.wrappedCertificate && t'.m5hmac == t.m5hmac)
      && (!HashAccepted(s, d, r) && !Resets(s, d, r) ==> Keys(t') == Keys(t))
  {
    hide Hash, DecodeField, DecodeRange, Unwrapped, Wrapped, DeriveKeys, Joined, SharedBytes;
  }

  lemma {:induction false} KeysStay(s: RawSuite, certificate: seq<byte>, start: Device, rs: seq<Request>, from: nat)
    requires from <= |rs| && NoReset(s, certificate, start, rs, from) && NoHash(s, certificate, start, rs, from)
    ensures Keys(After(s, certificate, start, rs).transcript) ==
            Keys(After(s, certificate, start, rs[..from]).transcript)
  {
    hide Handle, HashAccepted, Resets, After;
    if from == |rs| {
      assert rs[..from] == rs;
    } else {
      var n := |rs| - 1;
      forall k | 0 <= k <= n
        ensures rs[..n][..k] == rs[..k]
      {
      }
      KeysStay(s, certificate, start, rs[..n], from);
      LastStep(s, certificate, start, rs);
      HashReplacesKeys(s, certificate, After(s, certificate, start, rs[..n]), rs[n]);
    }
  }

  lemma {:induction false} CertifiedIsCa(s: RawSuite, certificate: seq<byte>, start: Device, rs: seq<Request>, j: nat)
    requires CertifiedAt(s, certificate, start, rs, j)
    ensures j < |rs| && rs[j].PostCa? && NoReset(s, certificate, start, rs, j)
  {
    hide CaStep, PinProved, After, NoReset;
  }

  /**
   The keys that M6 is checked under are those of the PIN proof at index j if and only if the last accepted hash step,
   at index h, came before the proof or derived the same keys again.
   */
  lemma {:induction false} RegistrationUsesProvedKeys(s: RawSuite, certificate: seq<byte>, start: Device,
                                                      rs: seq<Request>, j: nat, h: nat)
    requires CertifiedAt(s, certificate, start, rs, j)
    requires h < |rs| && HashAccepted(s, After(s, certificate, start, rs[..h]), rs[h])
    requires NoHash(s, certificate, start, rs, h + 1)
    ensures Keys(After(s, certificate, start, rs).transcript) == Keys(After(s, certificate, start, rs[..j]).transcript)
            <==>
            || h < j
            || HashedKeys(s, After(s, certificate, start, rs[..h]).transcript, rs[h].m2) ==
                 Keys(After(s, certificate, start, rs[..j]).transcript)
  {
    CertifiedIsCa(s, certificate, start, rs, j);
    assert h != j;
    hide CertifiedAt, Handle, HashedKeys, CaAccepted, PinProved, HashAccepted, Resets, After;
    if h < j {
      KeysStay(s, certificate, start, rs, j);
    } else {
      KeysStay(s, certificate, start, rs, h + 1);
      assert rs[..h + 1][..h] == rs[..h];
      LastStep(s, certificate, start, rs[..h + 1]);
      HashReplacesKeys(s, certificate, After(s, certificate, start, rs[..h]), rs[h]);
    }
  }

  /** Once a certificate is wrapped, an M6 made under the session keys of the moment is accepted, whoever made it. */
  lemma {:induction false} SessionKeysSuffice(s: RawSuite, t: Transcript, clientId: seq<byte>, key: Key, iv: Block)
    requires Lawful(s) && t.wrappedCertificate != [] && |t.nonce1| == 16 && |t.wrapKey| == 16
    requires |clientId| == 36 && Is2048Bit(key) && Fits(clientId + s.marshalKey(key))
    ensures var wrapped := Wrapped(s.cipher, s.hmac, clientId + s.marshalKey(key), t.authKey, t.wrapKey, iv);
      && wrapped.Ok?
      && var m6hmac := Hash(s, t.authKey, [t.nonce2, t.wrappedCertificate, t.m5hmac, t.nonce1, wrapped.value]);
      var m6 := EMPTY.(a := s.encode(t.nonce1), d := s.encode(wrapped.value), e := s.encode(m6hmac));
      RegistrationStep(s, t, m6).1 == Ok((clientId, key))
  {
    hide Hash, DecodeField, DecodeRange, Wrapped, Unwrapped, IsGroup;
    var identity := clientId + s.marshalKey(key);
    assert identity[..36] == clientId && identity[36..] == s.marshalKey(key) && |identity| > 36;
    WrappedFits(s, identity, t.authKey, t.wrapKey, iv);
    UnwrapAfterWrap(s.cipher, s.hmac, identity, t.authKey, t.wrapKey, iv);
    var wrapped := Wrapped(s.cipher, s.hmac, identity, t.authKey, t.wrapKey, iv).value;
    FieldSurvives(s, t.nonce1, 16, 16);
    FieldSurvives(s, wrapped, 64, MAX_RESPONSE_SIZE / 2);
    FieldSurvives(s, Hash(s, t.authKey, [t.nonce2, t.wrappedCertificate, t.m5hmac, t.nonce1, wrapped]), 32, 32);
  }

  /** The M6 of a client that knows the session keys, and of the messages only what was sent in the clear. */
  function KeyHolderM6(s: RawSuite, t: Transcript, clientId: seq<byte>, key: Key, iv: Block): Message {
    var wrapped := Wrapped(s.cipher, s.hmac, clientId + s.marshalKey(key), t.authKey, t.wrapKey, iv);
    if wrapped.Err? then EMPTY
    else
      var m6hmac := Hash(s, t.authKey, [t.nonce2, t.wrappedCertificate, t.m5hmac, t.nonce1, wrapped.value]);
      EMPTY.(a := s.encode(t.nonce1), d := s.encode(wrapped.value), e := s.encode(m6hmac))
  }

  /**
   A hash step is accepted after the CA step too, from any client that answers M1 and whatever the PIN; it keeps the
   certificate; and that client, which has shown no PIN, can then register.
   */
  lemma {:induction false} LaterClientRegisters(s: RawSuite, coins: ClientCoins, pin: seq<byte>, t: Transcript, y: nat)
    requires Lawful(s) && FairCoins(coins) && Fits(coins.clientId + s.marshalKey(coins.key))
    requires t.dh == Some(y) && IsPrivate(y) && t.otherRaw == PublicBytes(s.group, y)
    requires |t.nonce1| == 16 && |t.mac| == 6 && |t.es| == 16 && t.wrappedCertificate != []
    ensures var m2 := MakeM2(s, coins, M1(s, t.nonce1, t.mac, y));
      && m2.Ok?
      && var (c, message) := m2.value;
      var (t2, m3) := HashStep(s, pin, t, message);
      && m3.Ok? && Keys(t2) == (c.authKey, c.wrapKey) && t2.wrappedCertificate == t.wrappedCertificate
      && var m6 := KeyHolderM6(s, t2, coins.clientId, coins.key, coins.identityIv);
      RegistrationStep(s, t2, m6).1 == Ok((coins.clientId, coins.key))
  {
    hide SharedBytes, PublicBytes, DeriveKeys, Hash, Joined, MakeM2, HashStep, RegistrationStep, Lawful, Wrapped, Fits;
    ClientAnswers(s, coins, t.nonce1, t.mac, y);
    var (c, message) := MakeM2(s, coins, M1(s, t.nonce1, t.mac, y)).value;
    HashAnswers(s, coins, pin, c, t);
    var t2 := HashStep(s, pin, t, message).0;
    SessionKeysSuffice(s, t2, coins.clientId, coins.key, coins.identityIv);
  }

  /** What the CA step of an honest run leaves: everything a hash step needs is still there. */
  ghost predicate Certified(s: RawSuite, coins: ClientCoins, random: seq<byte>, t: Transcript)
    requires FairRandom(random)
  {
    && t.dh == Some(DeviceExponent(random)) && IsPrivate(DeviceExponent(random))
    && t.otherRaw == PublicBytes(s.group, DeviceExponent(random))
    && t.nonce1 == random[..16] && |t.nonce1| == 16 && t.mac == random[16..22] && |t.mac| == 6 && |t.es| == 16
    && Keys(t) == SessionKeys(s, coins, random) && t.wrappedCertificate != []
  }

  lemma {:induction false} HonestHash(s: RawSuite, coins: ClientCoins, pin: seq<byte>, random: seq<byte>)
    returns (m2: Message, c: AfterM2)
    requires Lawful(s) && FairCoins(coins) && FairRandom(random)
    ensures var (t1, m1) := PinStep(s, BLANK, random);
      var (t2, m3) := HashStep(s, pin, t1, m2);
      && m1.Ok? && m3.Ok? && Paired(s, coins, pin, c, t2)
      && (c.authKey, c.wrapKey) == SessionKeys(s, coins, random)
      && t2.dh == Some(DeviceExponent(random)) && t2.otherRaw == PublicBytes(s.group, DeviceExponent(random))
      && t2.nonce1 == random[..16] && t2.mac == random[16..22] && |t2.es| == 16
  {
    hide PinStep, MakeM2, HashStep, Lawful, PublicBytes, SessionKeys, DeviceExponent, Paired, Hash, Draw;
    FirstMessages(s, coins, random);
    SecondMessages(s, coins, pin, random);
    var t1 := PinStep(s, BLANK, random).0;
    var (after, message) := MakeM2(s, coins, PinStep(s, BLANK, random).1.value).value;
    m2, c := message, after;
    HashKeepsExponent(s, pin, t1, m2);
  }

  lemma {:induction false} HonestSteps(s: RawSuite, coins: ClientCoins, pin: seq<byte>, certificate: seq<byte>,
                                       random: seq<byte>)
    returns (m2: Message, m4: Message)
    requires Lawful(s) && FairCoins(coins) && FairRandom(random) && ValidPin(pin) && |pin| <= 64
    ensures var (t1, m1) := PinStep(s, BLANK, random);
      var (t2, m3) := HashStep(s, pin, t1, m2);
      var (t3, m5) := CaStep(s, pin, certificate, t2, m4, AfterDraws(random));
      m1.Ok? && m3.Ok? && m5.Ok? && Certified(s, coins, random, t3)
  {
    DrawnIsPrivate(random[38..], ATTEMPTS);
    hide PinStep, HashStep, CaStep, Paired, Lawful, PublicBytes, SessionKeys, DeviceExponent, Draw, IsPrivate;
    var c;
    m2, c := HonestHash(s, coins, pin, random);
    var t2 := HashStep(s, pin, PinStep(s, BLANK, random).0, m2).0;
    m4 := HonestCa(s, coins, pin, certificate, c, t2, AfterDraws(random));
  }

  lemma {:induction false} HonestCa(s: RawSuite, coins: ClientCoins, pin: seq<byte>, certificate: seq<byte>,
                                    c: AfterM2, t: Transcript, random: seq<byte>)
    returns (m4: Message)
    requires Lawful(s) && FairCoins(coins) && Paired(s, coins, pin, c, t) && |random| >= BLOCK_BYTES
    requires ValidPin(pin) && |pin| <= 64
    ensures var (t', m5) := CaStep(s, pin, certificate, t, m4, random);
      m5.Ok? && t'.wrappedCertificate != [] && Keys(t') == (c.authKey, c.wrapKey) &&
      t' == t.(wrappedCertificate := t'.wrappedCertificate, m5hmac := t'.m5hmac)
  {
    ThirdMessages(s, coins, pin, pin, c, t);
    var m3 := EMPTY.(a := s.encode(coins.nonce2), b := s.encode(t.eHash), e := s.encode(t.m3hmac));
    var (c4, message) := MakeM4(s, coins, pin, c, m3).value;
    m4 := message;
    hide MakeM4, CaStep, Hash, Wrapped, Lawful, FairCoins;
    PinDecides(s, coins, pin, pin, certificate, c, c4, t, random);
    WrappedFits(s, t.es + certificate, c.authKey, c.wrapKey, random[..BLOCK_BYTES]);
  }

  /** The requests of an honest client with the right PIN up to the CA step. */
  lemma {:induction false} HonestRunUpToM5(s: RawSuite, coins: ClientCoins, pin: seq<byte>, certificate: seq<byte>,
                                           random: seq<byte>)
    returns (rs: seq<Request>)
    requires Lawful(s) && FairCoins(coins) && FairRandom(random) && ValidPin(pin) && |pin| <= 64
    ensures |rs| == 3 && rs[2].PostCa? && CertifiedAt(s, certificate, Device(pin, BLANK), rs, 2)
    ensures var d := After(s, certificate, Device(pin, BLANK), rs);
      d.pin == pin && Certified(s, coins, random, d.transcript)
  {
    hide PinStep, HashStep, CaStep, Lawful, CertifiedAt, Certified, FairCoins, ValidPin;
    var m2, m4 := HonestSteps(s, coins, pin, certificate, random);
    var start := Device(pin, BLANK);
    rs := [PostPin(random), PostHash(m2), PostCa(m4, AfterDraws(random))];
    ThreeRequests(s, certificate, start, rs);
    JustCertified(s, certificate, start, rs);
  }

  lemma {:induction false} ThreeRequests(s: RawSuite, certificate: seq<byte>, start: Device, rs: seq<Request>)
    requires |rs| == 3
    ensures After(s, certificate, start, rs[..1]) == Handle(s, certificate, start, rs[0])
    ensures After(s, certificate, start, rs[..2]) ==
            Handle(s, certificate, After(s, certificate, start, rs[..1]), rs[1])
    ensures After(s, certificate, start, rs) == Handle(s, certificate, After(s, certificate, start, rs[..2]), rs[2])
  {
    hide Handle;
    assert rs[..1][..0] == [] && rs[..2][..1] == rs[..1];
    assert After(s, certificate, start, []) == start;
  }

  lemma {:induction false} HashKeepsExponent(s: RawSuite, pin: seq<byte>, t: Transcript, m2: Message)
    ensures var t2 := HashStep(s, pin, t, m2).0;
      t2.dh == t.dh && t2.otherRaw == t.otherRaw && t2.nonce1 == t.nonce1 && t2.mac == t.mac && t2.es == t.es
  {
    hide DeriveKeys, SharedBytes, Hash, DecodeField, Joined;
  }

  /**
   The run: one client proves the PIN, another one that never does so registers. From a blank device, for any two
   clients.
   */
  lemma {:induction false} UnprovedRegistrationHappens(s: RawSuite, prover: ClientCoins, later: ClientCoins,
                                                       pin: seq<byte>, certificate: seq<byte>, random: seq<byte>)
    returns (rs: seq<Request>, m6: Message)
    requires Lawful(s) && FairCoins(prover) && FairCoins(later) && FairRandom(random) && ValidPin(pin) && |pin| <= 64
    requires Fits(later.clientId + s.marshalKey(later.key))
    ensures |rs| == 4 && rs[2].PostCa? && rs[3].PostHash?
    ensures var start := Device(pin, BLANK);
      && CertifiedAt(s, certificate, start, rs[..3], 2)
      && Keys(After(s, certificate, start, rs[..3]).transcript) == SessionKeys(s, prover, random)
      && HashAccepted(s, After(s, certificate, start, rs[..3]), rs[3])
      && Keys(After(s, certificate, start, rs).transcript) == SessionKeys(s, later, random)
      && RegistrationStep(s, After(s, certificate, start, rs).transcript, m6).1 == Ok((later.clientId, later.key))
  {
    hide CertifiedAt, Certified, HashStep, RegistrationStep, Lawful, SessionKeys, Fits, Keys, FairRandom, After;
    hide FairCoins;
    var start := Device(pin, BLANK);
    var first := HonestRunUpToM5(s, prover, pin, certificate, random);
    var d := After(s, certificate, start, first);
    var m2;
    m2, m6 := LaterMessages(s, prover, later, pin, random, d.transcript);
    rs := first + [PostHash(m2)];
    assert rs[..3] == first;
    LastStep(s, certificate, start, rs);
  }

  lemma {:induction false} LaterMessages(s: RawSuite, prover: ClientCoins, later: ClientCoins, pin: seq<byte>,
                                         random: seq<byte>, t: Transcript)
    returns (m2: Message, m6: Message)
    requires Lawful(s) && FairCoins(later) && FairRandom(random) && Certified(s, prover, random, t)
    requires Fits(later.clientId + s.marshalKey(later.key))
    ensures Keys(t) == SessionKeys(s, prover, random)
    ensures var (t2, m3) := HashStep(s, pin, t, m2);
      && m3.Ok? && Keys(t2) == SessionKeys(s, later, random)
      && RegistrationStep(s, t2, m6).1 == Ok((later.clientId, later.key))
  {
    hide MakeM2, HashStep, RegistrationStep, Lawful, PublicBytes, SharedBytes, DeriveKeys, SessionKeys, Fits;
    hide FairRandom, FairCoins, Joined, DeviceExponent, IsPrivate;
    var y := DeviceExponent(random);
    LaterClientRegisters(s, later, pin, t, y);
    ClientAnswers(s, later, t.nonce1, t.mac, y);
    DeviceAgrees(s, later, random);
    m2 := MakeM2(s, later, M1(s, t.nonce1, t.mac, y)).value.1;
    m6 := KeyHolderM6(s, HashStep(s, pin, t, m2).0, later.clientId, later.key, later.identityIv);
  }

  /** An M2 with the nonce and the public value of another derives the same keys from the same exchange. */
  lemma {:induction false} SameShareSameKeys(s: RawSuite, d: Device, d': Device, r: Request, r': Request)
    requires HashAccepted(s, d, r) && HashAccepted(s, d', r') && r'.m2.b == r.m2.b && r'.m2.d == r.m2.d
    requires d'.transcript.dh == d.transcript.dh || d'.transcript.dh == None
    requires d'.transcript.nonce1 == d.transcript.nonce1 && d'.transcript.mac == d.transcript.mac
    ensures HashedKeys(s, d'.transcript, r'.m2) == HashedKeys(s, d.transcript, r.m2)
  {
    hide Hash, DecodeField, DeriveKeys, Joined, SharedBytes;
  }

  /** Without a reset the device's nonce and address stay, and its exponent, until a registration takes it away. */
  lemma {:induction false} ExchangeStays(s: RawSuite, certificate: seq<byte>, start: Device, rs: seq<Request>,
                                         from: nat)
    requires from <= |rs| && NoReset(s, certificate, start, rs, from)
    ensures var t := After(s, certificate, start, rs[..from]).transcript;
      var t' := After(s, certificate, start, rs).transcript;
      t'.nonce1 == t.nonce1 && t'.mac == t.mac && (t'.dh == t.dh || t'.dh == None)
  {
    hide Handle, Resets, After;
    if from == |rs| {
      assert rs[..from] == rs;
    } else {
      var n := |rs| - 1;
      forall k | 0 <= k <= n
        ensures rs[..n][..k] == rs[..k]
      {
      }
      ExchangeStays(s, certificate, start, rs[..n], from);
      LastStep(s, certificate, start, rs);
      OneRequestKeepsExchange(s, certificate, After(s, certificate, start, rs[..n]), rs[n]);
    }
  }

  lemma {:induction false} OneRequestKeepsExchange(s: RawSuite, certificate: seq<byte>, d: Device, r: Request)
    requires !Resets(s, d, r)
    ensures var t, t' := d.transcript, Handle(s, certificate, d, r).transcript;
      t'.nonce1 == t.nonce1 && t'.mac == t.mac && (t'.dh == t.dh || t'.dh == None)
  {
    hide Hash, DecodeField, DecodeRange, Unwrapped, Wrapped, DeriveKeys, Joined, SharedBytes;
  }

  /** The last hash step accepted before index j is at index i, and nothing has been reset since. */
  ghost predicate LastHash(s: RawSuite, certificate: seq<byte>, start: Device, rs: seq<Request>, i: nat, j: nat) {
    && i < j <= |rs|
    && HashAccepted(s, After(s, certificate, start, rs[..i]), rs[i])
    && NoReset(s, certificate, start, rs, i)
    && forall k | i < k < j :: !HashAccepted(s, After(s, certificate, start, rs[..k]), rs[k])
  }

  lemma {:induction false} KeysOfLastHash(s: RawSuite, certificate: seq<byte>, start: Device, rs: seq<Request>,
                                          i: nat, j: nat)
    requires LastHash(s, certificate, start, rs, i, j)
    ensures Keys(After(s, certificate, start, rs[..j]).transcript) ==
            HashedKeys(s, After(s, certificate, start, rs[..i]).transcript, rs[i].m2)
  {
    hide Handle, HashedKeys, HashAccepted, Resets, After;
    forall k | 0 <= k <= j
      ensures rs[..j][..k] == rs[..k]
    {
    }
    KeysStay(s, certificate, start, rs[..j], i + 1);
    assert rs[..i + 1][..i] == rs[..i];
    LastStep(s, certificate, start, rs[..i + 1]);
    HashReplacesKeys(s, certificate, After(s, certificate, start, rs[..i]), rs[i]);
  }

  /**
   The same in terms of what was sent: if M2s with different nonces or public values do not derive the same keys, then
   a registration uses the keys of the PIN proof at index j if and only if the last M2 accepted so far, at index h, has
   the nonce and the public value of the last one accepted before the proof, at index i.
   */
  lemma {:induction false} RegistrationUsesProvedShare(s: RawSuite, certificate: seq<byte>, start: Device,
                                                       rs: seq<Request>, i: nat, j: nat, h: nat)
    requires CertifiedAt(s, certificate, start, rs, j) && LastHash(s, certificate, start, rs, i, j)
    requires LastHash(s, certificate, start, rs, h, |rs|)
    requires HashedKeys(s, After(s, certificate, start, rs[..i]).transcript, rs[i].m2) ==
             HashedKeys(s, After(s, certificate, start, rs[..h]).transcript, rs[h].m2) ==>
             rs[h].m2.b == rs[i].m2.b && rs[h].m2.d == rs[i].m2.d
    ensures Keys(After(s, certificate, start, rs).transcript) == Keys(After(s, certificate, start, rs[..j]).transcript)
            <==> rs[h].m2.b == rs[i].m2.b && rs[h].m2.d == rs[i].m2.d
  {
    KeysOfLastHash(s, certificate, start, rs, i, j);
    KeysOfLastHash(s, certificate, start, rs, h, |rs|);
    assert rs[..|rs|] == rs;
    if rs[h].m2.b == rs[i].m2.b && rs[h].m2.d == rs[i].m2.d {
      assert i <= h;
      assert NoReset(s, certificate, start, rs[..h], i) by { PrefixNotReset(s, certificate, start, rs, i, h); }
      assert rs[..h][..i] == rs[..i];
      ExchangeStays(s, certificate, start, rs[..h], i);
      hide CertifiedAt, NoReset, After;
      SameShareSameKeys(s, After(s, certificate, start, rs[..i]), After(s, certificate, start, rs[..h]), rs[i], rs[h]);
    }
  }

  lemma {:induction false} PrefixNotReset(s: RawSuite, certificate: seq<byte>, start: Device, rs: seq<Request>,
                                          i: nat, h: nat)
    requires NoReset(s, certificate, start, rs, i) && h <= |rs|
    ensures NoReset(s, certificate, start, rs[..h], i)
  {
    hide Resets, After;
    forall k | 0 <= k <= h
      ensures rs[..h][..k] == rs[..k]
    {
    }
  }

  /** One CA step allows any number of registrations: the same M6 is accepted again and again. */
  lemma {:induction false} RegistrationRepeats(s: RawSuite, certificate: seq<byte>, d: Device, m6: Message,
                                               rs: seq<Request>)
    requires Registers(s, d, PostRegistration(m6)) && forall k | 0 <= k < |rs| :: rs[k] == PostRegistration(m6)
    ensures RegistrationStep(s, After(s, certificate, d, rs).transcript, m6).1 ==
            RegistrationStep(s, d.transcript, m6).1
    ensures Registers(s, After(s, certificate, d, rs), PostRegistration(m6))
  {
    hide Hash, DecodeField, DecodeRange, Unwrapped;
    if rs != [] {
      RegistrationRepeats(s, certificate, d, m6, rs[..|rs| - 1]);
    }
  }
}
