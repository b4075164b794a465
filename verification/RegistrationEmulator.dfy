/** The device side of registration (internal/wire/registration/emulator.go): a transcript filled step by step. */
module RegistrationEmulator {
  import opened Results
  import opened Bytes
  import opened Randomness
  import opened DiffieHellman
  import opened RegistrationCrypto
  import opened RegistrationWire

  const EXPIRED := "40305"
  const INVALID_MESSAGE := "40003"
  const REJECTED := "40301"
  const RANDOM_FAILED := "RANDOM_FAILED"

  /** Empty fields are nil slices; `dh` is the device's private exponent. */
  datatype Transcript = Transcript(
    dh: Option<nat>, nonce1: seq<byte>, mac: seq<byte>, otherRaw: seq<byte>, es: seq<byte>,
    nonce2: seq<byte>, clientPublic: seq<byte>, authKey: seq<byte>, wrapKey: seq<byte>, m2hmac: seq<byte>,
    eHash: seq<byte>, m3hmac: seq<byte>, wrappedCertificate: seq<byte>, m5hmac: seq<byte>)

  const BLANK := Transcript(None, [], [], [], [], [], [], [], [], [], [], [], [], [])

  /** servePIN: draws the device's nonces and exponent, and starts a transcript. */
  function PinStep(s: RawSuite, t: Transcript, random: seq<byte>): (Transcript, Result<Message>) {
    if |random| < 38 || Draw(random[38..], ATTEMPTS).Err? then (t, Err(RANDOM_FAILED))
    else
      var nonce1, mac, es := random[..16], random[16..22], random[22..38];
      var x := Draw(random[38..], ATTEMPTS).value.0;
      var otherRaw := PublicBytes(s.group, x);
      (BLANK.(dh := Some(x), nonce1 := nonce1, mac := mac, otherRaw := otherRaw, es := es),
       Ok(EMPTY.(a := s.encode(nonce1), b := s.encode(mac), c := s.encode(otherRaw))))
  }

  /** The device's stream after servePIN. */
  function AfterDraws(random: seq<byte>): seq<byte> {
    if |random| >= 38 && Draw(random[38..], ATTEMPTS).Ok? then Draw(random[38..], ATTEMPTS).value.1 else []
  }

  /** serveHash: checks M2, derives the session keys and answers M3. */
  function HashStep(s: RawSuite, pin: seq<byte>, t: Transcript, m2: Message): (Transcript, Result<Message>) {
    if t.dh.None? || t.nonce1 == [] then (t, Err(EXPIRED))
    else
      var nonce1, nonce2, mac := DecodeField(s, m2.a, 16), DecodeField(s, m2.b, 16), DecodeField(s, m2.c, 6);
      var clientPublic, m2hmac := DecodeField(s, m2.d, 257), DecodeField(s, m2.e, 32);
      if nonce1.None? || nonce2.None? || mac.None? || clientPublic.None? || m2hmac.None? ||
         nonce1.value != t.nonce1 || mac.value != t.mac then (t, Err(INVALID_MESSAGE))
      else
        var shared := SharedBytes(s.group, t.dh.value, clientPublic.value);
        if shared.Err? then (t, Err(REJECTED))
        else
          var (authKey, wrapKey) := DeriveKeys(s, shared.value, Joined([nonce1.value, mac.value, nonce2.value]));
          var wantM2 := Hash(s, authKey, [nonce1.value, mac.value, t.otherRaw, nonce1.value, nonce2.value, mac.value,
                                          clientPublic.value]);
          if m2hmac.value != wantM2 then (t, Err(REJECTED))
          else
            var psk := Hash(s, authKey, [pin]);
            var eHash := Hash(s, authKey, [t.es, psk, t.otherRaw, clientPublic.value]);
            var m3hmac := Hash(s, authKey, [nonce1.value, nonce2.value, mac.value, clientPublic.value, m2hmac.value,
                                            nonce2.value, eHash]);
            (t.(nonce2 := nonce2.value, clientPublic := clientPublic.value, authKey := authKey, wrapKey := wrapKey,
                m2hmac := m2hmac.value, eHash := eHash, m3hmac := m3hmac),
             Ok(EMPTY.(a := s.encode(nonce2.value), b := s.encode(eHash), e := s.encode(m3hmac))))
  }

  /** What a client has to show for the PIN: a secret under the wrapping key, hashed together with the PIN. */
  ghost predicate PinProved(s: RawSuite, pin: seq<byte>, t: Transcript, m4: Message) {
    var rHash, wrappedRs := DecodeField(s, m4.b, 32), DecodeRange(s, m4.d, 32, 128);
    && rHash.Some? && wrappedRs.Some?
    && var rs := Unwrapped(s.cipher, s.hmac, wrappedRs.value, t.authKey, t.wrapKey);
    && rs.Ok?
    && rHash.value == Hash(s, t.authKey, [rs.value, Hash(s, t.authKey, [pin]), t.otherRaw, t.clientPublic])
  }

  /** serveCA: checks the PIN proof in M4 and answers M5 with the wrapped certificate. */
  function CaStep(s: RawSuite, pin: seq<byte>, certificate: seq<byte>, t: Transcript, m4: Message, random: seq<byte>)
    : (Transcript, Result<Message>)
  {
    if t.authKey == [] then (t, Err(EXPIRED))
    else
      var nonce1, rHash := DecodeField(s, m4.a, 16), DecodeField(s, m4.b, 32);
      var wrappedRs, m4hmac := DecodeRange(s, m4.d, 32, 128), DecodeField(s, m4.e, 32);
      if nonce1.None? || rHash.None? || wrappedRs.None? || m4hmac.None? || nonce1.value != t.nonce1 then
        (t, Err(INVALID_MESSAGE))
      else
        var wantM4 := Hash(s, t.authKey, [t.nonce2, t.eHash, t.m3hmac, t.nonce1, rHash.value, wrappedRs.value]);
        var unwrapped := Unwrapped(s.cipher, s.hmac, wrappedRs.value, t.authKey, t.wrapKey);
        var rs := if unwrapped.Ok? then unwrapped.value else [];
        var psk := Hash(s, t.authKey, [pin]);
        var wantRHash := Hash(s, t.authKey, [rs, psk, t.otherRaw, t.clientPublic]);
        if unwrapped.Err? || m4hmac.value != wantM4 || rHash.value != wantRHash then (t, Err(REJECTED))
        else if |random| < BLOCK_BYTES then (t, Err(RANDOM_FAILED))
        else
          var wrapped := Wrapped(s.cipher, s.hmac, t.es + certificate, t.authKey, t.wrapKey, random[..BLOCK_BYTES]);
          if wrapped.Err? then (t, Err(RANDOM_FAILED))
          else
            var m5hmac := Hash(s, t.authKey, [t.nonce1, rHash.value, wrappedRs.value, m4hmac.value, t.nonce2,
                                              wrapped.value]);
            (t.(wrappedCertificate := wrapped.value, m5hmac := m5hmac),
             Ok(EMPTY.(a := s.encode(t.nonce2), d := s.encode(wrapped.value), e := s.encode(m5hmac))))
  }

  /** serveRegistration: checks M6 and hands the client's ID and key to the callback. */
  function RegistrationStep(s: RawSuite, t: Transcript, m6: Message): (Transcript, Result<(seq<byte>, Key)>) {
    if t.wrappedCertificate == [] then (t, Err(EXPIRED))
    else
      var nonce1, wrappedIdentity := DecodeField(s, m6.a, 16), DecodeRange(s, m6.d, 64, MAX_RESPONSE_SIZE / 2);
      var m6hmac := DecodeField(s, m6.e, 32);
      if nonce1.None? || wrappedIdentity.None? || m6hmac.None? || nonce1.value != t.nonce1 then (t, Err(REJECTED))
      else
        var wantM6 := Hash(s, t.authKey, [t.nonce2, t.wrappedCertificate, t.m5hmac, t.nonce1, wrappedIdentity.value]);
        if m6hmac.value != wantM6 then (t, Err(REJECTED))
        else
          var identity := Unwrapped(s.cipher, s.hmac, wrappedIdentity.value, t.authKey, t.wrapKey);
          if identity.Err? || |identity.value| <= 36 then (t, Err(REJECTED))
          else
            var key := s.parseKey(identity.value[36..]);
            if key.None? then (t, Err(REJECTED))
            else (t.(dh := None), Ok((identity.value[..36], key.value)))
  }

  /** The emulator: one transcript, changed in place under a mutex. `registered` is what the callback was given. */
  class Emulator {
    const suite: RawSuite
    const certificate: seq<byte>
    var pin: seq<byte>
    var transcript: Transcript
    var registered: seq<(seq<byte>, Key)>

    constructor (suite: RawSuite, pin: seq<byte>, certificate: seq<byte>)
      requires ValidPin(pin) && suite.certificateOk(certificate)
      ensures this.suite == suite && this.certificate == certificate && this.pin == pin
      ensures transcript == BLANK && registered == []
    {
      this.suite, this.certificate, this.pin := suite, certificate, pin;
      transcript, registered := BLANK, [];
    }

    method SetPin(pin: seq<byte>) returns (ok: bool)
      modifies this`pin, this`transcript
      ensures ok == ValidPin(pin)
      ensures if ok then this.pin == pin && transcript == BLANK
              else this.pin == old(this.pin) && transcript == old(transcript)
    {
      if !ValidPin(pin) {
        return false;
      }
      this.pin := pin;
      transcript := BLANK;
      return true;
    }

    method Cleanup()
      modifies this`transcript
      ensures transcript == BLANK
    {
      transcript := BLANK;
    }

    method ServePin(random: Source) returns (r: Result<Message>)
      modifies this`transcript, random
      ensures (transcript, r) == PinStep(suite, old(transcript), old(random.pending))
      ensures r.Ok? ==> random.pending == AfterDraws(old(random.pending))
    {
      hide PublicBytes, Draw;
      ghost var before := random.pending;
      var nonce1 := random.ReadFull(16);
      if nonce1 == None {
        return Err(RANDOM_FAILED);
      }
      ghost var afterNonce := random.pending;
      var mac := random.ReadFull(6);
      if mac == None {
        return Err(RANDOM_FAILED);
      }
      ghost var afterMac := random.pending;
      var es := random.ReadFull(16);
      if es == None {
        return Err(RANDOM_FAILED);
      }
      assert before == nonce1.value + mac.value + es.value + random.pending;
      assert before[..16] == nonce1.value && before[16..22] == mac.value && before[22..38] == es.value;
      assert before[38..] == random.pending;
      var dh := NewDh(random);
      if dh.Err? {
        return Err(RANDOM_FAILED);
      }
      var otherRaw := PublicBytes(suite.group, dh.value);
      transcript := BLANK.(dh := Some(dh.value), nonce1 := nonce1.value, mac := mac.value, otherRaw := otherRaw,
                           es := es.value);
      return Ok(EMPTY.(a := suite.encode(nonce1.value), b := suite.encode(mac.value), c := suite.encode(otherRaw)));
    }

    method ServeHash(m2: Message) returns (r: Result<Message>)
      modifies this`transcript
      ensures (transcript, r) == HashStep(suite, pin, old(transcript), m2)
    {
      hide Hash, DecodeField, SharedBytes, DeriveKeys, Joined;
      var dh := transcript.dh;
      if dh == None || transcript.nonce1 == [] {
        return Err(EXPIRED);
      }
      var nonce1, nonce2 := DecodeField(suite, m2.a, 16), DecodeField(suite, m2.b, 16);
      var mac, clientPublic := DecodeField(suite, m2.c, 6), DecodeField(suite, m2.d, 257);
      var m2hmac := DecodeField(suite, m2.e, 32);
      if nonce1.None? || nonce2.None? || mac.None? || clientPublic.None? || m2hmac.None? ||
         nonce1.value != transcript.nonce1 || mac.value != transcript.mac {
        return Err(INVALID_MESSAGE);
      }
      var shared := SharedBytes(suite.group, dh.value, clientPublic.value);
      if shared.Err? {
        return Err(REJECTED);
      }
      var (authKey, wrapKey) := DeriveKeys(suite, shared.value, Joined([nonce1.value, mac.value, nonce2.value]));
      var wantM2 := Hash(suite, authKey, [nonce1.value, mac.value, transcript.otherRaw, nonce1.value, nonce2.value,
                                          mac.value, clientPublic.value]);
      if m2hmac.value != wantM2 {
        return Err(REJECTED);
      }
      var psk := Hash(suite, authKey, [pin]);
      var eHash := Hash(suite, authKey, [transcript.es, psk, transcript.otherRaw, clientPublic.value]);
      var m3hmac := Hash(suite, authKey, [nonce1.value, nonce2.value, mac.value, clientPublic.value, m2hmac.value,
                                          nonce2.value, eHash]);
      transcript := transcript.(nonce2 := nonce2.value, clientPublic := clientPublic.value);
      transcript := transcript.(authKey := authKey, wrapKey := wrapKey, m2hmac := m2hmac.value);
      transcript := transcript.(eHash := eHash, m3hmac := m3hmac);
      return Ok(EMPTY.(a := suite.encode(nonce2.value), b := suite.encode(eHash), e := suite.encode(m3hmac)));
    }

    method ServeCa(m4: Message, random: Source) returns (r: Result<Message>)
      modifies this`transcript, random
      ensures (transcript, r) == CaStep(suite, pin, certificate, old(transcript), m4, old(random.pending))
    {
      hide Hash, DecodeField, DecodeRange, Unwrapped, Wrapped;
      var t := transcript;
      if t.authKey == [] {
        return Err(EXPIRED);
      }
      var nonce1, rHash := DecodeField(suite, m4.a, 16), DecodeField(suite, m4.b, 32);
      var wrappedRs, m4hmac := DecodeRange(suite, m4.d, 32, 128), DecodeField(suite, m4.e, 32);
      if nonce1.None? || rHash.None? || wrappedRs.None? || m4hmac.None? || nonce1.value != t.nonce1 {
        return Err(INVALID_MESSAGE);
      }
      var wantM4 := Hash(suite, t.authKey, [t.nonce2, t.eHash, t.m3hmac, t.nonce1, rHash.value, wrappedRs.value]);
      var unwrapped := Unwrap(suite.cipher, suite.hmac, wrappedRs.value, t.authKey, t.wrapKey);
      var rs := if unwrapped.Ok? then unwrapped.value else [];
      var psk := Hash(suite, t.authKey, [pin]);
      var wantRHash := Hash(suite, t.authKey, [rs, psk, t.otherRaw, t.clientPublic]);
      if unwrapped.Err? || m4hmac.value != wantM4 || rHash.value != wantRHash {
        return Err(REJECTED);
      }
      WrappingNeedsKeyHere(suite, t.es + certificate, t.authKey, t.wrapKey, random.pending);
      var wrapped := Wrap(suite.cipher, suite.hmac, t.es + certificate, t.authKey, t.wrapKey, random);
      if wrapped.Err? {
        return Err(RANDOM_FAILED);
      }
      var m5hmac := Hash(suite, t.authKey, [t.nonce1, rHash.value, wrappedRs.value, m4hmac.value, t.nonce2,
                                            wrapped.value]);
      transcript := t.(wrappedCertificate := wrapped.value, m5hmac := m5hmac);
      return Ok(EMPTY.(a := suite.encode(t.nonce2), d := suite.encode(wrapped.value), e := suite.encode(m5hmac)));
    }

    method ServeRegistration(m6: Message) returns (r: Result<(seq<byte>, Key)>)
      modifies this`transcript, this`registered
      ensures (transcript, r) == RegistrationStep(suite, old(transcript), m6)
      ensures registered == if r.Ok? then old(registered) + [r.value] else old(registered)
    {
      hide Hash, DecodeField, DecodeRange, Unwrapped;
      var t := transcript;
      if t.wrappedCertificate == [] {
        return Err(EXPIRED);
      }
      var nonce1, wrappedIdentity := DecodeField(suite, m6.a, 16), DecodeRange(suite, m6.d, 64, MAX_RESPONSE_SIZE / 2);
      var m6hmac := DecodeField(suite, m6.e, 32);
      if nonce1.None? || wrappedIdentity.None? || m6hmac.None? || nonce1.value != t.nonce1 {
        return Err(REJECTED);
      }
      var wantM6 := Hash(suite, t.authKey, [t.nonce2, t.wrappedCertificate, t.m5hmac, t.nonce1, wrappedIdentity.value]);
      if m6hmac.value != wantM6 {
        return Err(REJECTED);
      }
      var identity := Unwrap(suite.cipher, suite.hmac, wrappedIdentity.value, t.authKey, t.wrapKey);
      if identity.Err? || |identity.value| <= 36 {
        return Err(REJECTED);
      }
      var clientId := identity.value[..36];
      var key := suite.parseKey(identity.value[36..]);
      if key == None {
        return Err(REJECTED);
      }
      registered := registered + [(clientId, key.value)];
      transcript := t.(dh := None);
      return Ok((clientId, key.value));
    }
  }

  lemma {:induction false} WrappingNeedsKeyHere(s: RawSuite, data: seq<byte>, authKey: seq<byte>, wrapKey: seq<byte>,
                                                random: seq<byte>)
    ensures |random| >= BLOCK_BYTES ==>
      (Wrapped(s.cipher, s.hmac, data, authKey, wrapKey, random[..BLOCK_BYTES]).Ok? <==> IsAesKey(wrapKey))
  {
  }
}
