/**
 The messages of registration (internal/wire/registration), each side's step as a relation on decoded fields and plain
 concatenations: what is accepted, what is kept and what is sent.
 */
module RegistrationInFull {
  import opened Results
  import opened Bytes
  import opened DiffieHellman
  import opened RegistrationCrypto
  import opened RegistrationWire
  import opened RegistrationEmulator
  import opened Registration

  // ---------- fields, MACs and keys ----------

  /** The field carries these bytes, and they are as many as it should. */
  ghost predicate Carries(s: RawSuite, field: string, value: seq<byte>, length: nat) {
    s.decode(field) == Some(value) && |value| == length
  }

  ghost predicate CarriesSome(s: RawSuite, field: string, value: seq<byte>, minimum: nat, maximum: nat) {
    s.decode(field) == Some(value) && minimum <= |value| <= maximum
  }

  lemma {:induction false} DecodesCarried(s: RawSuite, field: string, value: seq<byte>, minimum: nat, maximum: nat)
    ensures DecodeRange(s, field, minimum, maximum) == Some(value) <==> CarriesSome(s, field, value, minimum, maximum)
    ensures DecodeField(s, field, minimum) == Some(value) <==> Carries(s, field, value, minimum)
  {
  }

  lemma {:induction false} JoinedMore(values: seq<seq<byte>>, value: seq<byte>)
    ensures Joined(values + [value]) == Joined(values) + value && Joined([]) == []
  {
    assert (values + [value])[..|values|] == values;
  }

  lemma {:induction false} HashOfThree(s: RawSuite, key: seq<byte>, a: seq<byte>, b: seq<byte>, c: seq<byte>)
    ensures Joined([a, b, c]) == a + b + c && Joined([a]) == a
    ensures Hash(s, key, [a]) == s.hmac(key, a)
  {
    JoinedMore([], a);
    JoinedMore([a], b);
    JoinedMore([a, b], c);
    assert [] + [a] == [a] && [a] + [b] == [a, b] && [a, b] + [c] == [a, b, c];
    assert [] + a == a;
  }

  lemma {:induction false} HashOfFour(s: RawSuite, key: seq<byte>, a: seq<byte>, b: seq<byte>, c: seq<byte>,
                                      d: seq<byte>)
    ensures Joined([a, b, c, d]) == a + b + c + d
    ensures Hash(s, key, [a, b, c, d]) == s.hmac(key, a + b + c + d)
  {
    HashOfThree(s, key, a, b, c);
    JoinedMore([a, b, c], d);
    assert [a, b, c] + [d] == [a, b, c, d];
  }

  lemma {:induction false} HashOfSix(s: RawSuite, key: seq<byte>, a: seq<byte>, b: seq<byte>, c: seq<byte>,
                                     d: seq<byte>,
                                     e: seq<byte>, f: seq<byte>)
    ensures Hash(s, key, [a, b, c, d, e]) == s.hmac(key, a + b + c + d + e)
    ensures Hash(s, key, [a, b, c, d, e, f]) == s.hmac(key, a + b + c + d + e + f)
    ensures Joined([a, b, c, d, e, f]) == a + b + c + d + e + f
  {
    HashOfFour(s, key, a, b, c, d);
    JoinedMore([a, b, c, d], e);
    JoinedMore([a, b, c, d, e], f);
    assert [a, b, c, d] + [e] == [a, b, c, d, e] && [a, b, c, d, e] + [f] == [a, b, c, d, e, f];
  }

  lemma {:induction false} HashOfSeven(s: RawSuite, key: seq<byte>, a: seq<byte>, b: seq<byte>, c: seq<byte>,
                                       d: seq<byte>, e: seq<byte>, f: seq<byte>, g: seq<byte>)
    ensures Hash(s, key, [a, b, c, d, e, f, g]) == s.hmac(key, a + b + c + d + e + f + g)
  {
    HashOfSix(s, key, a, b, c, d, e, f);
    JoinedMore([a, b, c, d, e, f], g);
    assert [a, b, c, d, e, f] + [g] == [a, b, c, d, e, f, g];
  }

  // ---------- the device ----------

  /** M2 is acceptable to a device in state t, and these are its fields and the secret behind it. */
  ghost predicate GoodM2(s: RawSuite, t: Transcript, m2: Message, nonce2: seq<byte>, public: seq<byte>,
                         mac2: seq<byte>, shared: seq<byte>)
  {
    && t.dh.Some? && t.nonce1 != []
    && Carries(s, m2.a, t.nonce1, 16) && Carries(s, m2.b, nonce2, 16) && Carries(s, m2.c, t.mac, 6)
    && Carries(s, m2.d, public, 257) && Carries(s, m2.e, mac2, 32)
    && SharedBytes(s.group, t.dh.value, public) == Ok(shared)
    && mac2 == s.hmac(DeriveKeys(s, shared, t.nonce1 + t.mac + nonce2).0,
                      t.nonce1 + t.mac + t.otherRaw + t.nonce1 + nonce2 + t.mac + public)
  }

  /** A good M2 is accepted, with this transcript and this M3. */
  lemma {:induction false} GoodM2IsAccepted(s: RawSuite, pin: seq<byte>, t: Transcript, m2: Message, nonce2: seq<byte>,
                                            public: seq<byte>, mac2: seq<byte>, shared: seq<byte>)
    requires GoodM2(s, t, m2, nonce2, public, mac2, shared)
    ensures var (authKey, wrapKey) := DeriveKeys(s, shared, t.nonce1 + t.mac + nonce2);
      var eHash := s.hmac(authKey, t.es + s.hmac(authKey, pin) + t.otherRaw + public);
      var m3hmac := s.hmac(authKey, t.nonce1 + nonce2 + t.mac + public + mac2 + nonce2 + eHash);
      HashStep(s, pin, t, m2) ==
        (t.(nonce2 := nonce2, clientPublic := public, authKey := authKey, wrapKey := wrapKey, m2hmac := mac2,
            eHash := eHash, m3hmac := m3hmac),
         Ok(Message(s.encode(nonce2), s.encode(eHash), "", "", s.encode(m3hmac))))
  {
    hide Hash, Joined, SharedBytes, DeriveKeys;
    HashOfThree(s, pin, t.nonce1, t.mac, nonce2);
    var authKey := DeriveKeys(s, shared, t.nonce1 + t.mac + nonce2).0;
    HashOfSeven(s, authKey, t.nonce1, t.mac, t.otherRaw, t.nonce1, nonce2, t.mac, public);
    HashOfThree(s, authKey, pin, [], []);
    var psk := s.hmac(authKey, pin);
    HashOfFour(s, authKey, t.es, psk, t.otherRaw, public);
    var eHash := s.hmac(authKey, t.es + psk + t.otherRaw + public);
    HashOfSeven(s, authKey, t.nonce1, nonce2, t.mac, public, mac2, nonce2, eHash);
  }

  /** Nothing else is, and then nothing changes. */
  lemma {:induction false} AcceptedM2IsGood(s: RawSuite, pin: seq<byte>, t: Transcript, m2: Message)
    ensures HashStep(s, pin, t, m2).1.Err? ==> HashStep(s, pin, t, m2).0 == t
    ensures HashStep(s, pin, t, m2).1.Ok? ==>
      exists nonce2, public, mac2, shared :: GoodM2(s, t, m2, nonce2, public, mac2, shared)
  {
    hide Hash, Joined, SharedBytes, DeriveKeys;
    var nonce2, public, m2hmac := DecodeField(s, m2.b, 16), DecodeField(s, m2.d, 257), DecodeField(s, m2.e, 32);
    if HashStep(s, pin, t, m2).1.Ok? {
      var shared := SharedBytes(s.group, t.dh.value, public.value).value;
      HashOfThree(s, pin, t.nonce1, t.mac, nonce2.value);
      var authKey := DeriveKeys(s, shared, t.nonce1 + t.mac + nonce2.value).0;
      HashOfSeven(s, authKey, t.nonce1, t.mac, t.otherRaw, t.nonce1, nonce2.value, t.mac, public.value);
      assert GoodM2(s, t, m2, nonce2.value, public.value, m2hmac.value, shared);
    }
  }

  /** M1: nonce, address and secret are drawn, then the exponent. */
  lemma {:induction false} PinStepInFull(s: RawSuite, t: Transcript, random: seq<byte>)
    ensures PinStep(s, t, random).1.Ok? <==> |random| >= 38 && Draw(random[38..], 8).Ok?
    ensures PinStep(s, t, random).1.Err? ==> PinStep(s, t, random).0 == t
    ensures PinStep(s, t, random).1.Ok? ==>
      var public := PublicBytes(s.group, Draw(random[38..], 8).value.0);
      && PinStep(s, t, random).0 ==
           Transcript(Some(Draw(random[38..], 8).value.0), random[..16], random[16..22], public, random[22..38],
                      [], [], [], [], [], [], [], [], [])
      && PinStep(s, t, random).1 ==
           Ok(Message(s.encode(random[..16]), s.encode(random[16..22]), s.encode(public), "", ""))
  {
    hide PublicBytes, Draw;
  }

  /** M4 is acceptable to a device in state t with this PIN. */
  ghost predicate GoodM4(s: RawSuite, pin: seq<byte>, t: Transcript, m4: Message, rHash: seq<byte>, wrapped: seq<byte>,
                         mac4: seq<byte>, rs: seq<byte>)
  {
    && t.authKey != []
    && Carries(s, m4.a, t.nonce1, 16) && Carries(s, m4.b, rHash, 32) && CarriesSome(s, m4.d, wrapped, 32, 128)
    && Carries(s, m4.e, mac4, 32) && Unwrapped(s.cipher, s.hmac, wrapped, t.authKey, t.wrapKey) == Ok(rs)
    && mac4 == s.hmac(t.authKey, t.nonce2 + t.eHash + t.m3hmac + t.nonce1 + rHash + wrapped)
    && rHash == s.hmac(t.authKey, rs + s.hmac(t.authKey, pin) + t.otherRaw + t.clientPublic)
  }

  lemma {:induction false} GoodM4IsAccepted(s: RawSuite, pin: seq<byte>, certificate: seq<byte>, t: Transcript,
                                            m4: Message, random: seq<byte>, rHash: seq<byte>, wrapped: seq<byte>,
                                            mac4: seq<byte>, rs: seq<byte>)
    requires GoodM4(s, pin, t, m4, rHash, wrapped, mac4, rs) && IsAesKey(t.wrapKey) && |random| >= 16
    ensures Wrapped(s.cipher, s.hmac, t.es + certificate, t.authKey, t.wrapKey, random[..16]).Ok?
    ensures var sent := Wrapped(s.cipher, s.hmac, t.es + certificate, t.authKey, t.wrapKey, random[..16]).value;
      var m5hmac := s.hmac(t.authKey, t.nonce1 + rHash + wrapped + mac4 + t.nonce2 + sent);
      CaStep(s, pin, certificate, t, m4, random) ==
        (t.(wrappedCertificate := sent, m5hmac := m5hmac),
         Ok(Message(s.encode(t.nonce2), "", "", s.encode(sent), s.encode(m5hmac))))
  {
    hide Hash, Joined, Wrapped, Unwrapped;
    WrappingNeedsKey(s.cipher, s.hmac, t.es + certificate, t.authKey, t.wrapKey, random[..16]);
    var sent := Wrapped(s.cipher, s.hmac, t.es + certificate, t.authKey, t.wrapKey, random[..16]).value;
    HashOfSix(s, t.authKey, t.nonce2, t.eHash, t.m3hmac, t.nonce1, rHash, wrapped);
    HashOfThree(s, t.authKey, pin, [], []);
    HashOfFour(s, t.authKey, rs, s.hmac(t.authKey, pin), t.otherRaw, t.clientPublic);
    HashOfSix(s, t.authKey, t.nonce1, rHash, wrapped, mac4, t.nonce2, sent);
  }

  lemma {:induction false} AcceptedM4IsGood(s: RawSuite, pin: seq<byte>, certificate: seq<byte>, t: Transcript,
                                            m4: Message, random: seq<byte>)
    ensures var (t', m5) := CaStep(s, pin, certificate, t, m4, random);
      && (m5.Err? ==> t' == t)
      && (m5.Ok? ==>
            && IsAesKey(t.wrapKey) && |random| >= 16
            && exists rHash, wrapped, mac4, rs :: GoodM4(s, pin, t, m4, rHash, wrapped, mac4, rs))
  {
    hide Hash, Joined, Wrapped, Unwrapped;
    var rHash, wrapped, m4hmac := DecodeField(s, m4.b, 32), DecodeRange(s, m4.d, 32, 128), DecodeField(s, m4.e, 32);
    if CaStep(s, pin, certificate, t, m4, random).1.Ok? {
      WrappingNeedsKey(s.cipher, s.hmac, t.es + certificate, t.authKey, t.wrapKey, random[..16]);
      var rs := Unwrapped(s.cipher, s.hmac, wrapped.value, t.authKey, t.wrapKey).value;
      HashOfSix(s, t.authKey, t.nonce2, t.eHash, t.m3hmac, t.nonce1, rHash.value, wrapped.value);
      HashOfThree(s, t.authKey, pin, [], []);
      HashOfFour(s, t.authKey, rs, s.hmac(t.authKey, pin), t.otherRaw, t.clientPublic);
      assert GoodM4(s, pin, t, m4, rHash.value, wrapped.value, m4hmac.value, rs);
    }
  }

  /** M6 is acceptable to a device in state t. */
  ghost predicate GoodM6(s: RawSuite, t: Transcript, m6: Message, wrapped: seq<byte>, mac6: seq<byte>,
                         clientId: seq<byte>, pem: seq<byte>, key: Key)
  {
    && t.wrappedCertificate != []
    && Carries(s, m6.a, t.nonce1, 16) && CarriesSome(s, m6.d, wrapped, 64, 524288) && Carries(s, m6.e, mac6, 32)
    && mac6 == s.hmac(t.authKey, t.nonce2 + t.wrappedCertificate + t.m5hmac + t.nonce1 + wrapped)
    && Unwrapped(s.cipher, s.hmac, wrapped, t.authKey, t.wrapKey) == Ok(clientId + pem)
    && |clientId| == 36 && pem != [] && s.parseKey(pem) == Some(key)
  }

  lemma {:induction false} GoodM6IsAccepted(s: RawSuite, t: Transcript, m6: Message, wrapped: seq<byte>,
                                            mac6: seq<byte>,
                                            clientId: seq<byte>, pem: seq<byte>, key: Key)
    requires GoodM6(s, t, m6, wrapped, mac6, clientId, pem, key)
    ensures RegistrationStep(s, t, m6) == (t.(dh := None), Ok((clientId, key)))
  {
    hide Hash, Joined, Unwrapped;
    HashOfSix(s, t.authKey, t.nonce2, t.wrappedCertificate, t.m5hmac, t.nonce1, wrapped, []);
    assert (clientId + pem)[..36] == clientId && (clientId + pem)[36..] == pem;
  }

  lemma {:induction false} AcceptedM6IsGood(s: RawSuite, t: Transcript, m6: Message)
    ensures var (t', r) := RegistrationStep(s, t, m6);
      && (r.Err? ==> t' == t)
      && (r.Ok? ==> exists wrapped, mac6, pem :: GoodM6(s, t, m6, wrapped, mac6, r.value.0, pem, r.value.1))
  {
    hide Hash, Joined, Unwrapped;
    var wrapped, m6hmac := DecodeRange(s, m6.d, 64, MAX_RESPONSE_SIZE / 2), DecodeField(s, m6.e, 32);
    var r := RegistrationStep(s, t, m6).1;
    if r.Ok? {
      var identity := Unwrapped(s.cipher, s.hmac, wrapped.value, t.authKey, t.wrapKey).value;
      HashOfSix(s, t.authKey, t.nonce2, t.wrappedCertificate, t.m5hmac, t.nonce1, wrapped.value, []);
      assert identity == identity[..36] + identity[36..];
      assert GoodM6(s, t, m6, wrapped.value, m6hmac.value, r.value.0, identity[36..], r.value.1);
    }
  }

  // ---------- the client ----------

  /** M1 is acceptable to the client. */
  ghost predicate GoodM1(s: RawSuite, coins: ClientCoins, m1: Message, nonce1: seq<byte>, mac: seq<byte>,
                         otherRaw: seq<byte>, shared: seq<byte>)
  {
    && Carries(s, m1.a, nonce1, 16) && Carries(s, m1.b, mac, 6) && CarriesSome(s, m1.c, otherRaw, 256, 257)
    && SharedBytes(s.group, coins.x, otherRaw) == Ok(shared)
  }

  lemma {:induction false} GoodM1IsAnswered(s: RawSuite, coins: ClientCoins, m1: Message, nonce1: seq<byte>,
                                            mac: seq<byte>, otherRaw: seq<byte>, shared: seq<byte>)
    requires GoodM1(s, coins, m1, nonce1, mac, otherRaw, shared)
    ensures var (authKey, wrapKey) := DeriveKeys(s, shared, nonce1 + mac + coins.nonce2);
      var public := PublicBytes(s.group, coins.x);
      var m2hmac := s.hmac(authKey, nonce1 + mac + otherRaw + nonce1 + coins.nonce2 + mac + public);
      MakeM2(s, coins, m1) ==
        Ok((AfterM2(nonce1, mac, otherRaw, public, authKey, wrapKey, m2hmac),
            Message(s.encode(nonce1), s.encode(coins.nonce2), s.encode(mac), s.encode(public), s.encode(m2hmac))))
  {
    hide Hash, Joined, SharedBytes, DeriveKeys, PublicBytes;
    HashOfThree(s, nonce1, nonce1, mac, coins.nonce2);
    var authKey := DeriveKeys(s, shared, nonce1 + mac + coins.nonce2).0;
    HashOfSeven(s, authKey, nonce1, mac, otherRaw, nonce1, coins.nonce2, mac, PublicBytes(s.group, coins.x));
  }

  lemma {:induction false} AnsweredM1IsGood(s: RawSuite, coins: ClientCoins, m1: Message)
    ensures MakeM2(s, coins, m1).Ok? ==>
      exists nonce1, mac, otherRaw, shared :: GoodM1(s, coins, m1, nonce1, mac, otherRaw, shared)
  {
    hide Hash, Joined, SharedBytes, DeriveKeys, PublicBytes;
    var nonce1, mac := DecodeField(s, m1.a, 16), DecodeField(s, m1.b, 6);
    var otherRaw := DecodeRange(s, m1.c, 256, 257);
    if MakeM2(s, coins, m1).Ok? {
      assert GoodM1(s, coins, m1, nonce1.value, mac.value, otherRaw.value,
                    SharedBytes(s.group, coins.x, otherRaw.value).value);
    }
  }

  /** M3 is acceptable to the client: it comes from a device that knows the session keys. */
  ghost predicate GoodM3(s: RawSuite, coins: ClientCoins, c: AfterM2, m3: Message, eHash: seq<byte>, mac3: seq<byte>) {
    && Carries(s, m3.a, coins.nonce2, 16) && Carries(s, m3.b, eHash, 32) && Carries(s, m3.e, mac3, 32)
    && mac3 == s.hmac(c.authKey, c.nonce1 + coins.nonce2 + c.mac + c.publicKey + c.m2hmac + coins.nonce2 + eHash)
  }

  lemma {:induction false} GoodM3IsAnswered(s: RawSuite, coins: ClientCoins, pin: seq<byte>, c: AfterM2, m3: Message,
                                            eHash: seq<byte>, mac3: seq<byte>)
    requires GoodM3(s, coins, c, m3, eHash, mac3) && IsAesKey(c.wrapKey)
    requires 1 <= |pin| <= 64 && 13 !in pin && 10 !in pin && 0 !in pin
    ensures Wrapped(s.cipher, s.hmac, coins.rs, c.authKey, c.wrapKey, coins.rsIv).Ok?
    ensures var psk := s.hmac(c.authKey, pin);
      var rHash := s.hmac(c.authKey, coins.rs + psk + c.otherRaw + c.publicKey);
      var sent := Wrapped(s.cipher, s.hmac, coins.rs, c.authKey, c.wrapKey, coins.rsIv).value;
      var m4hmac := s.hmac(c.authKey, coins.nonce2 + eHash + mac3 + c.nonce1 + rHash + sent);
      MakeM4(s, coins, pin, c, m3) ==
        Ok((AfterM4(psk, eHash, mac3, rHash, sent, m4hmac),
            Message(s.encode(c.nonce1), s.encode(rHash), "", s.encode(sent), s.encode(m4hmac))))
  {
    hide Hash, Joined, Wrapped;
    WrappingNeedsKey(s.cipher, s.hmac, coins.rs, c.authKey, c.wrapKey, coins.rsIv);
    var sent := Wrapped(s.cipher, s.hmac, coins.rs, c.authKey, c.wrapKey, coins.rsIv).value;
    HashOfSeven(s, c.authKey, c.nonce1, coins.nonce2, c.mac, c.publicKey, c.m2hmac, coins.nonce2, eHash);
    HashOfThree(s, c.authKey, pin, [], []);
    var psk := s.hmac(c.authKey, pin);
    HashOfFour(s, c.authKey, coins.rs, psk, c.otherRaw, c.publicKey);
    var rHash := s.hmac(c.authKey, coins.rs + psk + c.otherRaw + c.publicKey);
    HashOfSix(s, c.authKey, coins.nonce2, eHash, mac3, c.nonce1, rHash, sent);
  }

  lemma {:induction false} AnsweredM3IsGood(s: RawSuite, coins: ClientCoins, pin: seq<byte>, c: AfterM2, m3: Message)
    ensures MakeM4(s, coins, pin, c, m3).Ok? ==>
      && 1 <= |pin| <= 64 && 13 !in pin && 10 !in pin && 0 !in pin && IsAesKey(c.wrapKey)
      && exists eHash, mac3 :: GoodM3(s, coins, c, m3, eHash, mac3)
  {
    hide Hash, Joined, Wrapped;
    var eHash, m3hmac := DecodeField(s, m3.b, 32), DecodeField(s, m3.e, 32);
    if MakeM4(s, coins, pin, c, m3).Ok? {
      WrappingNeedsKey(s.cipher, s.hmac, coins.rs, c.authKey, c.wrapKey, coins.rsIv);
      HashOfSeven(s, c.authKey, c.nonce1, coins.nonce2, c.mac, c.publicKey, c.m2hmac, coins.nonce2, eHash.value);
      assert GoodM3(s, coins, c, m3, eHash.value, m3hmac.value);
    }
  }

  /** M5 is acceptable to the client: it comes from the device of M3, and that device has proved the PIN. */
  ghost predicate GoodM5(s: RawSuite, coins: ClientCoins, c: AfterM2, c4: AfterM4, m5: Message, wrapped: seq<byte>,
                         mac5: seq<byte>, es: seq<byte>, certificate: seq<byte>)
  {
    && Carries(s, m5.a, coins.nonce2, 16) && CarriesSome(s, m5.d, wrapped, 32, 524288) && Carries(s, m5.e, mac5, 32)
    && mac5 == s.hmac(c.authKey, c.nonce1 + c4.rHash + c4.wrappedRs + c4.m4hmac + coins.nonce2 + wrapped)
    && Unwrapped(s.cipher, s.hmac, wrapped, c.authKey, c.wrapKey) == Ok(es + certificate)
    && |es| == 16 && certificate != [] && s.certificateOk(certificate)
    && c4.eHash == s.hmac(c.authKey, es + c4.psk + c.otherRaw + c.publicKey)
  }

  lemma {:induction false} GoodM5IsAnswered(s: RawSuite, coins: ClientCoins, c: AfterM2, c4: AfterM4, m5: Message,
                                            wrapped: seq<byte>, mac5: seq<byte>, es: seq<byte>, certificate: seq<byte>)
    requires GoodM5(s, coins, c, c4, m5, wrapped, mac5, es, certificate) && IsAesKey(c.wrapKey)
    ensures var identity := coins.clientId + s.marshalKey(coins.key);
      Wrapped(s.cipher, s.hmac, identity, c.authKey, c.wrapKey, coins.identityIv).Ok?
    ensures var identity := coins.clientId + s.marshalKey(coins.key);
      var sent := Wrapped(s.cipher, s.hmac, identity, c.authKey, c.wrapKey, coins.identityIv).value;
      var m6hmac := s.hmac(c.authKey, coins.nonce2 + wrapped + mac5 + c.nonce1 + sent);
      MakeM6(s, coins, c, c4, m5) ==
        Ok((certificate, Message(s.encode(c.nonce1), "", "", s.encode(sent), s.encode(m6hmac))))
  {
    hide Hash, Joined, Wrapped, Unwrapped;
    var identity := coins.clientId + s.marshalKey(coins.key);
    WrappingNeedsKey(s.cipher, s.hmac, identity, c.authKey, c.wrapKey, coins.identityIv);
    var sent := Wrapped(s.cipher, s.hmac, identity, c.authKey, c.wrapKey, coins.identityIv).value;
    HashOfSix(s, c.authKey, c.nonce1, c4.rHash, c4.wrappedRs, c4.m4hmac, coins.nonce2, wrapped);
    HashOfFour(s, c.authKey, es, c4.psk, c.otherRaw, c.publicKey);
    HashOfSix(s, c.authKey, coins.nonce2, wrapped, mac5, c.nonce1, sent, []);
    assert (es + certificate)[..16] == es && (es + certificate)[16..] == certificate;
  }

  lemma {:induction false} AnsweredM5IsGood(s: RawSuite, coins: ClientCoins, c: AfterM2, c4: AfterM4, m5: Message)
    ensures var r := MakeM6(s, coins, c, c4, m5);
      r.Ok? ==>
        && IsAesKey(c.wrapKey)
        && exists wrapped, mac5, es :: GoodM5(s, coins, c, c4, m5, wrapped, mac5, es, r.value.0)
  {
    hide Hash, Joined, Wrapped, Unwrapped;
    var wrapped, m5hmac := DecodeRange(s, m5.d, 32, MAX_RESPONSE_SIZE / 2), DecodeField(s, m5.e, 32);
    var r := MakeM6(s, coins, c, c4, m5);
    if r.Ok? {
      var identity := coins.clientId + s.marshalKey(coins.key);
      WrappingNeedsKey(s.cipher, s.hmac, identity, c.authKey, c.wrapKey, coins.identityIv);
      var inside := Unwrapped(s.cipher, s.hmac, wrapped.value, c.authKey, c.wrapKey).value;
      HashOfSix(s, c.authKey, c.nonce1, c4.rHash, c4.wrappedRs, c4.m4hmac, coins.nonce2, wrapped.value);
      HashOfFour(s, c.authKey, inside[..16], c4.psk, c.otherRaw, c.publicKey);
      assert inside == inside[..16] + inside[16..];
      assert GoodM5(s, coins, c, c4, m5, wrapped.value, m5hmac.value, inside[..16], r.value.0);
    }
  }
}
