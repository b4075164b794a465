/**
 Every sequence of requests to the emulator, from whomever: a registration is only ever accepted after an accepted
 hash step and then an accepted CA step, with nothing in between that starts over or changes the PIN.
 */
module RegistrationTrace {
  import opened Bytes
  import opened RegistrationCrypto
  import opened RegistrationWire
  import opened RegistrationEmulator

  /** A request, with the bytes the device's randomness would give it. */
  datatype Request =
    | SetPin(pin: seq<byte>)
    | Cleanup
    | PostPin(random: seq<byte>)
    | PostHash(m2: Message)
    | PostCa(m4: Message, random: seq<byte>)
    | PostRegistration(m6: Message)

  datatype Device = Device(pin: seq<byte>, transcript: Transcript)

  function Handle(s: RawSuite, certificate: seq<byte>, d: Device, r: Request): Device {
    match r
    case SetPin(pin) => if ValidPin(pin) then Device(pin, BLANK) else d
    case Cleanup => d.(transcript := BLANK)
    case PostPin(random) => d.(transcript := PinStep(s, d.transcript, random).0)
    case PostHash(m2) => d.(transcript := HashStep(s, d.pin, d.transcript, m2).0)
    case PostCa(m4, random) => d.(transcript := CaStep(s, d.pin, certificate, d.transcript, m4, random).0)
    case PostRegistration(m6) => d.(transcript := RegistrationStep(s, d.transcript, m6).0)
  }

  /** The device after a sequence of requests. */
  function After(s: RawSuite, certificate: seq<byte>, start: Device, rs: seq<Request>): Device {
    if rs == [] then start else Handle(s, certificate, After(s, certificate, start, rs[..|rs| - 1]), rs[|rs| - 1])
  }

  /** The request throws the transcript away. */
  predicate Resets(s: RawSuite, d: Device, r: Request) {
    match r
    case SetPin(pin) => ValidPin(pin)
    case Cleanup => true
    case PostPin(random) => PinStep(s, d.transcript, random).1.Ok?
    case _ => false
  }

  predicate HashAccepted(s: RawSuite, d: Device, r: Request) {
    r.PostHash? && HashStep(s, d.pin, d.transcript, r.m2).1.Ok?
  }

  predicate CaAccepted(s: RawSuite, certificate: seq<byte>, d: Device, r: Request) {
    r.PostCa? && CaStep(s, d.pin, certificate, d.transcript, r.m4, r.random).1.Ok?
  }

  predicate Registers(s: RawSuite, d: Device, r: Request) {
    r.PostRegistration? && RegistrationStep(s, d.transcript, r.m6).1.Ok?
  }

  /** No request from index `from` on resets the transcript. */
  ghost predicate NoReset(s: RawSuite, certificate: seq<byte>, start: Device, rs: seq<Request>, from: nat) {
    forall k | from <= k < |rs| :: !Resets(s, After(s, certificate, start, rs[..k]), rs[k])
  }

  /** A hash step was accepted at index i and nothing has been reset since. */
  ghost predicate HashedAt(s: RawSuite, certificate: seq<byte>, start: Device, rs: seq<Request>, i: nat) {
    i < |rs| && HashAccepted(s, After(s, certificate, start, rs[..i]), rs[i]) && NoReset(s, certificate, start, rs, i)
  }

  /** A CA step was accepted at index j: its proof was for the PIN in force, which is still in force at the end. */
  ghost predicate CertifiedAt(s: RawSuite, certificate: seq<byte>, start: Device, rs: seq<Request>, j: nat) {
    && j < |rs| && NoReset(s, certificate, start, rs, j)
    && var d := After(s, certificate, start, rs[..j]);
    && CaAccepted(s, certificate, d, rs[j])
    && PinProved(s, d.pin, d.transcript, rs[j].m4)
    && After(s, certificate, start, rs).pin == d.pin
  }

  lemma {:induction false} AcceptedProvesPin(s: RawSuite, certificate: seq<byte>, d: Device, r: Request)
    requires CaAccepted(s, certificate, d, r)
    ensures PinProved(s, d.pin, d.transcript, r.m4)
  {
    hide Hash, DecodeField, DecodeRange, Unwrapped, Wrapped;
  }

  // ---------- what one request does to the evidence in the transcript ----------

  /** Session keys appear only with an accepted hash step, and a wrapped certificate only with an accepted CA step. */
  lemma {:induction false} EvidenceAppears(s: RawSuite, certificate: seq<byte>, d: Device, r: Request)
    ensures var t, t' := d.transcript, Handle(s, certificate, d, r).transcript;
      && (t'.authKey != [] && t.authKey == [] ==> HashAccepted(s, d, r))
      && (t'.wrappedCertificate != [] && t.wrappedCertificate == [] ==> CaAccepted(s, certificate, d, r))
      && (t'.authKey == [] && t.authKey != [] ==> Resets(s, d, r))
      && (Resets(s, d, r) ==> t'.authKey == [] && t'.wrappedCertificate == [])
      && (CaAccepted(s, certificate, d, r) ==> t.authKey != [])
      && (Registers(s, d, r) ==> t.wrappedCertificate != [])
      && (!Resets(s, d, r) ==> Handle(s, certificate, d, r).pin == d.pin)
  {
    hide Hash, DecodeField, DecodeRange, Unwrapped, Wrapped, DeriveKeys, Joined;
  }

  /** What was hashed or certified before a request that resets nothing still is after it. */
  lemma {:induction false} EvidenceStays(s: RawSuite, certificate: seq<byte>, start: Device, rs: seq<Request>, i: nat)
    requires |rs| > 0 && !Resets(s, After(s, certificate, start, rs[..|rs| - 1]), rs[|rs| - 1])
    ensures HashedAt(s, certificate, start, rs[..|rs| - 1], i) ==> HashedAt(s, certificate, start, rs, i)
    ensures CertifiedAt(s, certificate, start, rs[..|rs| - 1], i) ==> CertifiedAt(s, certificate, start, rs, i)
  {
    hide HashAccepted, CaAccepted, PinProved, Resets, Handle;
    var n := |rs| - 1;
    forall k | 0 <= k <= n
      ensures rs[..n][..k] == rs[..k]
    {
    }
    assert After(s, certificate, start, rs).pin == After(s, certificate, start, rs[..n]).pin by {
      hide *;
      LastStep(s, certificate, start, rs);
      EvidenceAppears(s, certificate, After(s, certificate, start, rs[..n]), rs[n]);
    }
  }

  lemma {:induction false} LastStep(s: RawSuite, certificate: seq<byte>, start: Device, rs: seq<Request>)
    requires |rs| > 0
    ensures After(s, certificate, start, rs) ==
            Handle(s, certificate, After(s, certificate, start, rs[..|rs| - 1]), rs[|rs| - 1])
  {
  }

  /** Session keys in the transcript have an accepted hash step behind them. */
  lemma {:induction false} KeysComeFromHash(s: RawSuite, certificate: seq<byte>, pin: seq<byte>, rs: seq<Request>)
    returns (i: nat)
    requires After(s, certificate, Device(pin, BLANK), rs).transcript.authKey != []
    ensures HashedAt(s, certificate, Device(pin, BLANK), rs, i)
  {
    hide Handle, HashAccepted, Resets, CaAccepted, HashedAt, After;
    var start, n := Device(pin, BLANK), |rs| - 1;
    assert rs != [] by { hide *; NothingAtFirst(s, certificate, pin); }
    var d := After(s, certificate, start, rs[..n]);
    LastStep(s, certificate, start, rs);
    EvidenceAppears(s, certificate, d, rs[n]);
    if d.transcript.authKey == [] {
      i := n;
      JustHashed(s, certificate, start, rs);
    } else {
      i := KeysComeFromHash(s, certificate, pin, rs[..n]);
      EvidenceStays(s, certificate, start, rs, i);
    }
  }

  lemma {:induction false} NothingAtFirst(s: RawSuite, certificate: seq<byte>, pin: seq<byte>)
    ensures After(s, certificate, Device(pin, BLANK), []) == Device(pin, BLANK)
  {
  }

  lemma {:induction false} JustHashed(s: RawSuite, certificate: seq<byte>, start: Device, rs: seq<Request>)
    requires |rs| > 0 && HashAccepted(s, After(s, certificate, start, rs[..|rs| - 1]), rs[|rs| - 1])
    ensures HashedAt(s, certificate, start, rs, |rs| - 1)
  {
    hide HashStep, After;
  }

  lemma {:induction false} JustCertified(s: RawSuite, certificate: seq<byte>, start: Device, rs: seq<Request>)
    requires |rs| > 0 && CaAccepted(s, certificate, After(s, certificate, start, rs[..|rs| - 1]), rs[|rs| - 1])
    ensures CertifiedAt(s, certificate, start, rs, |rs| - 1)
  {
    var d := After(s, certificate, start, rs[..|rs| - 1]);
    AcceptedProvesPin(s, certificate, d, rs[|rs| - 1]);
    LastStep(s, certificate, start, rs);
    hide CaStep, PinProved;
  }

  /** A wrapped certificate in the transcript has an accepted CA step behind it, and that one a hash step. */
  lemma {:induction false} CertificateComesFromCa(s: RawSuite, certificate: seq<byte>, pin: seq<byte>, rs: seq<Request>)
    returns (i: nat, j: nat)
    requires After(s, certificate, Device(pin, BLANK), rs).transcript.wrappedCertificate != []
    ensures i < j && HashedAt(s, certificate, Device(pin, BLANK), rs, i)
    ensures CertifiedAt(s, certificate, Device(pin, BLANK), rs, j)
  {
    hide Handle, HashAccepted, Resets, CaAccepted, HashedAt, CertifiedAt, After;
    var start, n := Device(pin, BLANK), |rs| - 1;
    assert rs != [] by { hide *; NothingAtFirst(s, certificate, pin); }
    var d := After(s, certificate, start, rs[..n]);
    LastStep(s, certificate, start, rs);
    EvidenceAppears(s, certificate, d, rs[n]);
    if d.transcript.wrappedCertificate == [] {
      j := n;
      JustCertified(s, certificate, start, rs);
      i := KeysComeFromHash(s, certificate, pin, rs[..n]);
      assert i < n by { hide *; HashedIsInside(s, certificate, start, rs[..n], i); }
    } else {
      i, j := CertificateComesFromCa(s, certificate, pin, rs[..n]);
      EvidenceStays(s, certificate, start, rs, j);
    }
    EvidenceStays(s, certificate, start, rs, i);
  }

  lemma {:induction false} HashedIsInside(s: RawSuite, certificate: seq<byte>, start: Device, rs: seq<Request>, i: nat)
    requires HashedAt(s, certificate, start, rs, i)
    ensures i < |rs|
  {
  }

  /**
   Whatever has been requested, a registration that is accepted now follows, since the last reset, an accepted hash
   step and after it an accepted CA step, whose PIN proof was for the PIN still in force.
   */
  lemma {:induction false} RegistrationFollowsPinProof(s: RawSuite, certificate: seq<byte>, pin: seq<byte>,
                                                       rs: seq<Request>, r: Request)
    requires Registers(s, After(s, certificate, Device(pin, BLANK), rs), r)
    ensures exists i, j :: i < j && HashedAt(s, certificate, Device(pin, BLANK), rs, i) &&
                           CertifiedAt(s, certificate, Device(pin, BLANK), rs, j)
  {
    hide Handle, HashAccepted, Resets, CaAccepted, HashedAt, CertifiedAt, After, Registers;
    EvidenceAppears(s, certificate, After(s, certificate, Device(pin, BLANK), rs), r);
    var i, j := CertificateComesFromCa(s, certificate, pin, rs);
  }
}
