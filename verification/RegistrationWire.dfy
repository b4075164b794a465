/** What client and device share in the registration protocol: primitives, messages, fields and keys. */
module RegistrationWire {
  import opened Results
  import opened Bytes
  import opened DiffieHellman
  import opened RegistrationCrypto

  const MAX_RESPONSE_SIZE := 0x10_0000

  type Group = g: RawGroup | 2 < g.p < ByteBound(PUBLIC_BYTES) witness RawGroup(3, 1)

  /** An RSA public key. */
  datatype Key = Key(modulus: nat)

  predicate Is2048Bit(k: Key) {
    ByteBound(256) <= 2 * k.modulus && k.modulus < ByteBound(256)
  }

  /**
   The primitives: cipher, HMAC and group; base64; whether bytes are a PEM certificate chain; and a public key as
   PEM and back.
   */
  datatype RawSuite = RawSuite(cipher: BlockCipher, hmac: Hmac, group: Group,
                               encode: seq<byte> -> string, decode: string -> Option<seq<byte>>,
                               certificateOk: seq<byte> -> bool,
                               marshalKey: Key -> seq<byte>, parseKey: seq<byte> -> Option<Key>)

  ghost predicate Lawful(s: RawSuite) {
    && (forall b: seq<byte> :: s.decode(s.encode(b)) == Some(b))
    && (forall k: Key | Is2048Bit(k) :: s.parseKey(s.marshalKey(k)) == Some(k) && s.marshalKey(k) != [])
    && !s.certificateOk([])
    && IsGroup(s.group)
  }

  /** The five optional fields of a message, in base64. */
  datatype Message = Message(a: string, b: string, c: string, d: string, e: string)

  const EMPTY := Message("", "", "", "", "")

  /** decodeFieldRange */
  function DecodeRange(s: RawSuite, value: string, minimum: nat, maximum: nat): (r: Option<seq<byte>>)
    ensures r.Some? ==> minimum <= |r.value| <= maximum
  {
    var decoded := s.decode(value);
    if decoded.None? || |decoded.value| < minimum || |decoded.value| > maximum then None else decoded
  }

  /** decodeField */
  function DecodeField(s: RawSuite, value: string, length: nat): (r: Option<seq<byte>>)
    ensures r.Some? ==> |r.value| == length
  {
    DecodeRange(s, value, length, length)
  }

  function Hash(s: RawSuite, key: seq<byte>, values: seq<seq<byte>>): Mac {
    HashMac(s.hmac, key, values)
  }

  const ITERATIONS := 10_000

  /** deriveKeys: the authentication key and the wrapping key. */
  function DeriveKeys(s: RawSuite, shared: seq<byte>, salt: seq<byte>): (keys: (seq<byte>, seq<byte>))
    ensures |keys.0| == 32 && |keys.1| == 16
  {
    var derived := Derived(s.hmac, shared, salt, ITERATIONS, 48);
    (derived[..32], derived[32..])
  }

  /** A PIN that both sides accept. */
  predicate ValidPin(pin: seq<byte>) {
    pin != [] && 13 !in pin && 10 !in pin && 0 !in pin
  }
}
