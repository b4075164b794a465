/**
 AES Key Wrap (internal/crypto/aeskw/aeskw.go). The indexed loops over byte arrays are proved against the
 shift-register form of sections 2.2.1 and 2.2.2 of RFC 3394, and the two register machines against each other.
 */
module KeyWrap {
  import opened Results
  import opened Bytes

  type Half = s: seq<byte> | |s| == 8 witness seq(8, _ => 0)

  const DEFAULT_IV: Half := [0xa6, 0xa6, 0xa6, 0xa6, 0xa6, 0xa6, 0xa6, 0xa6]

  const INVALID_LENGTH := "aeskw: invalid length"
  const INTEGRITY := "aeskw: integrity check failed"

  /** A cipher under one key, and the exclusive or of a step counter into the integrity register. */
  datatype RawMachine = RawMachine(encrypt: Block -> Block, decrypt: Block -> Block, mask: (Half, nat) -> Half)

  ghost predicate Reversible(m: RawMachine) {
    && (forall b: Block :: m.decrypt(m.encrypt(b)) == b)
    && (forall b: Block :: m.encrypt(m.decrypt(b)) == b)
    && (forall a: Half, t: nat :: m.mask(m.mask(a, t), t) == a)
  }

  type Machine = m: RawMachine | Reversible(m)
    witness RawMachine((b: Block) => b, (b: Block) => b, (a: Half, t: nat) => a)

  /** PutUint64(Uint64(a) ^ uint64(t)). */
  function Mask(a: Half, t: nat): Half {
    ByteBoundIsExp2(8);
    FillBytes(XorBits(FromBytes(a), t % Exp2(64), 64), 8)
  }

  lemma {:induction false} MaskTwice(a: Half, t: nat)
    ensures Mask(Mask(a, t), t) == a
  {
    ByteBoundIsExp2(8);
    XorBitsTwice(FromBytes(a), t % Exp2(64), 64);
    FillBytesOfFromBytes(a);
  }

  function Keyed(c: BlockCipher, kek: seq<byte>): Machine {
    var m := RawMachine((b: Block) => c.encrypt(kek, b), (b: Block) => c.decrypt(kek, b),
                        (a: Half, t: nat) => Mask(a, t));
    assert forall a: Half, t: nat :: m.mask(m.mask(a, t), t) == a by {
      forall a: Half, t: nat
        ensures m.mask(m.mask(a, t), t) == a
      {
        MaskTwice(a, t);
      }
    }
    m
  }

  /** The integrity register A and the registers R[1], ..., R[n], eight bytes each, laid end to end. */
  datatype Registers = Registers(a: Half, r: seq<byte>)

  /** Step t of section 2.2.1: encrypt A | R[1], shift the registers left by one, count into A. */
  function ShiftStep(m: Machine, s: Registers, t: nat): (s': Registers)
    requires |s.r| >= 8
    ensures |s'.r| == |s.r|
  {
    var b := m.encrypt(s.a + s.r[..8]);
    Registers(m.mask(b[..8], t), s.r[8..] + b[8..])
  }

  /** The registers after steps 1, ..., t. */
  function ShiftRun(m: Machine, s: Registers, t: nat): (s': Registers)
    requires |s.r| >= 8
    ensures |s'.r| == |s.r|
  {
    if t == 0 then s else ShiftStep(m, ShiftRun(m, s, t - 1), t)
  }

  /** Step t of section 2.2.2: decrypt (A ^ t) | R[n] and shift the registers right by one. */
  function UnshiftStep(m: Machine, s: Registers, t: nat): (s': Registers)
    requires |s.r| >= 8
    ensures |s'.r| == |s.r|
  {
    var b := m.decrypt(m.mask(s.a, t) + s.r[|s.r| - 8..]);
    Registers(b[..8], b[8..] + s.r[..|s.r| - 8])
  }

  /** The registers after steps t, t - 1, ..., 1 of section 2.2.2. */
  function UnshiftRun(m: Machine, s: Registers, t: nat): (s': Registers)
    requires |s.r| >= 8
    ensures |s'.r| == |s.r|
    decreases t
  {
    if t == 0 then s else UnshiftRun(m, UnshiftStep(m, s, t), t - 1)
  }

  /** Section 2.2.1 as a whole, with the length rules of the implementation. */
  function RfcWrap(c: BlockCipher, kek: seq<byte>, plaintext: seq<byte>): Result<seq<byte>> {
    if |plaintext| < 16 || |plaintext| % 8 != 0 || !IsAesKey(kek) then Err(INVALID_LENGTH)
    else
      var s := ShiftRun(Keyed(c, kek), Registers(DEFAULT_IV, plaintext), 6 * (|plaintext| / 8));
      Ok(s.a + s.r)
  }

  /** Section 2.2.2 as a whole. */
  function RfcUnwrap(c: BlockCipher, kek: seq<byte>, ciphertext: seq<byte>): Result<seq<byte>> {
    if |ciphertext| < 24 || |ciphertext| % 8 != 0 || !IsAesKey(kek) then Err(INVALID_LENGTH)
    else
      var s := UnshiftRun(Keyed(c, kek), Registers(ciphertext[..8], ciphertext[8..]), 6 * (|ciphertext| / 8 - 1));
      if s.a == DEFAULT_IV then Ok(s.r) else Err(INTEGRITY)
  }

  lemma {:induction false} UnshiftAfterShift(m: Machine, s: Registers, t: nat)
    requires |s.r| >= 8
    ensures UnshiftStep(m, ShiftStep(m, s, t), t) == s
  {
    var b := m.encrypt(s.a + s.r[..8]);
    var s' := ShiftStep(m, s, t);
    assert m.mask(s'.a, t) + s'.r[|s'.r| - 8..] == b;
    assert s.r[..8] + s.r[8..] == s.r;
    assert s'.r[..|s'.r| - 8] == s.r[8..];
  }

  lemma {:induction false} ShiftAfterUnshift(m: Machine, s: Registers, t: nat)
    requires |s.r| >= 8
    ensures ShiftStep(m, UnshiftStep(m, s, t), t) == s
  {
    var b := m.decrypt(m.mask(s.a, t) + s.r[|s.r| - 8..]);
    var s' := UnshiftStep(m, s, t);
    assert s'.a + s'.r[..8] == b;
    assert s'.r[8..] == s.r[..|s.r| - 8];
    assert s.r[..|s.r| - 8] + s.r[|s.r| - 8..] == s.r;
  }

  lemma {:induction false} UnshiftRunInvertsShiftRun(m: Machine, s: Registers, t: nat)
    requires |s.r| >= 8
    ensures UnshiftRun(m, ShiftRun(m, s, t), t) == s
  {
    if t > 0 {
      UnshiftAfterShift(m, ShiftRun(m, s, t - 1), t);
      UnshiftRunInvertsShiftRun(m, s, t - 1);
    }
  }

  lemma {:induction false} ShiftRunInvertsUnshiftRun(m: Machine, s: Registers, t: nat)
    requires |s.r| >= 8
    ensures ShiftRun(m, UnshiftRun(m, s, t), t) == s
    decreases t
  {
    if t > 0 {
      ShiftRunInvertsUnshiftRun(m, UnshiftStep(m, s, t), t - 1);
      ShiftAfterUnshift(m, s, t);
    }
  }

  lemma {:induction false} WrapThenUnwrap(c: BlockCipher, kek: seq<byte>, plaintext: seq<byte>)
    requires RfcWrap(c, kek, plaintext).Ok?
    ensures RfcUnwrap(c, kek, RfcWrap(c, kek, plaintext).value) == Ok(plaintext)
  {
    hide Keyed, ShiftStep, UnshiftStep;
    var s, n := Registers(DEFAULT_IV, plaintext), |plaintext| / 8;
    var s' := ShiftRun(Keyed(c, kek), s, 6 * n);
    var ciphertext := s'.a + s'.r;
    assert |ciphertext| / 8 - 1 == n && |ciphertext| % 8 == 0;
    assert ciphertext[..8] == s'.a && ciphertext[8..] == s'.r;
    UnshiftRunInvertsShiftRun(Keyed(c, kek), s, 6 * n);
  }

  lemma {:induction false} UnwrapThenWrap(c: BlockCipher, kek: seq<byte>, ciphertext: seq<byte>)
    requires RfcUnwrap(c, kek, ciphertext).Ok?
    ensures RfcWrap(c, kek, RfcUnwrap(c, kek, ciphertext).value) == Ok(ciphertext)
  {
    hide Keyed, ShiftStep, UnshiftStep;
    var s, n := Registers(ciphertext[..8], ciphertext[8..]), |ciphertext| / 8 - 1;
    var s' := UnshiftRun(Keyed(c, kek), s, 6 * n);
    assert |s'.r| / 8 == n && |s'.r| % 8 == 0;
    ShiftRunInvertsUnshiftRun(Keyed(c, kek), s, 6 * n);
    assert s' == Registers(DEFAULT_IV, s'.r);
    assert s.a + s.r == ciphertext;
  }

  /** Unwrapping succeeds exactly on the image of wrapping, and gives back what was wrapped. */
  lemma {:induction false} UnwrapInvertsWrap(c: BlockCipher, kek: seq<byte>, plaintext: seq<byte>,
                                             ciphertext: seq<byte>)
    ensures RfcWrap(c, kek, plaintext) == Ok(ciphertext) <==> RfcUnwrap(c, kek, ciphertext) == Ok(plaintext)
  {
    if RfcWrap(c, kek, plaintext).Ok? {
      WrapThenUnwrap(c, kek, plaintext);
    }
    if RfcUnwrap(c, kek, ciphertext).Ok? {
      UnwrapThenWrap(c, kek, ciphertext);
    }
  }

  /** The shift register holds the indexed array rotated left by the number of blocks already visited. */
  function Rotated(r: seq<byte>, blocks: nat): (s: seq<byte>)
    requires 8 * blocks <= |r|
    ensures |s| == |r|
  {
    r[8 * blocks..] + r[..8 * blocks]
  }

  /** Overwriting a block in place is a shift of the rotated array to the left. */
  lemma {:induction false} InPlaceStep(r: seq<byte>, blocks: nat, last: Half, r': seq<byte>)
    requires 8 * blocks + 8 <= |r|
    requires r' == r[..8 * blocks] + last + r[8 * blocks + 8..]
    ensures Rotated(r, blocks)[..8] == r[8 * blocks..8 * blocks + 8]
    ensures Rotated(r', blocks + 1) == Rotated(r, blocks)[8..] + last
  {
    assert r'[8 * blocks + 8..] == r[8 * blocks + 8..];
    assert r'[..8 * blocks + 8] == r[..8 * blocks] + last;
    assert Rotated(r, blocks)[8..] == r[8 * blocks + 8..] + r[..8 * blocks];
  }

  /** Read the other way, it is a shift to the right. */
  lemma {:induction false} InPlaceUnstep(r: seq<byte>, blocks: nat, first: Half, r': seq<byte>)
    requires 8 * blocks + 8 <= |r|
    requires r' == r[..8 * blocks] + first + r[8 * blocks + 8..]
    ensures Rotated(r, blocks + 1)[|r| - 8..] == r[8 * blocks..8 * blocks + 8]
    ensures Rotated(r', blocks) == first + Rotated(r, blocks + 1)[..|r| - 8]
  {
    assert r'[8 * blocks..] == first + r[8 * blocks + 8..];
    assert r'[..8 * blocks] == r[..8 * blocks];
    assert Rotated(r, blocks + 1)[..|r| - 8] == r[8 * blocks + 8..] + r[..8 * blocks];
  }

  lemma {:induction false} FullRotation(r: seq<byte>, n: nat)
    requires |r| == 8 * n
    ensures Rotated(r, n) == r && Rotated(r, 0) == r
  {
  }

  /** Go's copy of a slice into the middle of an array. */
  method Copy(dst: array<byte>, at: nat, src: seq<byte>)
    requires at + |src| <= dst.Length
    modifies dst
    ensures dst[..] == old(dst[..at]) + src + old(dst[at + |src|..])
  {
    for k := 0 to |src|
      invariant dst[..] == old(dst[..at]) + src[..k] + old(dst[at + k..])
    {
      dst[at + k] := src[k];
    }
    assert src[..|src|] == src;
  }

  /** The body of the loops of Wrap: step t on the block at index `blocks`. */
  method WrapBlock(m: Machine, a: array<byte>, r: array<byte>, blocks: nat, t: nat)
    requires a != r && a.Length == 8 && 8 * blocks + 8 <= r.Length
    modifies a, r
    ensures Registers(a[..], Rotated(r[..], blocks + 1)) ==
            ShiftStep(m, old(Registers(a[..], Rotated(r[..], blocks))), t)
  {
    ghost var r0 := r[..];
    var b := m.encrypt(a[..] + r[8 * blocks..8 * blocks + 8]);
    Copy(a, 0, m.mask(b[..8], t));
    Copy(r, 8 * blocks, b[8..]);
    InPlaceStep(r0, blocks, b[8..], r[..]);
  }

  /** The body of the loops of Unwrap: step t backwards on the block at index `blocks`. */
  method UnwrapBlock(m: Machine, a: array<byte>, r: array<byte>, blocks: nat, t: nat)
    requires a != r && a.Length == 8 && 8 * blocks + 8 <= r.Length
    modifies a, r
    ensures Registers(a[..], Rotated(r[..], blocks)) ==
            UnshiftStep(m, old(Registers(a[..], Rotated(r[..], blocks + 1))), t)
  {
    ghost var r0 := r[..];
    var b := m.decrypt(m.mask(a[..], t) + r[8 * blocks..8 * blocks + 8]);
    Copy(a, 0, b[..8]);
    Copy(r, 8 * blocks, b[8..]);
    InPlaceUnstep(r0, blocks, b[8..], r[..]);
  }

  /** The inner loop of Wrap, with the counters base + 1, ..., base + n. */
  method WrapRound(m: Machine, a: array<byte>, r: array<byte>, n: nat, base: nat, ghost start: Registers)
    requires a != r && a.Length == 8 && r.Length == 8 * n && n > 0 && |start.r| >= 8
    requires Registers(a[..], r[..]) == ShiftRun(m, start, base)
    modifies a, r
    ensures Registers(a[..], r[..]) == ShiftRun(m, start, base + n)
  {
    hide ShiftStep;
    FullRotation(r[..], n);
    for i := 1 to n + 1
      invariant Registers(a[..], Rotated(r[..], i - 1)) == ShiftRun(m, start, base + i - 1)
    {
      WrapBlock(m, a, r, i - 1, base + i);
    }
    FullRotation(r[..], n);
  }

  /** The inner loop of Unwrap, with the counters base + n, ..., base + 1. */
  method UnwrapRound(m: Machine, a: array<byte>, r: array<byte>, n: nat, base: nat, ghost goal: Registers)
    requires a != r && a.Length == 8 && r.Length == 8 * n && n > 0
    requires goal == UnshiftRun(m, Registers(a[..], r[..]), base + n)
    modifies a, r
    ensures goal == UnshiftRun(m, Registers(a[..], r[..]), base)
  {
    hide UnshiftStep;
    FullRotation(r[..], n);
    var i := n;
    while i >= 1
      invariant 0 <= i <= n
      invariant goal == UnshiftRun(m, Registers(a[..], Rotated(r[..], i)), base + i)
    {
      UnwrapBlock(m, a, r, i - 1, base + i);
      i := i - 1;
    }
    FullRotation(r[..], n);
  }

  /** The nested loops of Wrap. */
  method WrapRounds(m: Machine, a: array<byte>, r: array<byte>, n: nat)
    requires a != r && a.Length == 8 && r.Length == 8 * n && n > 0
    modifies a, r
    ensures Registers(a[..], r[..]) == ShiftRun(m, old(Registers(a[..], r[..])), 6 * n)
  {
    hide ShiftStep;
    ghost var start := Registers(a[..], r[..]);
    for j := 0 to 6
      invariant Registers(a[..], r[..]) == ShiftRun(m, start, n * j)
    {
      WrapRound(m, a, r, n, n * j, start);
      assert n * j + n == n * (j + 1);
    }
  }

  /** The nested loops of Unwrap. */
  method UnwrapRounds(m: Machine, a: array<byte>, r: array<byte>, n: nat)
    requires a != r && a.Length == 8 && r.Length == 8 * n && n > 0
    modifies a, r
    ensures Registers(a[..], r[..]) == UnshiftRun(m, old(Registers(a[..], r[..])), 6 * n)
  {
    hide UnshiftStep;
    ghost var goal := UnshiftRun(m, Registers(a[..], r[..]), 6 * n);
    for j := 6 downto 0
      invariant goal == UnshiftRun(m, Registers(a[..], r[..]), n * j)
    {
      assert n * (j + 1) == n * j + n;
      UnwrapRound(m, a, r, n, n * j, goal);
    }
  }

  method Wrap(c: BlockCipher, kek: seq<byte>, plaintext: seq<byte>) returns (result: Result<seq<byte>>)
    ensures result == RfcWrap(c, kek, plaintext)
  {
    hide Keyed, ShiftStep;
    if |plaintext| < 16 || |plaintext| % 8 != 0 {
      return Err(INVALID_LENGTH);
    }
    if !IsAesKey(kek) {
      return Err(INVALID_LENGTH);
    }
    var n := |plaintext| / 8;
    var a := new byte[8](_ => 0xa6);
    var r := new byte[|plaintext|](k requires 0 <= k < |plaintext| => plaintext[k]);
    assert a[..] == DEFAULT_IV && r[..] == plaintext;
    WrapRounds(Keyed(c, kek), a, r, n);
    return Ok(a[..] + r[..]);
  }

  method Unwrap(c: BlockCipher, kek: seq<byte>, ciphertext: seq<byte>) returns (result: Result<seq<byte>>)
    ensures result == RfcUnwrap(c, kek, ciphertext)
  {
    hide Keyed, UnshiftStep;
    if |ciphertext| < 24 || |ciphertext| % 8 != 0 {
      return Err(INVALID_LENGTH);
    }
    if !IsAesKey(kek) {
      return Err(INVALID_LENGTH);
    }
    var n := |ciphertext| / 8 - 1;
    var a := new byte[8](k requires 0 <= k < 8 => ciphertext[k]);
    var r := new byte[8 * n](k requires 0 <= k < 8 * n => ciphertext[8 + k]);
    assert a[..] == ciphertext[..8] && r[..] == ciphertext[8..];
    UnwrapRounds(Keyed(c, kek), a, r, n);
    if a[..] != DEFAULT_IV {
      return Err(INTEGRITY);
    }
    return Ok(r[..]);
  }
}
