/**
 AES Key Wrap (internal/crypto/aeskw/aeskw.go) step by step, from the cipher and the bits of the counter alone: the
 index-based form of RFC 3394, with every state of the registers.
 */
module KeyWrapSteps {
  import opened Results
  import opened Bytes
  import opened Bits
  import opened KeyWrap
  import opened Remainders

  /** Byte by byte and bit by bit, a is b with the 64-bit big-endian counter t added without carrying. */
  ghost predicate Counted(a: Half, b: Half, t: nat) {
    forall q: nat, k: nat | q < 8 && k < 8 ::
      a[q] / Exp2(k) % 2 == (b[q] / Exp2(k) % 2 + t / Exp2(8 * (7 - q) + k) % 2) % 2
  }

  /** Step t of wrapping, on n registers end to end, from (a, r) to (a', r'). */
  ghost predicate WrapsTo(c: BlockCipher, kek: seq<byte>, n: nat, t: nat, a: Half, r: seq<byte>, a': Half,
                          r': seq<byte>)
    requires n > 0 && t > 0 && |r| == 8 * n
  {
    var i := (t - 1) % n;
    var b := c.encrypt(kek, a + r[8 * i..8 * i + 8]);
    Counted(a', b[..8], t) && r' == r[..8 * i] + b[8..] + r[8 * i + 8..]
  }

  /** Step t of unwrapping, from (a', r') back to (a, r). */
  ghost predicate UnwrapsTo(c: BlockCipher, kek: seq<byte>, n: nat, t: nat, a': Half, r': seq<byte>, a: Half,
                            r: seq<byte>)
    requires n > 0 && t > 0 && |r'| == 8 * n
  {
    var i := (t - 1) % n;
    exists x: Half :: Counted(x, a', t) &&
      var b := c.decrypt(kek, x + r'[8 * i..8 * i + 8]);
      a == b[..8] && r == r'[..8 * i] + b[8..] + r'[8 * i + 8..]
  }

  /** The states of wrapping from the first on: registers of n blocks, one step after the other. */
  ghost predicate AreWrapStates(c: BlockCipher, kek: seq<byte>, n: nat, a: seq<Half>, r: seq<seq<byte>>)
    requires n > 0
  {
    && |a| == |r| > 0 && (forall t | 0 <= t < |r| :: |r[t]| == 8 * n)
    && forall t | 0 <= t < |a| - 1 :: WrapsTo(c, kek, n, t + 1, a[t], r[t], a[t + 1], r[t + 1])
  }

  /** The same for unwrapping, which comes from the last. */
  ghost predicate AreUnwrapStates(c: BlockCipher, kek: seq<byte>, n: nat, a: seq<Half>, r: seq<seq<byte>>)
    requires n > 0
  {
    && |a| == |r| > 0 && (forall t | 0 <= t < |r| :: |r[t]| == 8 * n)
    && forall t | 0 <= t < |a| - 1 :: UnwrapsTo(c, kek, n, t + 1, a[t + 1], r[t + 1], a[t], r[t])
  }

  lemma {:induction false} FirstState(c: BlockCipher, kek: seq<byte>, n: nat, a: Half, r: seq<byte>)
    requires n > 0 && |r| == 8 * n
    ensures AreWrapStates(c, kek, n, [a], [r]) && AreUnwrapStates(c, kek, n, [a], [r])
    ensures Turn(n, 0) == 0 && UnshiftRun(Keyed(c, kek), Registers(a, r), 0) == Registers(a, r)
  {
    hide Keyed;
  }

  lemma {:induction false} OneMoreState(c: BlockCipher, kek: seq<byte>, n: nat, a: seq<Half>, r: seq<seq<byte>>,
                                        a': Half, r': seq<byte>)
    requires n > 0 && |r'| == 8 * n
    ensures AreWrapStates(c, kek, n, a, r) && WrapsTo(c, kek, n, |a|, a[|a| - 1], r[|a| - 1], a', r') ==>
      AreWrapStates(c, kek, n, a + [a'], r + [r'])
    ensures AreUnwrapStates(c, kek, n, a, r) && UnwrapsTo(c, kek, n, |a|, a', r', a[|a| - 1], r[|a| - 1]) ==>
      AreUnwrapStates(c, kek, n, a + [a'], r + [r'])
  {
    hide WrapsTo, UnwrapsTo;
  }

  lemma {:induction false} MaskCounts(a: Half, t: nat)
    ensures Counted(Mask(a, t), a, t)
  {
    hide Bit, Mask, Counted;
    forall q: nat, k: nat | q < 8 && k < 8
      ensures Bit(Mask(a, t)[q], k) == (Bit(a[q], k) + Bit(t, 8 * (7 - q) + k)) % 2
    {
      MaskBit(a, t, q, k);
    }
    BitsAreCounted(Mask(a, t), a, t);
  }

  lemma {:induction false} BitsAreCounted(a: Half, b: Half, t: nat)
    requires forall q: nat, k: nat | q < 8 && k < 8 :: Bit(a[q], k) == (Bit(b[q], k) + Bit(t, 8 * (7 - q) + k)) % 2
    ensures Counted(a, b, t)
  {
    hide Exp2;
    forall q: nat, k: nat | q < 8 && k < 8
      ensures a[q] / Exp2(k) % 2 == (b[q] / Exp2(k) % 2 + t / Exp2(8 * (7 - q) + k) % 2) % 2
    {
      assert Bit(a[q], k) == (Bit(b[q], k) + Bit(t, 8 * (7 - q) + k)) % 2;
    }
  }

  lemma {:induction false} MaskBit(a: Half, t: nat, q: nat, k: nat)
    requires q < 8 && k < 8
    ensures Bit(Mask(a, t)[q], k) == (Bit(a[q], k) + Bit(t, 8 * (7 - q) + k)) % 2
  {
    hide Bit, ByteBound, Exp2, XorBits, FromBytes, FillBytes;
    ByteBoundIsExp2(8);
    var j := 8 * (7 - q) + k;
    BitOfFilled(XorBits(FromBytes(a), t % Exp2(64), 64), 8, q, k);
    BitOfXor(FromBytes(a), t % Exp2(64), 64, j);
    BitOfRemainder(t, 64, j);
    BitOfBytes(a, q, k);
  }

  /** How far the registers have been turned after step t. */
  function Turn(n: nat, t: nat): (i: nat)
    requires n > 0
    ensures i < n && 8 * i + 8 <= 8 * n
  {
    t % n
  }

  /** Step t visits the block after the one that step t - 1 visited, round and round. */
  lemma {:induction false} NextBlock(n: nat, t: nat)
    requires n > 0 && t > 0
    ensures Turn(n, t) == if Turn(n, t - 1) + 1 == n then 0 else Turn(n, t - 1) + 1
  {
    var q, i := (t - 1) / n, (t - 1) % n;
    assert t - 1 == n * q + i;
    assert n * (q + 1) == n * q + n;
    if i + 1 == n {
      RemainderOfNext(t, n, q + 1, 0);
    } else {
      RemainderOfNext(t, n, q, i + 1);
    }
  }

  lemma {:induction false} RemainderOfNext(t: nat, n: nat, q: nat, r: nat)
    requires r < n && t == n * q + r
    ensures t % n == r
  {
    RemainderIsUnique(t, n, q, r);
  }

  lemma {:induction false} TurnedRight(r: seq<byte>, n: nat, t: nat)
    requires n > 0 && t > 0 && |r| == 8 * n
    ensures Rotated(r, Turn(n, t)) == Rotated(r, Turn(n, t - 1) + 1)
  {
    hide Turn, Rotated;
    NextBlock(n, t);
    FullRotation(r, n);
  }

  /** The states of wrapping up to step t. */
  lemma {:induction false} WrapStates(c: BlockCipher, kek: seq<byte>, n: nat, start: Registers, t: nat)
    returns (a: seq<Half>, r: seq<seq<byte>>)
    requires n > 0 && |start.r| == 8 * n
    ensures |a| == |r| == t + 1 && a[0] == start.a && r[0] == start.r && AreWrapStates(c, kek, n, a, r)
    ensures Registers(a[t], Rotated(r[t], Turn(n, t))) == ShiftRun(Keyed(c, kek), start, t)
  {
    hide ShiftStep, ShiftRun, WrapsTo, Rotated, AreWrapStates, Turn, Keyed;
    OneStepOn(Keyed(c, kek), start, t);
    if t == 0 {
      FullRotation(start.r, n);
      FirstState(c, kek, n, start.a, start.r);
      return [start.a], [start.r];
    }
    var a0, r0 := WrapStates(c, kek, n, start, t - 1);
    assert |r0[t - 1]| == 8 * n by { StatesAreBlocks(c, kek, n, a0, r0); }
    var at, rt := OneWrap(c, kek, n, t, a0[t - 1], r0[t - 1]);
    a, r := a0 + [at], r0 + [rt];
    OneMoreState(c, kek, n, a0, r0, at, rt);
  }

  lemma {:induction false} StatesAreBlocks(c: BlockCipher, kek: seq<byte>, n: nat, a: seq<Half>, r: seq<seq<byte>>)
    requires n > 0 && (AreWrapStates(c, kek, n, a, r) || AreUnwrapStates(c, kek, n, a, r))
    ensures forall t | 0 <= t < |r| :: |r[t]| == 8 * n
  {
    hide WrapsTo, UnwrapsTo;
  }

  lemma {:induction false} OneStepOn(m: Machine, s: Registers, t: nat)
    requires |s.r| >= 8
    ensures ShiftRun(m, s, t) == if t == 0 then s else ShiftStep(m, ShiftRun(m, s, t - 1), t)
  {
  }

  lemma {:induction false} OneWrap(c: BlockCipher, kek: seq<byte>, n: nat, t: nat, a: Half, r: seq<byte>)
    returns (a': Half, r': seq<byte>)
    requires n > 0 && t > 0 && |r| == 8 * n
    ensures |r'| == 8 * n && WrapsTo(c, kek, n, t, a, r, a', r')
    ensures Registers(a', Rotated(r', Turn(n, t))) ==
            ShiftStep(Keyed(c, kek), Registers(a, Rotated(r, Turn(n, t - 1))), t)
  {
    var i := Turn(n, t - 1);
    var b := c.encrypt(kek, a + r[8 * i..8 * i + 8]);
    MaskCounts(b[..8], t);
    a', r' := Mask(b[..8], t), r[..8 * i] + b[8..] + r[8 * i + 8..];
    InPlaceStep(r, i, b[8..], r');
    TurnedRight(r', n, t);
  }

  /** The states of unwrapping from step t down. */
  lemma {:induction false} UnwrapStates(c: BlockCipher, kek: seq<byte>, n: nat, a': Half, r': seq<byte>, t: nat)
    returns (a: seq<Half>, r: seq<seq<byte>>)
    requires n > 0 && |r'| == 8 * n
    ensures |a| == |r| == t + 1 && a[t] == a' && r[t] == r' && AreUnwrapStates(c, kek, n, a, r)
    ensures Registers(a[0], r[0]) == UnshiftRun(Keyed(c, kek), Registers(a', Rotated(r', Turn(n, t))), t)
    decreases t
  {
    hide UnshiftStep, UnshiftRun, UnwrapsTo, Rotated, AreUnwrapStates, Turn, Keyed;
    if t == 0 {
      FullRotation(r', n);
      FirstState(c, kek, n, a', r');
      return [a'], [r'];
    }
    OneStepBack(Keyed(c, kek), Registers(a', Rotated(r', Turn(n, t))), t);
    var at, rt := OneUnwrap(c, kek, n, t, a', r');
    var a0, r0 := UnwrapStates(c, kek, n, at, rt, t - 1);
    a, r := a0 + [a'], r0 + [r'];
    OneMoreState(c, kek, n, a0, r0, a', r');
  }

  lemma {:induction false} OneStepBack(m: Machine, s: Registers, t: nat)
    requires |s.r| >= 8 && t > 0
    ensures UnshiftRun(m, s, t) == UnshiftRun(m, UnshiftStep(m, s, t), t - 1)
  {
  }

  lemma {:induction false} OneUnwrap(c: BlockCipher, kek: seq<byte>, n: nat, t: nat, a': Half, r': seq<byte>)
    returns (a: Half, r: seq<byte>)
    requires n > 0 && t > 0 && |r'| == 8 * n
    ensures |r| == 8 * n && UnwrapsTo(c, kek, n, t, a', r', a, r)
    ensures Registers(a, Rotated(r, Turn(n, t - 1))) ==
            UnshiftStep(Keyed(c, kek), Registers(a', Rotated(r', Turn(n, t))), t)
  {
    var i := Turn(n, t - 1);
    MaskCounts(a', t);
    var x := Mask(a', t);
    var b := c.decrypt(kek, x + r'[8 * i..8 * i + 8]);
    a, r := b[..8], r'[..8 * i] + b[8..] + r'[8 * i + 8..];
    InPlaceUnstep(r', i, b[8..], r);
    TurnedRight(r', n, t);
    assert UnwrapsTo(c, kek, n, t, a', r', a, r);
  }

  /** Wrapping, in full: what it refuses, and otherwise its states from the initial value to the result. */
  lemma {:induction false} WrapIsStepwise(c: BlockCipher, kek: seq<byte>, plaintext: seq<byte>)
    returns (a: seq<Half>, r: seq<seq<byte>>)
    ensures RfcWrap(c, kek, plaintext).Ok? <==>
            |plaintext| >= 16 && |plaintext| % 8 == 0 && (|kek| == 16 || |kek| == 24 || |kek| == 32)
    ensures RfcWrap(c, kek, plaintext).Ok? ==>
      var n := |plaintext| / 8;
      && |a| == |r| == 6 * n + 1 && a[0] == [0xa6, 0xa6, 0xa6, 0xa6, 0xa6, 0xa6, 0xa6, 0xa6] && r[0] == plaintext
      && AreWrapStates(c, kek, n, a, r)
      && RfcWrap(c, kek, plaintext).value == a[6 * n] + r[6 * n]
  {
    a, r := [], [];
    if RfcWrap(c, kek, plaintext).Ok? {
      WrapByRun(c, kek, plaintext);
      var n := |plaintext| / 8;
      hide WrapsTo, Keyed, ShiftRun, Rotated, AreWrapStates, RfcWrap;
      a, r := WrapStates(c, kek, n, Registers(DEFAULT_IV, plaintext), 6 * n);
      StatesAreBlocks(c, kek, n, a, r);
      RoundIsWhole(n);
      FullRotation(r[6 * n], n);
    }
  }

  lemma {:induction false} WrapByRun(c: BlockCipher, kek: seq<byte>, plaintext: seq<byte>)
    requires |plaintext| >= 16 && |plaintext| % 8 == 0 && IsAesKey(kek)
    ensures var s := ShiftRun(Keyed(c, kek), Registers(DEFAULT_IV, plaintext), 6 * (|plaintext| / 8));
      RfcWrap(c, kek, plaintext) == Ok(s.a + s.r)
  {
    hide Keyed, ShiftRun;
  }

  lemma {:induction false} RoundIsWhole(n: nat)
    requires n > 0
    ensures Turn(n, 6 * n) == 0 && Turn(n, 0) == 0
  {
    RemainderOfNext(6 * n, n, 6, 0);
  }

  predicate Unwrappable(kek: seq<byte>, ciphertext: seq<byte>) {
    |ciphertext| >= 24 && |ciphertext| % 8 == 0 && (|kek| == 16 || |kek| == 24 || |kek| == 32)
  }

  /** Unwrapping, in full, with the integrity check at the end. */
  lemma {:induction false} UnwrapIsStepwise(c: BlockCipher, kek: seq<byte>, ciphertext: seq<byte>)
    returns (a: seq<Half>, r: seq<seq<byte>>)
    ensures Unwrappable(kek, ciphertext) ==>
      var n := |ciphertext| / 8 - 1;
      && |a| == |r| == 6 * n + 1 && a[6 * n] == ciphertext[..8] && r[6 * n] == ciphertext[8..]
      && AreUnwrapStates(c, kek, n, a, r)
      && RfcUnwrap(c, kek, ciphertext) ==
           if a[0] == [0xa6, 0xa6, 0xa6, 0xa6, 0xa6, 0xa6, 0xa6, 0xa6] then Ok(r[0]) else Err(INTEGRITY)
    ensures !Unwrappable(kek, ciphertext) ==> RfcUnwrap(c, kek, ciphertext) == Err(INVALID_LENGTH)
  {
    a, r := [], [];
    if Unwrappable(kek, ciphertext) {
      var n := |ciphertext| / 8 - 1;
      hide UnwrapsTo, Keyed, UnshiftRun, Rotated, AreUnwrapStates, RfcUnwrap;
      a, r := UnwrapStates(c, kek, n, ciphertext[..8], ciphertext[8..], 6 * n);
      RoundIsWhole(n);
      FullRotation(ciphertext[8..], n);
      UnwrapByRun(c, kek, ciphertext);
    }
  }

  lemma {:induction false} UnwrapByRun(c: BlockCipher, kek: seq<byte>, ciphertext: seq<byte>)
    requires Unwrappable(kek, ciphertext)
    ensures var n := |ciphertext| / 8 - 1;
      var s := UnshiftRun(Keyed(c, kek), Registers(ciphertext[..8], ciphertext[8..]), 6 * n);
      RfcUnwrap(c, kek, ciphertext) ==
        if s.a == [0xa6, 0xa6, 0xa6, 0xa6, 0xa6, 0xa6, 0xa6, 0xa6] then Ok(s.r) else Err(INTEGRITY)
  {
    hide Keyed, UnshiftRun;
  }
}
