/** Powers modulo a number, as math/big computes them, and the order of an element. */
module ModularPower {
  import opened Remainders

  function Pow(b: nat, e: nat): nat {
    if e == 0 then 1 else b * Pow(b, e - 1)
  }

  lemma {:induction false} PowOfSum(b: nat, m: nat, n: nat)
    ensures Pow(b, m + n) == Pow(b, m) * Pow(b, n)
  {
    if m > 0 {
      PowOfSum(b, m - 1, n);
      assert Pow(b, m + n) == b * (Pow(b, m - 1) * Pow(b, n)) == (b * Pow(b, m - 1)) * Pow(b, n);
    }
  }

  lemma {:induction false} PowOfProduct(b: nat, m: nat, n: nat)
    ensures Pow(Pow(b, m), n) == Pow(b, m * n)
  {
    if n == 0 {
      assert m * 0 == 0;
    } else {
      PowOfProduct(b, m, n - 1);
      PowOfSum(b, m, m * (n - 1));
      assert m + m * (n - 1) == m * n;
    }
  }

  /** The base may be reduced first. */
  lemma {:induction false} PowOfRemainder(b: nat, e: nat, p: nat)
    requires p > 0
    ensures Pow(b % p, e) % p == Pow(b, e) % p
  {
    if e > 0 {
      var x, y := Pow(b % p, e - 1), Pow(b, e - 1);
      PowOfRemainder(b, e - 1, p);
      ModOfProduct(b, x, p);
      assert ((b % p) * x) % p == (b * x) % p;
      ModOfProduct(x, b, p);
      ModOfProduct(y, b, p);
      assert b * x == x * b && b * y == y * b;
    }
  }

  lemma {:induction false} PowOfOne(e: nat)
    ensures Pow(1, e) == 1
  {
    if e > 0 {
      PowOfOne(e - 1);
    }
  }

  /** If two positive powers of b are 1, so is the power by a common divisor of the exponents. */
  lemma {:induction false} CommonOrder(b: nat, m: nat, n: nat, p: nat) returns (g: nat, k: nat, l: nat)
    requires p > 1 && m > 0 && n > 0 && Pow(b, m) % p == 1 && Pow(b, n) % p == 1
    ensures g > 0 && Pow(b, g) % p == 1 && m == g * k && n == g * l
    decreases m + n
  {
    if m == n {
      g, k, l := m, 1, 1;
    } else if m > n {
      PowerDifference(b, m, n, p);
      g, k, l := CommonOrder(b, m - n, n, p);
      assert m == g * k + g * l == g * (k + l);
      k := k + l;
    } else {
      PowerDifference(b, n, m, p);
      g, k, l := CommonOrder(b, m, n - m, p);
      assert n == g * k + g * l == g * (k + l);
      l := k + l;
    }
  }

  lemma {:induction false} PowerDifference(b: nat, m: nat, n: nat, p: nat)
    requires p > 1 && m > n && Pow(b, m) % p == 1 && Pow(b, n) % p == 1
    ensures Pow(b, m - n) % p == 1
  {
    var x, y := Pow(b, n), Pow(b, m - n);
    PowOfSum(b, n, m - n);
    FactorOfOne(x, y, p);
  }

  predicate Factors(d: nat, e: nat, n: nat) {
    d * e == n
  }

  ghost predicate IsPrime(n: nat) {
    n > 1 && forall d: nat, e: nat :: Factors(d, e, n) ==> d == 1 || d == n
  }

  /** Where a prime power of b is 1 and b itself is not, no smaller positive power is. */
  lemma {:induction false} NoSmallerPowerIsOne(b: nat, q: nat, e: nat, p: nat)
    requires p > 1 && IsPrime(q) && Pow(b, q) % p == 1 && b % p != 1
    requires 0 < e < q
    ensures Pow(b, e) % p != 1
  {
    if Pow(b, e) % p == 1 {
      var g, k, l := CommonOrder(b, e, q, p);
      ProperFactorIsOne(g, l, q, k);
      PowOne(b);
    }
  }

  lemma {:induction false} PowOne(b: nat)
    ensures Pow(b, 1) == b
  {
    assert Pow(b, 1) == b * Pow(b, 0);
  }

  lemma {:induction false} ProperFactorIsOne(g: nat, l: nat, q: nat, k: nat)
    requires IsPrime(q) && g * l == q && 0 < g * k < q
    ensures g == 1
  {
    assert Factors(g, l, q);
    assert k != 0 ==> q * k >= q;
  }

  /** Odd powers of p - 1 are p - 1. */
  lemma {:induction false} OddPowerOfMinusOne(p: nat, e: nat)
    requires p > 1 && e % 2 == 1
    ensures Pow(p - 1, e) % p == p - 1
  {
    hide Pow;
    var m: nat := p - 1;
    if e == 1 {
      PowOne(m);
    } else {
      OddPowerOfMinusOne(p, e - 2);
      var x := Pow(m, e - 2);
      assert Pow(m, e) % p == x % p by {
        SquareOfMinusOne(p);
        TwoMore(m, e - 2);
        FactorOfOne(m * m, x, p);
      }
    }
  }

  lemma {:induction false} TwoMore(b: nat, e: nat)
    ensures Pow(b, e + 2) == (b * b) * Pow(b, e)
  {
    var x := Pow(b, e);
    assert Pow(b, e + 2) == b * Pow(b, e + 1) && Pow(b, e + 1) == b * x;
    assert b * (b * x) == (b * b) * x;
  }

  lemma {:induction false} SquareOfMinusOne(p: nat)
    requires p > 1
    ensures ((p - 1) * (p - 1)) % p == 1
  {
    assert (p - 1) * (p - 1) == p * (p - 2) + 1;
    RemainderIsUnique((p - 1) * (p - 1), p, p - 2, 1);
  }
}
