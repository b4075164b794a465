/** What the model needs to know about remainders. */
module Remainders {

  lemma {:induction false} ModOfProduct(a: nat, b: nat, p: nat)
    requires p > 0
    ensures ((a % p) * b) % p == (a * b) % p
  {
    var k := a / p;
    assert a == p * k + a % p;
    assert a * b == p * (k * b) + (a % p) * b by {
      assert (p * k) * b == p * (k * b);
    }
    ModOfMultiple((a % p) * b, k * b, p);
  }

  lemma {:induction false} ModOfMultiple(a: nat, k: nat, p: nat)
    requires p > 0
    ensures (p * k + a) % p == a % p
    decreases k
  {
    if k > 0 {
      ModOfMultiple(a, k - 1, p);
      assert p * k + a == (p * (k - 1) + a) + p;
      AddModulus(p * (k - 1) + a, p);
    }
  }

  lemma {:induction false} AddModulus(a: nat, p: nat)
    requires p > 0
    ensures (a + p) % p == a % p
  {
    assert p * (a / p + 1) == p * (a / p) + p;
    RemainderIsUnique(a + p, p, a / p + 1, a % p);
  }

  lemma {:induction false} RemainderIsUnique(a: nat, p: nat, k: nat, r: nat)
    requires r < p && a == p * k + r
    ensures a % p == r
  {
    var k' := a / p;
    assert p * (k' + 1) == p * k' + p && p * (k + 1) == p * k + p;
    assert k' + 1 <= k ==> p * (k' + 1) <= p * k;
    assert k + 1 <= k' ==> p * (k + 1) <= p * k';
  }

  lemma {:induction false} FactorOfOne(a: nat, x: nat, p: nat)
    requires p > 0 && a % p == 1
    ensures (a * x) % p == x % p
  {
    ModOfProduct(a, x, p);
    assert 1 * x == x;
  }
}
