/** Prime numbers, as the bucket size of assoc.c needs them. */
module Primes {
  import opened Bytes

  predicate Divides(d: nat, n: nat)
    requires d > 0
  {
    n % d == 0
  }

  ghost predicate IsPrime(n: nat) {
    n >= 2 && forall d :: 2 <= d < n ==> !Divides(d, n)
  }

  // ---------- Trial division ----------

  ghost predicate NoneBelow(n: nat, i: nat) {
    forall d :: 2 <= d < i && d < n ==> !Divides(d, n)
  }

  lemma {:induction false} DivisorPair(d: nat, n: nat) returns (e: nat)
    requires d > 0 && n > 0 && Divides(d, n)
    ensures e > 0 && d * e == n && n % e == 0
  {
    e := n / d;
    assert n == d * e;
    MultipleDivides(d, e);
  }

  lemma {:induction false} MultipleDivides(d: nat, e: nat)
    requires d > 0 && e > 0
    ensures d * e % e == 0
  {
    ModUnique(d * e, e, d, 0);
  }

  /** If nothing below i divides n and the square of i is more than n, n is prime. */
  lemma {:induction false} SquareBound(n: nat, i: nat)
    requires n >= 2 && i >= 2 && i * i > n && NoneBelow(n, i)
    ensures IsPrime(n)
  {
    forall d | 2 <= d < n ensures !Divides(d, n) {
      if Divides(d, n) {
        var e := DivisorPair(d, n);
        if d >= i {
          Cofactor(d, e, n, i);
          assert Divides(e, n);
        }
      }
    }
  }

  lemma {:induction false} Cofactor(d: nat, e: nat, n: nat, i: nat)
    requires i <= d < n && d * e == n < i * i && e > 0
    ensures 2 <= e < i
  {
    if e >= i {
      MulMonotone(i, d, e);
      MulMonotone(i, e, i);
    }
  }

  lemma {:induction false} MulMonotone(a: nat, b: nat, c: nat)
    requires a <= b
    ensures a * c <= b * c && c * a <= c * b
  {
  }

  /** An odd number without smaller divisors up to i has none at i + 1 either, which is even. */
  lemma {:induction false} EvenIsNone(n: nat, i: nat)
    requires n % 2 == 1 && i % 2 == 1 && i >= 3 && NoneBelow(n, i) && !Divides(i, n)
    ensures NoneBelow(n, i + 2)
  {
    EvenDividesEven(i + 1, n);
  }

  lemma {:induction false} EvenDividesEven(d: nat, n: nat)
    requires d > 0 && d % 2 == 0 && n % 2 == 1
    ensures !Divides(d, n)
  {
    if Divides(d, n) {
      assert n == d * (n / d);
      EvenProduct(d / 2, n / d);
    }
  }

  lemma {:induction false} EvenProduct(h: nat, e: nat)
    ensures 2 * h * e % 2 == 0
  {
    assert 2 * h * e == 2 * (h * e);
  }

  lemma {:induction false} OddNoneBelow3(n: nat)
    requires n % 2 == 1
    ensures NoneBelow(n, 3)
  {
  }

  /** None of the four odd numbers from i on divides n. */
  predicate Four(n: nat, i: nat)
    requires i > 0
  {
    !Divides(i, n) && !Divides(i + 2, n) && !Divides(i + 4, n) && !Divides(i + 6, n)
  }

  predicate Sixteen(n: nat, i: nat)
    requires i > 0
  {
    Four(n, i) && Four(n, i + 8) && Four(n, i + 16) && Four(n, i + 24)
  }

  /** None of the first 16 * k odd numbers from i on divides n. */
  predicate NoOddDivisor(n: nat, i: nat, k: nat)
    requires i > 0
    decreases k
  {
    k == 0 || (Sixteen(n, i) && NoOddDivisor(n, i + 32, k - 1))
  }

  lemma {:induction false} FourBelow(n: nat, i: nat)
    requires n % 2 == 1 && i % 2 == 1 && i >= 3 && NoneBelow(n, i) && Four(n, i)
    ensures NoneBelow(n, i + 8)
  {
    EvenIsNone(n, i);
    EvenIsNone(n, i + 2);
    EvenIsNone(n, i + 4);
    EvenIsNone(n, i + 6);
  }

  lemma {:induction false} SixteenBelow(n: nat, i: nat)
    requires n % 2 == 1 && i % 2 == 1 && i >= 3 && NoneBelow(n, i) && Sixteen(n, i)
    ensures NoneBelow(n, i + 32)
  {
    EightBelow(n, i);
    EightBelow(n, i + 16);
  }

  lemma {:induction false} EightBelow(n: nat, i: nat)
    requires n % 2 == 1 && i % 2 == 1 && i >= 3 && NoneBelow(n, i) && Four(n, i) && Four(n, i + 8)
    ensures NoneBelow(n, i + 16)
  {
    FourBelow(n, i);
    FourBelow(n, i + 8);
  }

  /** Both are odd, and nothing below i divides n.
      "== true" keeps the verifier from taking it apart wherever it is to be shown. */
  ghost predicate Clear(n: nat, i: nat) {
    (n % 2 == 1 && i % 2 == 1 && i >= 3 && NoneBelow(n, i)) == true
  }

  lemma {:induction false} NextSixteen(n: nat, i: nat)
    requires Clear(n, i) && i > 0 && Sixteen(n, i)
    ensures Clear(n, i + 32)
  {
    SixteenBelow(n, i);
  }

  lemma {:induction false} AllBelow(n: nat, i: nat, k: nat)
    requires i > 0 && Clear(n, i) && NoOddDivisor(n, i, k)
    ensures Clear(n, i + 32 * k)
    decreases k
  {
    if k != 0 {
      NextSixteen(n, i);
      AllBelow(n, i + 32, k - 1);
    }
  }

  /** Trial division by the first 16 * k odd numbers from 3 on. */
  lemma {:induction false} ByTrial(n: nat, k: nat)
    requires n >= 3 && n % 2 == 1 && (3 + 32 * k) * (3 + 32 * k) > n && NoOddDivisor(n, 3, k)
    ensures IsPrime(n)
  {
    OddNoneBelow3(n);
    AllBelow(n, 3, k);
    SquareBound(n, 3 + 32 * k);
  }

  /** For the smallest numbers. */
  lemma {:induction false} ByHand(n: nat)
    requires 3 <= n < 25 && n % 2 == 1 && (n > 3 ==> !Divides(3, n))
    ensures IsPrime(n)
  {
    OddNoneBelow3(n);
    if n > 3 {
      EvenIsNone(n, 3);
      SquareBound(n, 5);
    }
  }

  /** odd_min9_is_prime. */
  method OddIsPrime(value: nat) returns (r: bool)
    requires value % 2 == 1 && value >= 3
    ensures r <==> IsPrime(value)
  {
    var i := 3;
    OddNoneBelow3(value);
    while i * i <= value
      invariant i >= 3 && i % 2 == 1 && NoneBelow(value, i)
      decreases value + 2 - i
    {
      assert i < value by {
        MulMonotone(3, i, i);
      }
      if value % i == 0 {
        assert Divides(i, value);
        return false;
      }
      EvenIsNone(value, i);
      i := i + 2;
    }
    SquareBound(value, i);
    return true;
  }

  /** prime_upto_min9: the greatest prime up to limit. */
  method PrimeUpto(limit: nat) returns (r: nat)
    requires limit >= 3
    ensures 3 <= r <= limit && r % 2 == 1 && IsPrime(r) && forall p: nat :: r < p <= limit ==> !IsPrime(p)
  {
    r := limit - (1 - limit % 2);
    if r < limit {
      EvenNotPrime(limit);
    }
    var prime := OddIsPrime(r);
    ByHand(3);
    while !prime
      invariant 3 <= r <= limit && r % 2 == 1 && (prime <==> IsPrime(r))
      invariant forall p: nat :: r < p <= limit ==> !IsPrime(p)
      decreases r, !prime
    {
      EvenNotPrime(r - 1);
      r := r - 2;
      prime := OddIsPrime(r);
    }
  }

  lemma {:induction false} EvenNotPrime(n: nat)
    requires n % 2 == 0 && n > 2
    ensures !IsPrime(n)
  {
    assert Divides(2, n);
  }

  // ---------- Products ----------

  /** A prime that divides a product divides one of its factors. */
  lemma {:induction false} Euclid(p: nat, a: nat, b: nat)
    requires IsPrime(p) && 0 < a < p && a * b % p == 0
    ensures b % p == 0
    decreases a
  {
    if a != 1 {
      var q, r := p / a, p % a;
      assert !Divides(a, p);
      Remainder(p, a, b, q, r);
      Euclid(p, r, b);
    }
  }

  lemma {:induction false} Remainder(p: nat, a: nat, b: nat, q: nat, r: nat)
    requires p > 0 && a > 0 && p == q * a + r && a * b % p == 0
    ensures r * b % p == 0
  {
    var k := a * b / p;
    assert a * b == p * k;
    calc {
      r * b;
      (p - q * a) * b;
      p * b - q * (a * b);
      p * b - q * (p * k);
      (b - q * k) * p;
    }
    ModUnique(r * b, p, b - q * k, 0);
  }

  lemma {:induction false} PrimeOfProduct(p: nat, a: nat, b: nat)
    requires IsPrime(p) && a * b % p == 0
    ensures a % p == 0 || b % p == 0
  {
    var r := a % p;
    if r != 0 {
      var q := a / p;
      assert a == p * q + r;
      var k := a * b / p;
      assert a * b == p * k;
      assert r * b == p * k - p * (q * b) by {
        assert (p * q + r) * b == p * (q * b) + r * b;
      }
      assert r * b == (k - q * b) * p;
      ModUnique(r * b, p, k - q * b, 0);
      Euclid(p, r, b);
    }
  }
}
