/** The probe positions of the candidate table of assoc.c: hash_collide, and the path it makes through a bucket. */
module AssocProbe {
  import opened Bytes
  import opened Primes
  import opened AssocHash

  /** hash_collide. */
  function Collide(size: nat, hash: nat): (r: nat)
    requires size > 1
    ensures 0 < r < size
  {
    var r := hash % size * HASH_COLLIDE_PRIME % size;
    if r == 0 then 1 else r
  }

  /** The position of try c. */
  function Probe(size: nat, hash: nat, c: nat): (r: nat)
    requires size > 1
    ensures r < size
  {
    if c == 0 then hash % size else Collide(size, Probe(size, hash, c - 1))
  }

  lemma {:induction false} FactorNotMultiple(size: nat)
    requires SizeOk(size)
    ensures HASH_COLLIDE_PRIME % size != 0
  {
    ByTrial(101, 1);
    PrimeDividesPrime(size, 101);
  }

  /** For a bucket size as new_Assoc chooses it, residues other than zero are mapped to residues other than zero:
      the fallback to 1 is never taken. */
  lemma {:induction false} FallbackDead(size: nat, hash: nat)
    requires SizeOk(size) && hash % size != 0
    ensures hash % size * HASH_COLLIDE_PRIME % size != 0
  {
    FactorNotMultiple(size);
    if hash % size * HASH_COLLIDE_PRIME % size == 0 {
      Euclid(size, hash % size, HASH_COLLIDE_PRIME);
    }
  }

  /** It is taken only for multiples of the size, which go to place 1. */
  lemma {:induction false} FallbackOnlyForMultiples(size: nat, hash: nat)
    requires SizeOk(size)
    ensures hash % size * HASH_COLLIDE_PRIME % size == 0 <==> hash % size == 0
  {
    if hash % size != 0 {
      FallbackDead(size, hash);
    }
  }

  // ---------- Which tries are at different places ----------

  function Power(d: nat): nat {
    if d == 0 then 1 else HASH_COLLIDE_PRIME * Power(d - 1)
  }

  lemma {:induction false} ModTimes(a: nat, b: nat, m: nat)
    requires m > 0
    ensures a % m * b % m == a * b % m
  {
    var q, r := a / m, a % m;
    var k, x := r * b / m, r * b % m;
    assert a == q * m + r && r * b == k * m + x;
    assert a * b == (q * b + k) * m + x by {
      assert a * b == (q * m + r) * b;
      assert (q * m) * b == (q * b) * m;
    }
    ModUnique(a * b, m, q * b + k, x);
  }

  lemma {:induction false} ProbeNotZero(size: nat, hash: nat, i: nat)
    requires size > 1 && hash % size != 0
    ensures Probe(size, hash, i) > 0
  {
  }

  /** From any try, d further ones multiply by the d-th power. */
  lemma {:induction false} ProbeFrom(size: nat, hash: nat, i: nat, d: nat)
    requires SizeOk(size) && hash % size != 0
    ensures Probe(size, hash, i + d) == Probe(size, hash, i) * Power(d) % size
    decreases d
  {
    var p := Probe(size, hash, i);
    if d == 0 {
      TimesOne(size, p);
    } else {
      ProbeFrom(size, hash, i, d - 1);
      ProbeFromNext(size, hash, i + d, p, d);
    }
  }

  lemma {:induction false} TimesOne(size: nat, p: nat)
    requires p < size
    ensures p * Power(0) % size == p
  {
    assert p * Power(0) == p;
    ModUnique(p, size, 0, p);
  }

  lemma {:induction false} ProbeFromNext(size: nat, hash: nat, k: nat, p: nat, d: nat)
    requires SizeOk(size) && hash % size != 0 && 0 < d <= k && p < size
    requires Probe(size, hash, k - 1) == p * Power(d - 1) % size
    ensures Probe(size, hash, k) == p * Power(d) % size
  {
    ProbeNotZero(size, hash, k - 1);
    ProbeNext(size, p, Probe(size, hash, k - 1), d);
  }

  lemma {:induction false} ProbeNext(size: nat, p: nat, last: nat, d: nat)
    requires SizeOk(size) && d > 0 && p < size && last == p * Power(d - 1) % size && last != 0
    ensures Collide(size, last) == p * Power(d) % size
  {
    var f := HASH_COLLIDE_PRIME;
    ModUnique(last, size, 0, last);
    FallbackDead(size, last);
    ModTimes(p * Power(d - 1), f, size);
    assert p * Power(d - 1) * f == p * Power(d) by {
      assert p * Power(d - 1) * f == p * (f * Power(d - 1));
    }
  }

  lemma {:induction false} SameAgain(size: nat, r: nat, p: nat)
    requires SizeOk(size) && 0 < r < size && p >= 1
    ensures r * p % size == r <==> (p - 1) % size == 0
  {
    if r * p % size == r {
      SameThenMultiple(size, r, p);
    } else if (p - 1) % size == 0 {
      MultipleThenSame(size, r, p);
    }
  }

  lemma {:induction false} SameThenMultiple(size: nat, r: nat, p: nat)
    requires SizeOk(size) && 0 < r < size && p >= 1 && r * p % size == r
    ensures (p - 1) % size == 0
  {
    var q := r * p / size;
    assert r * p == size * q + r;
    assert r * (p - 1) == r * p - r;
    ModUnique(r * (p - 1), size, q, 0);
    Euclid(size, r, p - 1);
  }

  lemma {:induction false} MultipleThenSame(size: nat, r: nat, p: nat)
    requires 0 < r < size && p >= 1 && (p - 1) % size == 0
    ensures r * p % size == r
  {
    var q := (p - 1) / size;
    assert p == size * q + 1;
    assert r * p == (r * q) * size + r by {
      assert r * (size * q) == (r * q) * size;
    }
    ModUnique(r * p, size, r * q, r);
  }

  lemma {:induction false} FirstPowers()
    ensures Power(1) == 101 && Power(2) == 10201 && Power(3) == 1030301 && Power(4) == 104060401
  {
  }

  lemma {:induction false} LargePrimes()
    ensures IsPrime(5101) && IsPrime(10303)
  {
    ByTrial(5101, 3);
    ByTrial(10303, 4);
  }

  /** A product is a multiple exactly when a factor is. */
  lemma {:induction false} ProductMultiple(size: nat, a: nat, b: nat)
    requires SizeOk(size)
    ensures a * b % size == 0 <==> a % size == 0 || b % size == 0
  {
    if a * b % size == 0 {
      PrimeOfProduct(size, a, b);
    } else {
      if a % size == 0 {
        MultipleTimes(a, b, size);
      }
      if b % size == 0 {
        MultipleTimes(b, a, size);
      }
    }
  }

  lemma {:induction false} MultipleTimes(a: nat, b: nat, m: nat)
    requires m > 0 && a % m == 0
    ensures a * b % m == 0 && b * a % m == 0
  {
    var q := a / m;
    assert a == q * m;
    assert a * b == (q * b) * m;
    ModUnique(a * b, m, q * b, 0);
  }

  lemma {:induction false} Divisors(size: nat)
    requires SizeOk(size)
    ensures 100 % size == 0 <==> size == 5
    ensures 102 % size == 0 <==> size == 17
    ensures 10303 % size == 0 <==> size == 10303
    ensures 10202 % size == 0 <==> size == 5101
  {
    SmallPrimes();
    LargePrimes();
    PrimeDividesPrime(size, 5);
    PrimeDividesPrime(size, 17);
    PrimeDividesPrime(size, 10303);
    PrimeDividesPrime(size, 5101);
    SmallFactors(size);
    ProductMultiple(size, 4, 25);
    ProductMultiple(size, 5, 5);
    ProductMultiple(size, 6, 17);
    ProductMultiple(size, 2, 5101);
  }

  lemma {:induction false} SmallFactors(size: nat)
    requires SizeOk(size)
    ensures 2 % size != 0 && 4 % size != 0 && 6 % size != 0
  {
    assert Divides(2, 6);
    assert size != 6;
  }

  lemma {:induction false} PowerDivisors(size: nat, d: nat)
    requires SizeOk(size) && 1 <= d <= 4
    ensures Power(d) >= 1
    ensures (Power(d) - 1) % size == 0 <==>
            size == 5 || (size == 17 && d % 2 == 0) || (size == 10303 && d == 3) || (size == 5101 && d == 4)
  {
    FirstPowers();
    Divisors(size);
    ProductMultiple(size, 100, 102);
    ProductMultiple(size, 100, 10303);
    ProductMultiple(size, 10200, 10202);
  }

  /** The five tries for a hash are at five different places, as the design wants it, exactly for the bucket
      sizes other than these four. */
  lemma {:induction false} TriesDiffer(size: nat, hash: nat)
    requires SizeOk(size) && hash % size != 0
    ensures (forall i: nat, j: nat :: i < j < HASH_COLLIDE_COUNT ==> Probe(size, hash, i) != Probe(size, hash, j))
            <==> size !in {5, 17, 5101, 10303}
  {
    if size in {5, 17, 5101, 10303} {
      var d := if size == 5 then 1 else if size == 17 then 2 else if size == 5101 then 4 else 3;
      SameTry(size, hash, 0, d);
    } else {
      forall i: nat, j: nat | i < j < HASH_COLLIDE_COUNT ensures Probe(size, hash, i) != Probe(size, hash, j) {
        SameTry(size, hash, i, j - i);
      }
    }
  }

  lemma {:induction false} SameTry(size: nat, hash: nat, i: nat, d: nat)
    requires SizeOk(size) && hash % size != 0 && 1 <= d <= 4
    ensures Probe(size, hash, i) == Probe(size, hash, i + d) <==>
            size == 5 || (size == 17 && d % 2 == 0) || (size == 10303 && d == 3) || (size == 5101 && d == 4)
  {
    ProbeNotZero(size, hash, i);
    ProbeFrom(size, hash, i, d);
    PowerDivisors(size, d);
    SameAgain(size, Probe(size, hash, i), Power(d));
  }
}
