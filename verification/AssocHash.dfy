/** Bucket sizes, hashes and probe positions of the candidate table of assoc.c. */
module AssocHash {
  import opened Bytes
  import opened Primes
  import opened Bitwise

  const HASH_COLLIDE_COUNT: nat := 5
  const HASH_COLLIDE_PRIME: nat := 101
  const MAX_ENTRIES: nat := 131071

  // ---------- The bucket size ----------

  ghost predicate SizeOk(size: nat) {
    IsPrime(size) && size != HASH_COLLIDE_PRIME && 5 <= size <= MAX_ENTRIES
  }

  function Clamped(entries: nat): nat {
    if entries < 5 then 5 else if entries > MAX_ENTRIES then MAX_ENTRIES else entries
  }

  lemma {:induction false} SmallPrimes()
    ensures IsPrime(5) && IsPrime(7) && IsPrime(11) && IsPrime(13) && IsPrime(17) && IsPrime(19) && IsPrime(23)
    ensures !IsPrime(9) && !IsPrime(15) && !IsPrime(21)
  {
    ByHand(5);
    ByHand(7);
    ByHand(11);
    ByHand(13);
    ByHand(17);
    ByHand(19);
    ByHand(23);
    assert Divides(3, 9) && Divides(3, 15) && Divides(3, 21);
  }

  lemma {:induction false} LastPrime()
    ensures IsPrime(MAX_ENTRIES)
  {
    ByTrial(131071, 12);
  }

  /** The sizing in new_Assoc: the greatest prime up to the number of entries asked for, 101 left out. */
  method BucketSize(wanted: nat) returns (entries: nat)
    ensures SizeOk(entries) && entries <= Clamped(wanted)
    ensures forall p: nat :: entries < p <= Clamped(wanted) && p != HASH_COLLIDE_PRIME ==> !IsPrime(p)
  {
    entries := wanted;
    if entries < 25 {
      entries := SmallSize(wanted);
    } else if entries > MAX_ENTRIES {
      LastPrime();
      entries := MAX_ENTRIES;
    } else {
      entries := PrimeUpto(entries);
      SmallPrimes();
      assert entries >= 23;
      if entries == HASH_COLLIDE_PRIME {
        entries := PrimeUpto(entries - 1);
        assert entries >= 23;
      }
    }
  }

  method SmallSize(wanted: nat) returns (entries: nat)
    requires wanted < 25
    ensures SizeOk(entries) && entries <= Clamped(wanted)
    ensures forall p: nat :: entries < p <= Clamped(wanted) ==> !IsPrime(p)
  {
    entries := wanted;
    SmallPrimes();
    if entries <= 6 {
      entries := 5;
      EvenNotPrime(6);
    } else {
      entries := entries - (1 - entries % 2);
      if entries < wanted {
        EvenNotPrime(wanted);
      }
      if entries % 3 == 0 {
        EvenNotPrime(entries - 1);
        entries := entries - 2;
      }
    }
  }

  // ---------- The hash ----------

  /** One step of the loop of id_hash, on 32-bit numbers. */
  function Mix(res: nat, b: byte): (r: nat)
    ensures r < TWO_32
  {
    (Xor(res * 2 % TWO_32, b) + res / 0x8000_0000) % TWO_32
  }

  /** The loop of id_hash over the first n bytes. */
  function RawHash(id: Key, n: nat): (r: nat)
    requires n <= |id|
    ensures r < TWO_32
  {
    if n == 0 then 0x19a64e82 else Mix(RawHash(id, n - 1), id[n - 1])
  }

  function Adjusted(raw: nat, size: nat): (h: nat)
    requires size > 0
    ensures raw < TWO_32 ==> h < TWO_32
  {
    if raw % size == 0 then (raw + 1) % TWO_32 else raw
  }

  /** id_hash. */
  function Hash(id: Key, size: nat): (h: nat)
    requires |id| == KEY_BYTES && size > 0
    ensures h < TWO_32
  {
    Adjusted(RawHash(id, |id|), size)
  }

  method IdHash(id: Key, size: nat) returns (h: nat)
    requires |id| == KEY_BYTES && size > 0
    ensures h == Hash(id, size)
  {
    h := 0x19a64e82;
    var i := 0;
    while i < KEY_BYTES
      invariant 0 <= i <= |id| && h == RawHash(id, i)
    {
      h := Mix(h, id[i]);
      i := i + 1;
    }
    if h % size == 0 {
      h := (h + 1) % TWO_32;
    }
  }

  /** A hash is no multiple of the size, as the table needs it, except where the last 32-bit number is one and
      the increment wraps around. */
  lemma {:induction false} HashNotMultiple(raw: nat, size: nat)
    requires raw < TWO_32 && 2 <= size <= MAX_ENTRIES
    ensures Adjusted(raw, size) % size != 0 <==> !(raw == TWO_32 - 1 && Divides(size, TWO_32 - 1))
  {
    if raw % size == 0 && raw != TWO_32 - 1 {
      var q := raw / size;
      assert raw == q * size;
      ModUnique(raw + 1, size, q, 1);
    }
  }

  lemma {:induction false} FermatPrimes()
    ensures IsPrime(257) && IsPrime(65537)
  {
    ByTrial(257, 1);
    ByTrial(65537, 8);
  }

  /** The sizes for which that can happen. */
  lemma {:induction false} FermatSizes(size: nat)
    requires SizeOk(size)
    ensures Divides(size, TWO_32 - 1) <==> size in {5, 17, 257, 65537}
  {
    SmallPrimes();
    FermatPrimes();
    if Divides(size, TWO_32 - 1) {
      PrimeOfProduct(size, 3, 1431655765);
      PrimeOfProduct(size, 5, 286331153);
      PrimeDividesPrime(size, 5);
      if size != 5 {
        PrimeOfProduct(size, 17, 16843009);
        PrimeDividesPrime(size, 17);
        if size != 17 {
          PrimeOfProduct(size, 257, 65537);
          PrimeDividesPrime(size, 257);
          PrimeDividesPrime(size, 65537);
        }
      }
    }
  }

  lemma {:induction false} PrimeDividesPrime(p: nat, q: nat)
    requires IsPrime(p) && IsPrime(q)
    ensures q % p == 0 <==> p == q
  {
    if p < q {
      assert !Divides(p, q);
    }
  }

  lemma {:induction false} XorEven(x: nat, b: nat)
    requires x % 2 == 0 && b <= 1
    ensures Xor(x, b) == x + b
  {
    XorParts(x, b);
    XorZero(x / 2);
  }

  /** A byte that makes the low bits of a hash that are all ones one more. */
  function FillByte(res: nat): byte {
    if res >= 0x8000_0000 then 0 else 1
  }

  lemma {:induction false} DoubleEven(res: nat) returns (x: nat)
    requires res < TWO_32
    ensures x == res * 2 % TWO_32 && x % 2 == 0 && x + 1 < TWO_32
  {
    x := if res >= 0x8000_0000 then res * 2 - TWO_32 else res * 2;
  }

  lemma {:induction false} MixFills(res: nat)
    requires res < TWO_32
    ensures Mix(res, FillByte(res)) == res * 2 % TWO_32 + 1
  {
    var x := DoubleEven(res);
    XorEven(x, FillByte(res));
    assert res / 0x8000_0000 == 1 - FillByte(res);
    ModUnique(x + 1, TWO_32, 0, x + 1);
  }

  ghost predicate LowOnes(res: nat, m: nat) {
    exists q: nat :: res == q * Pow2(m) + Pow2(m) - 1
  }

  lemma {:induction false} Doubled(res: nat, q: nat, p: nat, big: nat) returns (q': nat)
    requires p * big == 0x8000_0000 && p > 0 && res < TWO_32 && res == q * p + p - 1
    ensures res * 2 % TWO_32 + 1 == q' * (2 * p) + 2 * p - 1
  {
    assert res * 2 + 1 == q * (2 * p) + 2 * p - 1;
    q' := q;
    if res >= 0x8000_0000 {
      if q < big {
        MulMonotone(q + 1, big, p);
      }
      q' := q - big;
      assert (q - big) * (2 * p) == q * (2 * p) - 2 * (p * big);
    }
  }

  lemma {:induction false} FillsMore(res: nat, m: nat)
    requires m < 32 && res < TWO_32 && LowOnes(res, m)
    ensures LowOnes(res * 2 % TWO_32 + 1, m + 1)
  {
    var q: nat :| res == q * Pow2(m) + Pow2(m) - 1;
    Pow31();
    PowersMultiply(m, 31 - m);
    var q' := Doubled(res, q, Pow2(m), Pow2(31 - m));
    assert Pow2(m + 1) == 2 * Pow2(m);
  }

  lemma {:induction false} Pow31()
    ensures Pow2(31) == 0x8000_0000 && Pow2(32) == TWO_32
  {
    assert Pow2(16) == 0x1_0000;
    PowersMultiply(16, 15);
    assert Pow2(15) == 0x8000;
    assert Pow2(32) == 2 * Pow2(31);
  }

  lemma {:induction false} HashOfPrefix(a: Key, b: Key, n: nat)
    requires n <= |a|
    ensures RawHash(a + b, n) == RawHash(a, n)
  {
    if n != 0 {
      HashOfPrefix(a, b, n - 1);
    }
  }

  lemma {:induction false} HashSnoc(id: Key, b: byte)
    ensures RawHash(id + [b], |id| + 1) == Mix(RawHash(id, |id|), b)
  {
    HashOfPrefix(id, [b], |id|);
  }

  /** Keys that fill the low bits of the hash with ones. */
  lemma {:induction false} OnesKey(n: nat) returns (id: Key)
    requires n <= 32
    ensures |id| == n && LowOnes(RawHash(id, |id|), n)
  {
    id := [];
    if n == 0 {
      assert RawHash(id, |id|) == RawHash(id, |id|) * Pow2(0) + Pow2(0) - 1;
    } else {
      id := OnesKey(n - 1);
      var res := RawHash(id, |id|);
      FillsMore(res, n - 1);
      MixFills(res);
      HashSnoc(id, FillByte(res));
      id := id + [FillByte(res)];
    }
  }

  lemma {:induction false} AllOnes(res: nat)
    requires res < TWO_32 && LowOnes(res, 32)
    ensures res == TWO_32 - 1
  {
    Pow31();
    var q: nat :| res == q * Pow2(32) + Pow2(32) - 1;
    if q != 0 {
      MulAtLeast(q, TWO_32);
    }
  }

  lemma {:induction false} AdjustedOnes(size: nat)
    requires size in {5, 17, 257, 65537}
    ensures Adjusted(TWO_32 - 1, size) == 0
  {
    assert 0xffff_ffff % 5 == 0 && 0xffff_ffff % 17 == 0 && 0xffff_ffff % 257 == 0 && 0xffff_ffff % 65537 == 0;
  }

  /** There is a key whose hash is zero for each size for which the increment can wrap around. */
  lemma {:induction false} ZeroHash(size: nat) returns (id: Key)
    requires size in {5, 17, 257, 65537}
    ensures |id| == KEY_BYTES && Hash(id, size) == 0
  {
    id := OnesKey(32);
    AllOnes(RawHash(id, |id|));
    AdjustedOnes(size);
  }
}
