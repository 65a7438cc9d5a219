/** The running nonces of crypto_core.c: 24-byte big-endian counters. */
module Nonce {
  import opened Bytes

  const NONCE_BYTES: nat := 24

  /** 2^192, the number of different nonces. */
  const NONCE_COUNT: nat := 0x1_000000000000_000000000000_000000000000_000000000000

  /** The nonce k places after s. */
  function Advance(s: seq<byte>, k: nat): (r: seq<byte>)
    ensures |r| == |s|
  {
    Spell(Value(s) + k, |s|)
  }

  lemma {:induction false} NonceCount()
    ensures Pow256(NONCE_BYTES) == NONCE_COUNT
  {
    assert Pow256(8) == 0x1_0000_0000_0000_0000;
    assert Pow256(16) == 0x1_0000_0000_0000_0000_0000_0000_0000_0000;
  }

  /** Advance is addition modulo the number of nonces. */
  lemma {:induction false} AdvanceValue(s: seq<byte>, k: nat)
    ensures Value(Advance(s, k)) == (Value(s) + k) % Pow256(|s|)
  {
    ValueOfSpell(Value(s) + k, |s|);
  }

  lemma {:induction false} AdvanceZero(s: seq<byte>)
    ensures Advance(s, 0) == s
  {
    SpellOfValue(s);
  }

  lemma {:induction false} DivShift(v: nat, x: nat)
    ensures (v * 256 + x) / 256 == v + x / 256
    ensures (v * 256 + x) % 256 == x % 256
  {
  }

  lemma {:induction false} SpellThenAdd(x: nat, k: nat, len: nat)
    ensures Spell(Value(Spell(x, len)) + k, len) == Spell(x + k, len)
  {
    if len != 0 {
      var v, b := Value(Spell(x / 256, len - 1)), x % 256;
      var c := (b + k) / 256;
      assert Value(Spell(x, len)) + k == v * 256 + (b + k) by { ValueSnoc(Spell(x / 256, len - 1), b); }
      assert x + k == x / 256 * 256 + (b + k);
      DivShift(v, b + k);
      DivShift(x / 256, b + k);
      SpellThenAdd(x / 256, c, len - 1);
    }
  }

  /** Two advances in a row add up, whatever wraps around. */
  lemma {:induction false} AdvanceTwice(s: seq<byte>, a: nat, b: nat)
    ensures Advance(Advance(s, a), b) == Advance(s, a + b)
  {
    SpellThenAdd(Value(s) + a, b, |s|);
  }

  /** k single increments. */
  function Repeated(s: seq<byte>, k: nat): (r: seq<byte>)
  {
    if k == 0 then s else Advance(Repeated(s, k - 1), 1)
  }

  /** Adding k at once is the same as k single increments. */
  lemma {:induction false} RepeatedIsAdvance(s: seq<byte>, k: nat)
    ensures Repeated(s, k) == Advance(s, k)
  {
    if k == 0 {
      AdvanceZero(s);
    } else {
      RepeatedIsAdvance(s, k - 1);
      AdvanceTwice(s, k - 1, 1);
    }
  }

  /** 2^192 successive nonces are pairwise different. */
  lemma {:induction false} NoncesDistinct(s: seq<byte>, i: nat, j: nat)
    requires |s| == NONCE_BYTES && i < j < i + NONCE_COUNT
    ensures Advance(s, i) != Advance(s, j)
  {
    NonceCount();
    if Advance(s, i) == Advance(s, j) {
      SpellInjective(Value(s) + i, Value(s) + j, NONCE_BYTES);
    }
  }

  /** After 2^192 increments the first nonce returns, so the bound above is exact. */
  lemma {:induction false} NoncesRepeatAfterAll(s: seq<byte>)
    requires |s| == NONCE_BYTES
    ensures Advance(s, NONCE_COUNT) == s
  {
    NonceCount();
    AdvanceValue(s, NONCE_COUNT);
    ModUnique(Value(s) + NONCE_COUNT, NONCE_COUNT, 1, Value(s));
    SpellOfValue(Advance(s, NONCE_COUNT));
    SpellOfValue(s);
  }

  /** What one place of an addition leaves in its byte, and what it carries on. */
  function Low(c: nat): (b: byte) { c % 256 }

  function Carry(c: nat): (d: nat)
    ensures c == 256 * d + Low(c)
  {
    c / 256
  }

  /** Schoolbook addition: sum is s plus t, and carries[i] is what comes out of place i. */
  ghost predicate Adds(s: seq<byte>, t: seq<byte>, carries: seq<nat>, sum: seq<byte>)
  {
    && |s| == |t| == |sum| && |carries| == |s| + 1
    && forall i :: 0 <= i < |s| ==> 256 * carries[i] + sum[i] == carries[i + 1] + s[i] + t[i]
  }

  lemma {:induction false} AdditionExists(s: seq<byte>, t: seq<byte>, carry: nat)
    returns (carries: seq<nat>, sum: seq<byte>)
    requires |s| == |t|
    ensures Adds(s, t, carries, sum) && carries[|s|] == carry
  {
    if s == [] {
      carries, sum := [carry], [];
    } else {
      var n := |s| - 1;
      var c := carry + s[n] + t[n];
      carries, sum := AdditionExists(s[..n], t[..n], Carry(c));
      carries, sum := carries + [carry], sum + [Low(c)];
    }
  }

  lemma {:induction false} AdditionIsAdvance(s: seq<byte>, t: seq<byte>, carries: seq<nat>, sum: seq<byte>)
    requires Adds(s, t, carries, sum)
    ensures sum == Advance(s, Value(t) + carries[|s|])
  {
    if s != [] {
      var n := |s| - 1;
      var c := carries[|s|] + s[n] + t[n];
      AdditionIsAdvance(s[..n], t[..n], carries[..|s|], sum[..n]);
      LastPlace(s, t, carries, sum, n);
    }
  }

  /** The last place of an addition, with what it carries into the others. */
  lemma {:induction false} LastPlace(s: seq<byte>, t: seq<byte>, carries: seq<nat>, sum: seq<byte>, n: nat)
    requires |s| == |t| == |sum| == n + 1 && |carries| == n + 2
    requires 256 * carries[n] + sum[n] == carries[n + 1] + s[n] + t[n]
    requires sum[..n] == Advance(s[..n], Value(t[..n]) + carries[n])
    ensures sum == Advance(s, Value(t) + carries[n + 1])
  {
    var x := Value(s[..n]) + Value(t[..n]) + carries[n];
    DivShift(x, sum[n]);
    assert Value(s) + Value(t) + carries[n + 1] == 256 * x + sum[n];
    assert sum == sum[..n] + [sum[n]];
  }

  /** increment_nonce. */
  method IncrementNonce(nonce: array<byte>)
    requires nonce.Length == NONCE_BYTES
    modifies nonce
    ensures nonce[..] == Advance(old(nonce[..]), 1)
  {
    ghost var s, zeros := nonce[..], seq<byte>(NONCE_BYTES, _ => 0);
    ghost var carries, sum := AdditionExists(s, zeros, 1);
    var i := NONCE_BYTES;
    var carry: nat := 1;
    while i != 0
      invariant 0 <= i <= NONCE_BYTES && carry <= 1 && carry == carries[i]
      invariant forall j :: 0 <= j < i ==> nonce[j] == s[j]
      invariant forall j :: i <= j < NONCE_BYTES ==> nonce[j] == sum[j]
      decreases i
    {
      carry := carry + nonce[i - 1];
      nonce[i - 1] := Low(carry);
      carry := Carry(carry);
      i := i - 1;
    }
    assert nonce[..] == sum;
    ZeroValue(zeros);
    AdditionIsAdvance(s, zeros, carries, sum);
  }

  /** The last four of the 24 bytes hold the number. */
  lemma {:induction false} NumberAsNonce(s: seq<byte>, k: nat)
    requires |s| == NONCE_BYTES
    requires forall i :: 0 <= i < 20 ==> s[i] == 0
    requires k == 0x100_0000 * s[20] as int + 0x1_0000 * s[21] as int + 0x100 * s[22] as int + s[23]
    ensures Value(s) == k
  {
    var a := s[..20];
    ZeroValue(a);
    ValueSnoc(a, s[20]);
    ValueSnoc(a + [s[20]], s[21]);
    ValueSnoc(a + [s[20]] + [s[21]], s[22]);
    ValueSnoc(a + [s[20]] + [s[21]] + [s[22]], s[23]);
    assert s == a + [s[20]] + [s[21]] + [s[22]] + [s[23]];
  }

  /** htonl lays a number out as its four base-256 digits. */
  lemma {:induction false} FourDigits(k: nat)
    ensures k == 0x100_0000 * (k / 0x100_0000) + 0x1_0000 * (k / 0x1_0000 % 256) + 0x100 * (k / 0x100 % 256) + k % 256
  {
    var a := k / 256;
    var b := a / 256;
    assert k / 0x1_0000 == b && k / 0x100_0000 == b / 256;
    assert k == 256 * a + k % 256 && a == 256 * b + a % 256 && b == 256 * (b / 256) + b % 256;
  }

  /** The number as a 24-byte big-endian string. */
  method NumberToNonce(hostOrderNum: nat) returns (numAsNonce: array<byte>)
    requires hostOrderNum < 0x1_0000_0000
    ensures fresh(numAsNonce) && numAsNonce.Length == NONCE_BYTES
    ensures Value(numAsNonce[..]) == hostOrderNum
  {
    numAsNonce := new byte[NONCE_BYTES](_ => 0);
    numAsNonce[NONCE_BYTES - 4] := hostOrderNum / 0x100_0000;
    numAsNonce[NONCE_BYTES - 3] := hostOrderNum / 0x1_0000 % 256;
    numAsNonce[NONCE_BYTES - 2] := hostOrderNum / 0x100 % 256;
    numAsNonce[NONCE_BYTES - 1] := hostOrderNum % 256;
    FourDigits(hostOrderNum);
    NumberAsNonce(numAsNonce[..], hostOrderNum);
  }

  /** increment_nonce_number: the carry fits in nine bits throughout. */
  method IncrementNonceNumber(nonce: array<byte>, hostOrderNum: nat)
    requires nonce.Length == NONCE_BYTES && hostOrderNum < 0x1_0000_0000
    modifies nonce
    ensures nonce[..] == Advance(old(nonce[..]), hostOrderNum)
  {
    var numAsNonce := NumberToNonce(hostOrderNum);
    ghost var s, n := nonce[..], numAsNonce[..];
    ghost var carries, sum := AdditionExists(s, n, 0);
    var i := NONCE_BYTES;
    var carry: nat := 0;
    while i != 0
      invariant 0 <= i <= NONCE_BYTES && carry <= 1 && carry == carries[i]
      invariant numAsNonce[..] == n
      invariant forall j :: 0 <= j < i ==> nonce[j] == s[j]
      invariant forall j :: i <= j < NONCE_BYTES ==> nonce[j] == sum[j]
      decreases i
    {
      carry := carry + nonce[i - 1] + numAsNonce[i - 1];
      assert carry < 512;
      nonce[i - 1] := Low(carry);
      carry := Carry(carry);
      i := i - 1;
    }
    assert nonce[..] == sum;
    AdditionIsAdvance(s, n, carries, sum);
  }
}
