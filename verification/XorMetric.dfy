/** The XOR distance between keys, and its comparison in id_closest of DHT.c. */
module XorMetric {
  import opened Bytes
  import opened Bitwise

  function XorBytes(a: byte, b: byte): (r: byte) {
    assert Pow2(8) == 256;
    XorBound(a, b, 8);
    Xor(a, b)
  }

  function XorAll(a: Key, b: Key): (r: seq<byte>)
    requires |a| == |b|
    ensures |r| == |a| && forall i :: 0 <= i < |a| ==> r[i] == XorBytes(a[i], b[i])
  {
    seq(|a|, i requires 0 <= i < |a| => XorBytes(a[i], b[i]))
  }

  /** The distance of a from pk: their exclusive or, read as a number. */
  function Distance(pk: Key, a: Key): (d: nat)
    requires |pk| == |a|
  {
    Value(XorAll(pk, a))
  }

  /** A key has distance 0 from itself. */
  lemma {:induction false} OwnDistance(pk: Key)
    ensures Distance(pk, pk) == 0
  {
    forall i | 0 <= i < |pk| ensures XorAll(pk, pk)[i] == 0 {
      XorSame(pk[i]);
    }
    ZeroValue(XorAll(pk, pk));
  }

  lemma {:induction false} DistanceInjective(pk: Key, a: Key, b: Key)
    requires |pk| == |a| == |b| && Distance(pk, a) == Distance(pk, b)
    ensures a == b
  {
    var x, y := XorAll(pk, a), XorAll(pk, b);
    SpellOfValue(x);
    SpellOfValue(y);
    forall i | 0 <= i < |a| ensures a[i] == b[i] {
      assert x[i] == y[i];
      XorInjective(pk[i], a[i], b[i]);
    }
  }

  /** The first byte in which two strings differ decides which number is smaller. */
  lemma {:induction false} FirstDifference(s: seq<byte>, t: seq<byte>, i: nat)
    requires |s| == |t| && i < |s| && s[..i] == t[..i] && s[i] < t[i]
    ensures Value(s) < Value(t)
  {
    var n := |s| - 1;
    if i < n {
      assert s[..n][..i] == s[..i] && t[..n][..i] == t[..i];
      FirstDifference(s[..n], t[..n], i);
    }
    var x, y: int := s[n], t[n];
    assert Value(s) == 256 * Value(s[..n]) + x && Value(t) == 256 * Value(t[..n]) + y;
  }

  /** id_closest: 1 when pk1 is closer to pk than pk2, 2 when pk2 is closer, 0 when they are the same. */
  method IdClosest(pk: Key, pk1: Key, pk2: Key) returns (r: int)
    requires |pk| == |pk1| == |pk2|
    ensures r == Comparison(pk, pk1, pk2)
    ensures r == 0 <==> pk1 == pk2
  {
    ghost var x, y := XorAll(pk, pk1), XorAll(pk, pk2);
    var i := 0;
    while i < |pk|
      invariant 0 <= i <= |pk| && x[..i] == y[..i]
    {
      var distance1, distance2 := XorBytes(pk[i], pk1[i]), XorBytes(pk[i], pk2[i]);
      assert x[i] == distance1 && y[i] == distance2;
      if distance1 < distance2 {
        FirstDifference(x, y, i);
        return 1;
      }
      if distance1 > distance2 {
        FirstDifference(y, x, i);
        return 2;
      }
      assert x[..i + 1] == x[..i] + [x[i]] && y[..i + 1] == y[..i] + [y[i]];
      i := i + 1;
    }
    assert x[..i] == x && y[..i] == y;
    DistanceInjective(pk, pk1, pk2);
    return 0;
  }

  function Comparison(pk: Key, pk1: Key, pk2: Key): int
    requires |pk| == |pk1| == |pk2|
  {
    if Distance(pk, pk1) < Distance(pk, pk2) then 1 else if Distance(pk, pk1) > Distance(pk, pk2) then 2 else 0
  }

  /** It is 0 exactly for equal keys, and turns round with them. */
  lemma {:induction false} ComparisonOrders(pk: Key, pk1: Key, pk2: Key)
    requires |pk| == |pk1| == |pk2| == KEY_BYTES
    ensures Comparison(pk, pk1, pk2) == 0 <==> pk1 == pk2
    ensures Comparison(pk, pk1, pk2) == 1 <==> Comparison(pk, pk2, pk1) == 2
    ensures pk1 != pk ==> Comparison(pk, pk, pk1) == 1
  {
    if Distance(pk, pk1) == Distance(pk, pk2) {
      DistanceInjective(pk, pk1, pk2);
    }
    if pk1 != pk {
      OwnDistance(pk);
      if Distance(pk, pk1) == Distance(pk, pk) {
        DistanceInjective(pk, pk1, pk);
      }
    }
  }
}
