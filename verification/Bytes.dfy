/** Bytes, and byte strings read as big-endian numbers. */
module Bytes {

  type byte = b: int | 0 <= b < 256

  const TWO_16: nat := 0x1_0000
  const TWO_32: nat := 0x1_0000_0000

  type uint16 = n: int | 0 <= n < 0x1_0000
  type uint32 = n: int | 0 <= n < 0x1_0000_0000
  type uint64 = n: int | 0 <= n < 0x1_0000_0000_0000_0000

  /** Public keys, secret keys and other identifiers are plain byte strings. */
  type Key = seq<byte>

  const KEY_BYTES: nat := 32

  function Pow256(n: nat): (p: nat)
    ensures p >= 1
  {
    if n == 0 then 1 else 256 * Pow256(n - 1)
  }

  /** The number that s spells in big-endian order. */
  function Value(s: seq<byte>): (v: nat)
    ensures v < Pow256(|s|)
  {
    if s == [] then 0 else Value(s[..|s| - 1]) * 256 + s[|s| - 1]
  }

  /** Only zeros spell 0. */
  lemma {:induction false} ZeroValue(s: seq<byte>)
    ensures Value(s) == 0 <==> forall i :: 0 <= i < |s| ==> s[i] == 0
    decreases |s|
  {
    if s != [] {
      var front := s[..|s| - 1];
      ZeroValue(front);
      assert forall i :: 0 <= i < |front| ==> front[i] == s[i];
    }
  }

  /** The len-byte big-endian spelling of v: the low len bytes of v. */
  function Spell(v: nat, len: nat): (s: seq<byte>)
    ensures |s| == len
  {
    if len == 0 then [] else Spell(v / 256, len - 1) + [v % 256]
  }

  lemma {:induction false} ValueSnoc(s: seq<byte>, b: byte)
    ensures Value(s + [b]) == Value(s) * 256 + b
  {
    assert (s + [b])[..|s|] == s;
  }

  /** Spelling inverts reading. */
  lemma {:induction false} SpellOfValue(s: seq<byte>)
    ensures Spell(Value(s), |s|) == s
  {
    if s != [] {
      var front, b := s[..|s| - 1], s[|s| - 1];
      SpellOfValue(front);
      ModUnique(Value(s), 256, Value(front), b);
      assert s == front + [b];
    }
  }

  /** Reading a spelling keeps the number modulo 256^len. */
  lemma {:induction false} ValueOfSpell(v: nat, len: nat)
    ensures Value(Spell(v, len)) == v % Pow256(len)
  {
    if len != 0 {
      ValueOfSpell(v / 256, len - 1);
      ValueSnoc(Spell(v / 256, len - 1), v % 256);
      ModSplit(v, Pow256(len - 1));
    }
  }

  lemma {:induction false} ModSplit(v: nat, p: nat)
    requires p >= 1
    ensures v % (256 * p) == (v / 256) % p * 256 + v % 256
  {
    var h, l := v / 256, v % 256;
    var q, r := h / p, h % p;
    assert h == q * p + r;
    assert v == 256 * (q * p) + (r * 256 + l);
    MulAssoc(q, 256, p);
    ModUnique(v, 256 * p, q, r * 256 + l);
  }

  lemma {:induction false} MulAssoc(a: int, b: int, c: int)
    ensures a * (b * c) == b * (a * c)
  {
  }

  lemma {:induction false} MulAtLeast(k: int, m: nat)
    requires k >= 1
    ensures k * m >= m
  {
  }

  /** Division with remainder is unique. */
  lemma {:induction false} ModUnique(v: int, m: nat, q: int, r: nat)
    requires r < m && v == q * m + r
    ensures v % m == r && v / m == q
  {
    var d := q - v / m;
    assert v == m * (v / m) + v % m;
    Distribute(q, v / m, m);
    if d >= 1 {
      MulAtLeast(d, m);
    } else if d <= -1 {
      MulAtLeast(-d, m);
    }
  }

  lemma {:induction false} Distribute(a: int, b: int, m: int)
    ensures (a - b) * m == a * m - m * b
    ensures (-(a - b)) * m == m * b - a * m
  {
  }

  /** Numbers with the same spelling that lie closer than 256^len are equal. */
  lemma {:induction false} SpellInjective(x: nat, y: nat, len: nat)
    requires x < y + Pow256(len) && y < x + Pow256(len)
    requires Spell(x, len) == Spell(y, len)
    ensures x == y
  {
    if len != 0 {
      var a, b := Spell(x / 256, len - 1), Spell(y / 256, len - 1);
      assert (a + [x % 256])[..len - 1] == a && (b + [y % 256])[..len - 1] == b;
      assert (a + [x % 256])[len - 1] == x % 256 && (b + [y % 256])[len - 1] == y % 256;
      SpellInjective(x / 256, y / 256, len - 1);
    }
  }

  // ---------- Slices ----------

  lemma {:induction false} Halves(a: seq<byte>, b: seq<byte>)
    ensures (a + b)[..|a|] == a && (a + b)[|a|..] == b
  {
  }

  lemma {:induction false} SliceOfFront(s: seq<byte>, m: nat, i: nat, j: nat)
    requires i <= j <= m <= |s|
    ensures s[..m][i..j] == s[i..j]
  {
  }

  lemma {:induction false} SplitAt(s: seq<byte>, i: nat, j: nat)
    requires i <= j <= |s|
    ensures s[..j] == s[..i] + s[i..j]
  {
  }
}
