/** The candidate table of assoc.c: buckets of hashed entries, searched and filled along five tries. */
module AssocTable {
  import opened Bytes
  import opened Bitwise
  import opened Wrappers
  import opened Primes
  import opened AssocHash
  import opened AssocProbe

  const BAD_NODE_TIMEOUT: nat := 122
  const CANDIDATES_SEEN_TIMEOUT: nat := 1800
  const CANDIDATES_HEARD_TIMEOUT: nat := 600

  datatype Entry = Entry(hash: nat, id: Key, usedAt: nat, seenAt: nat, heardAt: nat)

  const UNSET := Entry(0, [], 0, 0, 0)

  // ---------- What a bucket holds ----------

  ghost predicate OnPath(size: nat, hash: nat, p: nat)
    requires size > 1
  {
    exists c: nat :: c < HASH_COLLIDE_COUNT && p == Probe(size, hash, c)
  }

  /** The bucket of a key: its first bits. */
  function Bucket(id: Key, bits: nat): (b: nat)
    requires |id| == KEY_BYTES && bits <= 16
  {
    QuotientNatural(Value(id[..2]), Pow2(16 - bits));
    Value(id[..2]) / Pow2(16 - bits)
  }

  lemma {:induction false} QuotientNatural(v: nat, m: nat)
    requires m > 0
    ensures v / m >= 0
  {
  }

  ghost predicate EntryOk(size: nat, bits: nat, b: nat, e: Entry, p: nat)
    requires size > 1 && bits <= 16
  {
    |e.id| == KEY_BYTES && e.hash == Hash(e.id, size) && Bucket(e.id, bits) == b && OnPath(size, e.hash, p)
  }

  /** Every entry that is set lies on its own path in its own bucket, and no key is there twice. */
  ghost predicate BucketOk(size: nat, bits: nat, b: nat, es: seq<Entry>) {
    && |es| == size > 1 && bits <= 16
    && (forall p :: 0 <= p < size && es[p].hash != 0 ==> EntryOk(size, bits, b, es[p], p))
    && forall p, q :: 0 <= p < q < size && es[p].hash != 0 && es[q].hash != 0 ==> es[p].id != es[q].id
  }

  ghost predicate Stored(es: seq<Entry>, id: Key) {
    exists p :: 0 <= p < |es| && es[p].hash != 0 && es[p].id == id
  }

  predicate Match(e: Entry, hash: nat, id: Key) {
    e.hash == hash && e.id == id
  }

  ghost predicate Found(size: nat, es: seq<Entry>, hash: nat, id: Key, c: nat)
    requires |es| == size > 1
  {
    Match(es[Probe(size, hash, c)], hash, id)
  }

  ghost predicate Reached(size: nat, es: seq<Entry>, hash: nat, id: Key)
    requires |es| == size > 1
  {
    exists c: nat :: c < HASH_COLLIDE_COUNT && Found(size, es, hash, id, c)
  }

  /** A key with a proper hash is found along its path exactly when it is stored. */
  lemma {:induction false} SearchIsExact(size: nat, bits: nat, b: nat, es: seq<Entry>, id: Key)
    requires BucketOk(size, bits, b, es) && |id| == KEY_BYTES && Hash(id, size) != 0
    ensures Stored(es, id) <==> Reached(size, es, Hash(id, size), id)
  {
    var hash := Hash(id, size);
    if p :| 0 <= p < |es| && es[p].hash != 0 && es[p].id == id {
      assert EntryOk(size, bits, b, es[p], p);
      var c: nat :| c < HASH_COLLIDE_COUNT && p == Probe(size, es[p].hash, c);
      assert Found(size, es, hash, id, c);
    }
    if c: nat :| c < HASH_COLLIDE_COUNT && Found(size, es, hash, id, c) {
      var p := Probe(size, hash, c);
      assert es[p].hash != 0 && es[p].id == id;
    }
  }

  /** A new key on its path keeps the bucket in order, whatever was there before. */
  lemma {:induction false} CreateKeeps(size: nat, bits: nat, b: nat, es: seq<Entry>, p: nat, e: Entry)
    requires BucketOk(size, bits, b, es) && p < size && EntryOk(size, bits, b, e, p) && !Stored(es, e.id)
    ensures BucketOk(size, bits, b, es[p := e])
    ensures Reached(size, es[p := e], e.hash, e.id)
    ensures e.hash != 0 ==> Stored(es[p := e], e.id)
  {
    var es' := es[p := e];
    assert es'[p] == e;
    var c: nat :| c < HASH_COLLIDE_COUNT && p == Probe(size, e.hash, c);
    assert Found(size, es', e.hash, e.id, c);
    forall x | 0 <= x < size && es'[x].hash != 0 ensures EntryOk(size, bits, b, es'[x], x) {
      if x != p {
        assert es'[x] == es[x];
      }
    }
    forall x, y | 0 <= x < y < size && es'[x].hash != 0 && es'[y].hash != 0 ensures es'[x].id != es'[y].id {
      if x == p {
        assert es[y].id != e.id;
      } else if y == p {
        assert es[x].id != e.id;
      }
    }
  }

  lemma {:induction false} EraseKeeps(size: nat, bits: nat, b: nat, es: seq<Entry>, p: nat)
    requires BucketOk(size, bits, b, es) && p < size
    ensures BucketOk(size, bits, b, es[p := UNSET])
    ensures forall id :: !Stored(es, id) ==> !Stored(es[p := UNSET], id)
  {
    var es' := es[p := UNSET];
    assert forall x :: 0 <= x < size && x != p ==> es'[x] == es[x];
  }

  // ---------- Search ----------

  /** candidates_search. */
  method Search(list: array<Entry>, id: Key, hash: nat) returns (r: Option<nat>)
    requires list.Length > 1
    ensures r.Some? ==> r.value < list.Length && OnPath(list.Length, hash, r.value) && Match(list[r.value], hash, id)
    ensures r.Some? <==> Reached(list.Length, list[..], hash, id)
  {
    var size := list.Length;
    var coll: nat, pos := 0, hash % size;
    while coll < HASH_COLLIDE_COUNT
      invariant coll <= HASH_COLLIDE_COUNT && pos == Probe(size, hash, coll)
      invariant forall c: nat :: c < coll ==> !Found(size, list[..], hash, id, c)
    {
      if list[pos].hash == hash && list[pos].id == id {
        assert Found(size, list[..], hash, id, coll);
        return Some(pos);
      }
      pos := Collide(size, pos);
      coll := coll + 1;
    }
    return None;
  }

  // ---------- The place for a new entry ----------

  /** 0 bad, 1 heard lately, 2 seen lately, 3 used lately. */
  function Check(e: Entry, now: nat): (r: nat)
    ensures r <= 3
  {
    if !(e.usedAt + BAD_NODE_TIMEOUT <= now) then 3
    else if !(e.seenAt + CANDIDATES_SEEN_TIMEOUT <= now) then 2
    else if !(e.heardAt + CANDIDATES_HEARD_TIMEOUT <= now) then 1
    else 0
  }

  /** What an entry is worth; nothing when unset. */
  function Rank(e: Entry, now: nat): nat {
    if e.hash == 0 then 0 else 1 + Check(e, now)
  }

  function RankAt(size: nat, es: seq<Entry>, hash: nat, now: nat, c: nat): nat
    requires |es| == size > 1
  {
    Rank(es[Probe(size, hash, c)], now)
  }

  /** Try c is the first of those worth least. */
  ghost predicate Least(size: nat, es: seq<Entry>, hash: nat, now: nat, c: nat)
    requires |es| == size > 1
  {
    && c < HASH_COLLIDE_COUNT
    && (forall d: nat :: d < HASH_COLLIDE_COUNT ==> RankAt(size, es, hash, now, c) <= RankAt(size, es, hash, now, d))
    && forall d: nat :: d < c ==> RankAt(size, es, hash, now, c) < RankAt(size, es, hash, now, d)
  }

  /** r is the place of the least entry on the path, if it is worth no more than limit. */
  ghost predicate Place(size: nat, es: seq<Entry>, hash: nat, now: nat, limit: nat, r: Option<nat>)
    requires |es| == size > 1
  {
    if r.Some? then
      exists c: nat :: Least(size, es, hash, now, c) && r.value == Probe(size, hash, c)
                       && RankAt(size, es, hash, now, c) <= limit
    else forall c: nat :: c < HASH_COLLIDE_COUNT ==> RankAt(size, es, hash, now, c) > limit
  }

  /** firsts[k] is one more than the place of the first try so far whose entry has rank k + 1, or zero. */
  ghost predicate Firsts(size: nat, es: seq<Entry>, hash: nat, now: nat, coll: nat, firsts: seq<nat>, k: nat)
    requires |es| == size > 1 && k < |firsts|
  {
    if firsts[k] == 0 then forall c: nat :: c < coll ==> RankAt(size, es, hash, now, c) != k + 1
    else exists c: nat :: FirstOfRank(size, es, hash, now, coll, k + 1, c) && firsts[k] == Probe(size, hash, c) + 1
  }

  ghost predicate FirstOfRank(size: nat, es: seq<Entry>, hash: nat, now: nat, coll: nat, rank: nat, c: nat)
    requires |es| == size > 1
  {
    c < coll && RankAt(size, es, hash, now, c) == rank && forall d: nat :: d < c ==> RankAt(size, es, hash, now, d) != rank
  }

  lemma {:induction false} FirstsNext(size: nat, es: seq<Entry>, hash: nat, now: nat, coll: nat, firsts: seq<nat>, k: nat)
    requires |es| == size > 1 && |firsts| == 4 && k < 4 && Firsts(size, es, hash, now, coll, firsts, k)
    requires RankAt(size, es, hash, now, coll) > 0
    ensures var j := RankAt(size, es, hash, now, coll) - 1;
      j < 4 &&
      Firsts(size, es, hash, now, coll + 1,
             if firsts[j] == 0 then firsts[j := Probe(size, hash, coll) + 1] else firsts, k)
  {
    var j := RankAt(size, es, hash, now, coll) - 1;
    if firsts[k] == 0 {
      if j == k {
        assert FirstOfRank(size, es, hash, now, coll + 1, k + 1, coll);
      }
    } else {
      var c: nat :| FirstOfRank(size, es, hash, now, coll, k + 1, c) && firsts[k] == Probe(size, hash, c) + 1;
      assert FirstOfRank(size, es, hash, now, coll + 1, k + 1, c);
    }
  }

  /** The first try of the least rank that occurs. */
  lemma {:induction false} FirstIsLeast(size: nat, es: seq<Entry>, hash: nat, now: nat, firsts: seq<nat>, i: nat)
    requires |es| == size > 1 && |firsts| == 4 && i < 4
    requires forall c: nat :: c < HASH_COLLIDE_COUNT ==> RankAt(size, es, hash, now, c) > 0
    requires forall k: nat :: k < 4 ==> Firsts(size, es, hash, now, HASH_COLLIDE_COUNT, firsts, k)
    requires forall k: nat :: k < i ==> firsts[k] == 0
    ensures firsts[i] != 0 ==> Place(size, es, hash, now, i + 1, Some(firsts[i] - 1))
    ensures firsts[i] == 0 ==> Place(size, es, hash, now, i + 1, None)
  {
    forall c: nat | c < HASH_COLLIDE_COUNT ensures RankAt(size, es, hash, now, c) > i {
      var k := RankAt(size, es, hash, now, c) - 1;
      assert k < i ==> Firsts(size, es, hash, now, HASH_COLLIDE_COUNT, firsts, k);
    }
    assert Firsts(size, es, hash, now, HASH_COLLIDE_COUNT, firsts, i);
    if firsts[i] != 0 {
      var c: nat :| FirstOfRank(size, es, hash, now, HASH_COLLIDE_COUNT, i + 1, c) && firsts[i] == Probe(size, hash, c) + 1;
      assert Least(size, es, hash, now, c);
    }
  }

  lemma {:induction false} FirstUnset(size: nat, es: seq<Entry>, hash: nat, now: nat, coll: nat, limit: nat)
    requires |es| == size > 1 && coll < HASH_COLLIDE_COUNT && RankAt(size, es, hash, now, coll) == 0
    requires forall c: nat :: c < coll ==> RankAt(size, es, hash, now, c) > 0
    ensures Place(size, es, hash, now, limit, Some(Probe(size, hash, coll)))
  {
    assert Least(size, es, hash, now, coll);
  }

  /** candidates_create_internal: a used entry may take the place of any that is not used lately, a seen one of
      those that are not seen lately either, a heard one only of a bad one. */
  method CreateInternal(list: array<Entry>, hash: nat, seen: bool, used: bool, now: nat) returns (r: Option<nat>)
    requires list.Length > 1
    ensures Place(list.Length, list[..], hash, now, Limit(seen, used), r)
    ensures Stalest(list.Length, list[..], hash, now, seen, used, r)
  {
    var size := list.Length;
    var firsts := Probing(list, hash, now);
    if firsts.0 {
      FirstUnset(size, list[..], hash, now, firsts.1, Limit(seen, used));
      PlaceIsStalest(size, list[..], hash, now, seen, used, Some(firsts.2));
      return Some(firsts.2);
    }
    var max := if used then 3 else if seen then 2 else 1;
    var i: nat := 0;
    while i < max
      invariant i <= max && forall k: nat :: k < i ==> firsts.3[k] == 0
      invariant i > 0 ==> Place(size, list[..], hash, now, i, None)
    {
      FirstIsLeast(size, list[..], hash, now, firsts.3, i);
      if firsts.3[i] != 0 {
        PlaceWithin(size, list[..], hash, now, i + 1, max, Some(firsts.3[i] - 1));
        PlaceIsStalest(size, list[..], hash, now, seen, used, Some(firsts.3[i] - 1));
        return Some(firsts.3[i] - 1);
      }
      i := i + 1;
    }
    PlaceIsStalest(size, list[..], hash, now, seen, used, None);
    return None;
  }

  lemma {:induction false} PlaceWithin(size: nat, es: seq<Entry>, hash: nat, now: nat, limit: nat, more: nat, r: Option<nat>)
    requires |es| == size > 1 && limit <= more && r.Some? && Place(size, es, hash, now, limit, r)
    ensures Place(size, es, hash, now, more, r)
  {
  }

  /** Its loop over the tries: whether one is unset, the first such try and its place, and otherwise the places of
      the first entries of each kind. */
  method Probing(list: array<Entry>, hash: nat, now: nat) returns (r: (bool, nat, nat, seq<nat>))
    requires list.Length > 1
    ensures r.0 ==>
              && r.1 < HASH_COLLIDE_COUNT && r.2 == Probe(list.Length, hash, r.1)
              && RankAt(list.Length, list[..], hash, now, r.1) == 0
              && forall c: nat :: c < r.1 ==> RankAt(list.Length, list[..], hash, now, c) > 0
    ensures !r.0 ==>
              && |r.3| == 4
              && (forall c: nat :: c < HASH_COLLIDE_COUNT ==> RankAt(list.Length, list[..], hash, now, c) > 0)
              && forall k: nat :: k < 4 ==> Firsts(list.Length, list[..], hash, now, HASH_COLLIDE_COUNT, r.3, k)
  {
    var size := list.Length;
    ghost var es := list[..];
    var coll: nat, pos := 0, hash % size;
    var firsts: seq<nat> := [0, 0, 0, 0];
    while coll < HASH_COLLIDE_COUNT
      invariant coll <= HASH_COLLIDE_COUNT && pos == Probe(size, hash, coll) && |firsts| == 4
      invariant forall c: nat :: c < coll ==> RankAt(size, es, hash, now, c) > 0
      invariant forall k: nat :: k < 4 ==> Firsts(size, es, hash, now, coll, firsts, k)
    {
      if list[pos].hash == 0 {
        return (true, coll, pos, firsts);
      }
      var check := Check(list[pos], now);
      assert RankAt(size, es, hash, now, coll) == 1 + check;
      ghost var next := if firsts[check] == 0 then firsts[check := pos + 1] else firsts;
      ghost var seen := coll + 1;
      forall k: nat | k < 4 ensures Firsts(size, es, hash, now, seen, next, k) {
        FirstsNext(size, es, hash, now, coll, firsts, k);
      }
      if firsts[check] == 0 {
        firsts := firsts[check := pos + 1];
      }
      pos := Collide(size, pos);
      coll := coll + 1;
    }
    return (false, 0, 0, firsts);
  }

  function Limit(seen: bool, used: bool): nat {
    if used then 3 else if seen then 2 else 1
  }

  /** e may be given up for an entry that is seen and used, or not: it has not been used for 122 seconds; and, unless
      the new one is used, not seen for 1800; and, unless that is seen either, not heard of for 600. */
  predicate GivesWay(e: Entry, seen: bool, used: bool, now: nat) {
    && e.usedAt + 122 <= now
    && (!used ==> e.seenAt + 1800 <= now)
    && (!used && !seen ==> e.heardAt + 600 <= now)
  }

  lemma {:induction false} WorthInTimes(e: Entry, now: nat, seen: bool, used: bool)
    ensures Rank(e, now) <= Limit(seen, used) <==> e.hash == 0 || GivesWay(e, seen, used, now)
  {
  }

  /** Entry e at try c is set and gives way to a new one. */
  predicate GivesWayAt(size: nat, es: seq<Entry>, hash: nat, c: nat, seen: bool, used: bool, now: nat)
    requires |es| == size > 1
  {
    es[Probe(size, hash, c)].hash != 0 && GivesWay(es[Probe(size, hash, c)], seen, used, now)
  }

  predicate UnsetAt(size: nat, es: seq<Entry>, hash: nat, c: nat)
    requires |es| == size > 1
  {
    es[Probe(size, hash, c)].hash == 0
  }

  /** The place in terms of times: an unset one if there is any; otherwise one that gives way, and that gives way to
      anything to which another one of the tries would; and no place only if none of them gives way. */
  ghost predicate Stalest(size: nat, es: seq<Entry>, hash: nat, now: nat, seen: bool, used: bool, r: Option<nat>)
    requires |es| == size > 1
  {
    if r.None? then
      forall c: nat :: c < 5 ==> !UnsetAt(size, es, hash, c) && !GivesWayAt(size, es, hash, c, seen, used, now)
    else
      && r.value < size && OnPath(size, hash, r.value)
      && (es[r.value].hash != 0 ==>
            && GivesWay(es[r.value], seen, used, now)
            && (forall c: nat :: c < 5 ==> !UnsetAt(size, es, hash, c))
            && (forall c: nat :: c < 5 && GivesWayAt(size, es, hash, c, false, false, now) ==> GivesWay(es[r.value], false, false, now))
            && (forall c: nat :: c < 5 && GivesWayAt(size, es, hash, c, true, false, now) ==> GivesWay(es[r.value], true, false, now)))
  }

  lemma {:induction false} PlaceIsStalest(size: nat, es: seq<Entry>, hash: nat, now: nat, seen: bool, used: bool, r: Option<nat>)
    requires |es| == size > 1 && Place(size, es, hash, now, Limit(seen, used), r)
    ensures Stalest(size, es, hash, now, seen, used, r)
  {
    forall c: nat | c < 5 ensures RankAt(size, es, hash, now, c) == 0 <==> UnsetAt(size, es, hash, c) {
    }
    forall c: nat, s, u | c < 5
      ensures UnsetAt(size, es, hash, c) || (RankAt(size, es, hash, now, c) <= Limit(s, u) <==> GivesWayAt(size, es, hash, c, s, u, now))
    {
      WorthInTimes(es[Probe(size, hash, c)], now, s, u);
    }
  }

  function NewEntry(id: Key, hash: nat, seen: bool, used: bool, stamp: nat, now: nat): Entry {
    Entry(hash, id, if used then now else 0, if seen then stamp else 0, if seen then 0 else stamp)
  }

  /** A new entry does not give way to another one like it. */
  lemma {:induction false} NewEntryStays(id: Key, hash: nat, seen: bool, used: bool, now: nat)
    ensures var e := NewEntry(id, hash, seen, used, now, now);
      && e.id == id && e.hash == hash && !GivesWay(e, seen, used, now)
      && (used ==> e.usedAt == now) && (if seen then e.seenAt == now && e.heardAt == 0 else e.heardAt == now && e.seenAt == 0)
  {
  }

  /** What candidates_create_new leaves: at the place that is chosen, if there is one, the new entry, or nothing when
      the address is of no known family; everywhere else what was there. */
  ghost predicate Created(size: nat, es: seq<Entry>, es': seq<Entry>, place: Option<nat>, e: Entry, limit: nat,
                          familyKnown: bool, now: nat, ok: bool)
    requires |es| == size > 1
  {
    && Place(size, es, e.hash, now, limit, place)
    && if place.None? then es' == es && !ok
       else place.value < size && es' == es[place.value := if familyKnown then e else UNSET] && ok == familyKnown
  }

  /** candidates_create_new. */
  method CreateNew(list: array<Entry>, ghost bits: nat, ghost b: nat, id: Key, hash: nat, seen: bool, used: bool,
                   familyKnown: bool, stamp: nat, now: nat) returns (ok: bool, ghost place: Option<nat>)
    requires BucketOk(list.Length, bits, b, list[..]) && |id| == KEY_BYTES && Bucket(id, bits) == b
    requires hash == Hash(id, list.Length) && !Stored(list[..], id)
    modifies list
    ensures BucketOk(list.Length, bits, b, list[..])
    ensures Created(list.Length, old(list[..]), list[..], place, NewEntry(id, hash, seen, used, stamp, now),
                    Limit(seen, used), familyKnown, now, ok)
    ensures Stalest(list.Length, old(list[..]), hash, now, seen, used, place)
    ensures ok ==> Reached(list.Length, list[..], hash, id)
    ensures ok && hash != 0 ==> Stored(list[..], id)
    ensures !ok ==> !Stored(list[..], id)
  {
    ghost var es := list[..];
    var r := CreateInternal(list, hash, seen, used, now);
    place := r;
    if r.None? {
      return false, place;
    }
    var p := r.value;
    assert OnPath(list.Length, hash, p);
    list[p] := UNSET;
    assert list[..] == es[p := UNSET];
    if !familyKnown {
      EraseKeeps(list.Length, bits, b, es, p);
      return false, place;
    }
    var e := Entry(hash, id, if used then now else 0, if seen then stamp else 0, if seen then 0 else stamp);
    list[p] := e;
    assert list[..] == es[p := e];
    CreateKeeps(list.Length, bits, b, es, p, e);
    return true, place;
  }

  // ---------- The table ----------

  /** id_bucket: the first bits of a key. */
  method IdBucket(id: Key, bits: nat) returns (b: nat)
    requires |id| == KEY_BYTES && 2 <= bits <= 15
    ensures b == Bucket(id, bits) && b < Pow2(bits)
  {
    var retval: nat, pos: nat, left: nat := 0, 0, bits;
    while left > 8
      invariant Shifted(id, bits, retval, pos, left)
      decreases left
    {
      retval := retval * 256 + id[pos];
      pos := pos + 1;
      left := left - 8;
    }
    BucketIs(id, bits, retval, pos, left);
    b := retval * Pow2(left) + id[pos] / Pow2(8 - left);
  }

  ghost predicate Shifted(id: Key, bits: nat, retval: nat, pos: nat, left: nat)
    requires |id| == KEY_BYTES
  {
    (pos == 0 && left == bits && retval == 0) || (pos == 1 && bits > 8 && left == bits - 8 && retval == id[0])
  }

  lemma {:induction false} BucketIs(id: Key, bits: nat, retval: nat, pos: nat, left: nat)
    requires |id| == KEY_BYTES && 2 <= bits <= 15 && left <= 8 && Shifted(id, bits, retval, pos, left)
    ensures Bucket(id, bits) == retval * Pow2(left) + id[pos] / Pow2(8 - left) < Pow2(bits)
  {
    if pos == 0 {
      FirstBits(id, bits);
    } else {
      MoreBits(id, bits);
    }
  }

  lemma {:induction false} TwoBytes(id: Key)
    requires |id| == KEY_BYTES
    ensures Value(id[..2]) == 256 * (id[0] as int) + id[1]
  {
    assert id[..2] == [id[0]] + [id[1]] && [] + [id[0]] == [id[0]];
    ValueSnoc([], id[0]);
    ValueSnoc([id[0]], id[1]);
  }

  lemma {:induction false} FirstBits(id: Key, bits: nat)
    requires |id| == KEY_BYTES && 2 <= bits <= 8
    ensures Bucket(id, bits) == id[0] / Pow2(8 - bits) < Pow2(bits)
  {
    TwoBytes(id);
    assert Pow2(8) == 256;
    PowersMultiply(8 - bits, 8);
    HighPart(id[0], id[1], Pow2(8 - bits), 256);
    PowersMultiply(8 - bits, bits);
    QuotientBelow(id[0], Pow2(8 - bits), Pow2(bits));
  }

  lemma {:induction false} MoreBits(id: Key, bits: nat)
    requires |id| == KEY_BYTES && 8 < bits <= 15
    ensures Bucket(id, bits) == id[0] * Pow2(bits - 8) + id[1] / Pow2(16 - bits) < Pow2(bits)
  {
    TwoBytes(id);
    assert Pow2(8) == 256;
    PowersMultiply(8, 8);
    PowersMultiply(16 - bits, bits - 8);
    LowPart(id[0], id[1], Pow2(16 - bits), Pow2(bits - 8));
    PowersMultiply(16 - bits, bits);
    QuotientBelow(Value(id[..2]), Pow2(16 - bits), Pow2(bits));
  }

  lemma {:induction false} HighPart(x: nat, y: nat, m: nat, k: nat)
    requires m > 0 && y < k
    ensures (k * x + y) / (m * k) == x / m
  {
    var q, r := x / m, x % m;
    assert k * x + y == q * (m * k) + (r * k + y) by {
      assert x == m * q + r;
      assert k * (m * q + r) == q * (m * k) + r * k;
    }
    assert r * k + y < m * k by {
      assert (r + 1) * k <= m * k;
    }
    ModUnique(k * x + y, m * k, q, r * k + y);
  }

  lemma {:induction false} LowPart(x: nat, y: nat, m: nat, k: nat)
    requires m > 0 && m * k == 256
    ensures (256 * x + y) / m == x * k + y / m
  {
    var q, r := y / m, y % m;
    assert y == m * q + r;
    assert 256 * x + y == (x * k + q) * m + r by {
      assert (m * k) * x == (x * k) * m;
    }
    ModUnique(256 * x + y, m, x * k + q, r);
  }

  lemma {:induction false} QuotientBelow(v: nat, m: nat, k: nat)
    requires m > 0 && v < m * k
    ensures v / m < k
  {
    var q := v / m;
    assert v == m * q + v % m;
    if q >= k {
      MulMonotone(k, q, m);
    }
  }

  lemma {:induction false} NotReachedNotStored(size: nat, bits: nat, b: nat, es: seq<Entry>, id: Key, hash: nat)
    requires BucketOk(size, bits, b, es) && |id| == KEY_BYTES && hash == Hash(id, size) && !Reached(size, es, hash, id)
    ensures !Stored(es, id)
  {
    if hash != 0 {
      SearchIsExact(size, bits, b, es, id);
    } else {
      ZeroNotStored(size, bits, b, es, id);
    }
  }

  lemma {:induction false} RefreshKeeps(size: nat, bits: nat, b: nat, es: seq<Entry>, p: nat, e: Entry)
    requires BucketOk(size, bits, b, es) && p < size && e.hash == es[p].hash && e.id == es[p].id
    ensures BucketOk(size, bits, b, es[p := e])
    ensures e.hash != 0 ==> Stored(es, e.id) && Stored(es[p := e], e.id)
  {
    var es' := es[p := e];
    assert es'[p] == e;
    assert forall x :: 0 <= x < size ==> es'[x].hash == es[x].hash && es'[x].id == es[x].id;
    forall x | 0 <= x < size && es'[x].hash != 0 ensures EntryOk(size, bits, b, es'[x], x) {
      assert EntryOk(size, bits, b, es[x], x);
    }
  }

  lemma {:induction false} EmptyOk(size: nat, bits: nat, b: nat, es: seq<Entry>)
    requires |es| == size > 1 && bits <= 16 && forall p :: 0 <= p < size ==> es[p].hash == 0
    ensures BucketOk(size, bits, b, es)
  {
  }

  /** candidates_update_assoc: the times of a known entry. heardStored says that its address is replaced. */
  function Refreshed(e: Entry, seen: bool, used: bool, familyKnown: bool, heardStored: bool, stamp: nat, now: nat): Entry {
    if !familyKnown then e
    else
      var f := if used then e.(usedAt := now) else e;
      if seen then f.(seenAt := now) else if heardStored then f.(heardAt := stamp) else f
  }

  /** id has an entry that gives way to one that is seen and used, or not. */
  ghost predicate Weak(es: seq<Entry>, id: Key, now: nat, seen: bool, used: bool) {
    exists p :: 0 <= p < |es| && es[p].hash != 0 && es[p].id == id && GivesWay(es[p], seen, used, now)
  }

  ghost predicate NoneWeaker(es: seq<Entry>, es': seq<Entry>) {
    forall x, now, seen, used :: Weak(es', x, now, seen, used) ==> Weak(es, x, now, seen, used)
  }

  ghost predicate Lost(es: seq<Entry>, es': seq<Entry>, id: Key) {
    Stored(es, id) && !Stored(es', id)
  }

  /** Of the keys other than id none is new, and at most one is lost, whose entry gave way. */
  ghost predicate OneLost(es: seq<Entry>, es': seq<Entry>, id: Key, now: nat, seen: bool, used: bool) {
    && (forall x :: x != id && Stored(es', x) ==> Stored(es, x))
    && (forall x :: x != id && Lost(es, es', x) ==> Weak(es, x, now, seen, used))
    && forall x, y :: x != id && y != id && Lost(es, es', x) && Lost(es, es', y) ==> x == y
  }

  lemma {:induction false} OnlyLoss(es: seq<Entry>, p: nat, e: Entry, id: Key, now: nat, seen: bool, used: bool)
    requires p < |es| && (e.hash == 0 || e.id == id) && (es[p].hash != 0 ==> GivesWay(es[p], seen, used, now))
    ensures OneLost(es, es[p := e], id, now, seen, used)
  {
    var es' := es[p := e];
    assert forall q :: 0 <= q < |es| && q != p ==> es'[q] == es[q];
    forall x | x != id && Stored(es', x) ensures Stored(es, x) {
      var q :| 0 <= q < |es'| && es'[q].hash != 0 && es'[q].id == x;
      assert es'[q] == es[q];
    }
    forall x | Lost(es, es', x) ensures es[p].hash != 0 && es[p].id == x {
      var q :| 0 <= q < |es| && es[q].hash != 0 && es[q].id == x;
      assert q == p;
    }
  }

  /** No other key is touched. */
  ghost predicate SameOthers(es: seq<Entry>, es': seq<Entry>, id: Key) {
    forall x :: x != id ==> (Stored(es', x) <==> Stored(es, x))
  }

  lemma {:induction false} RefreshOthers(es: seq<Entry>, p: nat, e: Entry, id: Key)
    requires p < |es| && e.hash == es[p].hash && e.id == es[p].id == id
    ensures SameOthers(es, es[p := e], id)
  {
    var es' := es[p := e];
    assert forall x :: 0 <= x < |es| && x != p ==> es'[x] == es[x];
    forall x | x != id ensures Stored(es', x) <==> Stored(es, x) {
      if q :| 0 <= q < |es| && es[q].hash != 0 && es[q].id == x {
        assert es'[q] == es[q];
      }
      if q :| 0 <= q < |es'| && es'[q].hash != 0 && es'[q].id == x {
        assert es'[q] == es[q];
      }
    }
  }

  /** A key whose hash is 0 is never stored. */
  lemma {:induction false} ZeroNotStored(size: nat, bits: nat, b: nat, es: seq<Entry>, id: Key)
    requires BucketOk(size, bits, b, es) && |id| == KEY_BYTES && Hash(id, size) == 0
    ensures !Stored(es, id)
  {
    forall p | 0 <= p < |es| && es[p].hash != 0 ensures es[p].id != id {
      assert EntryOk(size, bits, b, es[p], p);
    }
  }

  /** Nor does one that has been refreshed, and it gives way to nothing to which it did not before. */
  lemma {:induction false} RefreshedStays(e: Entry, seen: bool, used: bool, heardStored: bool, now: nat)
    requires e.usedAt <= now && e.seenAt <= now && e.heardAt <= now
    ensures var f := Refreshed(e, seen, used, true, heardStored, now, now);
      && f.id == e.id && f.hash == e.hash
      && (seen || used || heardStored ==> !GivesWay(f, seen, used, now))
      && forall s, u :: GivesWay(f, s, u, now) ==> GivesWay(e, s, u, now)
  {
  }

  /** The entry at place is refreshed if it was found, and otherwise e is put there. */
  ghost predicate Entered(es: seq<Entry>, es': seq<Entry>, place: Option<nat>, id: Key, e: Entry, seen: bool, used: bool,
                          familyKnown: bool, heardStored: bool, stamp: nat, now: nat, r: nat)
    requires |es| > 1
  {
    && (r == 2 <==> Reached(|es|, es, e.hash, id))
    && if r == 2 then
         && place.Some? && place.value < |es| && Match(es[place.value], e.hash, id)
         && es' == es[place.value := Refreshed(es[place.value], seen, used, familyKnown, heardStored, stamp, now)]
       else Created(|es|, es, es', place, e, Limit(seen, used), familyKnown, now, r == 1)
            && Stalest(|es|, es, e.hash, now, seen, used, place)
  }

  /** What that means for the keys: id was there exactly if r is 2, and is there unless r is 0. */
  ghost predicate Placed(es: seq<Entry>, es': seq<Entry>, id: Key, hash: nat, familyKnown: bool, now: nat, seen: bool, used: bool, r: nat) {
    && (if hash != 0 then (r == 2 <==> Stored(es, id)) && (r != 0 <==> Stored(es', id)) else !Stored(es, id) && !Stored(es', id))
    && OneLost(es, es', id, now, seen, used)
    && (r == 2 || (r == 0 && familyKnown) ==> SameOthers(es, es', id))
  }

  /** The search and the update in Assoc_add_entry: 0 when there is no place, 1 when the key is new, 2 when it was
      known. place is where the entry was put or found. */
  method AddToBucket(list: array<Entry>, ghost bits: nat, ghost b: nat, id: Key, hash: nat, seen: bool, used: bool,
                     familyKnown: bool, heardStored: bool, stamp: nat, now: nat) returns (r: nat, ghost place: Option<nat>)
    requires BucketOk(list.Length, bits, b, list[..]) && |id| == KEY_BYTES && Bucket(id, bits) == b
    requires hash == Hash(id, list.Length)
    modifies list
    ensures BucketOk(list.Length, bits, b, list[..]) && r <= 2
    ensures Entered(old(list[..]), list[..], place, id, NewEntry(id, hash, seen, used, stamp, now), seen, used, familyKnown,
                    heardStored, stamp, now, r)
    ensures Placed(old(list[..]), list[..], id, hash, familyKnown, now, seen, used, r)
  {
    ghost var size, es := list.Length, list[..];
    var found := Search(list, id, hash);
    if found.None? {
      NotReachedNotStored(size, bits, b, es, id, hash);
      var ok;
      ok, place := CreateNew(list, bits, b, id, hash, seen, used, familyKnown, stamp, now);
      r := if ok then 1 else 0;
      if place.Some? {
        PlaceIsStalest(size, es, hash, now, seen, used, place);
        OnlyLoss(es, place.value, if familyKnown then NewEntry(id, hash, seen, used, stamp, now) else UNSET, id, now,
                 seen, used);
      }
    } else {
      var p := found.value;
      place := found;
      var e := Refreshed(list[p], seen, used, familyKnown, heardStored, stamp, now);
      RefreshKeeps(size, bits, b, es, p, e);
      list[p] := e;
      assert list[..] == es[p := e];
      RefreshOthers(es, p, e, id);
      r := 2;
    }
    if hash == 0 {
      ZeroNotStored(size, bits, b, es, id);
      ZeroNotStored(size, bits, b, list[..], id);
    }
  }

  // ---------- The own key ----------

  /** The bucket without an entry for id, and otherwise with the same keys. */
  ghost predicate Purged(es: seq<Entry>, es': seq<Entry>, id: Key) {
    && |es| == |es'|
    && forall p :: 0 <= p < |es| ==> es'[p] == es[p] || (es[p].id == id && es'[p] == es[p].(hash := 0))
  }

  lemma {:induction false} PurgeKeeps(size: nat, bits: nat, b: nat, es: seq<Entry>, es': seq<Entry>, id: Key)
    requires BucketOk(size, bits, b, es) && Purged(es, es', id)
    ensures BucketOk(size, bits, b, es')
    ensures SameOthers(es, es', id) && NoneWeaker(es, es')
  {
    forall x, now, seen, used | Weak(es', x, now, seen, used) ensures Weak(es, x, now, seen, used) {
      var p :| 0 <= p < |es'| && es'[p].hash != 0 && es'[p].id == x && GivesWay(es'[p], seen, used, now);
      assert es'[p] == es[p];
    }
    forall p | 0 <= p < size && es'[p].hash != 0 ensures EntryOk(size, bits, b, es'[p], p) {
      assert es'[p] == es[p];
    }
    forall x | x != id ensures Stored(es', x) <==> Stored(es, x) {
      if p :| 0 <= p < |es| && es[p].hash != 0 && es[p].id == x {
        assert es'[p] == es[p];
      }
      if p :| 0 <= p < |es'| && es'[p].hash != 0 && es'[p].id == x {
        assert es'[p] == es[p];
      }
    }
  }

  /** The loop of client_id_self_update. */
  method Purge(list: array<Entry>, ghost bits: nat, ghost b: nat, id: Key, hash: nat)
    requires BucketOk(list.Length, bits, b, list[..]) && |id| == KEY_BYTES && hash == Hash(id, list.Length) != 0
    modifies list
    ensures BucketOk(list.Length, bits, b, list[..]) && Purged(old(list[..]), list[..], id) && !Stored(list[..], id)
    ensures SameOthers(old(list[..]), list[..], id) && NoneWeaker(old(list[..]), list[..])
  {
    ghost var es := list[..];
    var size := list.Length;
    var coll: nat, pos := 0, hash % size;
    while coll < HASH_COLLIDE_COUNT
      modifies list
      invariant coll <= HASH_COLLIDE_COUNT && pos == Probe(size, hash, coll) && Purged(es, list[..], id)
      invariant forall c: nat :: c < coll ==> !Found(size, list[..], hash, id, c)
    {
      if list[pos].hash == hash && list[pos].id == id {
        list[pos] := list[pos].(hash := 0);
      }
      pos := Collide(size, pos);
      coll := coll + 1;
    }
    PurgeKeeps(size, bits, b, es, list[..], id);
    NotReachedNotStored(size, bits, b, list[..], id, hash);
  }

  /** The empty buckets of a new table. */
  method NewLists(count: nat, size: nat) returns (all: seq<array<Entry>>)
    ensures |all| == count && forall b :: 0 <= b < count ==> fresh(all[b]) && all[b].Length == size
    ensures forall a, b :: 0 <= a < b < count ==> all[a] != all[b]
    ensures forall b, p :: 0 <= b < count && 0 <= p < size ==> all[b][p].hash == 0
  {
    var bucket := 0;
    all := [];
    while bucket < count
      invariant 0 <= bucket <= count && |all| == bucket
      invariant forall b :: 0 <= b < bucket ==> fresh(all[b]) && all[b].Length == size
      invariant forall b, p :: 0 <= b < bucket && 0 <= p < size ==> all[b][p].hash == 0
      invariant forall a, b :: 0 <= a < b < bucket ==> all[a] != all[b]
    {
      var list := new Entry[size](_ => UNSET);
      all := all + [list];
      bucket := bucket + 1;
    }
  }

  // ---------- All buckets ----------

  ghost predicate TableOk(size: nat, bits: nat, rows: seq<seq<Entry>>) {
    forall b :: 0 <= b < |rows| ==> BucketOk(size, bits, b, rows[b])
  }

  /** Whether a table holds a key. */
  ghost predicate Holds(rows: seq<seq<Entry>>, id: Key) {
    exists b :: 0 <= b < |rows| && Stored(rows[b], id)
  }

  /** Whether it has an entry for the key that gives way. */
  ghost predicate HoldsWeak(rows: seq<seq<Entry>>, id: Key, now: nat, seen: bool, used: bool) {
    exists b :: 0 <= b < |rows| && Weak(rows[b], id, now, seen, used)
  }

  ghost predicate Gone(rows: seq<seq<Entry>>, rows': seq<seq<Entry>>, id: Key) {
    Holds(rows, id) && !Holds(rows', id)
  }

  /** The keys other than id are the same. */
  ghost predicate SameKeys(rows: seq<seq<Entry>>, rows': seq<seq<Entry>>, id: Key) {
    forall x :: x != id ==> (Holds(rows', x) <==> Holds(rows, x))
  }

  /** Of the keys other than id and own none is new, and at most one is gone, whose entry gave way. */
  ghost predicate OneGone(rows: seq<seq<Entry>>, rows': seq<seq<Entry>>, id: Key, own: Key, now: nat, seen: bool, used: bool) {
    && (forall x :: x != id && x != own && Holds(rows', x) ==> Holds(rows, x))
    && (forall x :: x != id && x != own && Gone(rows, rows', x) ==> HoldsWeak(rows, x, now, seen, used))
    && forall x, y :: x != id && x != own && y != id && y != own && Gone(rows, rows', x) && Gone(rows, rows', y) ==> x == y
  }

  /** A key can only be in its own bucket. */
  lemma {:induction false} OnlyInItsBucket(size: nat, bits: nat, rows: seq<seq<Entry>>, id: Key)
    requires TableOk(size, bits, rows) && |id| == KEY_BYTES && bits <= 16 && Bucket(id, bits) < |rows|
    ensures Holds(rows, id) <==> Stored(rows[Bucket(id, bits)], id)
  {
    if b :| 0 <= b < |rows| && Stored(rows[b], id) {
      var p :| 0 <= p < |rows[b]| && rows[b][p].hash != 0 && rows[b][p].id == id;
      assert EntryOk(size, bits, b, rows[b][p], p);
    }
  }

  lemma {:induction false} HoldsChanged(rows: seq<seq<Entry>>, bucket: nat, es: seq<Entry>, x: Key)
    requires bucket < |rows|
    ensures Holds(rows, x) && !Stored(rows[bucket], x) ==> Holds(rows[bucket := es], x)
    ensures Holds(rows[bucket := es], x) && !Stored(es, x) ==> Holds(rows, x)
    ensures Stored(rows[bucket], x) ==> Holds(rows, x)
    ensures Stored(es, x) ==> Holds(rows[bucket := es], x)
  {
    var rows' := rows[bucket := es];
    assert rows'[bucket] == es && forall b :: 0 <= b < |rows| && b != bucket ==> rows'[b] == rows[b];
    if b :| 0 <= b < |rows| && Stored(rows[b], x) {
      assert b == bucket || Stored(rows'[b], x);
    }
    if b :| 0 <= b < |rows'| && Stored(rows'[b], x) {
      assert b == bucket || Stored(rows[b], x);
    }
  }

  /** What a change of one bucket means for the keys in the table. */
  lemma {:induction false} OneGoneAfter(rows: seq<seq<Entry>>, bucket: nat, es: seq<Entry>, id: Key, own: Key, now: nat, seen: bool, used: bool)
    requires bucket < |rows| && OneLost(rows[bucket], es, id, now, seen, used)
    ensures OneGone(rows, rows[bucket := es], id, own, now, seen, used)
  {
    var rows' := rows[bucket := es];
    forall x | x != id && Holds(rows', x) ensures Holds(rows, x) {
      HoldsChanged(rows, bucket, es, x);
    }
    forall x | Gone(rows, rows', x) ensures Lost(rows[bucket], es, x) {
      HoldsChanged(rows, bucket, es, x);
    }
  }

  lemma {:induction false} SameAfter(rows: seq<seq<Entry>>, bucket: nat, es: seq<Entry>, id: Key)
    requires bucket < |rows| && SameOthers(rows[bucket], es, id)
    ensures SameKeys(rows, rows[bucket := es], id)
  {
    forall x | x != id ensures Holds(rows[bucket := es], x) <==> Holds(rows, x) {
      HoldsChanged(rows, bucket, es, x);
    }
  }

  lemma {:induction false} TableChanged(size: nat, bits: nat, rows: seq<seq<Entry>>, bucket: nat, es: seq<Entry>)
    requires TableOk(size, bits, rows) && bucket < |rows| && BucketOk(size, bits, bucket, es)
    ensures TableOk(size, bits, rows[bucket := es])
  {
  }

  /** own is removed, and nothing else. */
  ghost predicate Cleared(rows: seq<seq<Entry>>, rows': seq<seq<Entry>>, own: Key) {
    && SameKeys(rows, rows', own)
    && forall x, now, seen, used :: HoldsWeak(rows', x, now, seen, used) ==> HoldsWeak(rows, x, now, seen, used)
  }

  lemma {:induction false} ClearedAfter(size: nat, bits: nat, rows: seq<seq<Entry>>, bucket: nat, es: seq<Entry>, own: Key)
    requires TableOk(size, bits, rows) && |own| == KEY_BYTES && bits <= 16 && Bucket(own, bits) == bucket < |rows|
    requires BucketOk(size, bits, bucket, es) && !Stored(es, own)
    requires SameOthers(rows[bucket], es, own) && NoneWeaker(rows[bucket], es)
    ensures TableOk(size, bits, rows[bucket := es]) && !Holds(rows[bucket := es], own)
    ensures Cleared(rows, rows[bucket := es], own)
  {
    var rows' := rows[bucket := es];
    TableChanged(size, bits, rows, bucket, es);
    OnlyInItsBucket(size, bits, rows', own);
    SameAfter(rows, bucket, es, own);
    forall x, now, seen, used | HoldsWeak(rows', x, now, seen, used) ensures HoldsWeak(rows, x, now, seen, used) {
      var b :| 0 <= b < |rows'| && Weak(rows'[b], x, now, seen, used);
      assert Weak(rows[b], x, now, seen, used);
    }
  }

  /** One bucket is changed as Entered says. */
  ghost predicate RowEntered(rows: seq<seq<Entry>>, rows': seq<seq<Entry>>, bucket: nat, place: Option<nat>, id: Key, e: Entry,
                             seen: bool, used: bool, familyKnown: bool, heardStored: bool, stamp: nat, now: nat, r: nat) {
    (bucket < |rows| == |rows'| && rows' == rows[bucket := rows'[bucket]] && |rows[bucket]| > 1
     && Entered(rows[bucket], rows'[bucket], place, id, e, seen, used, familyKnown, heardStored, stamp, now, r)) == true
  }

  /** What comes of adding a key: 2 when it was there, and it is there afterwards unless there was no place, or its
      hash is 0 and so the entry counts as unset; the others as in OneGone, and all of them are still there when
      nothing was put in. */
  ghost predicate Added(rows: seq<seq<Entry>>, rows': seq<seq<Entry>>, id: Key, own: Key, proper: bool, familyKnown: bool,
                        now: nat, seen: bool, used: bool, r: nat) {
    ((if proper then (r == 2 <==> Holds(rows, id)) && (r != 0 <==> Holds(rows', id))
      else !Holds(rows, id) && !Holds(rows', id))
     && OneGone(rows, rows', id, own, now, seen, used)
     && (r == 2 || (r == 0 && familyKnown) ==> forall x :: x != own ==> !Gone(rows, rows', x))) == true
  }

  lemma {:induction false} AddedAfter(size: nat, bits: nat, rows: seq<seq<Entry>>, bucket: nat, es: seq<Entry>, id: Key, own: Key,
                                      familyKnown: bool, now: nat, seen: bool, used: bool, r: nat)
    requires TableOk(size, bits, rows) && |id| == KEY_BYTES && bits <= 16 && Bucket(id, bits) == bucket < |rows| && id != own
    requires BucketOk(size, bits, bucket, es) && Placed(rows[bucket], es, id, Hash(id, size), familyKnown, now, seen, used, r)
    ensures TableOk(size, bits, rows[bucket := es])
    ensures Added(rows, rows[bucket := es], id, own, Hash(id, size) != 0, familyKnown, now, seen, used, r)
    ensures !Holds(rows, own) ==> !Holds(rows[bucket := es], own)
  {
    var rows' := rows[bucket := es];
    TableChanged(size, bits, rows, bucket, es);
    OnlyInItsBucket(size, bits, rows, id);
    OnlyInItsBucket(size, bits, rows', id);
    OneGoneAfter(rows, bucket, es, id, own, now, seen, used);
    HoldsChanged(rows, bucket, es, own);
    if r == 2 || (r == 0 && familyKnown) {
      SameAfter(rows, bucket, es, id);
    }
  }

  lemma {:induction false} AddedAfterClearing(rows: seq<seq<Entry>>, cleared: seq<seq<Entry>>, rows': seq<seq<Entry>>, id: Key,
                                              own: Key, proper: bool, familyKnown: bool, now: nat, seen: bool, used: bool, r: nat)
    requires Cleared(rows, cleared, own) && Added(cleared, rows', id, own, proper, familyKnown, now, seen, used, r) && id != own
    ensures Added(rows, rows', id, own, proper, familyKnown, now, seen, used, r)
  {
    assert forall x :: x != own ==> (Gone(rows, rows', x) <==> Gone(cleared, rows', x));
  }

  class Assoc {
    const bits: nat
    const size: nat
    const lists: seq<array<Entry>>
    const selfId: Key
    var selfHash: nat

    ghost predicate Shape() {
      && 2 <= bits <= 15 && SizeOk(size) && |lists| == Pow2(bits) && |selfId| == KEY_BYTES
      && (forall b :: 0 <= b < |lists| ==> lists[b].Length == size)
      && forall a, b :: 0 <= a < b < |lists| ==> lists[a] != lists[b]
    }

    /** The contents of the buckets. */
    ghost function Rows(): (rows: seq<seq<Entry>>)
      reads this, lists
      ensures |rows| == |lists| && forall b :: 0 <= b < |lists| ==> rows[b] == lists[b][..]
    {
      seq(|lists|, b requires 0 <= b < |lists| reads this, lists => lists[b][..])
    }

    /** Once its hash is known, the own key is not in the table. "== true", here and above, keeps the verifier from
        taking a predicate apart wherever it is to be shown. */
    ghost predicate Valid()
      reads this, lists
    {
      Shape() && (TableOk(size, bits, Rows()) && (selfHash != 0 ==> selfHash == Hash(selfId, size) && !Holds(Rows(), selfId))) == true
    }

    /** new_Assoc. */
    constructor (wantedBits: nat, wantedEntries: nat, publicId: Key)
      requires |publicId| == KEY_BYTES
      ensures Valid() && selfId == publicId && forall b :: 0 <= b < |lists| ==> fresh(lists[b])
      ensures selfHash == if AllZero(publicId) then 0 else Hash(publicId, size)
      ensures forall id :: !Holds(Rows(), id)
    {
      var k := if wantedBits < 2 then 2 else if wantedBits > 15 then 15 else wantedBits;
      var n := BucketSize(wantedEntries);
      var all := NewLists(Pow2(k), n);
      var hash := IdHash(publicId, n);
      bits, size, lists, selfId := k, n, all, publicId;
      selfHash := if AllZero(publicId) then 0 else hash;
      new;
      ghost var rows := Rows();
      forall b | 0 <= b < |rows| ensures BucketOk(size, bits, b, rows[b]) {
        EmptyOk(size, bits, b, rows[b]);
      }
    }

    /** client_id_self_update: when the own key has come to be set, its entries are removed. */
    method SelfUpdate()
      requires Valid()
      modifies this`selfHash, lists
      ensures Valid() && selfHash == if old(selfHash) != 0 then old(selfHash) else if AllZero(selfId) then 0 else Hash(selfId, size)
      ensures Cleared(old(Rows()), Rows(), selfId)
    {
      if selfHash != 0 || AllZero(selfId) {
        return;
      }
      var hash := IdHash(selfId, size);
      selfHash := hash;
      if hash != 0 {
        var bucket := IdBucket(selfId, bits);
        ghost var rows := Rows();
        Purge(lists[bucket], bits, bucket, selfId, hash);
        ghost var es := lists[bucket][..];
        assert Rows() == rows[bucket := es];
        ClearedAfter(size, bits, rows, bucket, es, selfId);
      }
    }

    /** Assoc_add_entry: 0 when the own key or the address is not set, for the own key, and when there is no place;
        1 when the key is new; 2 when it was known. At most one key gives way, one whose entry the new one may
        replace; a key whose hash is 0 is never found in the table afterwards. */
    method AddEntry(id: Key, addressSet: bool, seen: bool, used: bool, familyKnown: bool, heardStored: bool, stamp: nat, now: nat)
      returns (r: nat, ghost cleared: seq<seq<Entry>>, ghost place: Option<nat>)
      requires Valid() && |id| == KEY_BYTES
      modifies this`selfHash, lists
      ensures Valid() && r <= 2
      ensures Cleared(old(Rows()), cleared, selfId)
      ensures selfHash == 0 || !addressSet || id == selfId ==> r == 0 && Rows() == cleared
      ensures selfHash != 0 && addressSet && id != selfId ==>
        && Added(old(Rows()), Rows(), id, selfId, Hash(id, size) != 0, familyKnown, now, seen, used, r)
        && RowEntered(cleared, Rows(), Bucket(id, bits), place, id, NewEntry(id, Hash(id, size), seen, used, stamp, now),
                      seen, used, familyKnown, heardStored, stamp, now, r)
    {
      ghost var rows := Rows();
      SelfUpdate();
      cleared, place := Rows(), None;
      if selfHash == 0 || !addressSet {
        r := 0;
        return;
      }
      var hash := IdHash(id, size);
      if hash == selfHash && id == selfId {
        r := 0;
        return;
      }
      r, place := AddTo(id, hash, seen, used, familyKnown, heardStored, stamp, now);
      ghost var rows' := Rows();
      AddedAfterClearing(rows, cleared, rows', id, selfId, hash != 0, familyKnown, now, seen, used, r);
    }

    /** Its second half, for another key. */
    method AddTo(id: Key, hash: nat, seen: bool, used: bool, familyKnown: bool, heardStored: bool, stamp: nat, now: nat)
      returns (r: nat, ghost place: Option<nat>)
      requires Valid() && |id| == KEY_BYTES && hash == Hash(id, size) && id != selfId
      modifies lists
      ensures Valid() && r <= 2
      ensures Added(old(Rows()), Rows(), id, selfId, hash != 0, familyKnown, now, seen, used, r)
      ensures RowEntered(old(Rows()), Rows(), Bucket(id, bits), place, id, NewEntry(id, hash, seen, used, stamp, now),
                         seen, used, familyKnown, heardStored, stamp, now, r)
    {
      var bucket := IdBucket(id, bits);
      var list := lists[bucket];
      ghost var rows := Rows();
      r, place := AddToBucket(list, bits, bucket, id, hash, seen, used, familyKnown, heardStored, stamp, now);
      ghost var es := list[..];
      assert Rows() == rows[bucket := es];
      AddedAfter(size, bits, rows, bucket, es, id, selfId, familyKnown, now, seen, used, r);
    }
  }

  predicate AllZero(id: Key) {
    forall i :: 0 <= i < |id| ==> id[i] == 0
  }
}
