/** The cache of precomputed shared keys of DHT.c: 256 slots of four entries, chosen by byte 30 of the key. */
module SharedKeys {
  import opened Bytes

  const MAX_KEYS_PER_SLOT: nat := 4
  const KEYS_TIMEOUT: nat := 600
  const CACHE_SIZE: nat := 256 * MAX_KEYS_PER_SLOT

  datatype Entry = Entry(publicKey: Key, sharedKey: Key, timesRequested: nat, stored: bool, timeLastRequested: nat)

  /** encrypt_precompute, with the secret key of this node. */
  type Precompute = Key -> Key

  function Slot(pk: Key): (r: nat)
    requires |pk| == KEY_BYTES
    ensures r + MAX_KEYS_PER_SLOT <= CACHE_SIZE
  {
    pk[30] * MAX_KEYS_PER_SLOT
  }

  /** Entries lie in the slot of their key and hold what would be computed for it; no key has two. */
  ghost predicate Good(pre: Precompute, es: seq<Entry>) {
    && |es| == CACHE_SIZE
    && (forall x :: 0 <= x < |es| && es[x].stored ==> EntryGood(pre, es[x], x))
    && forall x, y :: 0 <= x < y < |es| && es[x].stored && es[y].stored ==> es[x].publicKey != es[y].publicKey
  }

  ghost predicate EntryGood(pre: Precompute, e: Entry, x: nat) {
    && |e.publicKey| == KEY_BYTES && e.sharedKey == pre(e.publicKey)
    && Slot(e.publicKey) <= x < Slot(e.publicKey) + MAX_KEYS_PER_SLOT
  }

  // ---------- The search of a slot ----------

  function Holds(e: Entry, pk: Key): bool {
    e.stored && e.publicKey == pk
  }

  /** How much an entry is worth keeping. */
  function Weight(e: Entry, now: nat): nat {
    if !e.stored || e.timeLastRequested + KEYS_TIMEOUT <= now then 0 else e.timesRequested
  }

  /** num is the least that an entry at lo..hi is worth, or 2^32 - 1 if none is worth less, and x is the place of
      the first one worth so little. */
  ghost predicate Victim(es: seq<Entry>, lo: nat, hi: nat, now: nat, num: nat, x: nat)
    requires hi <= |es|
  {
    && num <= TWO_32 - 1
    && (forall k :: lo <= k < hi ==> num <= Weight(es[k], now))
    && (num < TWO_32 - 1 ==>
          lo <= x < hi && Weight(es[x], now) == num && forall k :: lo <= k < x ==> num < Weight(es[k], now))
  }

  ghost predicate Absent(es: seq<Entry>, lo: nat, hi: nat, pk: Key)
    requires hi <= |es|
  {
    forall k :: lo <= k < hi ==> !Holds(es[k], pk)
  }

  function Touched(e: Entry, now: nat): Entry {
    e.(timesRequested := (e.timesRequested + 1) % TWO_32, timeLastRequested := now)
  }

  /** A request that finds its key at x. */
  ghost predicate Hit(es: seq<Entry>, es': seq<Entry>, pk: Key, now: nat, x: nat)
    requires |pk| == KEY_BYTES && |es| == CACHE_SIZE
  {
    && Slot(pk) <= x < Slot(pk) + MAX_KEYS_PER_SLOT && Holds(es[x], pk)
    && es' == es[x := Touched(es[x], now)]
  }

  /** A request that does not. */
  ghost predicate Miss(pre: Precompute, es: seq<Entry>, es': seq<Entry>, pk: Key, now: nat, num: nat, x: nat)
    requires |pk| == KEY_BYTES && |es| == CACHE_SIZE
  {
    var lo, hi := Slot(pk), Slot(pk) + MAX_KEYS_PER_SLOT;
    && Absent(es, lo, hi, pk) && Victim(es, lo, hi, now, num, x)
    && es' == if num < TWO_32 - 1 then es[x := Entry(pk, pre(pk), 1, true, now)] else es
  }

  /** What a request leaves in the cache. */
  ghost predicate Requested(pre: Precompute, es: seq<Entry>, es': seq<Entry>, pk: Key, now: nat)
    requires |pk| == KEY_BYTES && |es| == CACHE_SIZE
  {
    (exists x: nat :: Hit(es, es', pk, now, x)) || (exists num: nat, x: nat :: Miss(pre, es, es', pk, now, num, x))
  }

  /** A request keeps the cache good. */
  lemma {:induction false} RequestKeeps(pre: Precompute, es: seq<Entry>, es': seq<Entry>, pk: Key, now: nat)
    requires |pk| == KEY_BYTES && Good(pre, es) && Requested(pre, es, es', pk, now)
    ensures Good(pre, es')
  {
    if x: nat :| Hit(es, es', pk, now, x) {
      assert EntryGood(pre, es[x], x);
      assert forall y :: 0 <= y < |es| ==> es'[y].publicKey == es[y].publicKey && es'[y].stored == es[y].stored;
    } else {
      var num: nat, x: nat :| Miss(pre, es, es', pk, now, num, x);
      if num < TWO_32 - 1 {
        NotElsewhere(pre, es, pk);
        assert EntryGood(pre, es'[x], x);
      }
    }
  }

  /** A key that its slot does not hold is nowhere in the cache. */
  lemma {:induction false} NotElsewhere(pre: Precompute, es: seq<Entry>, pk: Key)
    requires |pk| == KEY_BYTES && Good(pre, es) && Absent(es, Slot(pk), Slot(pk) + MAX_KEYS_PER_SLOT, pk)
    ensures forall x :: 0 <= x < |es| && es[x].stored ==> es[x].publicKey != pk
  {
    forall x | 0 <= x < |es| && es[x].stored ensures es[x].publicKey != pk {
      assert EntryGood(pre, es[x], x);
      if es[x].publicKey == pk {
        assert Holds(es[x], pk);
      }
    }
  }

  /** After a request the slot holds the key, unless it is full of fresh entries that have all been requested
      2^32 - 1 times. */
  lemma {:induction false} RequestStores(pre: Precompute, es: seq<Entry>, es': seq<Entry>, pk: Key, now: nat)
    requires |pk| == KEY_BYTES && |es| == CACHE_SIZE == |es'| && Requested(pre, es, es', pk, now)
    ensures var lo, hi := Slot(pk), Slot(pk) + MAX_KEYS_PER_SLOT;
      Absent(es', lo, hi, pk) <==>
      Absent(es, lo, hi, pk) && forall k :: lo <= k < hi ==> Weight(es[k], now) >= TWO_32 - 1
  {
    if x: nat :| Hit(es, es', pk, now, x) {
      assert Holds(es'[x], pk);
    } else {
      var num: nat, x: nat :| Miss(pre, es, es', pk, now, num, x);
      if num < TWO_32 - 1 {
        assert Holds(es'[x], pk);
      }
    }
  }

  /** An entry is fresh for 600 seconds after it was requested. */
  predicate Fresh(e: Entry, now: nat) {
    e.stored && now < e.timeLastRequested + 600
  }

  /** Who gives way for a new key: nobody outside its slot; a fresh entry only when all four are fresh, and then one
      that was requested no more often than the others, or when its count has wrapped to 0; of several that are worth
      as little, the first. */
  lemma {:induction false} LeastGivesWay(pre: Precompute, es: seq<Entry>, es': seq<Entry>, pk: Key, now: nat, x: nat)
    requires |pk| == KEY_BYTES && |es| == CACHE_SIZE == |es'| && Requested(pre, es, es', pk, now) && x < CACHE_SIZE
    requires es[x].publicKey != pk && es'[x] != es[x]
    ensures es'[x] == Entry(pk, pre(pk), 1, true, now)
    ensures forall y :: 0 <= y < CACHE_SIZE && y != x ==> es'[y] == es[y]
    ensures var base: int := 4 * (pk[30] as int);
      && base <= x < base + 4
      && (Fresh(es[x], now) && es[x].timesRequested != 0 ==> forall y :: base <= y < base + 4 ==>
            Fresh(es[y], now) && es[x].timesRequested <= es[y].timesRequested)
      && forall y :: base <= y < x ==>
           Fresh(es[y], now) && es[y].timesRequested != 0 && (Fresh(es[x], now) ==> es[x].timesRequested < es[y].timesRequested)
  {
    if num: nat, v: nat :| Miss(pre, es, es', pk, now, num, v) {
      assert v == x;
      assert forall y :: Slot(pk) <= y < Slot(pk) + MAX_KEYS_PER_SLOT ==> num <= Weight(es[y], now);
    }
  }

  /** A key that is found is counted once more, and nothing else changes. */
  lemma {:induction false} FoundIsCounted(pre: Precompute, es: seq<Entry>, es': seq<Entry>, pk: Key, now: nat, x: nat)
    requires |pk| == KEY_BYTES && Good(pre, es) && |es'| == CACHE_SIZE && Requested(pre, es, es', pk, now)
    requires x < CACHE_SIZE && es[x].stored && es[x].publicKey == pk && es[x].timesRequested < TWO_32
    ensures es' == es[x := es'[x]] && es'[x].sharedKey == es[x].sharedKey && Fresh(es'[x], now)
    ensures es'[x].timesRequested == if es[x].timesRequested < 0xFFFF_FFFF then es[x].timesRequested + 1 else 0
  {
    assert EntryGood(pre, es[x], x);
    assert Holds(es[x], pk);
  }

  // ---------- The cache ----------

  class Cache {
    const keys: array<Entry>
    const pre: Precompute

    ghost predicate Valid()
      reads this, keys
    {
      Good(pre, keys[..])
    }

    constructor (pre: Precompute)
      ensures Valid() && fresh(keys) && this.pre == pre && forall x :: 0 <= x < keys.Length ==> !keys[x].stored
    {
      this.pre := pre;
      keys := new Entry[CACHE_SIZE](_ => Entry([], [], 0, false, 0));
    }

    /** get_shared_key: whatever has been stored, evicted or timed out, the result is the one that
        precomputation gives. */
    method GetSharedKey(pk: Key, now: nat) returns (shared: Key)
      requires Valid() && |pk| == KEY_BYTES
      modifies keys
      ensures Valid() && shared == pre(pk)
      ensures Requested(pre, old(keys[..]), keys[..], pk, now)
    {
      ghost var es := keys[..];
      var base := pk[30] * MAX_KEYS_PER_SLOT;
      var i: nat, num: nat, curr: nat := 0, TWO_32 - 1, 0;
      while i < MAX_KEYS_PER_SLOT
        invariant i <= MAX_KEYS_PER_SLOT && keys[..] == es && base == Slot(pk)
        invariant Absent(es, base, base + i, pk) && Victim(es, base, base + i, now, num, curr)
      {
        var index := base + i;
        var e := keys[index];
        assert e == es[index];
        if e.stored && e.publicKey == pk {
          assert Holds(es[index], pk) && EntryGood(pre, es[index], index);
          keys[index] := Touched(e, now);
          assert Hit(es, keys[..], pk, now, index);
          RequestKeeps(pre, es, keys[..], pk, now);
          return e.sharedKey;
        }
        if num != 0 {
          if !e.stored || e.timeLastRequested + KEYS_TIMEOUT <= now {
            num, curr := 0, index;
          } else if num > e.timesRequested {
            num, curr := e.timesRequested, index;
          }
        }
        i := i + 1;
      }
      shared := pre(pk);
      if num != TWO_32 - 1 {
        keys[curr] := Entry(pk, shared, 1, true, now);
      }
      assert Miss(pre, es, keys[..], pk, now, num, curr);
      RequestKeeps(pre, es, keys[..], pk, now);
    }
  }
}
