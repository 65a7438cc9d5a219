/** The sorted index of list.c: a map from fixed-size keys to ids, kept as two aligned arrays. */
module BsList {
  import opened Bytes

  // ---------- The order of keys ----------

  /** memcmp on byte strings of the same length: the first place where they differ decides. */
  function Memcmp(a: Key, b: Key): (r: int)
    requires |a| == |b|
  {
    if a == [] then 0 else
      var n := |a| - 1;
      var r := Memcmp(a[..n], b[..n]);
      if r != 0 then r else a[n] as int - b[n] as int
  }

  /** Keys are ordered as big-endian numbers. */
  lemma {:induction false} MemcmpIsOrder(a: Key, b: Key)
    requires |a| == |b|
    ensures Memcmp(a, b) < 0 <==> Value(a) < Value(b)
    ensures Memcmp(a, b) > 0 <==> Value(a) > Value(b)
    ensures Memcmp(a, b) == 0 <==> a == b
  {
    if a != [] {
      var n := |a| - 1;
      MemcmpIsOrder(a[..n], b[..n]);
      assert a == a[..n] + [a[n]] && b == b[..n] + [b[n]];
      var x, y: int := a[n], b[n];
      assert Value(a) == 256 * Value(a[..n]) + x && Value(b) == 256 * Value(b[..n]) + y;
    }
  }

  ghost predicate Sorted(keys: seq<Key>) {
    forall i, j :: 0 <= i < j < |keys| ==> Value(keys[i]) < Value(keys[j])
  }

  ghost predicate Sized(keys: seq<Key>, size: nat) {
    forall i :: 0 <= i < |keys| ==> |keys[i]| == size
  }

  /** Where key belongs in keys: everything before it is smaller and everything from there on is greater. */
  ghost predicate Place(keys: seq<Key>, key: Key, i: nat) {
    && i <= |keys|
    && (forall j :: 0 <= j < i ==> Value(keys[j]) < Value(key))
    && (forall j :: i <= j < |keys| ==> Value(keys[j]) > Value(key))
  }

  /** In a sorted list it is enough to look at the neighbours. */
  lemma {:induction false} PlaceFromNeighbours(keys: seq<Key>, key: Key, i: nat)
    requires Sorted(keys) && i <= |keys|
    requires i > 0 ==> Value(keys[i - 1]) < Value(key)
    requires i < |keys| ==> Value(keys[i]) > Value(key)
    ensures Place(keys, key, i)
  {
  }

  /** A key that has a place is not in the list, and has no other place. */
  lemma {:induction false} PlaceUnique(keys: seq<Key>, key: Key, i: nat, j: nat)
    requires Place(keys, key, i)
    ensures key !in keys
    ensures i != j ==> !Place(keys, key, j)
  {
    if j < i {
      assert Value(keys[j]) < Value(key);
    } else if i < j <= |keys| {
      assert Value(keys[i]) > Value(key);
    }
  }

  // ---------- The map ----------

  ghost function Index(keys: seq<Key>, ids: seq<int>): (m: map<Key, int>)
    requires |keys| == |ids|
  {
    if keys == [] then map[] else
      var n := |keys| - 1;
      Index(keys[..n], ids[..n])[keys[n] := ids[n]]
  }

  lemma {:induction false} IndexSnoc(keys: seq<Key>, ids: seq<int>, key: Key, id: int)
    requires |keys| == |ids|
    ensures Index(keys + [key], ids + [id]) == Index(keys, ids)[key := id]
  {
    assert (keys + [key])[..|keys|] == keys && (ids + [id])[..|keys|] == ids;
  }

  lemma {:induction false} IndexKeys(keys: seq<Key>, ids: seq<int>, key: Key)
    requires |keys| == |ids|
    ensures key in Index(keys, ids) <==> key in keys
  {
    if keys != [] {
      var n := |keys| - 1;
      IndexKeys(keys[..n], ids[..n], key);
      assert keys == keys[..n] + [keys[n]];
    }
  }

  function Insert<T>(s: seq<T>, i: nat, x: T): (r: seq<T>)
    requires i <= |s|
  {
    s[..i] + [x] + s[i..]
  }

  function Remove<T>(s: seq<T>, i: nat): (r: seq<T>)
    requires i < |s|
  {
    s[..i] + s[i + 1..]
  }

  lemma {:induction false} IndexAt(keys: seq<Key>, ids: seq<int>, i: nat)
    requires |keys| == |ids| && Sorted(keys) && i < |keys|
    ensures keys[i] in Index(keys, ids) && Index(keys, ids)[keys[i]] == ids[i]
  {
    var n := |keys| - 1;
    if i < n {
      IndexAt(keys[..n], ids[..n], i);
    }
  }

  lemma {:induction false} SortedInsert(keys: seq<Key>, key: Key, i: nat)
    requires Sorted(keys) && Place(keys, key, i)
    ensures Sorted(Insert(keys, i, key))
  {
  }

  lemma {:induction false} SortedRemove(keys: seq<Key>, i: nat)
    requires Sorted(keys) && i < |keys|
    ensures Sorted(Remove(keys, i))
  {
  }

  lemma {:induction false} InsertSnoc<T>(s: seq<T>, i: nat, x: T)
    requires i < |s|
    ensures Insert(s, i, x) == Insert(s[..|s| - 1], i, x) + [s[|s| - 1]]
  {
  }

  lemma {:induction false} RemoveSnoc<T>(s: seq<T>, i: nat)
    requires i < |s| - 1
    ensures Remove(s, i) == Remove(s[..|s| - 1], i) + [s[|s| - 1]]
  {
  }

  lemma {:induction false} IndexInsert(keys: seq<Key>, ids: seq<int>, key: Key, id: int, i: nat)
    requires |keys| == |ids| && i <= |keys| && key !in keys
    ensures Index(Insert(keys, i, key), Insert(ids, i, id)) == Index(keys, ids)[key := id]
    decreases |keys|
  {
    if i == |keys| {
      InsertAtEnd(keys, key);
      InsertAtEnd(ids, id);
      IndexSnoc(keys, ids, key, id);
    } else {
      var n := |keys| - 1;
      var front, frontIds := keys[..n], ids[..n];
      IndexInsert(front, frontIds, key, id, i);
      InsertSnoc(keys, i, key);
      InsertSnoc(ids, i, id);
      IndexSnocAfter(Insert(front, i, key), Insert(frontIds, i, id), Index(front, frontIds), key, id, keys[n], ids[n]);
    }
  }

  lemma {:induction false} InsertAtEnd<T>(s: seq<T>, x: T)
    ensures Insert(s, |s|, x) == s + [x]
  {
  }

  lemma {:induction false} IndexSnocAfter(keys: seq<Key>, ids: seq<int>, m: map<Key, int>, key: Key, id: int, last: Key, lastId: int)
    requires |keys| == |ids| && Index(keys, ids) == m[key := id] && last != key
    ensures Index(keys + [last], ids + [lastId]) == (m[last := lastId])[key := id]
  {
    IndexSnoc(keys, ids, last, lastId);
    UpdatesCommute(m, key, id, last, lastId);
  }

  lemma {:induction false} UpdatesCommute<K, V>(m: map<K, V>, k: K, v: V, k': K, v': V)
    requires k != k'
    ensures (m[k := v])[k' := v'] == (m[k' := v'])[k := v]
  {
  }

  lemma {:induction false} UpdateThenRemove<K, V>(m: map<K, V>, k: K, k': K, v': V)
    requires k != k'
    ensures (m - {k})[k' := v'] == (m[k' := v']) - {k}
  {
  }

  lemma {:induction false} IndexRemove(keys: seq<Key>, ids: seq<int>, i: nat)
    requires |keys| == |ids| && Sorted(keys) && i < |keys|
    ensures Index(Remove(keys, i), Remove(ids, i)) == Index(keys, ids) - {keys[i]}
  {
    var n := |keys| - 1;
    var m := Index(keys[..n], ids[..n]);
    if i == n {
      assert Remove(keys, i) == keys[..n] && Remove(ids, i) == ids[..n];
      IndexKeys(keys[..n], ids[..n], keys[n]);
      assert (m[keys[n] := ids[n]]) - {keys[n]} == m;
    } else {
      RemoveSnoc(keys, i);
      RemoveSnoc(ids, i);
      IndexSnoc(Remove(keys[..n], i), Remove(ids[..n], i), keys[n], ids[n]);
      IndexRemove(keys[..n], ids[..n], i);
      UpdateThenRemove(m, keys[i], keys[n], ids[n]);
    }
  }

  /** Inserting at its place adds a new key to the map. */
  lemma {:induction false} InsertKeeps(keys: seq<Key>, ids: seq<int>, key: Key, id: int, i: nat, size: nat)
    requires |keys| == |ids| && Sorted(keys) && Sized(keys, size) && |key| == size && Place(keys, key, i)
    ensures key !in Index(keys, ids)
    ensures Sorted(Insert(keys, i, key)) && Sized(Insert(keys, i, key), size)
    ensures Index(Insert(keys, i, key), Insert(ids, i, id)) == Index(keys, ids)[key := id]
  {
    PlaceUnique(keys, key, i, i);
    IndexKeys(keys, ids, key);
    IndexInsert(keys, ids, key, id, i);
    SortedInsert(keys, key, i);
  }

  /** Removing an entry removes its key from the map. */
  lemma {:induction false} RemoveKeeps(keys: seq<Key>, ids: seq<int>, i: nat, size: nat)
    requires |keys| == |ids| && Sorted(keys) && Sized(keys, size) && i < |keys|
    ensures keys[i] in Index(keys, ids) && Index(keys, ids)[keys[i]] == ids[i]
    ensures Sorted(Remove(keys, i)) && Sized(Remove(keys, i), size)
    ensures Index(Remove(keys, i), Remove(ids, i)) == Index(keys, ids) - {keys[i]}
  {
    IndexAt(keys, ids, i);
    IndexRemove(keys, ids, i);
    SortedRemove(keys, i);
  }

  /** memmove one place up from i on, and x put at i. */
  method OpenGap<T>(a: array<T>, n: nat, i: nat, x: T)
    requires i <= n < a.Length
    modifies a
    ensures a[..n + 1] == Insert(old(a[..n]), i, x)
  {
    forall j | i <= j < n {
      a[j + 1] := a[j];
    }
    a[i] := x;
  }

  /** memmove one place down onto i. */
  method CloseGap<T>(a: array<T>, n: nat, i: nat)
    requires i < n <= a.Length
    modifies a
    ensures a[..n - 1] == Remove(old(a[..n]), i)
  {
    forall j | i <= j < n - 1 {
      a[j] := a[j + 1];
    }
  }

  // ---------- The step-halving search ----------

  /** The state of the search: -1 while the steps are halved, then 1 or 0 for steps of one up or down. The sign of
      an entry tells on which side of it the key belongs. */
  ghost predicate Searching(n: nat, i: int, delta: int, d: int, signs: seq<int>) {
    && |signs| == n && 0 <= i < n && delta >= 1 && (d == -1 || d == 0 || d == 1)
    && (d == -1 ==> (i == 0 && n == 1 && delta == 1) || i >= 2 * delta - 1)
    && (d == -1 ==> i + 2 * delta <= n + 1 && (i + 2 * delta == n + 1 ==> delta == 1))
    && (d == 1 ==> delta == 1 && i >= 1 && signs[i - 1] > 0)
    && (d == 0 ==> delta == 1 && i + 1 < n && signs[i + 1] < 0)
  }

  ghost function Measure(n: nat, i: int, delta: int, d: int): int {
    if d == -1 then n + delta else if d == 1 then n - i else i
  }

  lemma {:induction false} GoRight(n: nat, i: int, delta: int, d: int, signs: seq<int>)
    requires Searching(n, i, delta, d, signs) && signs[i] > 0
    ensures i + delta <= n && Measure(n, i, delta, d) >= 0
    ensures d == 0 || i + delta == n ==> signs[i + delta - 1] > 0 && (i + delta < n ==> signs[i + delta] < 0)
    ensures d != 0 && i + delta < n ==>
      var delta', d' := if delta / 2 == 0 then 1 else delta / 2, if delta / 2 == 0 then 1 else d;
      Searching(n, i + delta, delta', d', signs) && Measure(n, i + delta, delta', d') < Measure(n, i, delta, d)
  {
  }

  lemma {:induction false} GoLeft(n: nat, i: int, delta: int, d: int, signs: seq<int>)
    requires Searching(n, i, delta, d, signs) && signs[i] < 0 && d != 1 && i > 0
    ensures var delta', d' := if delta / 2 == 0 then 1 else delta / 2, if delta / 2 == 0 then 0 else d;
      && Searching(n, i - delta, delta', d', signs)
      && 0 <= Measure(n, i - delta, delta', d') < Measure(n, i, delta, d)
  {
  }

  // ---------- The list ----------

  class List {
    const elementSize: nat
    var data: array<Key>
    var ids: array<int>
    var n: nat
    var capacity: nat

    ghost predicate Shape()
      reads this
    {
      capacity == data.Length == ids.Length && n <= capacity
    }

    ghost predicate Valid()
      reads this, data, ids
    {
      Shape() && Sorted(data[..n]) && Sized(data[..n], elementSize)
    }

    /** The map this list stands for. */
    ghost function Contents(): (m: map<Key, int>)
      requires Valid()
      reads this, data, ids
    {
      Index(data[..n], ids[..n])
    }

    /** bs_list_init. */
    constructor (elementSize: nat, initialCapacity: nat)
      ensures Valid() && Contents() == map[] && this.elementSize == elementSize && capacity == initialCapacity
      ensures fresh(data) && fresh(ids)
    {
      this.elementSize := elementSize;
      n := 0;
      data := new Key[initialCapacity](_ => []);
      ids := new int[initialCapacity];
      capacity := initialCapacity;
    }

    /** signs[j] is the sign of key compared with entry j. */
    ghost predicate Signs(key: Key, signs: seq<int>)
      requires Shape()
      reads this, data
    {
      && |signs| == n
      && forall j {:trigger Value(data[j])} :: 0 <= j < n ==>
           (signs[j] < 0 <==> Value(key) < Value(data[j])) && (signs[j] > 0 <==> Value(key) > Value(data[j]))
    }

    lemma {:induction false} SignsExist(key: Key) returns (signs: seq<int>)
      requires Shape()
      ensures Signs(key, signs)
    {
      signs := seq(n, j requires 0 <= j < n reads this, data requires n <= data.Length => Value(key) - Value(data[j]));
    }

    method Compare(key: Key, i: nat, ghost signs: seq<int>) returns (c: int)
      requires Valid() && |key| == elementSize && i < n && Signs(key, signs)
      ensures c == 0 <==> key == data[i]
      ensures c < 0 <==> signs[i] < 0
      ensures c > 0 <==> signs[i] > 0
    {
      c := Memcmp(key, data[i]);
      MemcmpIsOrder(key, data[i]);
    }

    lemma {:induction false} PlaceHere(key: Key, i: nat, signs: seq<int>)
      requires Valid() && i <= n && Signs(key, signs)
      requires i > 0 ==> signs[i - 1] > 0
      requires i < n ==> signs[i] < 0
      ensures Place(data[..n], key, i)
    {
      if i > 0 {
        assert Value(data[i - 1]) < Value(key);
      }
      if i < n {
        assert Value(data[i]) > Value(key);
      }
      PlaceFromNeighbours(data[..n], key, i);
    }

    /** The step-halving search: the index of key, or the complement of the place where it belongs. */
    method Find(key: Key) returns (r: int)
      requires Valid() && |key| == elementSize
      ensures Outcome(key, r)
    {
      if n == 0 {
        return -1;
      }
      r := 0;
      ghost var signs := SignsExist(key);
      var i := n / 2;
      var delta := i / 2;
      if delta == 0 {
        delta := 1;
      }
      var d, done := -1, false;
      while !done
        invariant if done then Outcome(key, r) == true else Searching(n, i, delta, d, signs) == true
        decreases !done, Measure(n, i, delta, d)
      {
        done, r, i, delta, d := Step(key, i, delta, d, signs);
      }
    }

    /** What a search is to find: the index of key, or the complement of its place. "== true", here and above, keeps
        the verifier from taking a predicate apart wherever it is to be shown. */
    ghost predicate Outcome(key: Key, r: int)
      requires Shape()
      reads this, data
    {
      (if r >= 0 then r < n && data[r] == key else Place(data[..n], key, -r - 1)) == true
    }

    /** One round of the search. */
    method Step(key: Key, i: int, delta: int, d: int, ghost signs: seq<int>)
      returns (done: bool, r: int, i': int, delta': int, d': int)
      requires Valid() && |key| == elementSize && Signs(key, signs) && Searching(n, i, delta, d, signs)
      ensures done ==> Outcome(key, r)
      ensures !done ==> Searching(n, i', delta', d', signs) && 0 <= Measure(n, i', delta', d') < Measure(n, i, delta, d)
    {
      done, r, i', delta', d' := true, i, i, delta, d;
      var c := Compare(key, i, signs);
      if c == 0 {
        return;
      }
      if c > 0 {
        GoRight(n, i, delta, d, signs);
        i' := i + delta;
        if d == 0 || i' == n {
          PlaceHere(key, i', signs);
          r := -i' - 1;
          return;
        }
        delta' := delta / 2;
        if delta' == 0 {
          delta', d' := 1, 1;
        }
      } else {
        if d == 1 || i == 0 {
          PlaceHere(key, i, signs);
          r := -i - 1;
          return;
        }
        GoLeft(n, i, delta, d, signs);
        i' := i - delta;
        delta' := delta / 2;
        if delta' == 0 {
          delta', d' := 1, 0;
        }
      }
      done := false;
    }

    /** bs_list_find: the id of key, or -1. */
    method FindId(key: Key) returns (id: int)
      requires Valid() && |key| == elementSize
      ensures id == if key in Contents() then Contents()[key] else -1
    {
      var r := Find(key);
      if r < 0 {
        InsertKeeps(data[..n], ids[..n], key, 0, -r - 1, elementSize);
        return -1;
      }
      RemoveKeeps(data[..n], ids[..n], r, elementSize);
      return ids[r];
    }

    /** resize: room for newSize entries, with memory available. */
    method Resize(newSize: nat)
      requires Shape() && n <= newSize
      modifies this`data, this`ids
      ensures fresh(data) && fresh(ids) && data.Length == ids.Length == newSize
      ensures data[..n] == old(data[..n]) && ids[..n] == old(ids[..n])
    {
      var data', ids' := new Key[newSize](_ => []), new int[newSize];
      forall j | 0 <= j < n {
        data'[j] := data[j];
      }
      forall j | 0 <= j < n {
        ids'[j] := ids[j];
      }
      data, ids := data', ids';
    }

    /** The two memmove calls of bs_list_add, with the new entry put in the gap. */
    method InsertAt(i: nat, key: Key, id: int)
      requires Shape() && i <= n < capacity
      modifies this`n, data, ids
      ensures Shape() && n == old(n) + 1
      ensures data[..n] == Insert(old(data[..n]), i, key) && ids[..n] == Insert(old(ids[..n]), i, id)
    {
      OpenGap(data, n, i, key);
      OpenGap(ids, n, i, id);
      n := n + 1;
    }

    /** The two memmove calls of bs_list_remove. */
    method RemoveAt(i: nat)
      requires Shape() && i < n
      modifies this`n, data, ids
      ensures Shape() && n == old(n) - 1
      ensures data[..n] == Remove(old(data[..n]), i) && ids[..n] == Remove(old(ids[..n]), i)
    {
      CloseGap(data, n, i);
      CloseGap(ids, n, i);
      n := n - 1;
    }

    /** bs_list_add: false exactly when key is already there. */
    method Add(key: Key, id: int) returns (ok: bool)
      requires Valid() && |key| == elementSize
      modifies this, data, ids
      ensures Valid() && (data == old(data) || fresh(data)) && (ids == old(ids) || fresh(ids))
      ensures ok <==> key !in old(Contents())
      ensures Contents() == if ok then old(Contents())[key := id] else old(Contents())
    {
      var i := Find(key);
      if i >= 0 {
        RemoveKeeps(data[..n], ids[..n], i, elementSize);
        return false;
      }
      i := -i - 1;
      InsertKeeps(data[..n], ids[..n], key, id, i, elementSize);
      if n == capacity {
        var newCapacity := n + n / 2 + 1;
        Resize(newCapacity);
        capacity := newCapacity;
      }
      InsertAt(i, key, id);
      return true;
    }

    /** bs_list_remove: true exactly when key is there with this id. */
    method Delete(key: Key, id: int) returns (ok: bool)
      requires Valid() && |key| == elementSize
      modifies this, data, ids
      ensures Valid() && (data == old(data) || fresh(data)) && (ids == old(ids) || fresh(ids))
      ensures ok <==> key in old(Contents()) && old(Contents())[key] == id
      ensures Contents() == if ok then old(Contents()) - {key} else old(Contents())
    {
      var i := Find(key);
      if i < 0 {
        InsertKeeps(data[..n], ids[..n], key, id, -i - 1, elementSize);
        return false;
      }
      RemoveKeeps(data[..n], ids[..n], i, elementSize);
      if ids[i] != id {
        return false;
      }
      if n < capacity / 2 {
        var newCapacity := capacity / 2;
        Resize(newCapacity);
        capacity := newCapacity;
      }
      RemoveAt(i);
      return true;
    }

    /** bs_list_trim. */
    method Trim()
      requires Valid()
      modifies this, data, ids
      ensures Valid() && Contents() == old(Contents()) && capacity == n == old(n)
      ensures fresh(data) && fresh(ids)
    {
      Resize(n);
      capacity := n;
    }
  }
}
