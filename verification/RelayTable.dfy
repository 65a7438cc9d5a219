/** The routing table of the TCP relay (TCP_server.c): the connections a relay has accepted, and the links
    their slots form. This file is the table itself and what each operation keeps; RelayServer.dfy is the
    server that updates it in place. */
module RelayTable {
  import opened Bytes

  const NUM_RESERVED_PORTS: nat := 16
  const NUM_CLIENT_CONNECTIONS: nat := 240

  /** 0, 1 and 2 in the source. */
  datatype Status = Unused | Offline | Online

  /** A slot names the key of a wanted peer; when it is online, index and otherId say where the peer's own
      slot for this link is. */
  datatype Slot = Slot(status: Status, publicKey: Key, index: nat, otherId: nat)

  datatype Connection = Connection(confirmed: bool, publicKey: Key, slots: seq<Slot>)

  type Table = seq<Connection>

  const EMPTY_SLOT := Slot(Unused, [], 0, 0)

  /** What memset to zero leaves. */
  function EmptyConnection(): (c: Connection)
    ensures !c.confirmed && |c.slots| == NUM_CLIENT_CONNECTIONS
    ensures forall i :: 0 <= i < |c.slots| ==> c.slots[i] == EMPTY_SLOT
  {
    Connection(false, [], seq(NUM_CLIENT_CONNECTIONS, _ => EMPTY_SLOT))
  }

  // ---------- The invariant ----------

  ghost predicate IsSlot(t: Table, a: nat, i: nat) {
    a < |t| && i < NUM_CLIENT_CONNECTIONS && |t[a].slots| == NUM_CLIENT_CONNECTIONS
  }

  /** Slot i of connection a names key. */
  ghost predicate Holds(t: Table, a: nat, i: nat, key: Key) {
    IsSlot(t, a, i) && t[a].confirmed && t[a].slots[i].status != Unused && t[a].slots[i].publicKey == key
  }

  ghost predicate IsOnline(t: Table, a: nat, i: nat) {
    IsSlot(t, a, i) && t[a].slots[i].status == Online
  }

  /** The slot at the other end of an online slot exists, is online, and points back; and each end names the
      key of the other. */
  ghost predicate Paired(t: Table, a: nat, i: nat)
    requires IsOnline(t, a, i)
  {
    var b, j := t[a].slots[i].index, t[a].slots[i].otherId;
    && t[a].confirmed
    && IsOnline(t, b, j) && t[b].confirmed
    && t[b].slots[j].index == a && t[b].slots[j].otherId == i
    && t[a].slots[i].publicKey == t[b].publicKey
    && t[b].slots[j].publicKey == t[a].publicKey
  }

  ghost predicate Shaped(t: Table) {
    && (forall a :: 0 <= a < |t| ==> |t[a].slots| == NUM_CLIENT_CONNECTIONS)
    && (forall a, i :: 0 <= a < |t| && 0 <= i < NUM_CLIENT_CONNECTIONS && !t[a].confirmed ==>
          t[a].slots[i].status == Unused)
  }

  ghost predicate DistinctKeys(t: Table) {
    forall a, b :: 0 <= a < b < |t| && t[a].confirmed && t[b].confirmed ==> t[a].publicKey != t[b].publicKey
  }

  /** No connection holds a slot for itself, or two slots for the same key. */
  ghost predicate DistinctSlots(t: Table) {
    && (forall a: nat, i: nat, key :: Holds(t, a, i, key) ==> key != t[a].publicKey)
    && (forall a: nat, i: nat, j: nat, key :: Holds(t, a, i, key) && Holds(t, a, j, key) ==> i == j)
  }

  ghost predicate AllPaired(t: Table) {
    forall a: nat, i: nat :: IsOnline(t, a, i) ==> Paired(t, a, i)
  }

  /** Two connections that each hold a slot for the other are linked through these slots. */
  ghost predicate NoMissedLink(t: Table) {
    forall a: nat, i: nat, b: nat, j: nat :: Mutual(t, a, i, b, j) ==> IsOnline(t, a, i)
  }

  ghost predicate Mutual(t: Table, a: nat, i: nat, b: nat, j: nat) {
    a < |t| && b < |t| && Holds(t, a, i, t[b].publicKey) && Holds(t, b, j, t[a].publicKey)
  }

  ghost predicate Good(t: Table) {
    Shaped(t) && DistinctKeys(t) && DistinctSlots(t) && AllPaired(t) && NoMissedLink(t)
  }

  // ---------- What a good table gives its users ----------

  /** Where data sent on slot i of connection a goes: the receiving connection and its port. */
  function Route(t: Table, a: nat, i: nat): (r: (nat, nat))
    requires a < |t| && i < |t[a].slots|
  {
    (t[a].slots[i].index, t[a].slots[i].otherId)
  }

  /** Data sent on an online slot reaches the connection of the peer that the slot names, on the slot that
      names the sender, and a reply on that slot comes back to where the data was sent from. */
  lemma {:induction false} DataReachesPeerAndReplyReturns(t: Table, a: nat, i: nat)
    requires Good(t) && IsOnline(t, a, i)
    ensures var (b, j) := Route(t, a, i);
      && IsOnline(t, b, j) && t[b].confirmed && b != a
      && t[b].publicKey == t[a].slots[i].publicKey && t[b].slots[j].publicKey == t[a].publicKey
      && Route(t, b, j) == (a, i)
  {
    assert Paired(t, a, i);
    assert Holds(t, a, i, t[a].slots[i].publicKey);
  }

  /** Two confirmed connections are linked exactly when each holds a slot for the other. */
  lemma {:induction false} LinkedIffMutual(t: Table, a: nat, i: nat, b: nat)
    requires Good(t) && a < |t| && b < |t| && t[b].confirmed && Holds(t, a, i, t[b].publicKey)
    ensures IsOnline(t, a, i) <==> exists j :: Holds(t, b, j, t[a].publicKey)
    ensures IsOnline(t, a, i) ==> Route(t, a, i).0 == b
  {
    if IsOnline(t, a, i) {
      assert Paired(t, a, i);
      var b', j := t[a].slots[i].index, t[a].slots[i].otherId;
      assert b' == b;
      assert Holds(t, b, j, t[a].publicKey);
    } else {
      forall j | Holds(t, b, j, t[a].publicKey) ensures false {
        assert Mutual(t, a, i, b, j);
      }
    }
  }

  // ---------- Removing a slot ----------

  function SetSlot(t: Table, a: nat, i: nat, s: Slot): (t': Table)
    requires a < |t| && i < |t[a].slots|
    ensures |t'| == |t|
  {
    t[a := t[a].(slots := t[a].slots[i := s])]
  }

  /** rm_connection_index: free slot i of connection a, and put the other end of its link offline. */
  function RemoveSlot(t: Table, a: nat, i: nat): (t': Table)
    requires Shaped(t) && AllPaired(t) && a < |t| && i < NUM_CLIENT_CONNECTIONS
    ensures |t'| == |t|
  {
    var s := t[a].slots[i];
    if s.status == Unused then t
    else if s.status == Online then
      assert Paired(t, a, i);
      var other := t[s.index].slots[s.otherId];
      var t1 := SetSlot(t, s.index, s.otherId, other.(status := Offline, index := 0, otherId := 0));
      SetSlot(t1, a, i, t1[a].slots[i].(status := Unused, index := 0, otherId := 0))
    else
      SetSlot(t, a, i, s.(status := Unused, index := 0, otherId := 0))
  }

  /** The whole effect of removing a slot, seen from any slot (c, k) of the table. */
  lemma {:induction false} RemoveSlotAt(t: Table, a: nat, i: nat, c: nat, k: nat)
    requires Good(t) && a < |t| && i < NUM_CLIENT_CONNECTIONS && c < |t| && k < NUM_CLIENT_CONNECTIONS
    ensures var t' := RemoveSlot(t, a, i);
      && t'[c].confirmed == t[c].confirmed && t'[c].publicKey == t[c].publicKey
      && |t'[c].slots| == NUM_CLIENT_CONNECTIONS
      && t'[c].slots[k].publicKey == t[c].slots[k].publicKey
      && t'[c].slots[k] ==
           if t[a].slots[i].status != Unused && (c, k) == (a, i) then t[c].slots[k].(status := Unused, index := 0, otherId := 0)
           else if IsOnline(t, a, i) && (c, k) == Route(t, a, i) then t[c].slots[k].(status := Offline, index := 0, otherId := 0)
           else t[c].slots[k]
  {
    if IsOnline(t, a, i) {
      DataReachesPeerAndReplyReturns(t, a, i);
    }
  }

  lemma {:induction false} RemoveSlotPaired(t: Table, a: nat, i: nat, c: nat, k: nat)
    requires Good(t) && a < |t| && i < NUM_CLIENT_CONNECTIONS && IsOnline(RemoveSlot(t, a, i), c, k)
    ensures Paired(RemoveSlot(t, a, i), c, k)
  {
    RemoveSlotAt(t, a, i, c, k);
    assert Paired(t, c, k);
    var (d, l) := Route(t, c, k);
    RemoveSlotAt(t, a, i, d, l);
    if IsOnline(t, a, i) {
      assert Paired(t, a, i);
    }
  }

  lemma {:induction false} RemoveSlotHolds(t: Table, a: nat, i: nat, c: nat, k: nat, key: Key)
    requires Good(t) && a < |t| && i < NUM_CLIENT_CONNECTIONS
    ensures Holds(RemoveSlot(t, a, i), c, k, key) <==> Holds(t, c, k, key) && (c, k) != (a, i)
  {
    if c < |t| && k < NUM_CLIENT_CONNECTIONS {
      RemoveSlotAt(t, a, i, c, k);
      if IsOnline(t, a, i) {
        assert Paired(t, a, i);
      }
    }
  }

  lemma {:induction false} RemoveSlotMutual(t: Table, a: nat, i: nat, c: nat, k: nat, d: nat, l: nat)
    requires Good(t) && a < |t| && i < NUM_CLIENT_CONNECTIONS && Mutual(RemoveSlot(t, a, i), c, k, d, l)
    ensures IsOnline(RemoveSlot(t, a, i), c, k)
  {
    RemoveSlotAt(t, a, i, c, 0);
    RemoveSlotAt(t, a, i, d, 0);
    RemoveSlotHolds(t, a, i, c, k, t[d].publicKey);
    RemoveSlotHolds(t, a, i, d, l, t[c].publicKey);
    RemoveSlotAt(t, a, i, c, k);
    assert Mutual(t, c, k, d, l);
    if IsOnline(t, a, i) && (c, k) == Route(t, a, i) {
      assert Paired(t, a, i);
      assert Holds(t, a, i, t[c].publicKey);
    }
  }

  lemma {:induction false} RemoveSlotGood(t: Table, a: nat, i: nat)
    requires Good(t) && a < |t| && i < NUM_CLIENT_CONNECTIONS
    ensures Good(RemoveSlot(t, a, i))
  {
    var t' := RemoveSlot(t, a, i);
    RemoveSlotShaped(t, a, i);
    forall c: nat, k: nat, key | Holds(t', c, k, key) ensures key != t'[c].publicKey {
      RemoveSlotHolds(t, a, i, c, k, key);
      RemoveSlotAt(t, a, i, c, k);
    }
    forall c: nat, k: nat, l: nat, key | Holds(t', c, k, key) && Holds(t', c, l, key) ensures k == l {
      RemoveSlotHolds(t, a, i, c, k, key);
      RemoveSlotHolds(t, a, i, c, l, key);
    }
    forall c: nat, k: nat | IsOnline(t', c, k) ensures Paired(t', c, k) {
      RemoveSlotPaired(t, a, i, c, k);
    }
    forall c: nat, k: nat, d: nat, l: nat | Mutual(t', c, k, d, l) ensures IsOnline(t', c, k) {
      RemoveSlotMutual(t, a, i, c, k, d, l);
    }
  }

  lemma {:induction false} RemoveSlotShaped(t: Table, a: nat, i: nat)
    requires Good(t) && a < |t| && i < NUM_CLIENT_CONNECTIONS
    ensures Shaped(RemoveSlot(t, a, i)) && DistinctKeys(RemoveSlot(t, a, i))
  {
    var t' := RemoveSlot(t, a, i);
    forall c | 0 <= c < |t|
      ensures |t'[c].slots| == NUM_CLIENT_CONNECTIONS
      ensures t'[c].confirmed == t[c].confirmed && t'[c].publicKey == t[c].publicKey
    {
      RemoveSlotAt(t, a, i, c, 0);
    }
    forall c, k | 0 <= c < |t| && 0 <= k < NUM_CLIENT_CONNECTIONS && !t'[c].confirmed
      ensures t'[c].slots[k].status == Unused
    {
      RemoveSlotAt(t, a, i, c, k);
      if IsOnline(t, a, i) {
        assert Paired(t, a, i);
      }
    }
  }

  // ---------- A routing request ----------

  /** Connection a may take slot i for key. */
  ghost predicate CanTake(t: Table, a: nat, i: nat, key: Key) {
    && IsSlot(t, a, i) && t[a].confirmed && t[a].slots[i].status == Unused
    && key != t[a].publicKey && forall k: nat :: !Holds(t, a, k, key)
  }

  /** The part of handle_TCP_routing_req that waits for a peer which does not want the link yet. */
  function TakeSlot(t: Table, a: nat, i: nat, key: Key): (t': Table)
    requires a < |t| && i < |t[a].slots|
  {
    SetSlot(t, a, i, t[a].slots[i].(status := Offline, publicKey := key))
  }

  /** The part that joins the new slot with slot j of connection b, which has been waiting for it. */
  function TakeAndLink(t: Table, a: nat, i: nat, key: Key, b: nat, j: nat): (t': Table)
    requires a < |t| && i < |t[a].slots| && b < |t| && j < |t[b].slots| && a != b
  {
    SetSlot(SetSlot(t, a, i, Slot(Online, key, b, j)), b, j,
            t[b].slots[j].(status := Online, index := a, otherId := i))
  }

  /** If the peer holds a slot for the requester at all, that slot is still waiting. */
  lemma {:induction false} PeerStillWaits(t: Table, a: nat, i: nat, key: Key, b: nat, j: nat)
    requires Good(t) && CanTake(t, a, i, key)
    requires b < |t| && t[b].publicKey == key && Holds(t, b, j, t[a].publicKey)
    ensures t[b].slots[j].status == Offline
  {
    if IsOnline(t, b, j) {
      assert Paired(t, b, j);
      var (a', i') := Route(t, b, j);
      assert a' == a;
      assert Holds(t, a, i', key);
      assert false;
    }
  }

  lemma {:induction false} TakeSlotGood(t: Table, a: nat, i: nat, key: Key)
    requires Good(t) && CanTake(t, a, i, key)
    requires forall b: nat, j: nat :: b < |t| && Holds(t, b, j, t[a].publicKey) ==> t[b].publicKey != key
    ensures Good(TakeSlot(t, a, i, key))
  {
    var t' := TakeSlot(t, a, i, key);
    forall c: nat, k: nat, x | Holds(t', c, k, x)
      ensures Holds(t, c, k, x) || (c == a && k == i && x == key)
    {
    }
    forall c: nat, k: nat | IsOnline(t', c, k) ensures Paired(t', c, k) {
      assert IsOnline(t, c, k) && Paired(t, c, k);
    }
    forall c: nat, k: nat, d: nat, l: nat | Mutual(t', c, k, d, l) ensures IsOnline(t', c, k) {
      if (c, k) != (a, i) && (d, l) != (a, i) {
        assert Mutual(t, c, k, d, l);
      }
    }
  }

  lemma {:induction false} TakeAndLinkAt(t: Table, a: nat, i: nat, key: Key, b: nat, j: nat, c: nat, k: nat)
    requires Good(t) && CanTake(t, a, i, key) && IsSlot(t, b, j) && a != b && c < |t| && k < NUM_CLIENT_CONNECTIONS
    ensures var t' := TakeAndLink(t, a, i, key, b, j);
      && |t'| == |t| && |t'[c].slots| == NUM_CLIENT_CONNECTIONS
      && t'[c].confirmed == t[c].confirmed && t'[c].publicKey == t[c].publicKey
      && t'[c].slots[k] == if (c, k) == (a, i) then Slot(Online, key, b, j)
                           else if (c, k) == (b, j) then t[b].slots[j].(status := Online, index := a, otherId := i)
                           else t[c].slots[k]
  {
  }

  lemma {:induction false} TakeAndLinkPaired(t: Table, a: nat, i: nat, key: Key, b: nat, j: nat, c: nat, k: nat)
    requires Good(t) && CanTake(t, a, i, key)
    requires b < |t| && a != b && t[b].publicKey == key && Holds(t, b, j, t[a].publicKey)
    requires IsOnline(TakeAndLink(t, a, i, key, b, j), c, k)
    ensures Paired(TakeAndLink(t, a, i, key, b, j), c, k)
  {
    PeerStillWaits(t, a, i, key, b, j);
    TakeAndLinkAt(t, a, i, key, b, j, c, k);
    TakeAndLinkAt(t, a, i, key, b, j, a, i);
    TakeAndLinkAt(t, a, i, key, b, j, b, j);
    if (c, k) != (a, i) && (c, k) != (b, j) {
      assert Paired(t, c, k);
      var (d, l) := Route(t, c, k);
      TakeAndLinkAt(t, a, i, key, b, j, d, l);
    }
  }

  lemma {:induction false} TakeAndLinkHolds(t: Table, a: nat, i: nat, key: Key, b: nat, j: nat, c: nat, k: nat, x: Key)
    requires Good(t) && CanTake(t, a, i, key)
    requires b < |t| && a != b && t[b].publicKey == key && Holds(t, b, j, t[a].publicKey)
    ensures Holds(TakeAndLink(t, a, i, key, b, j), c, k, x) <==> Holds(t, c, k, x) || (c == a && k == i && x == key)
  {
    if c < |t| && k < NUM_CLIENT_CONNECTIONS {
      TakeAndLinkAt(t, a, i, key, b, j, c, k);
    }
  }

  lemma {:induction false} TakeAndLinkMutual(t: Table, a: nat, i: nat, key: Key, b: nat, j: nat,
                                            c: nat, k: nat, d: nat, l: nat)
    requires Good(t) && CanTake(t, a, i, key)
    requires b < |t| && a != b && t[b].publicKey == key && t[b].confirmed && Holds(t, b, j, t[a].publicKey)
    requires Mutual(TakeAndLink(t, a, i, key, b, j), c, k, d, l)
    ensures IsOnline(TakeAndLink(t, a, i, key, b, j), c, k)
  {
    TakeAndLinkAt(t, a, i, key, b, j, c, k);
    TakeAndLinkAt(t, a, i, key, b, j, d, l);
    TakeAndLinkHolds(t, a, i, key, b, j, c, k, t[d].publicKey);
    TakeAndLinkHolds(t, a, i, key, b, j, d, l, t[c].publicKey);
    if (c, k) != (a, i) && (d, l) != (a, i) {
      assert Mutual(t, c, k, d, l);
    }
  }

  lemma {:induction false} TakeAndLinkGood(t: Table, a: nat, i: nat, key: Key, b: nat, j: nat)
    requires Good(t) && CanTake(t, a, i, key)
    requires b < |t| && a != b && t[b].publicKey == key && t[b].confirmed && Holds(t, b, j, t[a].publicKey)
    ensures Good(TakeAndLink(t, a, i, key, b, j))
  {
    var t' := TakeAndLink(t, a, i, key, b, j);
    forall c | 0 <= c < |t|
      ensures |t'[c].slots| == NUM_CLIENT_CONNECTIONS
      ensures t'[c].confirmed == t[c].confirmed && t'[c].publicKey == t[c].publicKey
    {
      TakeAndLinkAt(t, a, i, key, b, j, c, 0);
    }
    forall c, k | 0 <= c < |t| && 0 <= k < NUM_CLIENT_CONNECTIONS && !t'[c].confirmed
      ensures t'[c].slots[k].status == Unused
    {
      TakeAndLinkAt(t, a, i, key, b, j, c, k);
    }
    TakeAndLinkSlots(t, a, i, key, b, j);
    forall c: nat, k: nat | IsOnline(t', c, k) ensures Paired(t', c, k) {
      TakeAndLinkPaired(t, a, i, key, b, j, c, k);
    }
    forall c: nat, k: nat, d: nat, l: nat | Mutual(t', c, k, d, l) ensures IsOnline(t', c, k) {
      TakeAndLinkMutual(t, a, i, key, b, j, c, k, d, l);
    }
  }

  lemma {:induction false} TakeAndLinkSlots(t: Table, a: nat, i: nat, key: Key, b: nat, j: nat)
    requires Good(t) && CanTake(t, a, i, key)
    requires b < |t| && a != b && t[b].publicKey == key && t[b].confirmed && Holds(t, b, j, t[a].publicKey)
    ensures DistinctSlots(TakeAndLink(t, a, i, key, b, j))
  {
    var t' := TakeAndLink(t, a, i, key, b, j);
    forall c: nat, k: nat, x | Holds(t', c, k, x) ensures x != t'[c].publicKey {
      TakeAndLinkHolds(t, a, i, key, b, j, c, k, x);
    }
    forall c: nat, k: nat, l: nat, x | Holds(t', c, k, x) && Holds(t', c, l, x) ensures k == l {
      TakeAndLinkHolds(t, a, i, key, b, j, c, k, x);
      TakeAndLinkHolds(t, a, i, key, b, j, c, l, x);
    }
  }

  // ---------- Connections coming and going ----------

  /** add_accepted at a free place of the array. */
  function Accept(t: Table, a: nat, key: Key): (t': Table)
    requires a < |t|
  {
    t[a := EmptyConnection().(confirmed := true, publicKey := key)]
  }

  ghost predicate KeyAbsent(t: Table, key: Key) {
    forall b :: 0 <= b < |t| && t[b].confirmed ==> t[b].publicKey != key
  }

  lemma {:induction false} AcceptGood(t: Table, a: nat, key: Key)
    requires Good(t) && a < |t| && !t[a].confirmed && KeyAbsent(t, key)
    ensures Good(Accept(t, a, key))
  {
    var t' := Accept(t, a, key);
    forall c: nat, k: nat, x | Holds(t', c, k, x) ensures c != a && Holds(t, c, k, x) {
    }
    forall c: nat, k: nat | IsOnline(t', c, k) ensures Paired(t', c, k) {
      assert IsOnline(t, c, k) && Paired(t, c, k);
    }
    forall c: nat, k: nat, d: nat, l: nat | Mutual(t', c, k, d, l) ensures IsOnline(t', c, k) {
      assert Mutual(t, c, k, d, l);
    }
  }

  /** The first n slots of connection a removed, one after the other. */
  function RemoveSlots(t: Table, a: nat, n: nat): (t': Table)
    requires Good(t) && a < |t| && n <= NUM_CLIENT_CONNECTIONS
    ensures Good(t') && |t'| == |t| && t'[a].confirmed == t[a].confirmed
    ensures forall b :: 0 <= b < |t| ==> t'[b].publicKey == t[b].publicKey && t'[b].confirmed == t[b].confirmed
    ensures forall i :: 0 <= i < n ==> t'[a].slots[i].status == Unused
    decreases n
  {
    if n == 0 then t else
      var t1 := RemoveSlots(t, a, n - 1);
      RemoveSlotGood(t1, a, n - 1);
      RemoveSlotKeeps(t1, a, n - 1);
      RemoveSlot(t1, a, n - 1)
  }

  /** All of them removed. */
  function Unlinked(t: Table, a: nat): (t': Table)
    requires Good(t) && a < |t|
    ensures Good(t') && |t'| == |t| && t'[a].confirmed == t[a].confirmed
    ensures forall b :: 0 <= b < |t| ==> t'[b].publicKey == t[b].publicKey && t'[b].confirmed == t[b].confirmed
    ensures forall i :: 0 <= i < NUM_CLIENT_CONNECTIONS ==> t'[a].slots[i].status == Unused
  {
    RemoveSlots(t, a, |t[a].slots|)
  }

  lemma {:induction false} RemoveSlotKeeps(t: Table, a: nat, i: nat)
    requires Good(t) && a < |t| && i < NUM_CLIENT_CONNECTIONS
    ensures var t' := RemoveSlot(t, a, i);
      && |t'[a].slots| == NUM_CLIENT_CONNECTIONS
      && (forall b :: 0 <= b < |t| ==> t'[b].publicKey == t[b].publicKey && t'[b].confirmed == t[b].confirmed)
      && (forall k :: 0 <= k < NUM_CLIENT_CONNECTIONS && (k == i || t[a].slots[k].status == Unused) ==>
            t'[a].slots[k].status == Unused)
  {
    var t' := RemoveSlot(t, a, i);
    RemoveSlotAt(t, a, i, a, i);
    forall b | 0 <= b < |t| ensures t'[b].publicKey == t[b].publicKey && t'[b].confirmed == t[b].confirmed {
      RemoveSlotAt(t, a, i, b, 0);
    }
    forall k | 0 <= k < NUM_CLIENT_CONNECTIONS && (k == i || t[a].slots[k].status == Unused)
      ensures t'[a].slots[k].status == Unused
    {
      RemoveSlotAt(t, a, i, a, k);
      if IsOnline(t, a, i) {
        assert Paired(t, a, i);
      }
    }
  }

  /** The slots that are not removed yet are as they were. */
  lemma {:induction false} LaterSlots(t: Table, a: nat, n: nat, k: nat)
    requires Good(t) && a < |t| && n <= k < NUM_CLIENT_CONNECTIONS
    ensures |RemoveSlots(t, a, n)[a].slots| == NUM_CLIENT_CONNECTIONS
    ensures RemoveSlots(t, a, n)[a].slots[k] == t[a].slots[k]
  {
    if n != 0 {
      var t1 := RemoveSlots(t, a, n - 1);
      LaterSlots(t, a, n - 1, k);
      RemoveSlotAt(t1, a, n - 1, a, k);
      if IsOnline(t1, a, n - 1) {
        DataReachesPeerAndReplyReturns(t1, a, n - 1);
      }
    }
  }

  /** kill_accepted: all slots removed, then the connection wiped. */
  function Kill(t: Table, a: nat): (t': Table)
    requires Good(t) && a < |t|
  {
    Unlinked(t, a)[a := EmptyConnection()]
  }

  lemma {:induction false} KillGood(t: Table, a: nat)
    requires Good(t) && a < |t|
    ensures Good(Kill(t, a)) && |Kill(t, a)| == |t| && !Kill(t, a)[a].confirmed
    ensures forall b :: 0 <= b < |t| && b != a ==>
      Kill(t, a)[b].publicKey == t[b].publicKey && Kill(t, a)[b].confirmed == t[b].confirmed
  {
    WipeGood(Unlinked(t, a), a);
  }

  lemma {:induction false} WipeGood(t: Table, a: nat)
    requires Good(t) && a < |t|
    requires forall i :: 0 <= i < NUM_CLIENT_CONNECTIONS ==> t[a].slots[i].status == Unused
    ensures Good(t[a := EmptyConnection()])
  {
    var t' := t[a := EmptyConnection()];
    forall c: nat, k: nat, x | Holds(t', c, k, x) ensures c != a && Holds(t, c, k, x) {
    }
    forall c: nat, k: nat | IsOnline(t', c, k) ensures Paired(t', c, k) {
      assert Paired(t, c, k);
    }
    forall c: nat, k: nat, d: nat, l: nat | Mutual(t', c, k, d, l) ensures IsOnline(t', c, k) {
      assert Mutual(t, c, k, d, l);
    }
  }

  /** realloc_connection, growing: new places are zero. */
  function Grow(t: Table, more: nat): (t': Table) {
    t + seq(more, _ => EmptyConnection())
  }

  lemma {:induction false} GrowGood(t: Table, more: nat)
    requires Good(t)
    ensures Good(Grow(t, more))
  {
    var t' := Grow(t, more);
    forall c: nat, k: nat, x | Holds(t', c, k, x) ensures c < |t| && Holds(t, c, k, x) {
    }
    forall c: nat, k: nat | IsOnline(t', c, k) ensures Paired(t', c, k) {
      assert IsOnline(t, c, k) && Paired(t, c, k);
    }
    forall c: nat, k: nat, d: nat, l: nat | Mutual(t', c, k, d, l) ensures IsOnline(t', c, k) {
      assert Mutual(t, c, k, d, l);
    }
  }

  // ---------- The request as a whole, and runs ----------

  /** The first unused slot from place i on, or the number of slots. */
  function FirstUnused(slots: seq<Slot>, i: nat): (r: nat)
    requires i <= |slots|
    ensures i <= r <= |slots|
    ensures r < |slots| ==> slots[r].status == Unused
    ensures forall k :: i <= k < r ==> slots[k].status != Unused
    decreases |slots| - i
  {
    if i == |slots| || slots[i].status == Unused then i else FirstUnused(slots, i + 1)
  }

  /** The first slot from place i on that waits for key, or the number of slots. */
  function FirstWaiting(slots: seq<Slot>, key: Key, i: nat): (r: nat)
    requires i <= |slots|
    ensures i <= r <= |slots|
    ensures r < |slots| ==> slots[r].status == Offline && slots[r].publicKey == key
    ensures forall k :: i <= k < r ==> slots[k].status != Offline || slots[k].publicKey != key
    decreases |slots| - i
  {
    if i == |slots| || (slots[i].status == Offline && slots[i].publicKey == key) then i
    else FirstWaiting(slots, key, i + 1)
  }

  predicate HasKey(slots: seq<Slot>, key: Key) {
    exists k :: 0 <= k < |slots| && slots[k].status != Unused && slots[k].publicKey == key
  }

  /** The confirmed connection with key from place b on, or the number of connections. */
  function FindConnection(t: Table, key: Key, b: nat): (r: nat)
    requires b <= |t|
    ensures b <= r <= |t|
    ensures r < |t| ==> t[r].confirmed && t[r].publicKey == key
    ensures forall c :: b <= c < r ==> !t[c].confirmed || t[c].publicKey != key
    decreases |t| - b
  {
    if b == |t| || (t[b].confirmed && t[b].publicKey == key) then b else FindConnection(t, key, b + 1)
  }

  /** What handle_TCP_routing_req makes of the table when its response can be sent. */
  function Request(t: Table, a: nat, key: Key): (t': Table)
    requires Shaped(t) && a < |t|
  {
    var i := FirstUnused(t[a].slots, 0);
    if key == t[a].publicKey || HasKey(t[a].slots, key) || i == |t[a].slots| then t
    else
      var b := FindConnection(t, key, 0);
      if b == |t| then TakeSlot(t, a, i, key)
      else
        var j := FirstWaiting(t[b].slots, t[a].publicKey, 0);
        if j == |t[b].slots| then TakeSlot(t, a, i, key) else TakeAndLink(t, a, i, key, b, j)
  }

  lemma {:induction false} RequestGood(t: Table, a: nat, key: Key)
    requires Good(t) && a < |t| && t[a].confirmed
    ensures Good(Request(t, a, key)) && |Request(t, a, key)| == |t|
  {
    var i := FirstUnused(t[a].slots, 0);
    if key != t[a].publicKey && !HasKey(t[a].slots, key) && i < |t[a].slots| {
      assert CanTake(t, a, i, key);
      var b := FindConnection(t, key, 0);
      var j := if b < |t| then FirstWaiting(t[b].slots, t[a].publicKey, 0) else 0;
      if b < |t| && j < |t[b].slots| {
        assert Holds(t, b, j, t[a].publicKey);
        TakeAndLinkGood(t, a, i, key, b, j);
      } else {
        forall c: nat, k: nat | c < |t| && Holds(t, c, k, t[a].publicKey) ensures t[c].publicKey != key {
          if t[c].publicKey == key {
            PeerStillWaits(t, a, i, key, c, k);
            assert false;
          }
        }
        TakeSlotGood(t, a, i, key);
      }
    }
  }

  /** A request with room for it ends with a slot for the key, and with a link as soon as the peer is there
      and wants it too. */
  lemma {:induction false} RequestServed(t: Table, a: nat, key: Key)
    requires Good(t) && a < |t| && t[a].confirmed && key != t[a].publicKey
    requires HasKey(t[a].slots, key) || FirstUnused(t[a].slots, 0) < NUM_CLIENT_CONNECTIONS
    ensures var t' := Request(t, a, key);
      exists i: nat :: Holds(t', a, i, key) &&
        (IsOnline(t', a, i) <==> exists b: nat, j: nat :: b < |t| && t[b].publicKey == key && Holds(t, b, j, t[a].publicKey))
  {
    var t' := Request(t, a, key);
    RequestGood(t, a, key);
    var i: nat := RequestHolds(t, a, key);
    assert Holds(t', a, i, key);
    if b: nat, j: nat :| b < |t| && t[b].publicKey == key && Holds(t, b, j, t[a].publicKey) {
      RequestKeeps(t, a, key, b, j);
      assert Mutual(t', a, i, b, j);
    } else if IsOnline(t', a, i) {
      assert Paired(t', a, i);
      var (b, j) := Route(t', a, i);
      RequestBack(t, a, key, b, j);
    }
  }

  lemma {:induction false} RequestHolds(t: Table, a: nat, key: Key) returns (i: nat)
    requires Good(t) && a < |t| && t[a].confirmed && key != t[a].publicKey
    requires HasKey(t[a].slots, key) || FirstUnused(t[a].slots, 0) < NUM_CLIENT_CONNECTIONS
    ensures Holds(Request(t, a, key), a, i, key)
  {
    if HasKey(t[a].slots, key) {
      i :| 0 <= i < |t[a].slots| && t[a].slots[i].status != Unused && t[a].slots[i].publicKey == key;
    } else {
      i := FirstUnused(t[a].slots, 0);
    }
  }

  /** A request takes no slot away from anyone. */
  lemma {:induction false} RequestKeeps(t: Table, a: nat, key: Key, b: nat, j: nat)
    requires Good(t) && a < |t| && t[a].confirmed && b < |t| && b != a && Holds(t, b, j, t[a].publicKey)
    ensures var t' := Request(t, a, key);
      |t'| == |t| && t'[b].publicKey == t[b].publicKey && t'[a].publicKey == t[a].publicKey && Holds(t', b, j, t[a].publicKey)
  {
  }

  /** A request gives no slot to anyone but the requester. */
  lemma {:induction false} RequestBack(t: Table, a: nat, key: Key, b: nat, j: nat)
    requires Good(t) && a < |t| && t[a].confirmed && b != a
    requires |Request(t, a, key)| == |t| && Holds(Request(t, a, key), b, j, t[a].publicKey)
    ensures Holds(t, b, j, t[a].publicKey) && Request(t, a, key)[b].publicKey == t[b].publicKey
  {
  }

  datatype Event =
    | Joined(key: Key, place: nat)
    | Requested(a: nat, key: Key)
    | Removed(a: nat, slot: nat)
    | Killed(a: nat)
    | Grown(more: nat)
    | Cleared

  /** An event the server can see: joining replaces an old connection of the same key beforehand. */
  ghost predicate Possible(t: Table, e: Event) {
    match e
    case Joined(key, place) => place < |t| && !t[place].confirmed && KeyAbsent(t, key)
    case Requested(a, key) => a < |t| && t[a].confirmed
    case Removed(a, slot) => a < |t| && slot < NUM_CLIENT_CONNECTIONS
    case Killed(a) => a < |t|
    case Grown(more) => true
    case Cleared => forall a :: 0 <= a < |t| ==> !t[a].confirmed
  }

  /** What an event makes of a good table: again a good table. */
  ghost function Apply(t: Table, e: Event): (t': Table)
    requires Good(t) && Possible(t, e)
    ensures Good(t')
  {
    match e
    case Joined(key, place) => AcceptGood(t, place, key); Accept(t, place, key)
    case Requested(a, key) => RequestGood(t, a, key); Request(t, a, key)
    case Removed(a, slot) => RemoveSlotGood(t, a, slot); RemoveSlot(t, a, slot)
    case Killed(a) => KillGood(t, a); Kill(t, a)
    case Grown(more) => GrowGood(t, more); Grow(t, more)
    case Cleared => []
  }

  ghost predicate IsRun(t: Table, events: seq<Event>)
    requires Good(t)
    decreases |events|
  {
    events == [] || (Possible(t, events[0]) && IsRun(Apply(t, events[0]), events[1..]))
  }

  ghost function After(t: Table, events: seq<Event>): (t': Table)
    requires Good(t) && IsRun(t, events)
    ensures Good(t')
    decreases |events|
  {
    if events == [] then t else After(Apply(t, events[0]), events[1..])
  }

  /** Whatever has happened to a relay that started empty: links are symmetric, each end names the other,
      and a slot is linked exactly when the peer is there and holds a slot for its owner. */
  lemma {:induction false} EveryRun(events: seq<Event>, a: nat, i: nat)
    requires IsRun([], events) && IsSlot(After([], events), a, i) && After([], events)[a].slots[i].status != Unused
    ensures var t := After([], events);
      var key := t[a].slots[i].publicKey;
      && (IsOnline(t, a, i) <==> exists b: nat, j: nat :: b < |t| && t[b].publicKey == key && Holds(t, b, j, t[a].publicKey))
      && (IsOnline(t, a, i) ==>
            var (b, j) := Route(t, a, i);
            && IsSlot(t, b, j) && Route(t, b, j) == (a, i)
            && t[b].publicKey == key && t[b].slots[j].publicKey == t[a].publicKey)
  {
    var t := After([], events);
    var key := t[a].slots[i].publicKey;
    assert Holds(t, a, i, key);
    if IsOnline(t, a, i) {
      DataReachesPeerAndReplyReturns(t, a, i);
      var (b, j) := Route(t, a, i);
      assert Holds(t, b, j, t[a].publicKey);
    }
    forall b: nat, j: nat | b < |t| && t[b].publicKey == key && Holds(t, b, j, t[a].publicKey)
      ensures IsOnline(t, a, i)
    {
      LinkedIffMutual(t, a, i, b);
    }
  }
}
