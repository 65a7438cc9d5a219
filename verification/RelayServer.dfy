/** The relay server of TCP_server.c: its accepted connections and their key index, updated in place. */
module RelayServer {
  import opened Bytes
  import opened RelayTable
  import BsList
  import Nonce

  const MAX_OOB_DATA_LENGTH: nat := 1024
  const ONION_SEND_BASE: nat := 67

  datatype Packet =
    | RoutingResponse(port: nat, key: Key)
    | ConnectNotification(port: nat)
    | DisconnectNotification(port: nat)
    | Pong(id: seq<byte>)
    | OobRecv(from: Key, payload: seq<byte>)
    | Data(port: nat, payload: seq<byte>)

  /** A packet handed to the writer of the connection with index to. */
  datatype Sent = Sent(to: nat, packet: Packet)

  // ---------- Specification ----------

  function Confirmed(t: Table): (n: nat)
    ensures n <= |t|
  {
    if t == [] then 0 else (if t[0].confirmed then 1 else 0) + Confirmed(t[1..])
  }

  lemma {:induction false} ConfirmedUpdate(t: Table, a: nat, c: Connection)
    requires a < |t|
    ensures Confirmed(t[a := c]) ==
      Confirmed(t) - (if t[a].confirmed then 1 else 0) + (if c.confirmed then 1 else 0)
  {
    if a != 0 {
      assert t[a := c][1..] == t[1..][a - 1 := c];
      ConfirmedUpdate(t[1..], a - 1, c);
    }
  }

  lemma {:induction false} ConfirmedSame(t: Table, u: Table)
    requires |t| == |u| && forall a :: 0 <= a < |t| ==> t[a].confirmed == u[a].confirmed
    ensures Confirmed(t) == Confirmed(u)
  {
    if t != [] {
      ConfirmedSame(t[1..], u[1..]);
    }
  }

  lemma {:induction false} ConfirmedGrow(t: Table, more: nat)
    ensures Confirmed(Grow(t, more)) == Confirmed(t)
    decreases |t| + more
  {
    if t != [] {
      assert Grow(t, more)[1..] == Grow(t[1..], more);
      ConfirmedGrow(t[1..], more);
    } else if more != 0 {
      assert Grow([], more)[1..] == Grow([], more - 1);
      ConfirmedGrow([], more - 1);
    }
  }

  lemma {:induction false} AllConfirmed(t: Table)
    requires forall a :: 0 <= a < |t| ==> t[a].confirmed
    ensures Confirmed(t) == |t|
  {
    if t != [] {
      AllConfirmed(t[1..]);
    }
  }

  lemma {:induction false} NoneConfirmed(t: Table, a: nat)
    requires Confirmed(t) == 0 && a < |t|
    ensures !t[a].confirmed
  {
    if a != 0 {
      NoneConfirmed(t[1..], a - 1);
    }
  }

  /** The index maps exactly the keys of the confirmed connections to their places. */
  ghost predicate Indexes(m: map<Key, int>, t: Table) {
    && (forall k :: k in m ==> 0 <= m[k] < |t| && t[m[k]].confirmed && t[m[k]].publicKey == k)
    && (forall a :: 0 <= a < |t| && t[a].confirmed ==> t[a].publicKey in m && m[t[a].publicKey] == a)
  }

  ghost predicate KeysSized(t: Table) {
    forall a :: 0 <= a < |t| && t[a].confirmed ==> |t[a].publicKey| == KEY_BYTES
  }

  ghost predicate SameConnections(t: Table, u: Table) {
    |t| == |u| && forall a :: 0 <= a < |t| ==> t[a].confirmed == u[a].confirmed && t[a].publicKey == u[a].publicKey
  }

  /** kill_accepted, with the array given up when nothing is left in it. */
  function Without(t: Table, a: nat): Table
    requires Good(t) && a < |t|
  {
    Shrunk(Kill(t, a))
  }

  /** The first slot from place i on that names key, or the number of slots. */
  function FirstNaming(slots: seq<Slot>, key: Key, i: nat): (r: nat)
    requires i <= |slots|
    ensures i <= r <= |slots|
    ensures r < |slots| ==> slots[r].status != Unused && slots[r].publicKey == key
    ensures forall k :: i <= k < r ==> slots[k].status == Unused || slots[k].publicKey != key
    decreases |slots| - i
  {
    if i == |slots| || (slots[i].status != Unused && slots[i].publicKey == key) then i
    else FirstNaming(slots, key, i + 1)
  }

  /** The port a request is answered with: that of the slot for the key, or 0 when there can be none. */
  function AnsweredPort(t: Table, a: nat, key: Key): nat
    requires a < |t|
  {
    var slots := t[a].slots;
    if key == t[a].publicKey then 0
    else if FirstNaming(slots, key, 0) < |slots| then FirstNaming(slots, key, 0) + NUM_RESERVED_PORTS
    else if FirstUnused(slots, 0) < |slots| then FirstUnused(slots, 0) + NUM_RESERVED_PORTS
    else 0
  }

  /** The notifications for a link that exists after a step and did not before. */
  function LinkNews(before: Table, after: Table, a: nat, i: nat): seq<Sent>
    requires a < |before| && a < |after| && i < |before[a].slots| && i < |after[a].slots|
  {
    if after[a].slots[i].status == Online && before[a].slots[i].status != Online then
      var (b, j) := RelayTable.Route(after, a, i);
      [Sent(a, ConnectNotification(i + NUM_RESERVED_PORTS)), Sent(b, ConnectNotification(j + NUM_RESERVED_PORTS))]
    else []
  }

  // ---------- The server ----------

  class Server {
    var connections: Table
    var numAccepted: nat
    const keys: BsList.List
    var outbox: seq<Sent>
    const onion: bool

    constructor (onion: bool)
      ensures Valid() && connections == [] && outbox == []
    {
      connections, numAccepted, outbox, this.onion := [], 0, [], onion;
      keys := new BsList.List(KEY_BYTES, 8);
    }

    /** "== true" keeps the verifier from taking the parts apart wherever they are to be shown. */
    ghost predicate Valid()
      reads this, keys, keys.data, keys.ids
    {
      && (Good(connections) && KeysSized(connections) && numAccepted == Confirmed(connections)) == true
      && keys.Valid() && keys.elementSize == KEY_BYTES && Indexes(keys.Contents(), connections) == true
    }

    /** The key index may have moved to new arrays. */
    twostate predicate KeysGrown()
      reads this, keys
    {
      (keys.data == old(keys.data) || fresh(keys.data)) && (keys.ids == old(keys.ids) || fresh(keys.ids))
    }

    lemma {:induction false} StillValid(t: Table)
      requires Valid() && Good(t) && SameConnections(connections, t)
      ensures KeysSized(t) && numAccepted == Confirmed(t) && Indexes(keys.Contents(), t)
    {
      ConfirmedSame(connections, t);
    }

    /** get_TCP_connection_index. */
    method GetConnectionIndex(key: Key) returns (index: int)
      requires Valid() && |key| == KEY_BYTES
      ensures var b := FindConnection(connections, key, 0); index == if b < |connections| then b else -1
    {
      index := keys.FindId(key);
      var b := FindConnection(connections, key, 0);
      if b < |connections| {
        assert connections[b].publicKey in keys.Contents();
      }
    }

    /** rm_connection_index: the peer of a link is told that it is gone. */
    method RemoveConnectionIndex(a: nat, conNumber: nat) returns (r: int)
      requires Valid() && a < |connections|
      modifies this`connections, this`outbox
      ensures Valid()
      ensures r == if conNumber >= NUM_CLIENT_CONNECTIONS || old(connections)[a].slots[conNumber].status == Unused then -1 else 0
      ensures connections == if conNumber >= NUM_CLIENT_CONNECTIONS then old(connections) else RemoveSlot(old(connections), a, conNumber)
      ensures outbox == old(outbox) + if conNumber >= NUM_CLIENT_CONNECTIONS then [] else Farewell(old(connections), a, conNumber)
    {
      if conNumber >= NUM_CLIENT_CONNECTIONS {
        return -1;
      }
      var s := connections[a].slots[conNumber];
      if s.status == Unused {
        return -1;
      }
      if s.status == Online {
        PartnerExists(connections, a, conNumber);
        if s.index >= |connections| {
          return -1;
        }
        outbox := outbox + [Sent(s.index, DisconnectNotification(s.otherId + NUM_RESERVED_PORTS))];
      }
      FreeSlot(a, conNumber);
      return 0;
    }

    /** The changes to the table in rm_connection_index. */
    method FreeSlot(a: nat, i: nat)
      requires Valid() && a < |connections| && i < NUM_CLIENT_CONNECTIONS
      requires connections[a].slots[i].status != Unused
      modifies this`connections
      ensures Valid() && connections == RemoveSlot(old(connections), a, i)
      ensures SameConnections(old(connections), connections)
    {
      ghost var after := RemoveSlot(connections, a, i);
      RemoveSlotGood(connections, a, i);
      RemoveSlotKeeps(connections, a, i);
      StillValid(after);
      var t, s := connections, connections[a].slots[i];
      if s.status == Online {
        PartnerExists(t, a, i);
        t := SetSlot(t, s.index, s.otherId,
                     t[s.index].slots[s.otherId].(status := Offline, index := 0, otherId := 0));
      }
      connections := SetSlot(t, a, i, t[a].slots[i].(status := Unused, index := 0, otherId := 0));
      assert connections == after;
    }

    /** kill_accepted: every link of the connection is removed, then the connection itself, then its key. */
    method KillAccepted(index: int) returns (r: int)
      requires Valid()
      modifies this`connections, this`numAccepted, this`outbox, keys, keys.data, keys.ids
      ensures Valid() && KeysGrown()
      ensures if 0 <= index < |old(connections)| && old(connections)[index].confirmed then
                && r == 0 && connections == Without(old(connections), index)
                && outbox == old(outbox) + AllFarewells(old(connections), index)
              else r == -1 && connections == old(connections) && outbox == old(outbox)
    {
      if index < 0 || index >= |connections| {
        return -1;
      }
      if !connections[index].confirmed {
        NothingToUnlink(connections, index, NUM_CLIENT_CONNECTIONS);
      }
      r := KillAt(index);
    }

    method KillAt(a: nat) returns (r: int)
      requires Valid() && a < |connections|
      modifies this`connections, this`numAccepted, this`outbox, keys, keys.data, keys.ids
      ensures Valid() && KeysGrown()
      ensures r == if old(connections)[a].confirmed then 0 else -1
      ensures connections == if r == 0 then Without(old(connections), a) else Unlinked(old(connections), a)
      ensures outbox == old(outbox) + AllFarewells(old(connections), a)
    {
      RemoveConnections(a);
      r := DeleteAccepted(a);
    }

    /** The loop of kill_accepted over the slots. */
    method RemoveConnections(a: nat)
      requires Valid() && a < |connections|
      modifies this`connections, this`outbox
      ensures Valid() && connections == Unlinked(old(connections), a)
      ensures outbox == old(outbox) + AllFarewells(old(connections), a)
    {
      ghost var before, sent := connections, outbox;
      var i := 0;
      while i < NUM_CLIENT_CONNECTIONS
        invariant 0 <= i <= NUM_CLIENT_CONNECTIONS && Valid()
        invariant Good(before) && connections == RemoveSlots(before, a, i)
        invariant outbox == sent + Farewells(before, a, i)
      {
        LaterSlots(before, a, i, i);
        var _ := RemoveConnectionIndex(a, i);
        FarewellsNext(sent, before, a, i);
        i := i + 1;
      }
    }

    /** del_accepted, for a connection that has no slots any more. */
    method DeleteAccepted(index: nat) returns (r: int)
      requires Valid() && index < |connections|
      requires forall i :: 0 <= i < NUM_CLIENT_CONNECTIONS ==> connections[index].slots[i].status == Unused
      modifies this`connections, this`numAccepted, keys, keys.data, keys.ids
      ensures Valid() && KeysGrown()
      ensures r == if old(connections)[index].confirmed then 0 else -1
      ensures connections ==
        if r == -1 then old(connections) else Shrunk(old(connections)[index := EmptyConnection()])
    {
      if !connections[index].confirmed {
        return -1;
      }
      ghost var before, m := connections, keys.Contents();
      var ok := keys.Delete(connections[index].publicKey, index);
      if !ok {
        return -1;
      }
      Wiped(before, m, index);
      connections := connections[index := EmptyConnection()];
      numAccepted := numAccepted - 1;
      if numAccepted == 0 {
        EmptyTable(keys.Contents(), connections);
        connections := [];
      }
      return 0;
    }

    /** The place for a new connection: after the old end when the array is full, else the last free place. */
    method FindPlace() returns (index: int)
      requires Valid()
      modifies this`connections
      ensures Valid() && connections == Roomy(old(connections))
      ensures 0 <= index < |connections| && !connections[index].confirmed
      ensures index <= |old(connections)| && forall b :: index < b < |old(connections)| ==> connections[b].confirmed
    {
      if |connections| == numAccepted {
        index := numAccepted;
        GrowGood(connections, 4);
        ConfirmedGrow(connections, 4);
        connections := Grow(connections, 4);
      } else {
        index := LastFree();
        if index == -1 {
          AllConfirmed(connections);
        }
      }
    }

    method LastFree() returns (index: int)
      ensures index == -1 ==> forall b :: 0 <= b < |connections| ==> connections[b].confirmed
      ensures index != -1 ==> 0 <= index < |connections| && !connections[index].confirmed
      ensures forall b :: 0 <= b < |connections| && index < b ==> connections[b].confirmed
    {
      index := |connections| - 1;
      while index != -1 && connections[index].confirmed
        invariant -1 <= index < |connections|
        invariant forall b :: index < b < |connections| ==> connections[b].confirmed
        decreases index
      {
        index := index - 1;
      }
    }

    /** The first step of add_accepted: an older connection of the same key gives way. */
    method KillOld(key: Key)
      requires Valid() && |key| == KEY_BYTES
      modifies this`connections, this`numAccepted, this`outbox, keys, keys.data, keys.ids
      ensures Valid() && KeysGrown()
      ensures connections == WithoutKey(old(connections), key) && KeyAbsent(connections, key)
      ensures outbox == old(outbox) + OldFarewells(old(connections), key)
    {
      ghost var t := connections;
      var index := GetConnectionIndex(key);
      if index != -1 {
        var _ := KillAccepted(index);
        KillsOld(t, key, index);
      }
    }

    /** add_accepted. */
    method AddAccepted(key: Key) returns (index: int)
      requires Valid() && |key| == KEY_BYTES
      modifies this`connections, this`numAccepted, this`outbox, keys, keys.data, keys.ids
      ensures Valid()
      ensures var t := Roomy(WithoutKey(old(connections), key));
        0 <= index < |t| && !t[index].confirmed && connections == Accept(t, index, key)
      ensures outbox == old(outbox) + OldFarewells(old(connections), key)
    {
      KillOld(key);
      index := Enroll(key);
    }

    /** Its second part, when no connection has the key. */
    method Enroll(key: Key) returns (index: int)
      requires Valid() && |key| == KEY_BYTES && KeyAbsent(connections, key)
      modifies this`connections, this`numAccepted, keys, keys.data, keys.ids
      ensures Valid()
      ensures var t := Roomy(old(connections));
        0 <= index < |t| && !t[index].confirmed && connections == Accept(t, index, key)
    {
      RoomyAbsent(connections, key);
      index := FindPlace();
      AcceptKeeps(connections, keys.Contents(), index, key);
      var ok := keys.Add(key, index);
      if !ok {
        return -1;
      }
      connections := Accept(connections, index, key);
      numAccepted := numAccepted + 1;
    }

    /** The loop of handle_TCP_routing_req over the requester's slots: the slot that names key already, or
        the first unused one. */
    method ScanSlots(a: nat, key: Key) returns (named: nat, unused: nat)
      requires Valid() && a < |connections|
      ensures named == FirstNaming(connections[a].slots, key, 0)
      ensures named == NUM_CLIENT_CONNECTIONS ==> unused == FirstUnused(connections[a].slots, 0)
    {
      var slots := connections[a].slots;
      unused := NUM_CLIENT_CONNECTIONS;
      named := 0;
      while named < NUM_CLIENT_CONNECTIONS
        invariant named <= NUM_CLIENT_CONNECTIONS == |slots|
        invariant FirstNaming(slots, key, 0) == FirstNaming(slots, key, named)
        invariant if unused == NUM_CLIENT_CONNECTIONS then FirstUnused(slots, 0) == FirstUnused(slots, named)
                  else FirstUnused(slots, 0) == unused
      {
        if slots[named].status != Unused {
          if slots[named].publicKey == key {
            return;
          }
        } else if unused == NUM_CLIENT_CONNECTIONS {
          unused := named;
        }
        named := named + 1;
      }
    }

    /** The loop over the peer's slots: the first that waits for key. */
    method ScanWaiting(b: nat, key: Key) returns (j: nat)
      requires Valid() && b < |connections|
      ensures j == FirstWaiting(connections[b].slots, key, 0)
    {
      var slots := connections[b].slots;
      j := 0;
      while j < NUM_CLIENT_CONNECTIONS
        invariant j <= NUM_CLIENT_CONNECTIONS == |slots|
        invariant FirstWaiting(slots, key, 0) == FirstWaiting(slots, key, j)
      {
        if slots[j].status == Offline && slots[j].publicKey == key {
          return;
        }
        j := j + 1;
      }
    }

    /** The end of handle_TCP_routing_req: slot i of connection a is taken for key, and linked if the peer
        waits for it. */
    method TakeSlotFor(a: nat, i: nat, key: Key)
      requires Valid() && a < |connections| && connections[a].confirmed && |key| == KEY_BYTES
      requires key != connections[a].publicKey && !HasKey(connections[a].slots, key)
      requires i == FirstUnused(connections[a].slots, 0) < NUM_CLIENT_CONNECTIONS
      modifies this`connections, this`outbox
      ensures Valid() && connections == Request(old(connections), a, key)
      ensures outbox == old(outbox) + LinkNews(old(connections), connections, a, i)
    {
      RequestIs(connections, a, i, key);
      ghost var after := Request(connections, a, key);
      ghost var news := LinkNews(connections, after, a, i);
      var b, j := FindPeer(key, connections[a].publicKey);
      var t, sent := TakeSlot(connections, a, i, key), [];
      if b != -1 && j < NUM_CLIENT_CONNECTIONS {
        t := TakeAndLink(connections, a, i, key, b, j);
        sent := [Sent(a, ConnectNotification(i + NUM_RESERVED_PORTS)), Sent(b, ConnectNotification(j + NUM_RESERVED_PORTS))];
      }
      assert t == after && sent == news;
      PutTable(t);
      outbox := outbox + sent;
    }

    /** The peer with key, and its slot that waits for the connection with own. */
    method FindPeer(key: Key, own: Key) returns (b: int, j: nat)
      requires Valid() && |key| == KEY_BYTES
      ensures var c := FindConnection(connections, key, 0);
        && b == (if c < |connections| then c else -1)
        && j == if c < |connections| then FirstWaiting(connections[c].slots, own, 0) else NUM_CLIENT_CONNECTIONS
    {
      b := GetConnectionIndex(key);
      j := NUM_CLIENT_CONNECTIONS;
      if b != -1 {
        j := ScanWaiting(b, own);
      }
    }

    /** Slots have changed, connections have not. */
    method PutTable(t: Table)
      requires Valid() && Good(t) && SameConnections(connections, t)
      modifies this`connections
      ensures Valid() && connections == t
    {
      StillValid(t);
      connections := t;
    }

    /** handle_TCP_routing_req. response is what sending the answer comes to: 1, 0 or -1. */
    method HandleRoutingRequest(a: nat, key: Key, response: int) returns (r: int)
      requires Valid() && a < |connections| && connections[a].confirmed && |key| == KEY_BYTES
      modifies this`connections, this`outbox
      ensures Valid() && r == if response == -1 then -1 else 0
      ensures connections == if response != 0 && response != -1 then Request(old(connections), a, key) else old(connections)
      ensures outbox == old(outbox) + RequestOutput(old(connections), a, key, response)
    {
      var port, i := PlaceFor(a, key);
      outbox := outbox + [Sent(a, RoutingResponse(port, key))];
      if response == -1 {
        return -1;
      }
      if response != 0 && i < NUM_CLIENT_CONNECTIONS {
        TakeSlotFor(a, i, key);
      }
      return 0;
    }

    /** What the requester is answered, and the slot that is taken for the key, if one is. */
    method PlaceFor(a: nat, key: Key) returns (port: nat, i: nat)
      requires Valid() && a < |connections|
      ensures port == AnsweredPort(connections, a, key)
      ensures if TakesSlot(connections, a, key) then i == FirstUnused(connections[a].slots, 0) else i == NUM_CLIENT_CONNECTIONS
    {
      if key == connections[a].publicKey {
        return 0, NUM_CLIENT_CONNECTIONS;
      }
      var named, unused := ScanSlots(a, key);
      NamedHasKey(connections, a, key);
      if named < NUM_CLIENT_CONNECTIONS {
        return named + NUM_RESERVED_PORTS, NUM_CLIENT_CONNECTIONS;
      }
      if unused == NUM_CLIENT_CONNECTIONS {
        return 0, NUM_CLIENT_CONNECTIONS;
      }
      return unused + NUM_RESERVED_PORTS, unused;
    }

    /** handle_TCP_oob_send: data for a key goes to whoever is connected with that key, if anyone is. */
    method HandleOobSend(a: nat, key: Key, payload: seq<byte>) returns (r: int)
      requires Valid() && a < |connections| && |key| == KEY_BYTES
      modifies this`outbox
      ensures Valid() && r == if 0 < |payload| <= MAX_OOB_DATA_LENGTH then 0 else -1
      ensures var b := FindConnection(connections, key, 0);
        outbox == old(outbox) + if r == 0 && b < |connections| then [Sent(b, OobRecv(connections[a].publicKey, payload))] else []
    {
      if |payload| == 0 || |payload| > MAX_OOB_DATA_LENGTH {
        return -1;
      }
      var other := GetConnectionIndex(key);
      if other != -1 {
        outbox := outbox + [Sent(other, OobRecv(connections[a].publicKey, payload))];
      }
      return 0;
    }

    /** The default case of handle_TCP_packet: data on a link is passed to the other end of the link. written
        is what writing it there comes to. */
    method ForwardData(a: nat, data: seq<byte>, written: int) returns (r: int)
      requires Valid() && a < |connections| && |data| > 0
      modifies this`outbox
      ensures Valid()
      ensures outbox == old(outbox) + Forwarded(connections, a, data)
      ensures r == if Refused(connections, a, data[0], written) then -1 else 0
    {
      if data[0] < NUM_RESERVED_PORTS {
        return -1;
      }
      var c: nat := data[0] - NUM_RESERVED_PORTS;
      if c >= NUM_CLIENT_CONNECTIONS {
        return -1;
      }
      var s := connections[a].slots[c];
      if s.status == Unused {
        return -1;
      }
      if s.status != Online {
        return 0;
      }
      outbox := outbox + [Sent(s.index, Data(s.otherId + NUM_RESERVED_PORTS, data[1..]))];
      if written == -1 {
        return -1;
      }
      return 0;
    }

    /** A disconnect notification for a port: the port number minus 16, as a byte. */
    method HandleDisconnect(a: nat, port: byte) returns (r: int)
      requires Valid() && a < |connections|
      modifies this`connections, this`outbox
      ensures Valid() && r == if RefusesDisconnect(old(connections), a, port) then -1 else 0
      ensures connections == AfterDisconnect(old(connections), a, port)
      ensures outbox == old(outbox) + DisconnectOutput(old(connections), a, port)
    {
      r := RemoveConnectionIndex(a, if port < NUM_RESERVED_PORTS then port + 256 - NUM_RESERVED_PORTS else port - NUM_RESERVED_PORTS);
    }

    /** handle_TCP_packet. written is what writing the answer, or the forwarded data, comes to. */
    method HandlePacket(a: nat, data: seq<byte>, written: int) returns (r: int)
      requires Valid() && a < |connections| && connections[a].confirmed
      modifies this`connections, this`outbox
      ensures Valid() && r == if Refuses(old(connections), a, data, written, onion) then -1 else 0
      ensures connections == AfterPacket(old(connections), a, data, written)
      ensures outbox == old(outbox) + Output(old(connections), a, data, written)
    {
      if |data| == 0 {
        return -1;
      }
      if data[0] == 0 {
        if |data| != 1 + KEY_BYTES {
          return -1;
        }
        r := HandleRoutingRequest(a, data[1..], written);
      } else if data[0] == 2 {
        return if |data| != 2 then -1 else 0;
      } else if data[0] == 3 {
        if |data| != 2 {
          return -1;
        }
        r := HandleDisconnect(a, data[1]);
      } else if data[0] == 4 {
        if |data| != 9 {
          return -1;
        }
        outbox := outbox + [Sent(a, Pong(data[1..]))];
        return 0;
      } else if data[0] == 5 {
        return if |data| != 9 || Value(data[1..]) == 0 then -1 else 0;
      } else if data[0] == 6 {
        if |data| <= 1 + KEY_BYTES {
          return -1;
        }
        r := HandleOobSend(a, data[1..1 + KEY_BYTES], data[1 + KEY_BYTES..]);
      } else if data[0] == 8 {
        return if onion && |data| <= 1 + Nonce.NONCE_BYTES + ONION_SEND_BASE * 2 then -1 else 0;
      } else if data[0] == 9 {
        return -1;
      } else {
        r := ForwardData(a, data, written);
      }
    }

    /** What the server does with a packet from a confirmed connection: exactly when the packet is refused the
        connection is killed, and the peers of its links are told. */
    method Receive(a: nat, data: seq<byte>, written: int)
      requires Valid() && a < |connections| && connections[a].confirmed
      modifies this`connections, this`numAccepted, this`outbox, keys, keys.data, keys.ids
      ensures Valid()
      ensures var t := AfterPacket(old(connections), a, data, written);
        && Good(t) && a < |t|
        && if Refuses(old(connections), a, data, written, onion) then
             && connections == Without(t, a)
             && outbox == old(outbox) + Output(old(connections), a, data, written) + AllFarewells(t, a)
           else connections == t && outbox == old(outbox) + Output(old(connections), a, data, written)
    {
      var r := HandlePacket(a, data, written);
      AfterPacketSame(old(connections), a, data, written);
      if r == -1 {
        var _ := KillAccepted(a);
      }
    }
  }

  // ---------- Packets ----------

  /** A request that takes a slot: for another key, which has none yet, and with room for it. */
  predicate TakesSlot(t: Table, a: nat, key: Key)
    requires a < |t|
  {
    key != t[a].publicKey && !HasKey(t[a].slots, key) && FirstUnused(t[a].slots, 0) < |t[a].slots|
  }

  /** The answer to a routing request, and the notifications when it makes a link. */
  function RequestOutput(t: Table, a: nat, key: Key, response: int): seq<Sent>
    requires Good(t) && a < |t| && t[a].confirmed
  {
    RequestGood(t, a, key);
    [Sent(a, RoutingResponse(AnsweredPort(t, a, key), key))]
      + if response == 0 || response == -1 || !TakesSlot(t, a, key) then []
        else LinkNews(t, Request(t, a, key), a, FirstUnused(t[a].slots, 0))
  }

  lemma {:induction false} NamedHasKey(t: Table, a: nat, key: Key)
    requires a < |t|
    ensures HasKey(t[a].slots, key) <==> FirstNaming(t[a].slots, key, 0) < |t[a].slots|
  {
  }

  function OobOutput(t: Table, a: nat, key: Key, payload: seq<byte>): seq<Sent>
    requires a < |t|
  {
    var b := FindConnection(t, key, 0);
    if 0 < |payload| <= MAX_OOB_DATA_LENGTH && b < |t| then [Sent(b, OobRecv(t[a].publicKey, payload))] else []
  }

  function DisconnectOutput(t: Table, a: nat, port: byte): seq<Sent>
    requires a < |t| && |t[a].slots| == NUM_CLIENT_CONNECTIONS
  {
    if port < NUM_RESERVED_PORTS then [] else Farewell(t, a, port - NUM_RESERVED_PORTS)
  }

  /** What the server sends for a packet. */
  function Output(t: Table, a: nat, data: seq<byte>, written: int): seq<Sent>
    requires Good(t) && a < |t| && t[a].confirmed
  {
    if |data| == 0 then []
    else if data[0] == 0 then if |data| == 1 + KEY_BYTES then RequestOutput(t, a, data[1..], written) else []
    else if data[0] == 3 then if |data| == 2 then DisconnectOutput(t, a, data[1]) else []
    else if data[0] == 4 then if |data| == 9 then [Sent(a, Pong(data[1..]))] else []
    else if data[0] == 6 then
      if |data| > 1 + KEY_BYTES then OobOutput(t, a, data[1..1 + KEY_BYTES], data[1 + KEY_BYTES..]) else []
    else Forwarded(t, a, data)
  }

  /** A disconnect notification for a port that no slot in use has. */
  predicate RefusesDisconnect(t: Table, a: nat, port: byte)
    requires a < |t| && |t[a].slots| == NUM_CLIENT_CONNECTIONS
  {
    port < NUM_RESERVED_PORTS || t[a].slots[port - NUM_RESERVED_PORTS].status == Unused
  }

  /** The packets that cost their sender the connection. */
  predicate Refuses(t: Table, a: nat, data: seq<byte>, written: int, onion: bool)
    requires a < |t| && |t[a].slots| == NUM_CLIENT_CONNECTIONS
  {
    if |data| == 0 then true
    else if data[0] == 0 then |data| != 1 + KEY_BYTES || written == -1
    else if data[0] == 2 then |data| != 2
    else if data[0] == 3 then |data| != 2 || RefusesDisconnect(t, a, data[1])
    else if data[0] == 4 then |data| != 9
    else if data[0] == 5 then |data| != 9 || Value(data[1..]) == 0
    else if data[0] == 6 then |data| <= 1 + KEY_BYTES || |data| - (1 + KEY_BYTES) > MAX_OOB_DATA_LENGTH
    else if data[0] == 8 then onion && |data| <= 1 + Nonce.NONCE_BYTES + ONION_SEND_BASE * 2
    else Refused(t, a, data[0], written)
  }

  /** The data that goes out for data coming in on connection a: to the other end of the link, with the
      port of that end in front. */
  function Forwarded(t: Table, a: nat, data: seq<byte>): seq<Sent>
    requires a < |t| && |t[a].slots| == NUM_CLIENT_CONNECTIONS && |data| > 0
  {
    if data[0] >= NUM_RESERVED_PORTS && t[a].slots[data[0] - NUM_RESERVED_PORTS].status == Online then
      var (b, j) := RelayTable.Route(t, a, data[0] - NUM_RESERVED_PORTS);
      [Sent(b, Data(j + NUM_RESERVED_PORTS, data[1..]))]
    else []
  }

  /** Data that costs its sender the connection: for a port or slot that is not in use, or that cannot be
      written at the other end of a link. */
  predicate Refused(t: Table, a: nat, port: byte, written: int)
    requires a < |t| && |t[a].slots| == NUM_CLIENT_CONNECTIONS
  {
    port < NUM_RESERVED_PORTS ||
    var s := t[a].slots[port - NUM_RESERVED_PORTS];
    s.status == Unused || (s.status == Online && written == -1)
  }

  function AfterDisconnect(t: Table, a: nat, port: byte): Table
    requires Good(t) && a < |t|
  {
    if port < NUM_RESERVED_PORTS then t else RemoveSlot(t, a, port - NUM_RESERVED_PORTS)
  }

  /** Only routing requests and disconnect notifications change the table. */
  function AfterPacket(t: Table, a: nat, data: seq<byte>, written: int): Table
    requires Good(t) && a < |t|
  {
    if |data| == 1 + KEY_BYTES && data[0] == 0 && written != 0 && written != -1 then Request(t, a, data[1..])
    else if |data| == 2 && data[0] == 3 then AfterDisconnect(t, a, data[1])
    else t
  }

  lemma {:induction false} AfterPacketSame(t: Table, a: nat, data: seq<byte>, written: int)
    requires Good(t) && a < |t| && t[a].confirmed
    ensures SameConnections(t, AfterPacket(t, a, data, written))
  {
    if |data| == 1 + KEY_BYTES && data[0] == 0 {
      RequestSame(t, a, data[1..]);
    } else if |data| == 2 && data[0] == 3 && NUM_RESERVED_PORTS <= data[1] {
      RemoveSlotKeeps(t, a, data[1] - NUM_RESERVED_PORTS);
    }
  }

  lemma {:induction false} RequestSame(t: Table, a: nat, key: Key)
    requires Good(t) && a < |t| && t[a].confirmed
    ensures SameConnections(t, Request(t, a, key))
  {
  }

  /** Data put on a link comes out at the peer that the link names, on its port for the sender; and what the
      peer puts on that port comes out at the sender, on the port the first data was put on. */
  lemma {:induction false} ThereAndBack(t: Table, a: nat, port: byte, there: seq<byte>, back: seq<byte>)
    returns (b: nat, port': byte)
    requires Good(t) && a < |t| && port >= NUM_RESERVED_PORTS && IsOnline(t, a, port - NUM_RESERVED_PORTS)
    ensures b < |t| && t[b].publicKey == t[a].slots[port - NUM_RESERVED_PORTS].publicKey
    ensures Forwarded(t, a, [port] + there) == [Sent(b, Data(port', there))]
    ensures |t[b].slots| == NUM_CLIENT_CONNECTIONS && Forwarded(t, b, [port'] + back) == [Sent(a, Data(port, back))]
  {
    DataReachesPeerAndReplyReturns(t, a, port - NUM_RESERVED_PORTS);
    var (c, j) := RelayTable.Route(t, a, port - NUM_RESERVED_PORTS);
    b, port' := c, j + NUM_RESERVED_PORTS;
    assert ([port] + there)[1..] == there && ([port'] + back)[1..] == back;
  }

  /** A request that takes slot i, with or without a link. */
  lemma {:induction false} RequestIs(t: Table, a: nat, i: nat, key: Key)
    requires Good(t) && a < |t| && t[a].confirmed
    requires key != t[a].publicKey && !HasKey(t[a].slots, key) && i == FirstUnused(t[a].slots, 0) < NUM_CLIENT_CONNECTIONS
    ensures var t', b := Request(t, a, key), FindConnection(t, key, 0);
      && Good(t') && SameConnections(t, t')
      && var j := if b < |t| then FirstWaiting(t[b].slots, t[a].publicKey, 0) else NUM_CLIENT_CONNECTIONS;
         if j < NUM_CLIENT_CONNECTIONS then
           && a != b && t' == TakeAndLink(t, a, i, key, b, j)
           && LinkNews(t, t', a, i) == [Sent(a, ConnectNotification(i + NUM_RESERVED_PORTS)),
                                        Sent(b, ConnectNotification(j + NUM_RESERVED_PORTS))]
         else t' == TakeSlot(t, a, i, key) && LinkNews(t, t', a, i) == []
  {
    RequestGood(t, a, key);
  }

  lemma {:induction false} RoomyAbsent(t: Table, key: Key)
    requires KeyAbsent(t, key)
    ensures KeyAbsent(Roomy(t), key)
  {
  }

  /** The table with room for one more connection. */
  function Roomy(t: Table): Table {
    if Confirmed(t) == |t| then Grow(t, 4) else t
  }

  /** The table without the connection of key, if there was one. */
  function WithoutKey(t: Table, key: Key): Table
    requires Good(t)
  {
    var b := FindConnection(t, key, 0);
    if b < |t| then Without(t, b) else t
  }

  lemma {:induction false} KillClears(t: Table, a: nat)
    requires Good(t) && a < |t| && t[a].confirmed
    ensures KeyAbsent(Without(t, a), t[a].publicKey)
  {
    KillGood(t, a);
  }

  lemma {:induction false} KillsOld(t: Table, key: Key, a: nat)
    requires Good(t) && a == FindConnection(t, key, 0) < |t|
    ensures WithoutKey(t, key) == Without(t, a) && OldFarewells(t, key) == AllFarewells(t, a)
    ensures KeyAbsent(Without(t, a), key)
  {
    KillClears(t, a);
  }

  lemma {:induction false} AcceptKeeps(t: Table, m: map<Key, int>, index: nat, key: Key)
    requires Good(t) && KeysSized(t) && Indexes(m, t) && index < |t| && !t[index].confirmed
    requires KeyAbsent(t, key) && |key| == KEY_BYTES
    ensures key !in m
    ensures var t' := Accept(t, index, key);
      Good(t') && KeysSized(t') && Indexes(m[key := index], t') && Confirmed(t') == Confirmed(t) + 1
  {
    AcceptGood(t, index, key);
    ConfirmedUpdate(t, index, EmptyConnection().(confirmed := true, publicKey := key));
  }

  /** realloc_connection to nothing, once nothing is confirmed. */
  function Shrunk(t: Table): Table {
    if Confirmed(t) == 0 then [] else t
  }

  /** Where there is no connection, no slot is in use. */
  lemma {:induction false} NothingToUnlink(t: Table, a: nat, n: nat)
    requires Good(t) && a < |t| && !t[a].confirmed && n <= NUM_CLIENT_CONNECTIONS
    ensures RemoveSlots(t, a, n) == t && |t[a].slots| == NUM_CLIENT_CONNECTIONS && Farewells(t, a, n) == []
  {
    if n != 0 {
      NothingToUnlink(t, a, n - 1);
    }
  }

  lemma {:induction false} Wiped(t: Table, m: map<Key, int>, index: nat)
    requires Good(t) && KeysSized(t) && Indexes(m, t) && index < |t| && t[index].confirmed
    requires forall i :: 0 <= i < NUM_CLIENT_CONNECTIONS ==> t[index].slots[i].status == Unused
    ensures var t' := t[index := EmptyConnection()];
      && Good(t') && KeysSized(t') && Indexes(m - {t[index].publicKey}, t') && Confirmed(t') == Confirmed(t) - 1
  {
    WipeGood(t, index);
    ConfirmedUpdate(t, index, EmptyConnection());
  }

  lemma {:induction false} EmptyTable(m: map<Key, int>, t: Table)
    requires Indexes(m, t) && Confirmed(t) == 0
    ensures Indexes(m, []) && Good([]) && Confirmed([]) == 0
  {
    forall k | k in m ensures false {
      NoneConfirmed(t, m[k]);
    }
  }

  lemma {:induction false} PartnerExists(t: Table, a: nat, i: nat)
    requires Good(t) && IsOnline(t, a, i)
    ensures var (b, j) := RelayTable.Route(t, a, i);
      b < |t| && j < NUM_CLIENT_CONNECTIONS && |t[b].slots| == NUM_CLIENT_CONNECTIONS
  {
    assert Paired(t, a, i);
  }

  /** What the peer of slot i is told when the slot is removed. */
  function Farewell(t: Table, a: nat, i: nat): seq<Sent>
    requires a < |t| && i < |t[a].slots|
  {
    if t[a].slots[i].status == Online then
      var (b, j) := RelayTable.Route(t, a, i);
      [Sent(b, DisconnectNotification(j + NUM_RESERVED_PORTS))]
    else []
  }

  /** What the peers of a connection are told when all its slots are removed: each peer of a link once. */
  function Farewells(t: Table, a: nat, n: nat): seq<Sent>
    requires a < |t| && n <= |t[a].slots|
  {
    if n == 0 then [] else Farewells(t, a, n - 1) + Farewell(t, a, n - 1)
  }

  function AllFarewells(t: Table, a: nat): seq<Sent>
    requires a < |t|
  {
    Farewells(t, a, |t[a].slots|)
  }

  lemma {:induction false} FarewellsNext(sent: seq<Sent>, t: Table, a: nat, n: nat)
    requires Good(t) && a < |t| && n < NUM_CLIENT_CONNECTIONS
    ensures var u := RemoveSlots(t, a, n);
      |u[a].slots| == NUM_CLIENT_CONNECTIONS && sent + Farewells(t, a, n) + Farewell(u, a, n) == sent + Farewells(t, a, n + 1)
  {
    LaterSlots(t, a, n, n);
  }

  /** What is sent when an old connection gives way to a new one of the same key. */
  function OldFarewells(t: Table, key: Key): seq<Sent>
    requires Good(t)
  {
    var b := FindConnection(t, key, 0);
    if b < |t| then AllFarewells(t, b) else []
  }
}
