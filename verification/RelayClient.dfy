/** What the relay means to its clients (TCP_client.c): which of their packets it takes, what the ports in its answers
    stand for, and who is told of what. */
module RelayClient {
  import opened Bytes
  import opened RelayTable
  import opened RelayServer

  // ---------- Routing requests ----------

  /** Connection a has a slot for key, or room for one. */
  ghost predicate HasRoom(t: Table, a: nat, key: Key) {
    (exists i: nat :: Holds(t, a, i, key)) || exists i: nat :: IsSlot(t, a, i) && t[a].slots[i].status == Unused
  }

  /** The port that a request is answered with is that of a slot for the key; it is 0 exactly when there can be none. */
  lemma {:induction false} PortIsHeld(t: Table, a: nat, key: Key)
    requires Good(t) && a < |t| && t[a].confirmed
    ensures var port := AnsweredPort(t, a, key);
      if key != t[a].publicKey && HasRoom(t, a, key) then 16 <= port < 256 && Holds(Request(t, a, key), a, port - 16, key)
      else port == 0
  {
    NamedHasKey(t, a, key);
    RequestGood(t, a, key);
    var slots := t[a].slots;
    if FirstNaming(slots, key, 0) < |slots| {
      assert Holds(t, a, FirstNaming(slots, key, 0), key);
    } else if FirstUnused(slots, 0) < |slots| {
      assert IsSlot(t, a, FirstUnused(slots, 0));
    }
  }

  /** Data put on the answered port comes out at the peer with that key, as soon as the slot is linked, which is when
      the peer holds a slot for this connection. */
  lemma {:induction false} PortReaches(t: Table, a: nat, key: Key, data: seq<byte>)
    requires Good(t) && a < |t| && t[a].confirmed && key != t[a].publicKey && HasRoom(t, a, key)
    ensures var t', port := Request(t, a, key), AnsweredPort(t, a, key);
      && Good(t') && 16 <= port < 256
      && (IsOnline(t', a, port - 16) <==>
            exists b: nat, j: nat :: b < |t'| && t'[b].publicKey == key && Holds(t', b, j, t'[a].publicKey))
      && (IsOnline(t', a, port - 16) ==>
            exists b: nat, port': nat :: b < |t'| && t'[b].confirmed && t'[b].publicKey == key
                                     && Forwarded(t', a, [port] + data) == [Sent(b, Data(port', data))])
  {
    var t', port := Request(t, a, key), AnsweredPort(t, a, key);
    RequestGood(t, a, key);
    PortIsHeld(t, a, key);
    var i := port - 16;
    assert Holds(t', a, i, key);
    if IsOnline(t', a, i) {
      DataReachesPeerAndReplyReturns(t', a, i);
      var (b, j) := RelayTable.Route(t', a, i);
      assert Holds(t', b, j, t'[a].publicKey);
      var c, port' := ThereAndBack(t', a, port, data, data);
      assert c == b;
      assert Forwarded(t', a, [port] + data) == [Sent(b, Data(port', data))];
    } else {
      forall b: nat, j: nat | b < |t'| && t'[b].publicKey == key && Holds(t', b, j, t'[a].publicKey) ensures false {
        assert Mutual(t', a, i, b, j);
      }
    }
  }

  /** The notifications for a request: each end of a new link is told its own port, and nobody is told anything else. */
  lemma {:induction false} NewsExactly(t: Table, a: nat, key: Key, c: nat, k: nat)
    requires Good(t) && a < |t| && t[a].confirmed && TakesSlot(t, a, key)
    requires c < |t| && k < NUM_CLIENT_CONNECTIONS
    ensures var t', i := Request(t, a, key), FirstUnused(t[a].slots, 0);
      && |t'| == |t| && |t'[a].slots| == NUM_CLIENT_CONNECTIONS
      && (Sent(c, ConnectNotification(k + 16)) in LinkNews(t, t', a, i) <==> IsOnline(t', c, k) && !IsOnline(t, c, k))
  {
    var i := FirstUnused(t[a].slots, 0);
    RequestGood(t, a, key);
    RequestIs(t, a, i, key);
    assert CanTake(t, a, i, key);
    var b := FindConnection(t, key, 0);
    var j := if b < |t| then FirstWaiting(t[b].slots, t[a].publicKey, 0) else NUM_CLIENT_CONNECTIONS;
    if j < NUM_CLIENT_CONNECTIONS {
      assert Holds(t, b, j, t[a].publicKey);
      TakeAndLinkAt(t, a, i, key, b, j, c, k);
    }
  }

  // ---------- Links that end ----------

  /** When a slot is removed, the other end of its link is told its own port, and nobody is told anything else. */
  lemma {:induction false} FarewellExactly(t: Table, a: nat, i: nat, c: nat, k: nat)
    requires Good(t) && a < |t| && i < NUM_CLIENT_CONNECTIONS && c < |t| && k < NUM_CLIENT_CONNECTIONS
    ensures Sent(c, DisconnectNotification(k + 16)) in Farewell(t, a, i) <==>
              (c, k) != (a, i) && IsOnline(t, c, k) && !IsOnline(RemoveSlot(t, a, i), c, k)
  {
    RemoveSlotAt(t, a, i, c, k);
    if IsOnline(t, a, i) {
      DataReachesPeerAndReplyReturns(t, a, i);
    }
  }

  /** When all slots of a connection are removed, so is everybody who has a link with it. */
  lemma {:induction false} FarewellsExactly(t: Table, a: nat, n: nat, c: nat, k: nat)
    requires Good(t) && a < |t| && n <= NUM_CLIENT_CONNECTIONS && c < |t| && k < NUM_CLIENT_CONNECTIONS
    ensures Sent(c, DisconnectNotification(k + 16)) in Farewells(t, a, n) <==>
              IsOnline(t, c, k) && RelayTable.Route(t, c, k).0 == a && RelayTable.Route(t, c, k).1 < n
  {
    if IsOnline(t, c, k) {
      DataReachesPeerAndReplyReturns(t, c, k);
    }
    if n != 0 {
      FarewellsExactly(t, a, n - 1, c, k);
      if IsOnline(t, a, n - 1) {
        DataReachesPeerAndReplyReturns(t, a, n - 1);
      }
    }
  }

  lemma {:induction false} RemovedHolds(t: Table, a: nat, n: nat, c: nat, k: nat, key: Key)
    requires Good(t) && a < |t| && n <= NUM_CLIENT_CONNECTIONS
    ensures Holds(RemoveSlots(t, a, n), c, k, key) <==> Holds(t, c, k, key) && !(c == a && k < n)
  {
    if n != 0 {
      var u := RemoveSlots(t, a, n - 1);
      assert RemoveSlots(t, a, n) == RemoveSlot(u, a, n - 1);
      RemovedHolds(t, a, n - 1, c, k, key);
      RemoveSlotHolds(u, a, n - 1, c, k, key);
    }
  }

  /** When a connection is killed it is gone, and every other one keeps its place, its key and its slots. */
  lemma {:induction false} KilledAlone(t: Table, a: nat, c: nat)
    requires Good(t) && a < |t| && c < |t| && t[c].confirmed
    ensures var t' := Without(t, a);
      && (c != a ==> c < |t'| && t'[c].confirmed && t'[c].publicKey == t[c].publicKey)
      && (c != a ==> forall k: nat, key :: Holds(t', c, k, key) <==> Holds(t, c, k, key))
      && (a < |t'| ==> !t'[a].confirmed)
  {
    KillGood(t, a);
    var u := Kill(t, a);
    if c != a {
      if Confirmed(u) == 0 {
        NoneConfirmed(u, c);
      }
      forall k: nat, key ensures Holds(u, c, k, key) <==> Holds(t, c, k, key) {
        RemovedHolds(t, a, |t[a].slots|, c, k, key);
      }
    }
  }

  /** Room is made only when there is none, and then there is some; what is there stays. */
  lemma {:induction false} RoomIsMade(t: Table)
    ensures var t' := Roomy(t);
      && t <= t' && (t' == t || (|t'| == |t| + 4 && forall a :: 0 <= a < |t| ==> t[a].confirmed))
      && exists a :: 0 <= a < |t'| && !t'[a].confirmed
  {
    if Confirmed(t) == |t| {
      assert !Roomy(t)[|t|].confirmed;
      if a :| 0 <= a < |t| && !t[a].confirmed {
        NotAllConfirmed(t, a);
      }
    } else if forall a :: 0 <= a < |t| ==> t[a].confirmed {
      AllConfirmed(t);
    }
  }

  lemma {:induction false} NotAllConfirmed(t: Table, a: nat)
    requires a < |t| && !t[a].confirmed
    ensures Confirmed(t) < |t|
  {
    if a != 0 {
      NotAllConfirmed(t[1..], a - 1);
    }
  }

  /** A disconnect request frees the slot of its port, and leaves every other slot to its owner. */
  lemma {:induction false} DisconnectFrees(t: Table, a: nat, port: byte, c: nat, k: nat, key: Key)
    requires Good(t) && a < |t|
    ensures Good(AfterDisconnect(t, a, port))
    ensures Holds(AfterDisconnect(t, a, port), c, k, key) <==> Holds(t, c, k, key) && !(c == a && k + 16 == port)
  {
    if port >= NUM_RESERVED_PORTS {
      RemoveSlotGood(t, a, port - NUM_RESERVED_PORTS);
      RemoveSlotHolds(t, a, port - NUM_RESERVED_PORTS, c, k, key);
    }
  }

  // ---------- The packets of a client ----------

  /** What TCP_client.c sends; slots are numbered from 0. */
  datatype ClientPacket =
    | RoutingRequest(key: Key)
    | DisconnectRequest(slot: nat)
    | PingRequest(id: seq<byte>)
    | PingResponse(id: seq<byte>)
    | OobPacket(key: Key, payload: seq<byte>)
    | OnionRequest(data: seq<byte>)
    | ToPeer(slot: nat, data: seq<byte>)

  predicate WellFormed(p: ClientPacket) {
    match p
    case RoutingRequest(key) => |key| == KEY_BYTES
    case DisconnectRequest(slot) => slot < 240
    case PingRequest(id) => |id| == 8
    case PingResponse(id) => |id| == 8 && exists i :: 0 <= i < 8 && id[i] != 0
    case OobPacket(key, payload) => |key| == KEY_BYTES && 1 <= |payload| <= 1024
    case OnionRequest(data) => true
    case ToPeer(slot, data) => slot < 240
  }

  function Encoded(p: ClientPacket): seq<byte>
    requires WellFormed(p)
  {
    match p
    case RoutingRequest(key) => [0] + key
    case DisconnectRequest(slot) => [3, slot + 16]
    case PingRequest(id) => [4] + id
    case PingResponse(id) => [5] + id
    case OobPacket(key, payload) => [6] + key + payload
    case OnionRequest(data) => [8] + data
    case ToPeer(slot, data) => [slot + 16] + data
  }

  /** What the relay asks for besides: that the slot is in use, that what it writes for the packet can be written, and
      that there is room for an onion packet if it passes these on. */
  ghost predicate Welcome(t: Table, a: nat, p: ClientPacket, written: int, onion: bool) {
    match p
    case RoutingRequest(_) => written != -1
    case DisconnectRequest(slot) => exists key :: Holds(t, a, slot, key)
    case OnionRequest(data) => onion ==> |data| > 24 + 2 * 67
    case ToPeer(slot, _) => (exists key :: Holds(t, a, slot, key)) && (IsOnline(t, a, slot) ==> written != -1)
    case _ => true
  }

  /** The packet of a client that data is, if it is any. */
  function Decoded(data: seq<byte>): ClientPacket
    requires |data| > 0
  {
    var rest := data[1..];
    if data[0] == 0 then RoutingRequest(rest)
    else if data[0] == 3 && |data| == 2 && data[1] >= 16 then DisconnectRequest(data[1] - 16)
    else if data[0] == 4 then PingRequest(rest)
    else if data[0] == 5 then PingResponse(rest)
    else if data[0] == 6 && |data| > 33 then OobPacket(data[1..33], data[33..])
    else if data[0] == 8 then OnionRequest(rest)
    else if data[0] >= 16 then ToPeer(data[0] - 16, rest)
    else DisconnectRequest(240)
  }

  lemma {:induction false} DecodedEncoded(p: ClientPacket)
    requires WellFormed(p)
    ensures |Encoded(p)| > 0 && Decoded(Encoded(p)) == p
  {
    var data := Encoded(p);
    match p {
      case OobPacket(key, payload) =>
        assert data[1..33] == key && data[33..] == payload;
      case DisconnectRequest(slot) =>
      case RoutingRequest(key) => assert data[1..] == key;
      case PingRequest(id) => assert data[1..] == id;
      case PingResponse(id) => assert data[1..] == id;
      case OnionRequest(d) => assert data[1..] == d;
      case ToPeer(slot, d) => assert data[1..] == d;
    }
  }

  lemma {:induction false} EncodedDecoded(data: seq<byte>)
    requires |data| > 0 && WellFormed(Decoded(data))
    ensures Encoded(Decoded(data)) == data
  {
    assert data == [data[0]] + data[1..];
    if data[0] == 6 && |data| > 33 {
      assert data == [6] + data[1..33] + data[33..];
    }
  }

  /** The relay keeps exactly those connections whose packets a client sends, as long as they are welcome; and it
      ignores a packet of kind 2, which only has to have the right length. */
  lemma {:induction false} KeptExactly(t: Table, a: nat, data: seq<byte>, written: int, onion: bool)
    requires Good(t) && a < |t| && t[a].confirmed
    ensures !Refuses(t, a, data, written, onion) <==>
              |data| > 0 && if data[0] == 2 then |data| == 2
                            else WellFormed(Decoded(data)) && Welcome(t, a, Decoded(data), written, onion)
  {
    if |data| == 0 || data[0] == 2 {
    } else if data[0] == 5 {
      ZeroValue(data[1..]);
    } else if data[0] == 3 && |data| == 2 && data[1] >= 16 {
      InUse(t, a, data[1] - 16);
    } else if data[0] >= 16 {
      InUse(t, a, data[0] - 16);
    }
  }

  lemma {:induction false} InUse(t: Table, a: nat, slot: nat)
    requires Good(t) && a < |t| && t[a].confirmed && slot < NUM_CLIENT_CONNECTIONS
    ensures t[a].slots[slot].status != Unused <==> exists key :: Holds(t, a, slot, key)
  {
    if t[a].slots[slot].status != Unused {
      assert Holds(t, a, slot, t[a].slots[slot].publicKey);
    }
  }

  /** What each of them is answered, and what becomes of the table. */
  lemma {:induction false} Served(t: Table, a: nat, p: ClientPacket, written: int)
    requires Good(t) && a < |t| && t[a].confirmed && WellFormed(p)
    ensures Output(t, a, Encoded(p), written) ==
      match p
      case RoutingRequest(key) => RequestOutput(t, a, key, written)
      case DisconnectRequest(slot) => Farewell(t, a, slot)
      case PingRequest(id) => [Sent(a, Pong(id))]
      case OobPacket(key, payload) => OobOutput(t, a, key, payload)
      case ToPeer(slot, data) => Forwarded(t, a, [slot + 16] + data)
      case _ => []
    ensures AfterPacket(t, a, Encoded(p), written) ==
      match p
      case RoutingRequest(key) => if written == 0 || written == -1 then t else Request(t, a, key)
      case DisconnectRequest(slot) => AfterDisconnect(t, a, slot + 16)
      case _ => t
  {
    var data := Encoded(p);
    match p {
      case OobPacket(key, payload) => assert data[1..33] == key && data[33..] == payload;
      case RoutingRequest(key) => assert data[1..] == key;
      case PingRequest(id) => assert data[1..] == id;
      case _ =>
    }
  }

  /** Data for a key goes to whoever is connected with that key, under the key of the sender; to nobody if nobody is. */
  lemma {:induction false} OobReaches(t: Table, a: nat, key: Key, payload: seq<byte>, b: nat)
    requires Good(t) && a < |t| && 1 <= |payload| <= 1024 && b < |t|
    ensures t[b].confirmed && t[b].publicKey == key ==>
      OobOutput(t, a, key, payload) == [Sent(b, OobRecv(t[a].publicKey, payload))]
    ensures KeyAbsent(t, key) ==> OobOutput(t, a, key, payload) == []
  {
  }

  /** A request is answered first, and nothing more is sent when the answer could not be written or no slot is taken;
      otherwise each end of the new link is told its port, if there is one. */
  lemma {:induction false} RequestAnswered(t: Table, a: nat, key: Key, written: int, c: nat, k: nat)
    requires Good(t) && a < |t| && t[a].confirmed && c < |t| && k < NUM_CLIENT_CONNECTIONS
    ensures var out := RequestOutput(t, a, key, written);
      var t' := if written == 0 || written == -1 then t else Request(t, a, key);
      && |out| >= 1 && out[0] == Sent(a, RoutingResponse(AnsweredPort(t, a, key), key))
      && (Sent(c, ConnectNotification(k + 16)) in out[1..] <==> IsOnline(t', c, k) && !IsOnline(t, c, k))
  {
    var out := RequestOutput(t, a, key, written);
    RequestGood(t, a, key);
    if written != 0 && written != -1 && TakesSlot(t, a, key) {
      NewsExactly(t, a, key, c, k);
      assert out[1..] == LinkNews(t, Request(t, a, key), a, FirstUnused(t[a].slots, 0));
    } else {
      assert out[1..] == [];
    }
  }
}
