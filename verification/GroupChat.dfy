/** A group chat in group.c: its peers, and the closest of them, kept together. */
module GroupChat {
  import opened Bytes
  import opened PeerList
  import C = GroupClosest

  datatype Changed = Nothing | ClosestAdded | ClosestRemoved

  /** Every entry is a peer, no peer has two entries, and the own key has none. */
  ghost predicate ClosestOk(own: Key, c: C.Closest, ps: seq<Peer>) {
    && |own| == KEY_BYTES && C.KeysOk(c) && C.Distinct(own, c)
    && forall pk :: C.Holds(c, pk) ==> Known(ps, pk)
  }

  ghost predicate Known(ps: seq<Peer>, pk: Key) {
    exists i :: 0 <= i < |ps| && ps[i].realPk == pk
  }

  /** No peer is left out for one that is strictly farther. */
  ghost predicate AllPlaced(own: Key, c: C.Closest, ps: seq<Peer>)
    requires |own| >= 8 && PeerList.Good(ps)
  {
    forall i :: 0 <= i < |ps| && ps[i].realPk != own ==> C.Placed(own, c, ps[i].realPk)
  }

  function Nodes(ps: seq<Peer>): (ns: seq<C.Node>)
    ensures |ns| == |ps| && forall i :: 0 <= i < |ps| ==> ns[i] == C.Node(ps[i].realPk, ps[i].tempPk)
  {
    seq(|ps|, i requires 0 <= i < |ps| => C.Node(ps[i].realPk, ps[i].tempPk))
  }

  /** The entry of pk given up. */
  function Vacated(c: C.Closest, pk: Key): (c': C.Closest) {
    seq(4, i requires 0 <= i < 4 => if c[i].Held? && c[i].node.realPk == pk then C.Vacant else c[i])
  }

  // ---------- What the operations keep ----------

  lemma {:induction false} AddedKeeps(own: Key, c: C.Closest, ps: seq<Peer>, p: Peer)
    requires ClosestOk(own, c, ps) && PeerList.Good(ps) && PeerList.Good(ps + [p]) && PeerOk(p)
    ensures var c' := C.Add(own, c, C.Node(p.realPk, p.tempPk));
      && ClosestOk(own, c', ps + [p])
      && (AllPlaced(own, c, ps) ==> AllPlaced(own, c', ps + [p]))
  {
    var node := C.Node(p.realPk, p.tempPk);
    var c', ps' := C.Add(own, c, node), ps + [p];
    C.AddDistinct(own, c, node);
    forall pk | C.Holds(c', pk) ensures Known(ps', pk) {
      C.AddOrigin(own, c, node, pk);
      if C.Holds(c, pk) {
        var i :| 0 <= i < |ps| && ps[i].realPk == pk;
        assert ps'[i].realPk == pk;
      } else {
        assert ps'[|ps|].realPk == pk;
      }
    }
    if AllPlaced(own, c, ps) {
      forall i | 0 <= i < |ps'| && ps'[i].realPk != own ensures C.Placed(own, c', ps'[i].realPk) {
        assert i < |ps| ==> ps'[i] == ps[i];
        C.AddPlaces(own, c, node, ps'[i].realPk);
      }
    }
  }

  /** A change of a peer's temporary key or name concerns nobody's place. */
  lemma {:induction false} SameKeysKeep(own: Key, c: C.Closest, ps: seq<Peer>, ps': seq<Peer>)
    requires ClosestOk(own, c, ps) && PeerList.Good(ps) && PeerList.Good(ps')
    requires |ps| == |ps'| && forall i :: 0 <= i < |ps| ==> ps[i].realPk == ps'[i].realPk
    ensures ClosestOk(own, c, ps') && (AllPlaced(own, c, ps) ==> AllPlaced(own, c, ps'))
  {
    forall pk | C.Holds(c, pk) ensures Known(ps', pk) {
      var i :| 0 <= i < |ps| && ps[i].realPk == pk;
      assert ps'[i].realPk == pk;
    }
  }

  lemma {:induction false} DeletedKeeps(own: Key, c: C.Closest, ps: seq<Peer>, i: nat)
    requires ClosestOk(own, c, ps) && PeerList.Good(ps) && i < |ps|
    ensures PeerList.Good(Delete(ps, i)) && ClosestOk(own, Vacated(c, ps[i].realPk), Delete(ps, i))
    ensures !C.Holds(c, ps[i].realPk) ==> Vacated(c, ps[i].realPk) == c
    ensures AllPlaced(own, c, ps) ==> AllPlaced(own, c, Delete(ps, i))
  {
    var c', ps', pk0 := Vacated(c, ps[i].realPk), Delete(ps, i), ps[i].realPk;
    DeleteGood(ps, i);
    assert forall k :: 0 <= k < |ps'| ==> ps'[k] in ps';
    forall pk | C.Holds(c', pk) ensures Known(ps', pk) {
      var e :| 0 <= e < 4 && c'[e].Held? && c'[e].node.realPk == pk;
      assert C.Holds(c, pk) && pk != pk0;
      var k :| 0 <= k < |ps| && ps[k].realPk == pk;
      assert ps[k] in ps';
    }
  }

  /** Offering all peers places them all. */
  lemma {:induction false} ReofferKeeps(own: Key, c: C.Closest, ps: seq<Peer>)
    requires ClosestOk(own, c, ps) && PeerList.Good(ps)
    ensures var c' := C.Offer(own, c, Nodes(ps)); ClosestOk(own, c', ps) && AllPlaced(own, c', ps)
  {
    var c', ns := C.Offer(own, c, Nodes(ps)), Nodes(ps);
    C.OfferDistinct(own, c, ns);
    forall i | 0 <= i < |ps| && ps[i].realPk != own ensures C.Placed(own, c', ps[i].realPk) {
      assert ns[i].realPk == ps[i].realPk;
      C.OfferPlaces(own, c, ns, ps[i].realPk);
    }
    forall pk | C.Holds(c', pk) ensures Known(ps, pk) {
      OfferOrigin(own, c, ps, ns, pk);
    }
  }

  lemma {:induction false} OfferOrigin(own: Key, c: C.Closest, ps: seq<Peer>, ns: seq<C.Node>, pk: Key)
    requires ClosestOk(own, c, ps) && (forall i :: 0 <= i < |ns| ==> |ns[i].realPk| >= 8 && Known(ps, ns[i].realPk))
    requires C.Holds(C.Offer(own, c, ns), pk)
    ensures Known(ps, pk)
    decreases |ns|
  {
    if ns != [] {
      var n := |ns| - 1;
      C.AddOrigin(own, C.Offer(own, c, ns[..n]), ns[n], pk);
      if pk != ns[n].realPk {
        OfferOrigin(own, c, ps, ns[..n], pk);
      }
    }
  }

  // ---------- The chat ----------

  class Group {
    const realPk: Key
    var peers: seq<Peer>
    const closest: array<C.Entry>
    var changed: Changed

    constructor (realPk: Key)
      requires |realPk| == KEY_BYTES
      ensures Valid() && this.realPk == realPk && peers == [] && changed == Nothing && fresh(closest)
    {
      this.realPk, peers, changed := realPk, [], Nothing;
      closest := new C.Entry[4](_ => C.Vacant);
    }

    /** The peers are in order, and unless an entry was given up since the last connect, every peer has its
        place among the closest or none is due to it. */
    ghost predicate Valid()
      reads this, closest
    {
      && closest.Length == 4 && PeerList.Good(peers) && ClosestOk(realPk, closest[..], peers)
      && (changed != ClosestRemoved ==> AllPlaced(realPk, closest[..], peers))
    }

    /** peer_in_chat. */
    method PeerInChat(pk: Key) returns (r: nat)
      ensures r == FindKey(peers, pk, 0)
    {
      r := 0;
      while r < |peers|
        invariant r <= |peers| && FindKey(peers, pk, 0) == FindKey(peers, pk, r)
      {
        if peers[r].realPk == pk {
          return;
        }
        r := r + 1;
      }
    }

    /** get_peer_index. */
    method GetPeerIndex(number: uint16) returns (r: nat)
      ensures r == FindNumber(peers, number, 0)
    {
      r := 0;
      while r < |peers|
        invariant r <= |peers| && FindNumber(peers, number, 0) == FindNumber(peers, number, r)
      {
        if peers[r].number == number {
          return;
        }
        r := r + 1;
      }
    }

    /** add_to_closest for this group. */
    method OfferPeer(node: C.Node)
      requires closest.Length == 4 && |realPk| == KEY_BYTES && |node.realPk| == KEY_BYTES && C.KeysOk(closest[..])
      modifies this`changed, closest
      ensures closest[..] == C.Add(realPk, old(closest[..]), node)
      ensures changed == if old(changed) == Nothing && C.Accepts(realPk, old(closest[..]), node)
                            && !C.Holds(old(closest[..]), node.realPk) then ClosestAdded else old(changed)
    {
      var held, vacant := C.Locate(closest, node.realPk);
      var ok := C.AddToClosest(realPk, closest, node);
      if ok && !held && changed == Nothing {
        changed := ClosestAdded;
      }
    }

    /** addpeer: the place of the peer in the list, or -1. */
    method AddPeer(pk: Key, tempPk: Key, number: uint16) returns (index: int)
      requires Valid() && |pk| == |tempPk| == KEY_BYTES
      modifies this`peers, this`changed, closest
      ensures Valid() && (index, peers) == Add(old(peers), pk, tempPk, number)
    {
      AddGood(peers, pk, tempPk, number);
      var i := PeerInChat(pk);
      if i < |peers| {
        SameKeysKeep(realPk, closest[..], peers, peers[i := peers[i].(tempPk := tempPk)]);
        peers := peers[i := peers[i].(tempPk := tempPk)];
        if peers[i].number != number {
          return -1;
        }
        return i;
      }
      var j := GetPeerIndex(number);
      if j < |peers| {
        return -1;
      }
      var p := Peer(pk, tempPk, number, []);
      AddedKeeps(realPk, closest[..], peers, p);
      peers := peers + [p];
      OfferPeer(C.Node(pk, tempPk));
      return |peers| - 1;
    }

    /** delpeer. */
    method DeletePeer(index: nat)
      requires Valid() && index < |peers|
      modifies this`peers, this`changed, closest
      ensures Valid() && peers == Delete(old(peers), index)
    {
      ghost var c := closest[..];
      var pk := peers[index].realPk;
      DeletedKeeps(realPk, c, peers, index);
      VacateEntry(pk);
      peers := Delete(peers, index);
    }

    /** The first loop of delpeer: the entry of the peer is given up. */
    method VacateEntry(pk: Key)
      requires closest.Length == 4 && C.Distinct(realPk, closest[..])
      modifies this`changed, closest
      ensures closest[..] == Vacated(old(closest[..]), pk)
      ensures changed == if C.Holds(old(closest[..]), pk) then ClosestRemoved else old(changed)
    {
      ghost var c: C.Closest := closest[..];
      var i := 0;
      while i < 4
        invariant 0 <= i <= 4 && closest[..] == c && changed == old(changed)
        invariant forall k :: 0 <= k < i ==> !(c[k].Held? && c[k].node.realPk == pk)
      {
        if closest[i].Held? && closest[i].node.realPk == pk {
          assert c[i].Held? && c[i].node.realPk == pk;
          closest[i] := C.Vacant;
          changed := ClosestRemoved;
          assert closest[..] == Vacated(c, pk);
          return;
        }
        i := i + 1;
      }
    }

    /** setnick. */
    method SetNick(index: nat, nick: seq<byte>) returns (r: int)
      requires Valid() && index < |peers|
      modifies this`peers
      ensures Valid()
      ensures if |nick| > MAX_NAME_LENGTH then r == -1 && peers == old(peers)
              else r == 0 && peers == old(peers)[index := old(peers)[index].(nick := nick)]
    {
      if |nick| > MAX_NAME_LENGTH {
        return -1;
      }
      var peers' := peers[index := peers[index].(nick := nick)];
      SameKeysKeep(realPk, closest[..], peers, peers');
      peers := peers';
      return 0;
    }

    /** The re-offer of connect_to_closest. */
    method ConnectToClosest()
      requires Valid()
      modifies this`changed, closest
      ensures Valid() && changed == Nothing && AllPlaced(realPk, closest[..], peers)
    {
      if changed == Nothing {
        return;
      }
      if changed == ClosestRemoved {
        ghost var c := closest[..];
        ReofferKeeps(realPk, c, peers);
        var i := 0;
        while i < |peers|
          invariant 0 <= i <= |peers| && C.KeysOk(c) && C.KeysOk(closest[..])
          invariant closest[..] == C.Offer(realPk, c, Nodes(peers)[..i])
          modifies this`changed, closest
        {
          assert Nodes(peers)[..i + 1][..i] == Nodes(peers)[..i];
          OfferPeer(C.Node(peers[i].realPk, peers[i].tempPk));
          i := i + 1;
        }
        assert Nodes(peers)[..i] == Nodes(peers);
      }
      changed := Nothing;
    }

    /** handle_send_peers, on the packet without its id. */
    method HandleSendPeers(data: seq<byte>) returns (r: int)
      requires Valid()
      modifies this`peers, this`changed, closest
      ensures Valid()
      ensures data == [] ==> r == -1 && peers == old(peers)
      ensures data != [] ==> (r == 0, peers) == Handle(old(peers), data) && (r == 0 || r == -1)
    {
      if |data| == 0 {
        return -1;
      }
      var d := data;
      while |d| >= ENTRY_HEAD
        invariant Valid() && Handle(old(peers), data) == Handle(peers, d)
        decreases |d|
      {
        var index := AddPeer(d[2..34], d[34..66], Number(d));
        if index == -1 {
          return -1;
        }
        var nameLength := d[66];
        if nameLength > |d| - ENTRY_HEAD || nameLength > MAX_NAME_LENGTH {
          return -1;
        }
        var _ := SetNick(index, d[ENTRY_HEAD..ENTRY_HEAD + nameLength]);
        d := d[ENTRY_HEAD + nameLength..];
      }
      return 0;
    }
  }
}
