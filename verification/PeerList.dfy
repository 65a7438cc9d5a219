/** The peer list of a group chat in group.c, and its transfer to a client that joins. */
module PeerList {
  import opened Bytes

  const MAX_NAME_LENGTH: nat := 128
  const ENTRY_HEAD: nat := 67              // number, two keys, length of the name
  const PACKET_SIZE: nat := 1370           // MAX_CRYPTO_DATA_SIZE - 3
  const PEER_RESPONSE_ID: byte := 9

  datatype Peer = Peer(realPk: Key, tempPk: Key, number: uint16, nick: seq<byte>)

  ghost predicate PeerOk(p: Peer) {
    |p.realPk| == |p.tempPk| == KEY_BYTES && |p.nick| <= MAX_NAME_LENGTH
  }

  /** Keys and numbers are pairwise different. */
  ghost predicate Good(ps: seq<Peer>) {
    && (forall i :: 0 <= i < |ps| ==> PeerOk(ps[i]))
    && (forall i, j :: 0 <= i < j < |ps| ==> ps[i].realPk != ps[j].realPk && ps[i].number != ps[j].number)
  }

  // ---------- Adding and deleting ----------

  /** peer_in_chat, from place i on. */
  function FindKey(ps: seq<Peer>, pk: Key, i: nat): (r: nat)
    requires i <= |ps|
    ensures i <= r <= |ps| && (r < |ps| ==> ps[r].realPk == pk)
    ensures forall k :: i <= k < r ==> ps[k].realPk != pk
    decreases |ps| - i
  {
    if i == |ps| || ps[i].realPk == pk then i else FindKey(ps, pk, i + 1)
  }

  /** get_peer_index, from place i on. */
  function FindNumber(ps: seq<Peer>, number: uint16, i: nat): (r: nat)
    requires i <= |ps|
    ensures i <= r <= |ps| && (r < |ps| ==> ps[r].number == number)
    ensures forall k :: i <= k < r ==> ps[k].number != number
    decreases |ps| - i
  {
    if i == |ps| || ps[i].number == number then i else FindNumber(ps, number, i + 1)
  }

  /** addpeer: the place of the peer, or -1, and the new list. */
  function Add(ps: seq<Peer>, realPk: Key, tempPk: Key, number: uint16): (r: (int, seq<Peer>))
    ensures -1 <= r.0 < |r.1|
  {
    var i := FindKey(ps, realPk, 0);
    if i < |ps| then (if ps[i].number != number then -1 else i, ps[i := ps[i].(tempPk := tempPk)])
    else if FindNumber(ps, number, 0) < |ps| then (-1, ps)
    else (|ps|, ps + [Peer(realPk, tempPk, number, [])])
  }

  /** delpeer: the last peer takes the place of the deleted one. */
  function Delete(ps: seq<Peer>, i: nat): seq<Peer>
    requires i < |ps|
  {
    ps[i := ps[|ps| - 1]][..|ps| - 1]
  }

  lemma {:induction false} AddGood(ps: seq<Peer>, realPk: Key, tempPk: Key, number: uint16)
    requires Good(ps) && |realPk| == |tempPk| == KEY_BYTES
    ensures Good(Add(ps, realPk, tempPk, number).1)
    ensures var (i, ps') := Add(ps, realPk, tempPk, number);
      i >= 0 ==> ps'[i].realPk == realPk && ps'[i].tempPk == tempPk && ps'[i].number == number
  {
  }

  /** Some peer has the key or the number, but not both. */
  predicate Conflicts(ps: seq<Peer>, realPk: Key, number: uint16) {
    exists k :: 0 <= k < |ps| && (ps[k].realPk == realPk) != (ps[k].number == number)
  }

  /** A peer is refused exactly when it would take the number of another or change its own; nobody else is touched. */
  lemma {:induction false} AddExactly(ps: seq<Peer>, realPk: Key, tempPk: Key, number: uint16)
    requires Good(ps)
    ensures var (i, ps') := Add(ps, realPk, tempPk, number);
      && (i == -1 <==> Conflicts(ps, realPk, number))
      && |ps| <= |ps'| && (|ps'| > |ps| <==> i == |ps|)
      && forall k :: 0 <= k < |ps| ==> ps'[k] == if ps[k].realPk == realPk then ps[k].(tempPk := tempPk) else ps[k]
  {
    var i := FindKey(ps, realPk, 0);
    assert i < |ps| && ps[i].number != number ==> Conflicts(ps, realPk, number);
    var j := FindNumber(ps, number, 0);
    assert i == |ps| && j < |ps| ==> Conflicts(ps, realPk, number);
  }

  /** Deleting removes one peer and keeps the others, each once. */
  lemma {:induction false} DeleteGood(ps: seq<Peer>, i: nat)
    requires Good(ps) && i < |ps|
    ensures Good(Delete(ps, i))
    ensures forall p :: p in Delete(ps, i) <==> p in ps && p != ps[i]
  {
    var ps', n := Delete(ps, i), |ps| - 1;
    assert forall k :: 0 <= k < n ==> ps'[k] == if k == i then ps[n] else ps[k];
    forall p | p in ps && p != ps[i] ensures p in ps' {
      var k :| 0 <= k < |ps| && ps[k] == p;
      assert k < n ==> ps'[k] == p;
      assert k == n ==> ps'[i] == p;
    }
  }

  // ---------- The transfer ----------

  /** What send_peers writes for one peer. */
  function EntryBytes(p: Peer): (s: seq<byte>)
    requires |p.nick| < 256
    ensures |s| == 3 + |p.realPk| + |p.tempPk| + |p.nick|
  {
    Spell(p.number, 2) + p.realPk + p.tempPk + [|p.nick|] + p.nick
  }

  function Entries(ps: seq<Peer>): seq<byte>
    requires forall i :: 0 <= i < |ps| ==> |ps[i].nick| < 256
  {
    if ps == [] then [] else EntryBytes(ps[0]) + Entries(ps[1..])
  }

  lemma {:induction false} EntriesSnoc(ps: seq<Peer>, p: Peer)
    requires (forall i :: 0 <= i < |ps| ==> |ps[i].nick| < 256) && |p.nick| < 256
    ensures Entries(ps + [p]) == Entries(ps) + EntryBytes(p)
  {
    if ps == [] {
      assert ps + [p] == [p];
      assert Entries([p]) == EntryBytes(p) + Entries([]);
    } else {
      assert (ps + [p])[1..] == ps[1..] + [p];
      EntriesSnoc(ps[1..], p);
    }
  }

  /** handle_send_peers on the bytes after the packet id: false when it gives up. */
  function Handle(ps: seq<Peer>, d: seq<byte>): (r: (bool, seq<Peer>))
    decreases |d|
  {
    if |d| < ENTRY_HEAD then (true, ps)
    else
      var (i, ps1) := Add(ps, d[2..34], d[34..66], Number(d));
      if i == -1 then (false, ps1)
      else
        var length := d[66];
        if length > |d| - ENTRY_HEAD || length > MAX_NAME_LENGTH then (false, ps1)
        else Handle(ps1[i := ps1[i].(nick := d[ENTRY_HEAD..ENTRY_HEAD + length])], d[ENTRY_HEAD + length..])
  }

  /** The bytes are whole entries with names of at most 128 bytes, and less than the head of one more. */
  predicate Framed(d: seq<byte>)
    decreases |d|
  {
    |d| < 67 || (d[66] <= 128 && 67 + d[66] as int <= |d| && Framed(d[67 + d[66] as int..]))
  }

  /** Nothing else is read to the end. */
  lemma {:induction false} HandleFramed(ps: seq<Peer>, d: seq<byte>)
    requires Handle(ps, d).0
    ensures Framed(d)
    decreases |d|
  {
    if |d| >= 67 {
      var (i, ps1) := Add(ps, d[2..34], d[34..66], Number(d));
      HandleFramed(ps1[i := ps1[i].(nick := d[67..67 + d[66] as int])], d[67 + d[66] as int..]);
    }
  }

  /** And reading ends where a peer is refused. */
  lemma {:induction false} HandleRefused(ps: seq<Peer>, d: seq<byte>)
    requires Good(ps) && |d| >= 67 && Conflicts(ps, d[2..34], Number(d))
    ensures !Handle(ps, d).0
  {
    AddExactly(ps, d[2..34], d[34..66], Number(d));
  }

  function Number(d: seq<byte>): (n: uint16)
    requires |d| >= 2
  {
    assert Pow256(2) == 0x1_0000;
    Value(d[..2])
  }

  /** The parts of an entry are where handle_send_peers looks for them. */
  lemma {:induction false} EntryParts(p: Peer, rest: seq<byte>)
    requires PeerOk(p)
    ensures var d := EntryBytes(p) + rest;
      && Number(d) == p.number && d[2..34] == p.realPk && d[34..66] == p.tempPk && d[66] == |p.nick|
      && d[ENTRY_HEAD..ENTRY_HEAD + |p.nick|] == p.nick && d[ENTRY_HEAD + |p.nick|..] == rest
  {
    var d := EntryBytes(p) + rest;
    assert d[..2] == Spell(p.number, 2);
    ValueOfSpell(p.number, 2);
    assert Pow256(2) == 0x1_0000;
  }

  /** A new peer's entry adds exactly that peer. */
  lemma {:induction false} HandleEntry(ps: seq<Peer>, p: Peer, rest: seq<byte>)
    requires Good(ps + [p]) && PeerOk(p)
    ensures Handle(ps, EntryBytes(p) + rest) == Handle(ps + [p], rest)
  {
    EntryParts(p, rest);
    var n := |ps|;
    assert (ps + [p])[n] == p;
    assert forall k :: 0 <= k < n ==> (ps + [p])[k] == ps[k];
    assert FindKey(ps, p.realPk, 0) == n;
    assert FindNumber(ps, p.number, 0) == n;
    var blank := Peer(p.realPk, p.tempPk, p.number, []);
    assert (ps + [blank])[n := blank.(nick := p.nick)] == ps + [p];
  }

  lemma {:induction false} HandleEntries(ps: seq<Peer>, qs: seq<Peer>)
    requires Good(ps + qs)
    requires forall i :: 0 <= i < |qs| ==> |qs[i].nick| < 256
    ensures Handle(ps, Entries(qs)) == (true, ps + qs)
    decreases |qs|
  {
    if qs == [] {
      assert ps + qs == ps;
    } else {
      assert ps + qs == (ps + [qs[0]]) + qs[1..];
      GoodPrefix(ps + [qs[0]], qs[1..]);
      assert (ps + [qs[0]])[|ps|] == qs[0];
      HandleEntry(ps, qs[0], Entries(qs[1..]));
      HandleEntries(ps + [qs[0]], qs[1..]);
    }
  }

  lemma {:induction false} GoodPrefix(ps: seq<Peer>, qs: seq<Peer>)
    requires Good(ps + qs)
    ensures Good(ps)
  {
    assert forall k :: 0 <= k < |ps| ==> (ps + qs)[k] == ps[k];
  }

  function Flatten(groups: seq<seq<Peer>>): seq<Peer> {
    if groups == [] then [] else Flatten(groups[..|groups| - 1]) + groups[|groups| - 1]
  }

  ghost predicate NicksFit(ps: seq<Peer>) {
    forall i :: 0 <= i < |ps| ==> |ps[i].nick| < 256
  }

  /** The packet that carries a group of peers. */
  ghost predicate Carries(packet: seq<byte>, group: seq<Peer>) {
    NicksFit(group) && packet == [PEER_RESPONSE_ID] + Entries(group) && |packet| <= PACKET_SIZE
  }

  ghost predicate CarryAll(packets: seq<seq<byte>>, groups: seq<seq<Peer>>) {
    |packets| == |groups| && forall k :: 0 <= k < |packets| ==> Carries(packets[k], groups[k])
  }

  /** All packets handled one after the other, each without its packet id. */
  function HandleAll(ps: seq<Peer>, packets: seq<seq<byte>>): (bool, seq<Peer>)
    requires forall k :: 0 <= k < |packets| ==> packets[k] != []
  {
    if packets == [] then (true, ps) else
      var (ok, ps1) := HandleAll(ps, packets[..|packets| - 1]);
      var (ok2, ps2) := Handle(ps1, packets[|packets| - 1][1..]);
      (ok && ok2, ps2)
  }

  lemma {:induction false} HandleAllRebuilds(packets: seq<seq<byte>>, groups: seq<seq<Peer>>)
    requires CarryAll(packets, groups) && Good(Flatten(groups))
    ensures (forall k :: 0 <= k < |packets| ==> packets[k] != []) && HandleAll([], packets) == (true, Flatten(groups))
    decreases |packets|
  {
    if packets != [] {
      var n := |packets| - 1;
      GoodPrefix(Flatten(groups[..n]), groups[n]);
      HandleAllRebuilds(packets[..n], groups[..n]);
      assert Carries(packets[n], groups[n]);
      assert packets[n][1..] == Entries(groups[n]);
      HandleEntries(Flatten(groups[..n]), groups[n]);
    }
  }

  /** send_peers, with every packet sent. Wherever it splits the list, no packet is too long, and handling all of
      them in an empty group gives the sender's list of numbers, keys and names, in the same order. */
  method SendPeers(ps: seq<Peer>) returns (packets: seq<seq<byte>>)
    requires forall i :: 0 <= i < |ps| ==> PeerOk(ps[i])
    ensures forall k :: 0 <= k < |packets| ==> 0 < |packets[k]| <= PACKET_SIZE && packets[k][0] == PEER_RESPONSE_ID
    ensures Good(ps) ==> HandleAll([], packets) == (true, ps)
  {
    ghost var groups;
    packets, groups := PackPeers(ps);
    forall k | 0 <= k < |packets| ensures 0 < |packets[k]| <= PACKET_SIZE && packets[k][0] == PEER_RESPONSE_ID {
      assert Carries(packets[k], groups[k]);
    }
    if Good(ps) {
      HandleAllRebuilds(packets, groups);
    }
  }

  /** Its loop: the packets, and the peers each one carries. */
  method PackPeers(ps: seq<Peer>) returns (packets: seq<seq<byte>>, ghost groups: seq<seq<Peer>>)
    requires forall i :: 0 <= i < |ps| ==> PeerOk(ps[i])
    ensures CarryAll(packets, groups) && Flatten(groups) == ps
  {
    packets, groups := [], [];
    var packet: seq<byte> := [PEER_RESPONSE_ID];
    ghost var group: seq<Peer> := [];
    var sent := 0;
    var i := 0;
    while i < |ps|
      invariant 0 <= sent <= i <= |ps| && (sent == i ==> group == [])
      invariant Packing(packets, groups, packet, group, ps[..i])
    {
      if |packet| + 2 + KEY_BYTES * 2 + 1 + |ps[i].nick| > PACKET_SIZE {
        Flushed(packets, groups, packet, group, ps[..i]);
        packets, groups := packets + [packet], groups + [group];
        sent := i;
        packet, group := [PEER_RESPONSE_ID], [];
      }
      Filled(packets, groups, packet, group, ps, i);
      packet := packet + EntryBytes(ps[i]);
      group := group + [ps[i]];
      i := i + 1;
    }
    assert ps[..i] == ps;
    if sent != i {
      Flushed(packets, groups, packet, group, ps);
      packets, groups := packets + [packet], groups + [group];
    }
    assert Flatten(groups) + [] == Flatten(groups);
  }

  /** The packets so far and the one being filled carry done.
      "== true" keeps the verifier from taking it apart wherever it is to be shown. */
  ghost predicate Packing(packets: seq<seq<byte>>, groups: seq<seq<Peer>>, packet: seq<byte>, group: seq<Peer>, done: seq<Peer>) {
    (CarryAll(packets, groups) && Carries(packet, group) && Flatten(groups) + group == done) == true
  }

  lemma {:induction false} Flushed(packets: seq<seq<byte>>, groups: seq<seq<Peer>>, packet: seq<byte>, group: seq<Peer>, done: seq<Peer>)
    requires Packing(packets, groups, packet, group, done)
    ensures Packing(packets + [packet], groups + [group], [PEER_RESPONSE_ID], [], done)
  {
    CarryOneMore(packets, groups, packet, group);
    assert Entries([]) == [] && [PEER_RESPONSE_ID] + [] == [PEER_RESPONSE_ID] && done + [] == done;
  }

  lemma {:induction false} Filled(packets: seq<seq<byte>>, groups: seq<seq<Peer>>, packet: seq<byte>, group: seq<Peer>,
                                  ps: seq<Peer>, i: nat)
    requires i < |ps| && Packing(packets, groups, packet, group, ps[..i]) && PeerOk(ps[i])
    requires |packet| + ENTRY_HEAD + |ps[i].nick| <= PACKET_SIZE
    ensures Packing(packets, groups, packet + EntryBytes(ps[i]), group + [ps[i]], ps[..i + 1])
  {
    CarriesMore(packet, group, ps[i]);
    OneMore(Flatten(groups), group, ps, i);
  }

  lemma {:induction false} CarriesMore(packet: seq<byte>, group: seq<Peer>, p: Peer)
    requires Carries(packet, group) && PeerOk(p) && |packet| + ENTRY_HEAD + |p.nick| <= PACKET_SIZE
    ensures Carries(packet + EntryBytes(p), group + [p])
  {
    EntriesSnoc(group, p);
  }

  lemma {:induction false} OneMore<T>(done: seq<T>, group: seq<T>, ps: seq<T>, i: nat)
    requires i < |ps| && done + group == ps[..i]
    ensures done + (group + [ps[i]]) == ps[..i + 1]
  {
    assert done + (group + [ps[i]]) == (done + group) + [ps[i]];
  }

  lemma {:induction false} CarryOneMore(packets: seq<seq<byte>>, groups: seq<seq<Peer>>, packet: seq<byte>, group: seq<Peer>)
    requires CarryAll(packets, groups) && Carries(packet, group)
    ensures CarryAll(packets + [packet], groups + [group]) && Flatten(groups + [group]) == Flatten(groups) + group
  {
    assert (groups + [group])[..|groups|] == groups;
  }
}
