/** The spreading of group messages (group.c): every member passes a new message on to all its connections,
    the one it came from included, and recognises by number what it has already seen. */
module Flooding {
  import opened Bytes
  import opened Sets

  const WRAP: nat := 0x1_0000_0000

  /** relays says that the contents are of a kind that is passed on. */
  datatype Message = Message(peer: uint16, number: uint32, relays: bool)

  // ---------- One member ----------

  /** The test of handle_message_packet_group against the last number seen from the peer; 0 is none. */
  predicate IsNew(last: uint32, number: uint32) {
    last == 0 || ((number - last) % WRAP <= 64 && number != last)
  }

  /** Numbers are honest while they stay away from the wrap. */
  predicate Honest(number: uint32) {
    1 <= number < 0x1_0000_0000 - 64
  }

  /** Away from the wrap, exactly the next 64 numbers are new, and any number if none has been seen yet. */
  lemma {:induction false} NewIsGreater(last: uint32, number: uint32)
    requires Honest(number) && (last == 0 || Honest(last))
    ensures IsNew(last, number) <==> last == 0 || last < number <= last + 64
  {
  }

  /** A number that is no greater than the last one counts as new exactly when the last one is 2^32 - 64 or more
      ahead of it, or when both are 0. */
  lemma {:induction false} OldNumberReturns(last: uint32, number: uint32)
    requires number <= last
    ensures IsNew(last, number) <==> last - number >= 0x1_0000_0000 - 64 || last == number == 0
  {
    if number < last {
      assert (number - last) % WRAP == number - last + WRAP;
    }
  }

  class Member {
    var lastMessageNumber: map<uint16, uint32>  // by peer number, for the peers it knows
    var messageNumber: uint32                   // of its own last message

    constructor (peers: set<uint16>)
      ensures lastMessageNumber == (map p | p in peers :: 0) && messageNumber == 0
    {
      lastMessageNumber, messageNumber := map p | p in peers :: 0, 0;
    }

    /** handle_message_packet_group: whether the message is passed on. */
    method HandleMessage(m: Message) returns (relay: bool)
      modifies this`lastMessageNumber
      ensures lastMessageNumber == Heard(old(lastMessageNumber), m)
      ensures relay == (Accepts(old(lastMessageNumber), m) && m.relays)
    {
      if m.peer !in lastMessageNumber {
        return false;
      }
      var last := lastMessageNumber[m.peer];
      if last == 0 {
        lastMessageNumber := lastMessageNumber[m.peer := m.number];
      } else if (m.number - last) % WRAP > 64 || m.number == last {
        return false;
      }
      lastMessageNumber := lastMessageNumber[m.peer := m.number];
      return m.relays;
    }

    /** addpeer: a peer that is known already keeps its number. */
    method AddPeer(peer: uint16)
      modifies this`lastMessageNumber
      ensures lastMessageNumber ==
        if peer in old(lastMessageNumber) then old(lastMessageNumber) else Introduced(old(lastMessageNumber), peer)
    {
      if peer !in lastMessageNumber {
        lastMessageNumber := lastMessageNumber[peer := 0];
      }
    }

    /** The number send_message_group gives to the next message: never 0. */
    method NextNumber() returns (n: uint32)
      modifies this`messageNumber
      ensures n == messageNumber != 0
      ensures old(messageNumber) < WRAP - 1 ==> n == old(messageNumber) + 1
      ensures old(messageNumber) == WRAP - 1 ==> n == 1
    {
      messageNumber := (messageNumber + 1) % WRAP;
      if messageNumber == 0 {
        messageNumber := messageNumber + 1;
      }
      return messageNumber;
    }
  }

  predicate Accepts(last: map<uint16, uint32>, m: Message) {
    m.peer in last && IsNew(last[m.peer], m.number)
  }

  function Heard(last: map<uint16, uint32>, m: Message): map<uint16, uint32> {
    if Accepts(last, m) then last[m.peer := m.number] else last
  }

  // ---------- The whole group ----------

  datatype Packet = Packet(from: nat, to: nat, message: Message)

  /** That member accepted the message. */
  datatype Acceptance = Acceptance(member: nat, message: Message)

  /** links[i] are the members that member i sends to, in the order of its connections; wire holds the packets
      under way; log is what has been accepted so far. */
  datatype World = World(links: seq<seq<nat>>, last: seq<map<uint16, uint32>>, wire: seq<Packet>, log: seq<Acceptance>)

  ghost predicate Shape(w: World) {
    && |w.links| == |w.last|
    && (forall i :: 0 <= i < |w.links| ==> forall k :: 0 <= k < |w.links[i]| ==> w.links[i][k] < |w.last|)
    && (forall i :: 0 <= i < |w.wire| ==> OnWire(w, w.wire[i]))
  }

  ghost predicate OnWire(w: World, p: Packet) {
    p.from < |w.last| && p.to < |w.last|
  }

  /** send_message_all_close: a copy on every connection. */
  function Copies(from: nat, to: seq<nat>, m: Message): (ps: seq<Packet>)
    ensures |ps| == |to| && forall i :: 0 <= i < |to| ==> ps[i] == Packet(from, to[i], m)
  {
    seq(|to|, i requires 0 <= i < |to| => Packet(from, to[i], m))
  }

  function Without(ps: seq<Packet>, i: nat): seq<Packet>
    requires i < |ps|
  {
    ps[..i] + ps[i + 1..]
  }

  /** What the arrival of p makes its receiver send. */
  function Relayed(w: World, p: Packet): seq<Packet>
    requires p.to < |w.last| == |w.links|
  {
    if Accepts(w.last[p.to], p.message) && p.message.relays then Copies(p.to, w.links[p.to], p.message) else []
  }

  /** Some packet arrives, in any order. */
  function Deliver(w: World, i: nat): (w': World)
    requires i < |w.wire| && w.wire[i].to < |w.last| == |w.links|
  {
    var p := w.wire[i];
    World(w.links, w.last[p.to := Heard(w.last[p.to], p.message)], Without(w.wire, i) + Relayed(w, p),
          w.log + if Accepts(w.last[p.to], p.message) then [Acceptance(p.to, p.message)] else [])
  }

  /** A member sends a message of its own. */
  function Originate(w: World, member: nat, m: Message): (w': World)
    requires member < |w.links|
  {
    w.(wire := w.wire + Copies(member, w.links[member], m))
  }

  /** addpeer, as far as the numbers go. */
  function Introduced(last: map<uint16, uint32>, peer: uint16): map<uint16, uint32> {
    last[peer := 0]
  }

  /** A member gets to know a peer, from a message about a new peer or from a peer list. */
  function Learn(w: World, member: nat, peer: uint16): (w': World)
    requires member < |w.last|
  {
    w.(last := w.last[member := Introduced(w.last[member], peer)])
  }

  /** From then on the member accepts any message of the peer, the first one whatever its number, and nothing else
      has changed. */
  lemma {:induction false} LearntIsHeard(w: World, member: nat, m: Message)
    requires member < |w.last| && m.peer !in w.last[member]
    ensures var w' := Learn(w, member, m.peer);
      && !Accepts(w.last[member], m) && Accepts(w'.last[member], m)
      && w' == w.(last := w'.last) && |w'.last| == |w.last|
      && (forall i :: 0 <= i < |w.last| && i != member ==> w'.last[i] == w.last[i])
      && w'.last[member] - {m.peer} == w.last[member]
  {
  }

  datatype Event = Arrives(i: nat) | Sends(member: nat, message: Message) | Learns(member: nat, peer: uint16)

  predicate Possible(w: World, e: Event) {
    match e
    case Arrives(i) => i < |w.wire| && w.wire[i].to < |w.last| == |w.links|
    case Sends(member, m) => member < |w.links| && Honest(m.number)
    case Learns(member, peer) => member < |w.last| && peer !in w.last[member]
  }

  function Do(w: World, e: Event): World
    requires Possible(w, e)
  {
    match e
    case Arrives(i) => Deliver(w, i)
    case Sends(member, m) => Originate(w, member, m)
    case Learns(member, peer) => Learn(w, member, peer)
  }

  ghost predicate IsRun(w: World, es: seq<Event>)
    decreases |es|
  {
    es == [] || (Possible(w, es[0]) && IsRun(Do(w, es[0]), es[1..]))
  }

  ghost function After(w: World, es: seq<Event>): World
    requires IsRun(w, es)
    decreases |es|
  {
    if es == [] then w else After(Do(w, es[0]), es[1..])
  }

  // ---------- Accepted at most once ----------

  /** All numbers are honest, and the last number a member has from a peer is at least every number it has
      accepted from that peer. */
  ghost predicate Orderly(w: World) {
    && Shape(w)
    && (forall i :: 0 <= i < |w.wire| ==> Honest(w.wire[i].message.number))
    && (forall i, p :: 0 <= i < |w.last| && p in w.last[i] ==> w.last[i][p] == 0 || Honest(w.last[i][p]))
    && (forall a :: 0 <= a < |w.log| ==> Remembered(w, w.log[a]))
    && Increasing(w.log)
  }

  ghost predicate Remembered(w: World, a: Acceptance) {
    a.member < |w.last| && a.message.peer in w.last[a.member] && a.message.number <= w.last[a.member][a.message.peer]
  }

  /** What one member accepts from one peer has ever greater numbers. */
  ghost predicate Increasing(log: seq<Acceptance>) {
    forall i, j :: 0 <= i < j < |log| && log[i].member == log[j].member && log[i].message.peer == log[j].message.peer ==>
      log[i].message.number < log[j].message.number
  }

  /** Every packet that is on the wire after an arrival was there before or is a copy of the one that arrived. */
  lemma {:induction false} WireAfter(w: World, i: nat, k: nat)
    requires Shape(w) && i < |w.wire| && k < |Deliver(w, i).wire|
    ensures OnWire(w, Deliver(w, i).wire[k])
    ensures exists j :: 0 <= j < |w.wire| && w.wire[j].message == Deliver(w, i).wire[k].message
  {
    var n, p := |w.wire| - 1, w.wire[i];
    var x := Deliver(w, i).wire[k];
    if k < i {
      assert x == w.wire[k];
    } else if k < n {
      assert x == w.wire[k + 1];
    } else {
      assert x == Packet(p.to, w.links[p.to][k - n], p.message);
      assert w.wire[i].message == x.message;
    }
  }

  lemma {:induction false} DeliverOrderly(w: World, i: nat)
    requires Orderly(w) && i < |w.wire|
    ensures Orderly(Deliver(w, i))
  {
    var w', p := Deliver(w, i), w.wire[i];
    forall k | 0 <= k < |w'.wire| ensures OnWire(w', w'.wire[k]) && Honest(w'.wire[k].message.number) {
      WireAfter(w, i, k);
    }
    if Accepts(w.last[p.to], p.message) {
      NewIsGreater(w.last[p.to][p.message.peer], p.message.number);
      assert w'.last[p.to] == w.last[p.to][p.message.peer := p.message.number];
    }
    forall a | 0 <= a < |w'.log| ensures Remembered(w', w'.log[a]) {
      assert a < |w.log| ==> Remembered(w, w.log[a]) && w'.log[a] == w.log[a];
    }
  }

  lemma {:induction false} OriginateOrderly(w: World, member: nat, m: Message)
    requires Orderly(w) && member < |w.links| && Honest(m.number)
    ensures Orderly(Originate(w, member, m))
  {
    var w' := Originate(w, member, m);
    forall k | 0 <= k < |w'.wire| ensures OnWire(w', w'.wire[k]) && Honest(w'.wire[k].message.number) {
      assert k < |w.wire| ==> OnWire(w, w.wire[k]);
      assert k >= |w.wire| ==> w'.wire[k] == Packet(member, w.links[member][k - |w.wire|], m);
    }
    assert forall a :: 0 <= a < |w.log| ==> Remembered(w, w.log[a]) ==> Remembered(w', w.log[a]);
  }

  lemma {:induction false} LearnOrderly(w: World, member: nat, peer: uint16)
    requires Orderly(w) && member < |w.last| && peer !in w.last[member]
    ensures Orderly(Learn(w, member, peer))
  {
    var w' := Learn(w, member, peer);
    assert forall k :: 0 <= k < |w.wire| ==> OnWire(w, w.wire[k]) ==> OnWire(w', w.wire[k]);
    forall a | 0 <= a < |w.log| ensures Remembered(w', w.log[a]) {
      assert Remembered(w, w.log[a]);
    }
  }

  lemma {:induction false} DoOrderly(w: World, e: Event)
    requires Orderly(w) && Possible(w, e)
    ensures Orderly(Do(w, e)) && w.log <= Do(w, e).log
  {
    match e {
      case Arrives(i) => DeliverOrderly(w, i);
      case Sends(member, m) => OriginateOrderly(w, member, m);
      case Learns(member, peer) => LearnOrderly(w, member, peer);
    }
  }

  /** In every run with honest numbers, whatever the connections, the order of arrival and the peers that become
      known on the way: each member accepts each message at most once, and the numbers it accepts from a peer
      strictly increase. */
  lemma {:induction false} AcceptedOnce(w: World, es: seq<Event>)
    requires Orderly(w) && IsRun(w, es)
    ensures Orderly(After(w, es)) && w.log <= After(w, es).log
    ensures forall i, j :: 0 <= i < j < |After(w, es).log| ==> After(w, es).log[i] != After(w, es).log[j]
    decreases |es|
  {
    if es != [] {
      DoOrderly(w, es[0]);
      AcceptedOnce(Do(w, es[0]), es[1..]);
    }
  }

  // ---------- Every flood ends ----------

  /** A connection, from one member to another. */
  type Link = (nat, nat)

  /** How many of the packets go over connections in ls. */
  function Over(ps: seq<Packet>, ls: set<Link>): nat {
    if ps == [] then 0
    else Over(ps[..|ps| - 1], ls) + if (ps[|ps| - 1].from, ps[|ps| - 1].to) in ls then 1 else 0
  }

  /** And how many of the connections of a member are in ls. */
  function LinksIn(from: nat, to: seq<nat>, ls: set<Link>): nat {
    if to == [] then 0 else LinksIn(from, to[..|to| - 1], ls) + if (from, to[|to| - 1]) in ls then 1 else 0
  }

  lemma {:induction false} OverAppend(a: seq<Packet>, b: seq<Packet>, ls: set<Link>)
    ensures Over(a + b, ls) == Over(a, ls) + Over(b, ls)
    decreases |b|
  {
    if b == [] {
      assert a + b == a;
    } else {
      var n := |b| - 1;
      assert (a + b)[..|a| + n] == a + b[..n] && (a + b)[|a| + n] == b[n];
      OverAppend(a, b[..n], ls);
    }
  }

  lemma {:induction false} OverOne(p: Packet, ls: set<Link>)
    ensures Over([p], ls) == if (p.from, p.to) in ls then 1 else 0
  {
    assert [p][..0] == [];
  }

  lemma {:induction false} OverWithout(ps: seq<Packet>, i: nat, ls: set<Link>)
    requires i < |ps|
    ensures Over(ps, ls) == Over(Without(ps, i), ls) + if (ps[i].from, ps[i].to) in ls then 1 else 0
  {
    assert ps == ps[..i] + ([ps[i]] + ps[i + 1..]);
    OverAppend(ps[..i], [ps[i]] + ps[i + 1..], ls);
    OverAppend([ps[i]], ps[i + 1..], ls);
    OverOne(ps[i], ls);
    OverAppend(ps[..i], ps[i + 1..], ls);
  }

  lemma {:induction false} OverCopies(from: nat, to: seq<nat>, m: Message, ls: set<Link>)
    ensures Over(Copies(from, to, m), ls) == LinksIn(from, to, ls)
    decreases |to|
  {
    if to != [] {
      var n := |to| - 1;
      assert Copies(from, to, m)[..n] == Copies(from, to[..n], m);
      OverCopies(from, to[..n], m, ls);
    }
  }

  /** The last number a member has from a peer, 0 for one it does not know. */
  function LastOf(last: map<uint16, uint32>, peer: uint16): uint32 {
    if peer in last then last[peer] else 0
  }

  /** The messages of ms that member i may still accept some time, from peers it knows or will get to know. */
  ghost function Fresh(w: World, ms: set<Message>, i: nat): set<Message>
    requires i < |w.last|
  {
    set m | m in ms && m.number > LastOf(w.last[i], m.peer)
  }

  /** The copies that members 0 to n - 1 may still send over ls. */
  ghost function Owed(w: World, ms: set<Message>, ls: set<Link>, n: nat): nat
    requires n <= |w.last| == |w.links|
  {
    if n == 0 then 0 else Owed(w, ms, ls, n - 1) + LinksIn(n - 1, w.links[n - 1], ls) * |Fresh(w, ms, n - 1)|
  }

  /** What is under way over ls and what may still be sent over ls. */
  ghost function Potential(w: World, ms: set<Message>, ls: set<Link>): nat
    requires Shape(w)
  {
    Over(w.wire, ls) + Owed(w, ms, ls, |w.last|)
  }

  ghost predicate Carried(w: World, ms: set<Message>) {
    forall i :: 0 <= i < |w.wire| ==> w.wire[i].message in ms
  }

  lemma {:induction false} OwedSame(w: World, w': World, ms: set<Message>, ls: set<Link>, n: nat)
    requires n <= |w.last| == |w.links| && w'.links == w.links && |w'.last| == |w.last|
    requires forall i :: 0 <= i < n ==> Fresh(w', ms, i) == Fresh(w, ms, i)
    ensures Owed(w', ms, ls, n) == Owed(w, ms, ls, n)
  {
    if n != 0 {
      OwedSame(w, w', ms, ls, n - 1);
    }
  }

  /** If member k has fewer fresh messages and nobody else has changed, less is owed. */
  lemma {:induction false} OwedLess(w: World, w': World, ms: set<Message>, ls: set<Link>, n: nat, k: nat)
    requires k < n <= |w.last| == |w.links| && w'.links == w.links && |w'.last| == |w.last|
    requires forall i :: 0 <= i < |w.last| && i != k ==> Fresh(w', ms, i) == Fresh(w, ms, i)
    requires |Fresh(w', ms, k)| < |Fresh(w, ms, k)|
    ensures Owed(w', ms, ls, n) + LinksIn(k, w.links[k], ls) <= Owed(w, ms, ls, n)
  {
    if k == n - 1 {
      OwedSame(w, w', ms, ls, n - 1);
      Product(LinksIn(k, w.links[k], ls), |Fresh(w', ms, k)|, |Fresh(w, ms, k)|);
    } else {
      OwedLess(w, w', ms, ls, n - 1, k);
    }
  }

  lemma {:induction false} Product(d: nat, a: nat, b: nat)
    requires a < b
    ensures d * a + d <= d * b
  {
    assert d * (a + 1) <= d * b;
  }

  lemma {:induction false} FreshFalls(w: World, ms: set<Message>, i: nat)
    requires Orderly(w) && Carried(w, ms) && i < |w.wire| && Accepts(w.last[w.wire[i].to], w.wire[i].message)
    ensures |Fresh(Deliver(w, i), ms, w.wire[i].to)| < |Fresh(w, ms, w.wire[i].to)|
  {
    var w', k, m := Deliver(w, i), w.wire[i].to, w.wire[i].message;
    NewIsGreater(w.last[k][m.peer], m.number);
    var a, b := Fresh(w', ms, k), Fresh(w, ms, k);
    assert w'.last[k] == w.last[k][m.peer := m.number];
    assert m in b && m !in a;
    assert a <= b - {m};
    SubsetSize(a, b - {m});
  }

  /** Every arrival over ls lowers the potential, and no arrival raises it. */
  lemma {:induction false} DeliverLowers(w: World, ms: set<Message>, ls: set<Link>, i: nat)
    requires Orderly(w) && Carried(w, ms) && i < |w.wire|
    ensures Orderly(Deliver(w, i)) && Carried(Deliver(w, i), ms)
    ensures Potential(Deliver(w, i), ms, ls) + (if (w.wire[i].from, w.wire[i].to) in ls then 1 else 0) <= Potential(w, ms, ls)
  {
    var w', p := Deliver(w, i), w.wire[i];
    DeliverOrderly(w, i);
    DeliverCarried(w, ms, i);
    OverWithout(w.wire, i, ls);
    OverAppend(Without(w.wire, i), Relayed(w, p), ls);
    assert forall k :: 0 <= k < |w.last| && k != p.to ==> Fresh(w', ms, k) == Fresh(w, ms, k);
    if Accepts(w.last[p.to], p.message) {
      OverCopies(p.to, w.links[p.to], p.message, ls);
      FreshFalls(w, ms, i);
      OwedLess(w, w', ms, ls, |w.last|, p.to);
    } else {
      OwedSame(w, w', ms, ls, |w.last|);
    }
  }

  lemma {:induction false} DeliverCarried(w: World, ms: set<Message>, i: nat)
    requires Orderly(w) && Carried(w, ms) && i < |w.wire|
    ensures Carried(Deliver(w, i), ms)
  {
    forall k | 0 <= k < |Deliver(w, i).wire| ensures Deliver(w, i).wire[k].message in ms {
      WireAfter(w, i, k);
    }
  }

  /** A peer that becomes known changes nothing. */
  lemma {:induction false} LearnSame(w: World, ms: set<Message>, ls: set<Link>, member: nat, peer: uint16)
    requires Orderly(w) && Carried(w, ms) && member < |w.last| && peer !in w.last[member]
    ensures Orderly(Learn(w, member, peer)) && Carried(Learn(w, member, peer), ms)
    ensures Potential(Learn(w, member, peer), ms, ls) == Potential(w, ms, ls)
  {
    var w' := Learn(w, member, peer);
    LearnOrderly(w, member, peer);
    forall k | 0 <= k < |w.last| ensures Fresh(w', ms, k) == Fresh(w, ms, k) {
    }
    OwedSame(w, w', ms, ls, |w.last|);
  }

  ghost predicate NothingSent(es: seq<Event>) {
    forall i :: 0 <= i < |es| ==> !es[i].Sends?
  }

  /** The number of arrivals over ls in a run. */
  ghost function ArrivalsOver(w: World, es: seq<Event>, ls: set<Link>): nat
    requires IsRun(w, es)
    decreases |es|
  {
    if es == [] then 0
    else
      ArrivalsOver(Do(w, es[0]), es[1..], ls)
      + if es[0].Arrives? && (w.wire[es[0].i].from, w.wire[es[0].i].to) in ls then 1 else 0
  }

  /** When nobody sends anything new, the packets die out: whatever the order of arrival and whichever peers become
      known, no more packets arrive over any connections than the potential at the beginning says. */
  lemma {:induction false} FloodEnds(w: World, ms: set<Message>, ls: set<Link>, es: seq<Event>)
    requires Orderly(w) && Carried(w, ms) && IsRun(w, es) && NothingSent(es)
    ensures ArrivalsOver(w, es, ls) <= Potential(w, ms, ls)
    decreases |es|
  {
    if es != [] {
      assert !es[0].Sends?;
      match es[0] {
        case Arrives(i) => DeliverLowers(w, ms, ls, i);
        case Learns(member, peer) => LearnSame(w, ms, ls, member, peer);
      }
      FloodEnds(Do(w, es[0]), ms, ls, es[1..]);
    }
  }

  function Arrivals(es: seq<Event>): nat {
    if es == [] then 0 else Arrivals(es[1..]) + if es[0].Arrives? then 1 else 0
  }

  function AllLinks(n: nat): set<Link> {
    set a, b | 0 <= a < n && 0 <= b < n :: (a, b)
  }

  lemma {:induction false} AllArrivals(w: World, es: seq<Event>)
    requires Orderly(w) && IsRun(w, es)
    ensures ArrivalsOver(w, es, AllLinks(|w.last|)) == Arrivals(es)
    decreases |es|
  {
    if es != [] {
      if es[0].Arrives? {
        assert OnWire(w, w.wire[es[0].i]);
      }
      DoOrderly(w, es[0]);
      AllArrivals(Do(w, es[0]), es[1..]);
    }
  }

  /** So every flood ends: there is a bound for all arrivals together. */
  lemma {:induction false} AllFloodsEnd(w: World, ms: set<Message>, es: seq<Event>)
    requires Orderly(w) && Carried(w, ms) && IsRun(w, es) && NothingSent(es)
    ensures Arrivals(es) <= Potential(w, ms, AllLinks(|w.last|))
  {
    AllArrivals(w, es);
    FloodEnds(w, ms, AllLinks(|w.last|), es);
  }

  lemma {:induction false} OwedOnce(w: World, m: Message, a: nat, b: nat, n: nat)
    requires n <= |w.last| == |w.links|
    ensures Owed(w, {m}, {(a, b)}, n) <= if a < n then LinksIn(a, w.links[a], {(a, b)}) else 0
  {
    if n != 0 {
      OwedOnce(w, m, a, b, n - 1);
      SubsetSize(Fresh(w, {m}, n - 1), {m});
      if a == n - 1 {
        AtMostOnce(LinksIn(a, w.links[a], {(a, b)}), |Fresh(w, {m}, a)|);
      } else {
        NoLinks(n - 1, w.links[n - 1], a, b);
      }
    }
  }

  lemma {:induction false} AtMostOnce(d: nat, k: nat)
    requires k <= 1
    ensures d * k <= d
  {
  }

  lemma {:induction false} NoLinks(from: nat, to: seq<nat>, a: nat, b: nat)
    requires from != a
    ensures LinksIn(from, to, {(a, b)}) == 0
    decreases |to|
  {
    if to != [] {
      NoLinks(from, to[..|to| - 1], a, b);
    }
  }

  lemma {:induction false} OneLink(from: nat, to: seq<nat>, b: nat)
    requires forall j, k :: 0 <= j < k < |to| ==> to[j] != to[k]
    ensures LinksIn(from, to, {(from, b)}) <= if b in to then 1 else 0
    decreases |to|
  {
    if to != [] {
      OneLink(from, to[..|to| - 1], b);
    }
  }

  /** One message sent into a quiet group, where no member has two connections to another: it crosses the
      connection from a to b at most once, and at most once more if a is the sender. */
  lemma {:induction false} OneFlood(w: World, member: nat, m: Message, es: seq<Event>, a: nat, b: nat)
    requires Orderly(w) && w.wire == [] && member < |w.links| && a < |w.links| && Honest(m.number)
    requires forall j, k :: 0 <= j < k < |w.links[a]| ==> w.links[a][j] != w.links[a][k]
    requires IsRun(Originate(w, member, m), es) && NothingSent(es)
    ensures ArrivalsOver(Originate(w, member, m), es, {(a, b)}) <= if a == member then 2 else 1
  {
    var w', ls := Originate(w, member, m), {(a, b)};
    OriginateOrderly(w, member, m);
    FloodEnds(w', {m}, ls, es);
    OwedOnce(w', m, a, b, |w.links|);
    OneLink(a, w.links[a], b);
    assert w'.wire == Copies(member, w.links[member], m);
    OverCopies(member, w.links[member], m, ls);
    if a != member {
      NoLinks(member, w.links[member], a, b);
    }
  }

  // ---------- Number 0 ----------

  /** Two members that know peer 1, each connected to the other, and a message of peer 1 with number 0 on its way to
      one of them. */
  function ZeroWorld(log: seq<Acceptance>, to: nat): World
    requires to <= 1
  {
    World([[1], [0]], [map[1 := 0], map[1 := 0]], [Packet(1 - to, to, Message(1, 0, true))], log)
  }

  lemma {:induction false} ZeroStep(log: seq<Acceptance>, to: nat)
    requires to <= 1
    ensures Shape(ZeroWorld(log, to)) && Possible(ZeroWorld(log, to), Arrives(0))
    ensures Do(ZeroWorld(log, to), Arrives(0)) == ZeroWorld(log + [Acceptance(to, Message(1, 0, true))], 1 - to)
  {
    var w, m := ZeroWorld(log, to), Message(1, 0, true);
    var p := w.wire[0];
    assert Heard(w.last[to], m) == w.last[to] && w.last[to := w.last[to]] == w.last;
    assert Without(w.wire, 0) == [] && Relayed(w, p) == [Packet(to, 1 - to, m)];
  }

  /** Such a message goes back and forth between them for ever, and is accepted each time. */
  lemma {:induction false} ZeroNeverEnds(log: seq<Acceptance>, to: nat, n: nat) returns (es: seq<Event>)
    requires to <= 1
    ensures |es| == n && NothingSent(es) && IsRun(ZeroWorld(log, to), es)
    ensures |After(ZeroWorld(log, to), es).log| == |log| + n
    decreases n
  {
    es := [];
    if n != 0 {
      ZeroStep(log, to);
      var rest := ZeroNeverEnds(log + [Acceptance(to, Message(1, 0, true))], 1 - to, n - 1);
      es := [Arrives(0)] + rest;
      assert es[1..] == rest;
    }
  }
}
