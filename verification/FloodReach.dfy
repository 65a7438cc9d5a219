/** Whom one message of a group reaches, when nothing else is sent: everybody the connections lead to. */
module FloodReach {
  import opened Bytes
  import opened Flooding

  // ---------- Ways over the connections ----------

  ghost predicate Linked(links: seq<seq<nat>>, a: nat, b: nat) {
    a < |links| && b in links[a]
  }

  /** Every step is a connection, and leads to a member in over. */
  ghost predicate Way(links: seq<seq<nat>>, over: set<nat>, way: seq<nat>) {
    |way| >= 2 && forall i :: 0 < i < |way| ==> Linked(links, way[i - 1], way[i]) && way[i] in over
  }

  /** Some way over members in over leads from a to b, which may be a itself. */
  ghost predicate Reachable(links: seq<seq<nat>>, over: set<nat>, a: nat, b: nat) {
    exists way :: Way(links, over, way) && way[0] == a && way[|way| - 1] == b
  }

  lemma {:induction false} NextReachable(links: seq<seq<nat>>, over: set<nat>, a: nat, b: nat)
    requires Linked(links, a, b) && b in over
    ensures Reachable(links, over, a, b)
  {
    assert Way(links, over, [a, b]);
  }

  lemma {:induction false} FurtherReachable(links: seq<seq<nat>>, over: set<nat>, a: nat, b: nat, c: nat)
    requires Reachable(links, over, a, b) && Linked(links, b, c) && c in over
    ensures Reachable(links, over, a, c)
  {
    var way :| Way(links, over, way) && way[0] == a && way[|way| - 1] == b;
    assert Way(links, over, way + [c]);
  }

  lemma {:induction false} ReachableOverMore(links: seq<seq<nat>>, over: set<nat>, more: set<nat>, a: nat, b: nat)
    requires Reachable(links, over, a, b) && over <= more
    ensures Reachable(links, more, a, b)
  {
    var way :| Way(links, over, way) && way[0] == a && way[|way| - 1] == b;
    assert Way(links, more, way);
  }

  /** What holds of the members next to a and spreads from member to member holds of all that a way leads to. */
  lemma {:induction false} WayInside(links: seq<seq<nat>>, over: set<nat>, way: seq<nat>, inside: set<nat>)
    requires Way(links, over, way)
    requires forall b :: Linked(links, way[0], b) && b in over ==> b in inside
    requires forall b, c :: b in inside && Linked(links, b, c) && c in over ==> c in inside
    ensures way[|way| - 1] in inside
    decreases |way|
  {
    var n := |way| - 1;
    assert Linked(links, way[n - 1], way[n]) && way[n] in over;
    if n > 1 {
      assert Way(links, over, way[..n]);
      WayInside(links, over, way[..n], inside);
    }
  }

  // ---------- One message ----------

  /** The members that have accepted m. */
  ghost function Acceptors(w: World, m: Message): set<nat> {
    set i | 0 <= i < |w.last| && Acceptance(i, m) in w.log
  }

  /** The members that would accept it now. */
  ghost function Ready(w: World, m: Message): set<nat> {
    set i | 0 <= i < |w.last| && Accepts(w.last[i], m)
  }

  /** What reaches everybody in ready to whom a has a connection: they have accepted m, or it is on its way. */
  ghost predicate Served(w: World, m: Message, ready: set<nat>, a: nat) {
    forall b :: Linked(w.links, a, b) && b in ready ==> b in Acceptors(w, m) || OnItsWay(w, b)
  }

  ghost predicate OnItsWay(w: World, b: nat) {
    exists p :: p in w.wire && p.to == b
  }

  /** A copy of m comes from its sender or from a member that has accepted it. */
  ghost predicate Sent(w: World, m: Message, from: nat, p: Packet) {
    p.message == m && Linked(w.links, p.from, p.to) && (p.from == from || p.from in Acceptors(w, m))
  }

  /** m, sent by from, spreads among the members in ready and further. */
  ghost predicate Spreading(w: World, m: Message, from: nat, ready: set<nat>) {
    && Orderly(w) && m.relays
    && (forall i :: i in ready ==> i in Acceptors(w, m) || i in Ready(w, m))
    && (forall a :: a == from || a in Acceptors(w, m) ==> Served(w, m, ready, a))
    && (forall p :: p in w.wire ==> Sent(w, m, from, p))
    && (forall i :: i in Acceptors(w, m) ==> Reachable(w.links, Acceptors(w, m), from, i))
  }

  /** The arrival of p at a member that does not accept it. */
  lemma {:induction false} RefusedSpreads(w: World, m: Message, from: nat, ready: set<nat>, i: nat)
    requires Spreading(w, m, from, ready) && i < |w.wire| && !Accepts(w.last[w.wire[i].to], m)
    ensures Spreading(Deliver(w, i), m, from, ready)
  {
    var w', p := Deliver(w, i), w.wire[i];
    assert Sent(w, m, from, p);
    DeliverOrderly(w, i);
    assert w'.log == w.log && w'.last == w.last && w'.wire == Without(w.wire, i);
    assert Acceptors(w', m) == Acceptors(w, m) && Ready(w', m) == Ready(w, m);
    forall a | a == from || a in Acceptors(w, m) ensures Served(w', m, ready, a) {
      forall b | Linked(w.links, a, b) && b in ready && b !in Acceptors(w, m) ensures OnItsWay(w', b) {
        assert Served(w, m, ready, a);
        StillOnItsWay(w, i, b);
      }
    }
    forall q | q in w'.wire ensures Sent(w', m, from, q) {
      assert Sent(w, m, from, q);
    }
  }

  lemma {:induction false} StillOnItsWay(w: World, i: nat, b: nat)
    requires Shape(w) && i < |w.wire| && OnItsWay(w, b) && w.wire[i].to != b
    ensures OnItsWay(Deliver(w, i), b)
  {
    var p :| p in w.wire && p.to == b;
    StillOnWire(w, i, p);
  }

  lemma {:induction false} StillOnWire(w: World, i: nat, p: Packet)
    requires Shape(w) && i < |w.wire| && p in w.wire && p != w.wire[i]
    ensures p in Deliver(w, i).wire
  {
    var k :| 0 <= k < |w.wire| && w.wire[k] == p;
    var n := if k < i then k else k - 1;
    assert Without(w.wire, i)[n] == p;
    assert Deliver(w, i).wire[n] == p;
  }

  lemma {:induction false} AcceptedState(w: World, m: Message, i: nat)
    requires Shape(w) && i < |w.wire| && w.wire[i].message == m && Accepts(w.last[w.wire[i].to], m)
    ensures Acceptors(Deliver(w, i), m) == Acceptors(w, m) + {w.wire[i].to}
    ensures Ready(w, m) - {w.wire[i].to} <= Ready(Deliver(w, i), m)
  {
    var w', t := Deliver(w, i), w.wire[i].to;
    assert OnWire(w, w.wire[i]);
    assert w'.log == w.log + [Acceptance(t, m)];
  }

  lemma {:induction false} AcceptedServes(w: World, m: Message, from: nat, ready: set<nat>, i: nat, a: nat)
    requires Spreading(w, m, from, ready) && i < |w.wire| && Accepts(w.last[w.wire[i].to], m)
    requires a == from || a in Acceptors(w, m) || a == w.wire[i].to
    ensures Served(Deliver(w, i), m, ready, a)
  {
    var w', p := Deliver(w, i), w.wire[i];
    assert Sent(w, m, from, p);
    AcceptedState(w, m, i);
    forall b | Linked(w.links, a, b) && b in ready && b !in Acceptors(w', m) ensures OnItsWay(w', b) {
      if a == from || a in Acceptors(w, m) {
        assert Served(w, m, ready, a);
        StillOnItsWay(w, i, b);
      } else {
        var k :| 0 <= k < |w.links[a]| && w.links[a][k] == b;
        assert Relayed(w, p)[k] == Packet(a, b, m);
        assert w'.wire[|w.wire| - 1 + k] == Packet(a, b, m);
      }
    }
  }

  lemma {:induction false} AcceptedTraced(w: World, m: Message, from: nat, ready: set<nat>, i: nat)
    requires Spreading(w, m, from, ready) && i < |w.wire| && Accepts(w.last[w.wire[i].to], m)
    ensures var w' := Deliver(w, i);
      && (forall q :: q in w'.wire ==> Sent(w', m, from, q))
      && forall k :: k in Acceptors(w', m) ==> Reachable(w.links, Acceptors(w', m), from, k)
  {
    var w', p := Deliver(w, i), w.wire[i];
    assert Sent(w, m, from, p);
    AcceptedState(w, m, i);
    forall q | q in w'.wire ensures Sent(w', m, from, q) {
      assert q in w.wire || q in Copies(p.to, w.links[p.to], m);
      assert q in w.wire ==> Sent(w, m, from, q);
    }
    forall k | k in Acceptors(w, m) ensures Reachable(w.links, Acceptors(w', m), from, k) {
      ReachableOverMore(w.links, Acceptors(w, m), Acceptors(w', m), from, k);
    }
    if p.from == from {
      NextReachable(w.links, Acceptors(w', m), from, p.to);
    } else {
      FurtherReachable(w.links, Acceptors(w', m), from, p.from, p.to);
    }
  }

  lemma {:induction false} ArrivalSpreads(w: World, m: Message, from: nat, ready: set<nat>, i: nat)
    requires Spreading(w, m, from, ready) && i < |w.wire|
    ensures Spreading(Deliver(w, i), m, from, ready)
  {
    if Accepts(w.last[w.wire[i].to], m) {
      assert Sent(w, m, from, w.wire[i]);
      DeliverOrderly(w, i);
      AcceptedState(w, m, i);
      AcceptedTraced(w, m, from, ready, i);
      forall a | a == from || a in Acceptors(Deliver(w, i), m) ensures Served(Deliver(w, i), m, ready, a) {
        AcceptedServes(w, m, from, ready, i, a);
      }
    } else {
      RefusedSpreads(w, m, from, ready, i);
    }
  }

  lemma {:induction false} LearningSpreads(w: World, m: Message, from: nat, ready: set<nat>, member: nat, peer: uint16)
    requires Spreading(w, m, from, ready) && member < |w.last| && peer !in w.last[member]
    ensures Spreading(Learn(w, member, peer), m, from, ready)
  {
    var w' := Learn(w, member, peer);
    LearnOrderly(w, member, peer);
    assert Acceptors(w', m) == Acceptors(w, m) && Ready(w, m) <= Ready(w', m);
    forall a | a == from || a in Acceptors(w, m) ensures Served(w', m, ready, a) {
      assert Served(w, m, ready, a);
      assert forall b :: OnItsWay(w, b) ==> OnItsWay(w', b);
    }
    forall p | p in w.wire ensures Sent(w', m, from, p) {
      assert Sent(w, m, from, p);
    }
  }

  lemma {:induction false} RunSpreads(w: World, m: Message, from: nat, ready: set<nat>, es: seq<Event>)
    requires Spreading(w, m, from, ready) && IsRun(w, es) && NothingSent(es)
    ensures Spreading(After(w, es), m, from, ready) && After(w, es).links == w.links
    decreases |es|
  {
    if es != [] {
      assert !es[0].Sends?;
      match es[0] {
        case Arrives(i) => ArrivalSpreads(w, m, from, ready, i);
        case Learns(member, peer) => LearningSpreads(w, m, from, ready, member, peer);
      }
      RunSpreads(Do(w, es[0]), m, from, ready, es[1..]);
    }
  }

  lemma {:induction false} BeginsToSpread(w: World, from: nat, m: Message)
    requires Orderly(w) && w.wire == [] && from < |w.links| && Honest(m.number) && m.relays && Acceptors(w, m) == {}
    ensures Spreading(Originate(w, from, m), m, from, Ready(w, m))
  {
    var w' := Originate(w, from, m);
    OriginateOrderly(w, from, m);
    assert w'.wire == Copies(from, w.links[from], m);
    assert Acceptors(w', m) == {} && Ready(w', m) == Ready(w, m);
    forall b | Linked(w.links, from, b) ensures OnItsWay(w', b) {
      var k :| 0 <= k < |w.links[from]| && w.links[from][k] == b;
      assert w'.wire[k] == Packet(from, b, m);
    }
  }

  /** Once nothing is under way, all have accepted m to whom a way leads over members in ready. */
  lemma {:induction false} AllReached(w: World, m: Message, from: nat, ready: set<nat>, i: nat)
    requires Spreading(w, m, from, ready) && w.wire == [] && Reachable(w.links, ready, from, i)
    ensures i in Acceptors(w, m)
  {
    var way :| Way(w.links, ready, way) && way[0] == from && way[|way| - 1] == i;
    assert Served(w, m, ready, from);
    WayInside(w.links, ready, way, Acceptors(w, m));
  }

  /** A message that nobody has accepted yet is sent into a quiet group, and once nothing is under way any more: it
      has been accepted by all members to whom a way leads over members that were ready to accept it, and only by
      members to whom a way leads over members that have accepted it; whatever the order of arrival and whoever
      becomes known on the way. */
  lemma {:induction false} ReachesReady(w: World, from: nat, m: Message, es: seq<Event>, w': World)
    requires Orderly(w) && w.wire == [] && from < |w.links| && Honest(m.number) && m.relays && Acceptors(w, m) == {}
    requires IsRun(Originate(w, from, m), es) && NothingSent(es) && w' == After(Originate(w, from, m), es) && w'.wire == []
    ensures forall i :: Reachable(w.links, Ready(w, m), from, i) ==> i in Acceptors(w', m)
    ensures forall i :: i in Acceptors(w', m) ==> Reachable(w.links, Acceptors(w', m), from, i)
  {
    BeginsToSpread(w, from, m);
    RunSpreads(Originate(w, from, m), m, from, Ready(w, m), es);
    forall i | Reachable(w.links, Ready(w, m), from, i) ensures i in Acceptors(w', m) {
      AllReached(w', m, from, Ready(w, m), i);
    }
  }

  /** If everybody was ready, exactly the members have accepted it to whom a way leads. */
  lemma {:induction false} ReachesExactly(w: World, from: nat, m: Message, es: seq<Event>, w': World)
    requires Orderly(w) && w.wire == [] && from < |w.links| && Honest(m.number) && m.relays
    requires forall i :: 0 <= i < |w.last| ==> i in Ready(w, m)
    requires IsRun(Originate(w, from, m), es) && NothingSent(es) && w' == After(Originate(w, from, m), es) && w'.wire == []
    ensures forall i :: i in Acceptors(w', m) <==> Reachable(w.links, Ready(w, m), from, i)
  {
    ReadyNotYet(w, m);
    ReachesReady(w, from, m, es, w');
    RunLength(Originate(w, from, m), es);
    forall i | i in Acceptors(w', m) ensures Reachable(w.links, Ready(w, m), from, i) {
      ReachableOverMore(w.links, Acceptors(w', m), Ready(w, m), from, i);
    }
  }

  lemma {:induction false} RunLength(w: World, es: seq<Event>)
    requires IsRun(w, es)
    ensures |After(w, es).last| == |w.last|
    decreases |es|
  {
    if es != [] {
      RunLength(Do(w, es[0]), es[1..]);
    }
  }

  /** Who is ready to accept a message has not accepted it. */
  lemma {:induction false} ReadyNotYet(w: World, m: Message)
    requires Orderly(w) && Honest(m.number)
    ensures Acceptors(w, m) !! Ready(w, m)
  {
    forall i | i in Acceptors(w, m) ensures i !in Ready(w, m) {
      var a :| 0 <= a < |w.log| && w.log[a] == Acceptance(i, m);
      assert Remembered(w, w.log[a]);
      NewIsGreater(w.last[i][m.peer], m.number);
    }
  }
}
