/** What the members of a group hear from one peer while anybody may be sending: over connections that keep the
    order, everything, in the order in which it was sent. */
module FloodOrder {
  import opened Bytes
  import opened Flooding
  import opened FloodReach

  // ---------- Connections that keep the order ----------

  /** No packet before packet i is under way from the same member to the same member. */
  ghost predicate IsNext(w: World, i: nat)
    requires i < |w.wire|
  {
    forall j :: 0 <= j < i ==> w.wire[j].from != w.wire[i].from || w.wire[j].to != w.wire[i].to
  }

  ghost predicate InTurn(w: World, es: seq<Event>)
    requires IsRun(w, es)
    decreases |es|
  {
    es == [] || ((es[0].Arrives? ==> IsNext(w, es[0].i)) && InTurn(Do(w, es[0]), es[1..]))
  }

  // ---------- One peer ----------

  /** The peer, the member that it is, the number of its first message, and how much had been accepted before. */
  datatype Speaker = Speaker(peer: uint16, member: nat, first: uint32, since: nat)

  /** What it sends in a run. */
  function Said(peer: uint16, es: seq<Event>): seq<Message> {
    if es == [] then []
    else (if es[0].Sends? && es[0].message.peer == peer then [es[0].message] else []) + Said(peer, es[1..])
  }

  /** Its messages are numbered one by one, and all are of a kind that is passed on. */
  ghost predicate Numbered(s: Speaker, ms: seq<Message>) {
    forall x :: 0 <= x < |ms| ==>
      ms[x].peer == s.peer && ms[x].number == s.first + x && ms[x].relays && Honest(ms[x].number)
  }

  /** Nobody else uses its number. */
  ghost predicate OnlyItself(s: Speaker, es: seq<Event>) {
    forall i :: 0 <= i < |es| && es[i].Sends? && es[i].message.peer == s.peer ==> es[i].member == s.member
  }

  /** What a member accepted from it. */
  function Taken(log: seq<Acceptance>, member: nat, peer: uint16): seq<Message> {
    if log == [] then []
    else
      var a := log[|log| - 1];
      Taken(log[..|log| - 1], member, peer)
      + if a.member == member && a.message.peer == peer then [a.message] else []
  }

  ghost predicate Knows(w: World, s: Speaker, i: nat) {
    i < |w.last| && s.peer in w.last[i]
  }

  /** How many of its messages member i has accepted, going by the last number. */
  function Count(w: World, s: Speaker, i: nat): nat
    requires Knows(w, s, i)
  {
    if w.last[i][s.peer] < s.first then 0 else w.last[i][s.peer] - s.first + 1
  }

  /** How many it has passed on, or said itself. */
  function PassedOn(w: World, s: Speaker, ms: seq<Message>, i: nat): nat
    requires Knows(w, s, i)
  {
    if i == s.member then |ms| else Count(w, s, i)
  }

  predicate InReach(last: int, first: int) {
    last == 0 || first <= last + 64
  }

  ghost predicate MemberOk(w: World, s: Speaker, ms: seq<Message>, i: nat) {
    && Knows(w, s, i) && s.since <= |w.log|
    && InReach(w.last[i][s.peer], s.first)
    && Count(w, s, i) <= |ms|
    && Taken(w.log[s.since..], i, s.peer) == ms[..Count(w, s, i)]
  }

  ghost predicate Earlier(ps: seq<Packet>, k: nat, p: Packet) {
    exists j :: 0 <= j < k && j < |ps| && ps[j] == p
  }

  /** A packet with message x of the peer: when it is its turn, its receiver has accepted all before x. */
  ghost predicate InOrder(w: World, s: Speaker, ms: seq<Message>, k: nat, x: nat)
    requires k < |w.wire| && Knows(w, s, w.wire[k].to)
  {
    && x < |ms| && w.wire[k].message == ms[x]
    && (x <= Count(w, s, w.wire[k].to) || Earlier(w.wire, k, Packet(w.wire[k].from, w.wire[k].to, ms[x - 1])))
  }

  ghost predicate PacketOk(w: World, s: Speaker, ms: seq<Message>, k: nat)
    requires k < |w.wire|
  {
    w.wire[k].message.peer == s.peer ==>
      && Knows(w, s, w.wire[k].to) && w.wire[k].message.number >= s.first
      && InOrder(w, s, ms, k, w.wire[k].message.number - s.first)
  }

  /** Message x has come to b, or is under way from a. */
  ghost predicate Passed(w: World, s: Speaker, ms: seq<Message>, a: nat, b: nat, x: nat) {
    Knows(w, s, b) && x < |ms| && (x < Count(w, s, b) || Packet(a, b, ms[x]) in w.wire)
  }

  /** All that a has passed on has come to b, or is under way. */
  ghost predicate LinkOk(w: World, s: Speaker, ms: seq<Message>, a: nat, b: nat)
    requires Knows(w, s, a)
  {
    forall x :: 0 <= x < PassedOn(w, s, ms, a) ==> Passed(w, s, ms, a, b, x)
  }

  /** ms are the messages of the peer so far, and every member has accepted some of them, from the first on. */
  ghost predicate Ordered(w: World, s: Speaker, ms: seq<Message>) {
    && Orderly(w) && Numbered(s, ms) && 1 <= s.first
    && (forall i :: 0 <= i < |w.last| ==> MemberOk(w, s, ms, i))
    && (forall k :: 0 <= k < |w.wire| ==> PacketOk(w, s, ms, k))
    && forall a, b :: Linked(w.links, a, b) ==> Knows(w, s, a) && LinkOk(w, s, ms, a, b)
  }

  // ---------- A packet arrives ----------

  lemma {:induction false} TakenSnoc(log: seq<Acceptance>, a: Acceptance, member: nat, peer: uint16)
    ensures Taken(log + [a], member, peer) ==
      Taken(log, member, peer) + if a.member == member && a.message.peer == peer then [a.message] else []
  {
    assert (log + [a])[..|log|] == log;
  }

  /** The receiver accepts the message exactly when it is the next one for it. */
  lemma {:induction false} AcceptsNext(w: World, s: Speaker, ms: seq<Message>, i: nat, x: nat)
    requires Ordered(w, s, ms) && MemberOk(w, s, ms, i) && x < |ms| && x <= Count(w, s, i)
    ensures Accepts(w.last[i], ms[x]) <==> x == Count(w, s, i)
  {
    assert s.peer in w.last[i];
    NewIsGreater(w.last[i][s.peer], ms[x].number);
  }

  /** Packet i is next on its connection: it does not come too early. */
  lemma {:induction false} NotTooEarly(w: World, s: Speaker, ms: seq<Message>, i: nat, x: nat)
    requires i < |w.wire| && IsNext(w, i) && Knows(w, s, w.wire[i].to) && InOrder(w, s, ms, i, x)
    ensures x <= Count(w, s, w.wire[i].to)
  {
  }

  /** What the arrival of p changes at member j: it accepts p exactly if that is the next message for it. */
  ghost predicate MemberAfter(w: World, w': World, s: Speaker, ms: seq<Message>, p: Packet, j: nat) {
    && Knows(w, s, j) && MemberOk(w', s, ms, j)
    && if j == p.to && p.message.peer == s.peer then
         var x, c := p.message.number - s.first, Count(w, s, j);
         && x <= c && (Accepts(w.last[j], p.message) <==> x == c)
         && Count(w', s, j) == if x == c then c + 1 else c
       else Count(w', s, j) == Count(w, s, j)
  }

  lemma {:induction false} MemberStep(w: World, s: Speaker, ms: seq<Message>, i: nat, j: nat)
    requires Ordered(w, s, ms) && i < |w.wire| && IsNext(w, i) && j < |w.last|
    ensures MemberAfter(w, Deliver(w, i), s, ms, w.wire[i], j)
  {
    var w', p := Deliver(w, i), w.wire[i];
    assert OnWire(w, p) && MemberOk(w, s, ms, j) && PacketOk(w, s, ms, i);
    TakenStep(w, i, s.since, j, s.peer);
    if j == p.to && p.message.peer == s.peer {
      MemberTakes(w, w', s, ms, i);
    }
  }

  lemma {:induction false} TakenStep(w: World, i: nat, since: nat, j: nat, peer: uint16)
    requires Shape(w) && i < |w.wire| && since <= |w.log|
    ensures var p := w.wire[i];
      Taken(Deliver(w, i).log[since..], j, peer) == Taken(w.log[since..], j, peer)
        + if p.to == j && p.message.peer == peer && Accepts(w.last[j], p.message) then [p.message] else []
  {
    var w', p := Deliver(w, i), w.wire[i];
    assert OnWire(w, p);
    var a := Acceptance(p.to, p.message);
    if Accepts(w.last[p.to], p.message) {
      TakenSnoc(w.log[since..], a, j, peer);
      assert w'.log[since..] == w.log[since..] + [a];
    } else {
      assert w'.log == w.log;
    }
  }

  lemma {:induction false} MemberTakes(w: World, w': World, s: Speaker, ms: seq<Message>, i: nat)
    requires Ordered(w, s, ms) && i < |w.wire| && IsNext(w, i) && w' == Deliver(w, i) && w.wire[i].message.peer == s.peer
    ensures MemberAfter(w, w', s, ms, w.wire[i], w.wire[i].to)
  {
    var j, m := w.wire[i].to, w.wire[i].message;
    assert PacketOk(w, s, ms, i);
    var x := m.number - s.first;
    assert MemberOk(w, s, ms, j);
    NotTooEarly(w, s, ms, i, x);
    AcceptsNext(w, s, ms, j, x);
    TakenStep(w, i, s.since, j, s.peer);
    assert w'.last[j] == Heard(w.last[j], m);
    assert ms[..x] + [ms[x]] == ms[..x + 1];
  }

  /** The packets that stay. */
  lemma {:induction false} WireStays(w: World, i: nat, k: nat)
    requires Shape(w) && i < |w.wire| && k < |w.wire| && k != i
    ensures var n := if k < i then k else k - 1;
      n < |Deliver(w, i).wire| && Deliver(w, i).wire[n] == w.wire[k]
  {
    var n := if k < i then k else k - 1;
    assert Without(w.wire, i)[n] == w.wire[k];
  }

  lemma {:induction false} EarlierStays(w: World, i: nat, k: nat, q: Packet)
    requires Shape(w) && i < |w.wire| && k <= |w.wire| && k != i && Earlier(w.wire, k, q) && q != w.wire[i]
    ensures Earlier(Deliver(w, i).wire, if k < i then k else k - 1, q)
  {
    var j :| 0 <= j < k && j < |w.wire| && w.wire[j] == q;
    WireStays(w, i, j);
  }

  lemma {:induction false} OldPacketOk(w: World, w': World, s: Speaker, ms: seq<Message>, i: nat, k: nat)
    requires Ordered(w, s, ms) && i < |w.wire| && k < |w.wire| && k != i && w' == Deliver(w, i)
    requires forall j :: 0 <= j < |w.last| ==> MemberAfter(w, w', s, ms, w.wire[i], j)
    ensures var n := if k < i then k else k - 1;
      n < |w'.wire| && PacketOk(w', s, ms, n)
  {
    var p := w.wire[k];
    WireStays(w, i, k);
    assert OnWire(w, p) && PacketOk(w, s, ms, k);
    if p.message.peer == s.peer {
      var x := p.message.number - s.first;
      assert MemberAfter(w, w', s, ms, w.wire[i], p.to);
      if x > Count(w, s, p.to) && w.wire[i] != Packet(p.from, p.to, ms[x - 1]) {
        EarlierStays(w, i, k, Packet(p.from, p.to, ms[x - 1]));
      }
    }
  }

  /** Message x is sent on to b, behind all packets there are. */
  lemma {:induction false} NewPacketOk(w: World, w': World, s: Speaker, ms: seq<Message>, i: nat, k: nat)
    requires Ordered(w, s, ms) && i < |w.wire| && |w.wire| - 1 <= k < |w'.wire| && w' == Deliver(w, i)
    requires forall j :: 0 <= j < |w.last| ==> MemberAfter(w, w', s, ms, w.wire[i], j)
    ensures PacketOk(w', s, ms, k)
  {
    var p, n := w.wire[i], |w.wire| - 1;
    assert OnWire(w, p) && PacketOk(w, s, ms, i);
    var a, b := p.to, w.links[p.to][k - n];
    assert w'.wire[k] == Packet(a, b, p.message);
    if p.message.peer == s.peer {
      var x := p.message.number - s.first;
      assert MemberAfter(w, w', s, ms, p, a) && MemberAfter(w, w', s, ms, p, b);
      if x > Count(w', s, b) {
        assert Linked(w.links, a, b) && LinkOk(w, s, ms, a, b);
        assert Passed(w, s, ms, a, b, x - 1);
        EarlierStays(w, i, |w.wire|, Packet(a, b, ms[x - 1]));
      }
    }
  }

  lemma {:induction false} PassedStays(w: World, w': World, s: Speaker, ms: seq<Message>, i: nat, a: nat, b: nat, x: nat)
    requires Ordered(w, s, ms) && i < |w.wire| && w' == Deliver(w, i) && Passed(w, s, ms, a, b, x)
    requires forall j :: 0 <= j < |w.last| ==> MemberAfter(w, w', s, ms, w.wire[i], j)
    ensures Passed(w', s, ms, a, b, x)
  {
    assert MemberAfter(w, w', s, ms, w.wire[i], b);
    if x >= Count(w, s, b) && w.wire[i] != Packet(a, b, ms[x]) {
      StillOnWire(w, i, Packet(a, b, ms[x]));
    }
  }

  lemma {:induction false} LinkAfter(w: World, w': World, s: Speaker, ms: seq<Message>, i: nat, a: nat, b: nat)
    requires Ordered(w, s, ms) && i < |w.wire| && w' == Deliver(w, i) && Linked(w.links, a, b)
    requires forall j :: 0 <= j < |w.last| ==> MemberAfter(w, w', s, ms, w.wire[i], j)
    ensures Knows(w', s, a) && LinkOk(w', s, ms, a, b)
  {
    var p := w.wire[i];
    assert OnWire(w, p) && PacketOk(w, s, ms, i);
    assert MemberAfter(w, w', s, ms, p, a) && MemberAfter(w, w', s, ms, p, b) && LinkOk(w, s, ms, a, b);
    forall x | 0 <= x < PassedOn(w', s, ms, a) ensures Passed(w', s, ms, a, b, x) {
      if x < PassedOn(w, s, ms, a) {
        PassedStays(w, w', s, ms, i, a, b, x);
      } else {
        var k :| 0 <= k < |w.links[a]| && w.links[a][k] == b;
        assert w'.wire[|w.wire| - 1 + k] == Packet(a, b, ms[x]);
      }
    }
  }

  lemma {:induction false} ArrivalKeeps(w: World, s: Speaker, ms: seq<Message>, i: nat)
    requires Ordered(w, s, ms) && i < |w.wire| && IsNext(w, i)
    ensures Ordered(Deliver(w, i), s, ms)
  {
    var w' := Deliver(w, i);
    DeliverOrderly(w, i);
    forall j | 0 <= j < |w.last| ensures MemberAfter(w, w', s, ms, w.wire[i], j) && MemberOk(w', s, ms, j) {
      MemberStep(w, s, ms, i, j);
    }
    forall k | 0 <= k < |w'.wire| ensures PacketOk(w', s, ms, k) {
      if k < |w.wire| - 1 {
        OldPacketOk(w, w', s, ms, i, if k < i then k else k + 1);
      } else {
        NewPacketOk(w, w', s, ms, i, k);
      }
    }
    forall a, b | Linked(w.links, a, b) ensures Knows(w', s, a) && LinkOk(w', s, ms, a, b) {
      LinkAfter(w, w', s, ms, i, a, b);
    }
  }

  // ---------- A message is sent, a peer becomes known ----------

  /** The messages of the peer after a member has sent m. */
  function Longer(s: Speaker, ms: seq<Message>, m: Message): seq<Message> {
    if m.peer == s.peer then ms + [m] else ms
  }

  lemma {:induction false} OldPacketStays(w: World, s: Speaker, ms: seq<Message>, member: nat, m: Message, k: nat)
    requires Ordered(w, s, ms) && member < |w.links| && k < |w.wire|
    ensures PacketOk(Originate(w, member, m), s, Longer(s, ms, m), k)
  {
    var w', p := Originate(w, member, m), w.wire[k];
    assert OnWire(w, p) && PacketOk(w, s, ms, k);
    assert w'.wire[k] == p;
    if p.message.peer == s.peer {
      var x := p.message.number - s.first;
      if x > Count(w, s, p.to) {
        EarlierWithMore(w.wire, w'.wire, k, Packet(p.from, p.to, ms[x - 1]));
      }
    }
  }

  lemma {:induction false} EarlierWithMore(ps: seq<Packet>, ps': seq<Packet>, k: nat, p: Packet)
    requires Earlier(ps, k, p) && ps <= ps'
    ensures Earlier(ps', k, p)
  {
    var j :| 0 <= j < k && j < |ps| && ps[j] == p;
    assert ps'[j] == p;
  }

  lemma {:induction false} NewPacketSaid(w: World, s: Speaker, ms: seq<Message>, member: nat, m: Message, k: nat)
    requires Ordered(w, s, ms) && member < |w.links| && |w.wire| <= k < |Originate(w, member, m).wire|
    requires m.peer == s.peer ==> member == s.member && Numbered(s, ms + [m])
    ensures PacketOk(Originate(w, member, m), s, Longer(s, ms, m), k)
  {
    var w' := Originate(w, member, m);
    var b := w.links[member][k - |w.wire|];
    assert w'.wire[k] == Packet(member, b, m);
    if m.peer == s.peer {
      var x, ms' := |ms|, ms + [m];
      assert ms'[x] == m && MemberOk(w, s, ms, b);
      if x > Count(w, s, b) {
        assert Linked(w.links, member, b) && LinkOk(w, s, ms, member, b);
        assert Passed(w, s, ms, member, b, x - 1);
        var j :| 0 <= j < |w.wire| && w.wire[j] == Packet(member, b, ms[x - 1]);
        assert w'.wire[j] == Packet(member, b, ms'[x - 1]);
        assert Earlier(w'.wire, k, Packet(member, b, ms'[x - 1]));
      }
    }
  }

  lemma {:induction false} LinkSaid(w: World, s: Speaker, ms: seq<Message>, member: nat, m: Message, a: nat, b: nat)
    requires Ordered(w, s, ms) && member < |w.links| && Linked(w.links, a, b)
    requires m.peer == s.peer ==> member == s.member && Numbered(s, ms + [m])
    ensures Knows(w, s, a) && LinkOk(Originate(w, member, m), s, Longer(s, ms, m), a, b)
  {
    var w', ms' := Originate(w, member, m), Longer(s, ms, m);
    assert LinkOk(w, s, ms, a, b) && MemberOk(w, s, ms, a) && MemberOk(w, s, ms, b);
    forall x | 0 <= x < PassedOn(w', s, ms', a) ensures Passed(w', s, ms', a, b, x) {
      if x < PassedOn(w, s, ms, a) {
        assert Passed(w, s, ms, a, b, x) && ms'[x] == ms[x];
      } else {
        var k :| 0 <= k < |w.links[a]| && w.links[a][k] == b;
        assert w'.wire[|w.wire| + k] == Packet(a, b, ms'[x]);
      }
    }
  }

  lemma {:induction false} SayingKeeps(w: World, s: Speaker, ms: seq<Message>, member: nat, m: Message)
    requires Ordered(w, s, ms) && member < |w.links| && Honest(m.number)
    requires m.peer == s.peer ==> member == s.member && Numbered(s, ms + [m])
    ensures Ordered(Originate(w, member, m), s, Longer(s, ms, m))
  {
    var w', ms' := Originate(w, member, m), Longer(s, ms, m);
    OriginateOrderly(w, member, m);
    forall i | 0 <= i < |w'.last| ensures MemberOk(w', s, ms', i) {
      assert MemberOk(w, s, ms, i);
      assert ms'[..Count(w, s, i)] == ms[..Count(w, s, i)];
    }
    forall k | 0 <= k < |w'.wire| ensures PacketOk(w', s, ms', k) {
      if k < |w.wire| {
        OldPacketStays(w, s, ms, member, m, k);
      } else {
        NewPacketSaid(w, s, ms, member, m, k);
      }
    }
    forall a, b | Linked(w.links, a, b) ensures Knows(w', s, a) && LinkOk(w', s, ms', a, b) {
      LinkSaid(w, s, ms, member, m, a, b);
    }
  }

  lemma {:induction false} LearningKeeps(w: World, s: Speaker, ms: seq<Message>, member: nat, peer: uint16)
    requires Ordered(w, s, ms) && member < |w.last| && peer !in w.last[member]
    ensures Ordered(Learn(w, member, peer), s, ms)
  {
    var w' := Learn(w, member, peer);
    LearnOrderly(w, member, peer);
    assert MemberOk(w, s, ms, member);
    forall i | 0 <= i < |w.last| ensures MemberOk(w', s, ms, i) && Count(w', s, i) == Count(w, s, i) {
      assert MemberOk(w, s, ms, i);
    }
    forall k | 0 <= k < |w.wire| ensures PacketOk(w', s, ms, k) {
      assert OnWire(w, w.wire[k]) && PacketOk(w, s, ms, k);
    }
    forall a, b | Linked(w.links, a, b) ensures Knows(w', s, a) && LinkOk(w', s, ms, a, b) {
      assert LinkOk(w, s, ms, a, b);
      assert forall x :: Passed(w, s, ms, a, b, x) ==> Passed(w', s, ms, a, b, x);
    }
  }

  // ---------- Runs ----------

  lemma {:induction false} NumberedFront(s: Speaker, ms: seq<Message>, more: seq<Message>)
    requires Numbered(s, ms + more)
    ensures Numbered(s, ms)
  {
    assert forall x :: 0 <= x < |ms| ==> ms[x] == (ms + more)[x];
  }

  /** The messages of the peer after an event. */
  function WithEvent(s: Speaker, ms: seq<Message>, e: Event): seq<Message> {
    if e.Sends? then Longer(s, ms, e.message) else ms
  }

  lemma {:induction false} SaidFirst(s: Speaker, ms: seq<Message>, es: seq<Event>)
    requires es != []
    ensures WithEvent(s, ms, es[0]) + Said(s.peer, es[1..]) == ms + Said(s.peer, es)
  {
  }

  lemma {:induction false} EventKeeps(w: World, s: Speaker, ms: seq<Message>, e: Event)
    requires Ordered(w, s, ms) && Possible(w, e) && (e.Arrives? ==> IsNext(w, e.i))
    requires OnlyItself(s, [e]) && Numbered(s, WithEvent(s, ms, e))
    ensures Ordered(Do(w, e), s, WithEvent(s, ms, e)) && Do(w, e).links == w.links
  {
    match e {
      case Arrives(i) => ArrivalKeeps(w, s, ms, i);
      case Sends(member, m) =>
        assert [e][0] == e;
        SayingKeeps(w, s, ms, member, m);
      case Learns(member, peer) => LearningKeeps(w, s, ms, member, peer);
    }
  }

  lemma {:induction false} RunKeeps(w: World, s: Speaker, ms: seq<Message>, es: seq<Event>)
    requires Ordered(w, s, ms) && IsRun(w, es) && InTurn(w, es)
    requires OnlyItself(s, es) && Numbered(s, ms + Said(s.peer, es))
    ensures Ordered(After(w, es), s, ms + Said(s.peer, es)) && After(w, es).links == w.links
    decreases |es|
  {
    if es == [] {
      assert ms + [] == ms;
    } else {
      SaidFirst(s, ms, es);
      NumberedFront(s, WithEvent(s, ms, es[0]), Said(s.peer, es[1..]));
      EventKeeps(w, s, ms, es[0]);
      RunKeeps(Do(w, es[0]), s, WithEvent(s, ms, es[0]), es[1..]);
    }
  }

  ghost predicate QuietOf(w: World, peer: uint16) {
    forall k :: 0 <= k < |w.wire| ==> w.wire[k].message.peer != peer
  }

  /** The peer begins to speak, and every member is ready to hear it. */
  ghost predicate Begins(w: World, s: Speaker) {
    && Orderly(w) && QuietOf(w, s.peer) && Honest(s.first) && s.since == |w.log|
    && forall i :: 0 <= i < |w.last| ==> Knows(w, s, i) && IsNew(w.last[i][s.peer], s.first)
  }

  lemma {:induction false} BeginsInOrder(w: World, s: Speaker)
    requires Begins(w, s)
    ensures Ordered(w, s, [])
  {
    assert w.log[s.since..] == [];
    forall i | 0 <= i < |w.last| ensures MemberOk(w, s, [], i) && Count(w, s, i) == 0 {
      NewIsGreater(w.last[i][s.peer], s.first);
    }
    forall a, b | Linked(w.links, a, b) ensures Knows(w, s, a) && LinkOk(w, s, [], a, b) {
    }
  }

  /** When nothing of the peer is under way, all that the connections lead to have accepted everything. */
  lemma {:induction false} AllHeard(w: World, s: Speaker, ms: seq<Message>, over: set<nat>, i: nat)
    requires Ordered(w, s, ms) && QuietOf(w, s.peer) && s.member < |w.last| && s.since <= |w.log|
    requires Reachable(w.links, over, s.member, i)
    ensures i < |w.last| && Taken(w.log[s.since..], i, s.peer) == ms
  {
    var way :| Way(w.links, over, way) && way[0] == s.member && way[|way| - 1] == i;
    var all := set j | 0 <= j < |w.last| && Knows(w, s, j) && Count(w, s, j) == |ms|;
    forall a, b | Linked(w.links, a, b) && (a == s.member || a in all) ensures b in all {
      assert LinkOk(w, s, ms, a, b) && MemberOk(w, s, ms, b) && MemberOk(w, s, ms, a);
      assert Count(w, s, b) < |ms| ==> Passed(w, s, ms, a, b, Count(w, s, b));
    }
    WayInside(w.links, over, way, all);
    assert MemberOk(w, s, ms, i);
    assert ms[..|ms|] == ms;
  }

  /** Connections keep the order, and the messages of a peer are numbered one by one and passed on, while others may
      send and get to know peers as they like. At any time, every member has accepted some of its messages, from the
      first on, in the order in which they were sent and none left out; and once none is under way any more, all
      members to whom a way leads have accepted all of them. */
  lemma {:induction false} HeardInOrder(w: World, s: Speaker, es: seq<Event>, w': World)
    requires Begins(w, s) && s.member < |w.last|
    requires IsRun(w, es) && InTurn(w, es) && w' == After(w, es)
    requires OnlyItself(s, es) && Numbered(s, Said(s.peer, es))
    ensures |w.log| <= |w'.log|
    ensures forall i :: 0 <= i < |w.last| ==> Taken(w'.log[|w.log|..], i, s.peer) <= Said(s.peer, es)
    ensures QuietOf(w', s.peer) ==>
      forall i, over :: Reachable(w.links, over, s.member, i) ==> Taken(w'.log[|w.log|..], i, s.peer) == Said(s.peer, es)
  {
    var ms := Said(s.peer, es);
    assert [] + ms == ms;
    BeginsInOrder(w, s);
    RunKeeps(w, s, [], es);
    RunLength(w, es);
    assert MemberOk(w', s, ms, s.member);
    forall i | 0 <= i < |w.last| ensures Taken(w'.log[|w.log|..], i, s.peer) <= ms {
      assert MemberOk(w', s, ms, i);
    }
    if QuietOf(w', s.peer) {
      forall i, over | Reachable(w.links, over, s.member, i) ensures Taken(w'.log[|w.log|..], i, s.peer) == ms {
        AllHeard(w', s, ms, over, i);
      }
    }
  }

  // ---------- A connection that comes late ----------

  function Number(k: uint32): Message {
    Message(7, k, true)
  }

  /** Member 0 is peer 7; it is connected to member 1, and that to member 2; all know it. */
  function Chain(links: seq<seq<nat>>, last1: uint32, last2: uint32, wire: seq<Packet>, log: seq<Acceptance>): World {
    World(links, [map[7 := 0], map[7 := last1], map[7 := last2]], wire, log)
  }

  ghost predicate Leads(w: World, es: seq<Event>, w': World) {
    IsRun(w, es) && InTurn(w, es) && After(w, es) == w'
  }

  lemma {:induction false} LeadsOn(w: World, e: Event, es: seq<Event>, w': World)
    requires Possible(w, e) && (e.Arrives? ==> IsNext(w, e.i)) && Leads(Do(w, e), es, w')
    ensures Leads(w, [e] + es, w')
  {
    assert ([e] + es)[1..] == es;
  }

  const OLD_LINKS: seq<seq<nat>> := [[1], [2], []]
  const NEW_LINKS: seq<seq<nat>> := [[1, 2], [2], []]

  /** Member 0 says message k, which member 1 accepts; then member 0 has one more connection and says message k + 1,
      which member 2 accepts, and message k comes there. */
  function LateWorld(k: uint32, i: nat): World
    requires k + 1 < WRAP
  {
    var m, m' := Number(k), Number(k + 1);
    var log := [Acceptance(1, m)];
    match i
    case 0 => Chain(OLD_LINKS, 0, 0, [], [])
    case 1 => Chain(OLD_LINKS, 0, 0, [Packet(0, 1, m)], [])
    case 2 => Chain(OLD_LINKS, k, 0, [Packet(1, 2, m)], log)
    case 3 => Chain(NEW_LINKS, k, 0, [Packet(1, 2, m)], log)
    case 4 => Chain(NEW_LINKS, k, 0, [Packet(1, 2, m), Packet(0, 1, m'), Packet(0, 2, m')], log)
    case 5 => Chain(NEW_LINKS, k, k + 1, [Packet(1, 2, m), Packet(0, 1, m')], log + [Acceptance(2, m')])
    case _ => Chain(NEW_LINKS, k, k + 1, [Packet(0, 1, m')], log + [Acceptance(2, m')])
  }

  function LateEvent(k: uint32, i: nat): Event
    requires k + 1 < WRAP
  {
    match i
    case 0 => Sends(0, Number(k))
    case 3 => Sends(0, Number(k + 1))
    case 4 => Arrives(2)
    case _ => Arrives(0)
  }

  lemma {:induction false} LateSends(k: uint32, i: nat)
    requires Honest(k) && Honest(k + 1) && (i == 0 || i == 3)
    ensures Possible(LateWorld(k, i), LateEvent(k, i)) && Do(LateWorld(k, i), LateEvent(k, i)) == LateWorld(k, i + 1)
  {
    assert Copies(0, OLD_LINKS[0], Number(k)) == [Packet(0, 1, Number(k))];
    assert Copies(0, NEW_LINKS[0], Number(k + 1)) == [Packet(0, 1, Number(k + 1)), Packet(0, 2, Number(k + 1))];
  }

  lemma {:induction false} LateArrives(k: uint32, i: nat)
    requires Honest(k) && Honest(k + 1) && (i == 1 || i == 4 || i == 5)
    ensures var w, n := LateWorld(k, i), LateEvent(k, i).i;
      && Possible(w, LateEvent(k, i)) && IsNext(w, n) && Deliver(w, n) == LateWorld(k, i + 1)
  {
    var w, n, w' := LateWorld(k, i), LateEvent(k, i).i, LateWorld(k, i + 1);
    var p := w.wire[n];
    assert Without(w.wire, n) + Relayed(w, p) == w'.wire;
    assert Heard(w.last[p.to], p.message) == w'.last[p.to];
    assert w.last[p.to := Heard(w.last[p.to], p.message)] == w'.last;
  }

  function LateEvents(k: uint32, i: nat, j: nat): seq<Event>
    requires k + 1 < WRAP && i <= j
    decreases j - i
  {
    if i == j then [] else [LateEvent(k, i)] + LateEvents(k, i + 1, j)
  }

  lemma {:induction false} LateRun(k: uint32, i: nat, j: nat)
    requires Honest(k) && Honest(k + 1) && i <= j <= 6 && (j <= 2 || i >= 3)
    ensures Leads(LateWorld(k, i), LateEvents(k, i, j), LateWorld(k, j))
    decreases j - i
  {
    if i < j {
      LateStep(k, i);
      LateRun(k, i + 1, j);
      LeadsOn(LateWorld(k, i), LateEvent(k, i), LateEvents(k, i + 1, j), LateWorld(k, j));
    }
  }

  lemma {:induction false} LateStep(k: uint32, i: nat)
    requires Honest(k) && Honest(k + 1) && i < 6 && i != 2
    ensures var w, e := LateWorld(k, i), LateEvent(k, i);
      Possible(w, e) && (e.Arrives? ==> IsNext(w, e.i)) && Do(w, e) == LateWorld(k, i + 1)
  {
    if i == 0 || i == 3 {
      LateSends(k, i);
    } else {
      LateArrives(k, i);
    }
  }

  /** Message k is under way from member 1 to member 2 when member 0, whose message it is, gets a connection to
      member 2 itself. Message k + 1, which it sends then, is there first, and member 2 refuses message k, although
      every connection keeps the order. */
  lemma {:induction false} LateConnection(k: uint32)
    requires Honest(k) && Honest(k + 1)
    ensures Begins(LateWorld(k, 0), Speaker(7, 0, k, 0))
    ensures Leads(LateWorld(k, 0), LateEvents(k, 0, 2), LateWorld(k, 2))
    ensures LateWorld(k, 3) == LateWorld(k, 2).(links := NEW_LINKS) && Accepts(LateWorld(k, 3).last[2], Number(k))
    ensures Leads(LateWorld(k, 3), LateEvents(k, 3, 6), LateWorld(k, 6)) && Acceptance(2, Number(k)) !in LateWorld(k, 6).log
    ensures forall p :: p in LateWorld(k, 6).wire ==> p.message != Number(k)
  {
    LateRun(k, 0, 2);
    LateRun(k, 3, 6);
  }
}
