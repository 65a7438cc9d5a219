/** What the receiver of rtp.c makes of packets that are lost and reordered across messages. */
module RtpMixed {
  import opened Bytes
  import opened Wrappers
  import opened Rtp

  /** Piece piece of message message. */
  datatype Part = Part(message: nat, piece: nat)

  /** Messages, at any times, which no two have the time and the sequence number in common. */
  ghost predicate Messages(payloadType: byte, ms: seq<Message>) {
    && (forall j :: 0 <= j < |ms| ==> Proper(payloadType, ms[j]))
    && forall j, k :: 0 <= j < |ms| && 0 <= k < |ms| && j != k ==> !SameMessage(ms[j].base, ms[k].base)
  }

  ghost predicate IsPart(ms: seq<Message>, x: Part) {
    x.message < |ms| && x.piece < Count(|ms[x.message].data|)
  }

  /** Some of their parts, each at most once, in the order in which they arrive. */
  ghost predicate Parts(ms: seq<Message>, xs: seq<Part>) {
    && (forall k :: 0 <= k < |xs| ==> IsPart(ms, xs[k]))
    && forall j, k :: 0 <= j < k < |xs| ==> xs[j] != xs[k]
  }

  function Packets(payloadType: byte, ms: seq<Message>, xs: seq<Part>): seq<seq<byte>>
    requires Messages(payloadType, ms) && forall k :: 0 <= k < |xs| ==> IsPart(ms, xs[k])
  {
    if xs == [] then []
    else
      var x := xs[|xs| - 1];
      assert IsPart(ms, x);
      Packets(payloadType, ms, xs[..|xs| - 1]) + [Wire(payloadType, ms[x.message], x.piece)]
  }

  // ---------- What was handed over ----------

  /** One message that is or will be handed over: which it is, and which of its pieces it has. */
  datatype Item = Item(message: nat, got: set<nat>)

  /** a is made of pieces of the message that have come, each in its place. */
  ghost predicate Made(ms: seq<Message>, xs: seq<Part>, item: Item, a: Assembled) {
    && item.message < |ms| && item.got != {} && Holds(ms[item.message], item.got, a)
    && forall i :: i in item.got ==> Part(item.message, i) in xs
  }

  /** items tell what s has collected: their times never fall, and no piece is in two of them; the last one is still
      being put together unless it is complete. */
  ghost predicate Told(ms: seq<Message>, xs: seq<Part>, s: Receiver, items: seq<Item>) {
    && |items| == |Collected(s)|
    && (forall c :: 0 <= c < |items| ==> Made(ms, xs, items[c], Collected(s)[c]))
    && Rising(ms, items) && Apart(items)
    && (if items == [] then s == FRESH else Newest(ms, s, items[|items| - 1]))
  }

  ghost predicate Rising(ms: seq<Message>, items: seq<Item>) {
    forall c, d :: 0 <= c < d < |items| ==> NotAfter(ms, items[c], items[d])
  }

  ghost predicate NotAfter(ms: seq<Message>, a: Item, b: Item) {
    && a.message < |ms| && b.message < |ms|
    && ms[a.message].base.timestamp <= ms[b.message].base.timestamp
  }

  /** A message that is begun a second time has other pieces then, and another message in between. */
  ghost predicate Apart(items: seq<Item>) {
    && (forall c, d :: 0 <= c < d < |items| && items[c].message == items[d].message ==> items[c].got !! items[d].got)
    && forall c :: 0 < c < |items| ==> items[c - 1].message != items[c].message
  }

  /** item can come after items. */
  ghost predicate Next(ms: seq<Message>, items: seq<Item>, item: Item) {
    && (forall c :: 0 <= c < |items| && items[c].message == item.message ==> items[c].got !! item.got)
    && (items != [] ==> items[|items| - 1].message != item.message && NotAfter(ms, items[|items| - 1], item))
  }

  lemma {:induction false} NextKeeps(ms: seq<Message>, items: seq<Item>, item: Item)
    requires Rising(ms, items) && Apart(items) && Next(ms, items, item)
    ensures Rising(ms, items + [item]) && Apart(items + [item])
  {
    var items', n := items + [item], |items|;
    assert forall c :: 0 <= c < n ==> items'[c] == items[c];
    forall c | 0 <= c < n ensures NotAfter(ms, items[c], item) {
      assert c < n - 1 ==> NotAfter(ms, items[c], items[n - 1]);
    }
  }

  ghost predicate Newest(ms: seq<Message>, s: Receiver, item: Item) {
    && item.message < |ms| && s.rtimestamp == ms[item.message].base.timestamp
    && (s.mp.None? <==> Full(Count(|ms[item.message].data|), item.got))
  }

  // ---------- One packet ----------

  lemma {:induction false} MadeStill(ms: seq<Message>, xs: seq<Part>, x: Part, item: Item, a: Assembled)
    requires Made(ms, xs, item, a)
    ensures Made(ms, xs + [x], item, a)
  {
  }

  /** A part that has not come before is in no item. */
  lemma {:induction false} FreshPart(ms: seq<Message>, xs: seq<Part>, s: Receiver, items: seq<Item>, x: Part)
    requires Told(ms, xs, s, items) && x !in xs
    ensures forall c :: 0 <= c < |items| && items[c].message == x.message ==> x.piece !in items[c].got
  {
    forall c | 0 <= c < |items| && items[c].message == x.message ensures x.piece !in items[c].got {
      assert Made(ms, xs, items[c], Collected(s)[c]);
    }
  }

  /** The part begins a message that is no older than the newest one. */
  lemma {:induction false} NewerPart(payloadType: byte, ms: seq<Message>, xs: seq<Part>, s: Receiver, items: seq<Item>, x: Part)
    requires Messages(payloadType, ms) && IsPart(ms, x) && Told(ms, xs, s, items) && x !in xs
    requires items != [] ==> items[|items| - 1].message != x.message && s.rtimestamp <= ms[x.message].base.timestamp
    ensures var m := ms[x.message];
      var h, p := PartHeader(m, x.piece), Piece(m.data, x.piece);
      && !Overruns(AcceptCopy(s, true, h, p))
      && Told(ms, xs + [x], Accept(s, true, h, p), items + [Item(x.message, {x.piece})])
  {
    var m := ms[x.message];
    if items != [] {
      assert Made(ms, xs, items[|items| - 1], Collected(s)[|items| - 1]);
    }
    FirstArrives(s, payloadType, m, x.piece);
    FreshPart(ms, xs, s, items, x);
    ToldAfter(ms, xs, s, Accept(s, true, PartHeader(m, x.piece), Piece(m.data, x.piece)), items, x, {x.piece});
  }

  lemma {:induction false} MadeNow(ms: seq<Message>, xs: seq<Part>, x: Part, got: set<nat>, a: Assembled)
    requires x.message < |ms| && got != {} && Holds(ms[x.message], got, a)
    requires forall i :: i in got ==> i == x.piece || Part(x.message, i) in xs
    ensures Made(ms, xs + [x], Item(x.message, got), a)
  {
    assert x == Part(x.message, x.piece);
  }

  /** s' has collected what s had, and one message more. */
  lemma {:induction false} ToldAfter(ms: seq<Message>, xs: seq<Part>, s: Receiver, s': Receiver, items: seq<Item>, x: Part, got: set<nat>)
    requires |items| == |Collected(s)| && forall c :: 0 <= c < |items| ==> Made(ms, xs, items[c], Collected(s)[c])
    requires Rising(ms, items) && Apart(items) && Next(ms, items, Item(x.message, got))
    requires x.message < |ms| && got != {} && forall i :: i in got ==> i == x.piece || Part(x.message, i) in xs
    requires Midway(Collected(s), s', ms[x.message], got)
    ensures Told(ms, xs + [x], s', items + [Item(x.message, got)])
  {
    var items', c' := items + [Item(x.message, got)], Collected(s');
    NextKeeps(ms, items, Item(x.message, got));
    forall c | 0 <= c < |items'| ensures Made(ms, xs + [x], items'[c], c'[c]) {
      if c < |items| {
        assert c'[c] == c'[..|items|][c] == Collected(s)[c];
        MadeStill(ms, xs, x, items[c], c'[c]);
      } else {
        MadeNow(ms, xs, x, got, c'[c]);
      }
    }
  }

  lemma {:induction false} FrontKeeps(ms: seq<Message>, items: seq<Item>, n: nat)
    requires |items| == n + 1 && Rising(ms, items) && Apart(items)
    ensures Rising(ms, items[..n]) && Apart(items[..n])
  {
    var front := items[..n];
    assert forall c :: 0 <= c < n ==> front[c] == items[c];
    forall c, d | 0 <= c < d < n ensures NotAfter(ms, front[c], front[d]) {
      assert NotAfter(ms, items[c], items[d]);
    }
  }

  /** The last item can come after the ones before it, also with a piece more that is new. */
  lemma {:induction false} LastIsNext(ms: seq<Message>, items: seq<Item>, n: nat, item: Item, piece: nat)
    requires |items| == n + 1 && Rising(ms, items) && Apart(items)
    requires item == Item(items[n].message, items[n].got + {piece})
    requires forall c :: 0 <= c < |items| && items[c].message == item.message ==> piece !in items[c].got
    ensures Next(ms, items[..n], item)
  {
    forall c | 0 <= c < n && items[..n][c].message == item.message ensures items[..n][c].got !! item.got {
      assert items[c].got !! items[n].got;
    }
    if n != 0 {
      assert NotAfter(ms, items[n - 1], items[n]) && items[n - 1].message != items[n].message;
    }
  }

  /** The part goes on with the newest message. */
  lemma {:induction false} SamePart(payloadType: byte, ms: seq<Message>, xs: seq<Part>, s: Receiver, items: seq<Item>, x: Part)
    requires Messages(payloadType, ms) && IsPart(ms, x) && Told(ms, xs, s, items) && x !in xs
    requires items != [] && items[|items| - 1].message == x.message
    ensures var m, n := ms[x.message], |items| - 1;
      var h, p := PartHeader(m, x.piece), Piece(m.data, x.piece);
      && !Overruns(AcceptCopy(s, true, h, p))
      && Told(ms, xs + [x], Accept(s, true, h, p), items[..n] + [Item(x.message, items[n].got + {x.piece})])
  {
    var m, n := ms[x.message], |items| - 1;
    var last := items[n];
    NewestMidway(ms, xs, s, items, x);
    NextArrives(s.handed, s, payloadType, m, last.got, x.piece);
    var s0 := s.(mp := None);
    FrontKeeps(ms, items, n);
    FrontMade(ms, xs, s, items, n);
    LastIsNext(ms, items, n, Item(x.message, last.got + {x.piece}), x.piece);
    ToldAfter(ms, xs, s0, Accept(s, true, PartHeader(m, x.piece), Piece(m.data, x.piece)), items[..n], x, last.got + {x.piece});
  }

  /** The newest message still lacks a piece that has not come before, so it is being put together. */
  lemma {:induction false} NewestMidway(ms: seq<Message>, xs: seq<Part>, s: Receiver, items: seq<Item>, x: Part)
    requires IsPart(ms, x) && Told(ms, xs, s, items) && x !in xs
    requires items != [] && items[|items| - 1].message == x.message
    ensures var last := items[|items| - 1];
      && last.got != {} && Midway(s.handed, s, ms[x.message], last.got)
      && forall i :: i in last.got ==> Part(x.message, i) in xs
    ensures forall c :: 0 <= c < |items| && items[c].message == x.message ==> x.piece !in items[c].got
  {
    FreshPart(ms, xs, s, items, x);
    assert Made(ms, xs, items[|items| - 1], Collected(s)[|items| - 1]);
    assert s.mp.Some?;
  }

  lemma {:induction false} FrontMade(ms: seq<Message>, xs: seq<Part>, s: Receiver, items: seq<Item>, n: nat)
    requires Told(ms, xs, s, items) && |items| == n + 1 && s.mp.Some?
    ensures var s0 := s.(mp := None);
      |Collected(s0)| == n && forall c :: 0 <= c < n ==> Made(ms, xs, items[..n][c], Collected(s0)[c])
  {
    var s0 := s.(mp := None);
    assert Collected(s0) == s.handed;
    forall c | 0 <= c < n ensures Made(ms, xs, items[..n][c], Collected(s0)[c]) {
      assert Made(ms, xs, items[c], Collected(s)[c]);
    }
  }

  /** The part is of a message older than the newest one: it is dropped. */
  lemma {:induction false} OlderPart(payloadType: byte, ms: seq<Message>, xs: seq<Part>, s: Receiver, items: seq<Item>, x: Part)
    requires Messages(payloadType, ms) && IsPart(ms, x) && Told(ms, xs, s, items)
    requires items != [] && x.message != items[|items| - 1].message && ms[x.message].base.timestamp < s.rtimestamp
    ensures var m := ms[x.message];
      var h, p := PartHeader(m, x.piece), Piece(m.data, x.piece);
      && !Overruns(AcceptCopy(s, true, h, p)) && Accept(s, true, h, p) == s && Told(ms, xs + [x], s, items)
  {
    var n := |items| - 1;
    assert Made(ms, xs, items[n], Collected(s)[n]);
    forall c | 0 <= c < |items| ensures Made(ms, xs + [x], items[c], Collected(s)[c]) {
      MadeStill(ms, xs, x, items[c], Collected(s)[c]);
    }
  }

  // ---------- Runs ----------

  /** However packets are lost, reordered and mixed, and whatever the times of the messages: what a new session hands
      over are messages made of their own pieces in their places, with times that never fall; no piece goes into two
      of them, and nothing is copied outside a buffer. */
  lemma {:induction false} AnyMixture(payloadType: byte, ms: seq<Message>, xs: seq<Part>) returns (items: seq<Item>)
    requires Messages(payloadType, ms) && Parts(ms, xs)
    ensures var ps := Packets(payloadType, ms, xs);
      InsideAll(FRESH, payloadType, ps) && Told(ms, xs, ReceiveAll(FRESH, payloadType, ps), items)
    decreases |xs|
  {
    if xs == [] {
      items := [];
      assert Collected(FRESH) == [];
    } else {
      var n := |xs| - 1;
      var rest, x := xs[..n], xs[n];
      assert IsPart(ms, x) && rest + [x] == xs;
      assert x !in rest;
      items := AnyMixture(payloadType, ms, rest);
      var s := ReceiveAll(FRESH, payloadType, Packets(payloadType, ms, rest));
      ReceiveSnoc(FRESH, payloadType, Packets(payloadType, ms, rest), ms[x.message], x.piece);
      if items != [] && items[|items| - 1].message == x.message {
        SamePart(payloadType, ms, rest, s, items, x);
        items := items[..|items| - 1] + [Item(x.message, items[|items| - 1].got + {x.piece})];
      } else if items == [] || s.rtimestamp <= ms[x.message].base.timestamp {
        NewerPart(payloadType, ms, rest, s, items, x);
        items := items + [Item(x.message, {x.piece})];
      } else {
        OlderPart(payloadType, ms, rest, s, items, x);
      }
    }
  }

  /** When each message is sent at a later time than the one before, they are different messages in the order of
      sending. */
  lemma {:induction false} InOrderOfSending(ms: seq<Message>, xs: seq<Part>, s: Receiver, items: seq<Item>)
    requires Told(ms, xs, s, items)
    requires forall j, k :: 0 <= j < k < |ms| ==> ms[j].base.timestamp < ms[k].base.timestamp
    ensures forall c, d :: 0 <= c < d < |items| ==> items[c].message < items[d].message
  {
    forall c, d | 0 <= c < d < |items| ensures items[c].message < items[d].message {
      assert items[c].message != items[c + 1].message;
      assert NotAfter(ms, items[c], items[c + 1]);
      if c + 1 < d {
        assert NotAfter(ms, items[c + 1], items[d]);
      }
    }
  }

  /** A message is handed over with all its pieces at most once, whatever the times: what is handed over of it besides
      has none of them. */
  lemma {:induction false} WholeOnce(ms: seq<Message>, xs: seq<Part>, s: Receiver, items: seq<Item>, c: nat, d: nat)
    requires Told(ms, xs, s, items) && c < |items| && d < |items| && c != d && items[c].message == items[d].message
    ensures items[c].message < |ms| && !Full(Count(|ms[items[c].message].data|), items[c].got)
  {
    assert Made(ms, xs, items[c], Collected(s)[c]) && Made(ms, xs, items[d], Collected(s)[d]);
    var i :| i in items[d].got;
    assert i < Count(|ms[items[c].message].data|);
    assert items[c].got !! items[d].got by {
      if c < d {
        assert items[c].got !! items[d].got;
      } else {
        assert items[d].got !! items[c].got;
      }
    }
  }

  /** A message that was handed over with all its pieces has the bytes that were sent. */
  lemma {:induction false} MadeWhole(payloadType: byte, ms: seq<Message>, xs: seq<Part>, item: Item, a: Assembled)
    requires Messages(payloadType, ms) && Made(ms, xs, item, a) && Full(Count(|ms[item.message].data|), item.got)
    ensures a.data == ms[item.message].data && a.len == |a.data|
  {
    WholeMessage(ms[item.message], item.got, a);
  }
}
