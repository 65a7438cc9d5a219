/** Which messages the receiver of rtp.c takes: those that are stamped no earlier than what it took last. */
module RtpClock {
  import opened Bytes
  import opened Wrappers
  import opened Rtp

  // ---------- One part ----------

  /** The message being put together is the one that was taken last. */
  ghost predicate Current(s: Receiver) {
    s.mp.Some? ==> s.mp.value.header.timestamp == s.rtimestamp
  }

  /** So it is after every packet. */
  lemma {:induction false} CurrentKept(s: Receiver, payloadType: byte, packet: seq<byte>)
    requires Current(s) && |packet| >= 1
    ensures Current(Receive(s, payloadType, true, packet))
  {
  }

  /** A part of a message that is not being put together begins it, be it for the first time or again, exactly when
      the message is stamped no earlier than the one taken last; otherwise it is dropped. */
  lemma {:induction false} BeginsExactly(s: Receiver, payloadType: byte, m: Message, i: nat)
    requires Current(s) && Proper(payloadType, m) && i < Count(|m.data|)
    requires s.mp.Some? ==> !SameMessage(s.mp.value.header, m.base)
    ensures var s' := Accept(s, true, PartHeader(m, i), Piece(m.data, i));
      && (m.base.timestamp >= s.rtimestamp ==> Midway(Collected(s), s', m, {i}))
      && (s' != s <==> m.base.timestamp >= s.rtimestamp)
  {
    if m.base.timestamp >= s.rtimestamp {
      FirstArrives(s, payloadType, m, i);
    }
  }

  // ---------- Streams, whatever the clock does ----------

  /** Between two messages a part of an older one changes nothing, and so do all of them. */
  lemma {:induction false} AllDropped(s: Receiver, payloadType: byte, m: Message, order: seq<nat>)
    requires Proper(payloadType, m) && PiecesOf(|m.data|, order) && s.mp == None && m.base.timestamp < s.rtimestamp
    ensures ReceiveAll(s, payloadType, ArrivalPackets(payloadType, m, order)) == s
    decreases |order|
  {
    if order != [] {
      var n := |order| - 1;
      AllDropped(s, payloadType, m, order[..n]);
      ReceiveSnoc(s, payloadType, ArrivalPackets(payloadType, m, order[..n]), m, order[n]);
      BeginsExactly(s, payloadType, m, order[n]);
    }
  }

  /** The latest time of messages. */
  function Latest(xs: seq<Arrival>): nat {
    if xs == [] then 0
    else
      var t, u := Latest(xs[..|xs| - 1]), xs[|xs| - 1].message.base.timestamp;
      if u >= t then u else t
  }

  /** Those that are stamped no earlier than any before them. */
  function Kept(xs: seq<Arrival>): seq<Arrival> {
    if xs == [] then []
    else
      var front, x := xs[..|xs| - 1], xs[|xs| - 1];
      Kept(front) + if x.message.base.timestamp >= Latest(front) then [x] else []
  }

  lemma {:induction false} KeptFrom(xs: seq<Arrival>)
    ensures forall x :: x in Kept(xs) ==> x in xs
  {
    if xs != [] {
      KeptFrom(xs[..|xs| - 1]);
    }
  }

  /** With a clock that never turns back, that is all of them. */
  lemma {:induction false} AllKept(xs: seq<Arrival>)
    requires forall k :: 0 < k < |xs| ==> xs[k - 1].message.base.timestamp <= xs[k].message.base.timestamp
    ensures Kept(xs) == xs && (xs != [] ==> Latest(xs) == xs[|xs| - 1].message.base.timestamp)
  {
    if xs != [] {
      var front := xs[..|xs| - 1];
      AllKept(front);
      assert front + [xs[|xs| - 1]] == xs;
    }
  }

  /** What was handed over are the messages xs, with all their bytes. */
  ghost predicate AsSent(handed: seq<Assembled>, xs: seq<Arrival>) {
    |handed| == |xs| && forall k :: 0 <= k < |xs| ==> handed[k].data == xs[k].message.data && handed[k].len == |handed[k].data|
  }

  lemma {:induction false} OneHandedOver(s: Receiver, payloadType: byte, x: Arrival)
    requires s.mp == None && ArrivalOk(payloadType, x) && Complete(x) && x.message.base.timestamp >= s.rtimestamp
    ensures var s' := ReceiveAll(s, payloadType, ArrivalPackets(payloadType, x.message, x.order));
      && s'.mp == None && s'.rtimestamp == x.message.base.timestamp
      && |s'.handed| == |s.handed| + 1 && s'.handed[..|s.handed|] == s.handed
      && s'.handed[|s.handed|].data == x.message.data && s'.handed[|s.handed|].len == |x.message.data|
  {
    OneMessage(s, payloadType, x);
    var s' := ReceiveAll(s, payloadType, ArrivalPackets(payloadType, x.message, x.order));
    assert Collected(s) == s.handed && Collected(s') == s'.handed;
    WholeMessage(x.message, Got(x.order), s'.handed[|s.handed|]);
  }

  lemma {:induction false} AsSentMore(handed: seq<Assembled>, handed': seq<Assembled>, xs: seq<Arrival>, x: Arrival)
    requires AsSent(handed, xs) && |handed'| == |handed| + 1 && handed'[..|handed|] == handed
    requires handed'[|handed|].data == x.message.data && handed'[|handed|].len == |x.message.data|
    ensures AsSent(handed', xs + [x])
  {
    forall k | 0 <= k < |xs| ensures handed'[k].data == xs[k].message.data && handed'[k].len == |handed'[k].data| {
      assert handed'[k] == handed[k];
    }
  }

  /** Messages that arrive one after the other with all their pieces: the handler is called with exactly those that
      are stamped no earlier than any before them, in this order and with the bytes that were sent. A message that
      arrives again is handed over again, and after the clock has wrapped everything is dropped until it has caught
      up. */
  lemma {:induction false} HandedExactly(payloadType: byte, xs: seq<Arrival>)
    requires ArrivalsOk(payloadType, xs) && forall k :: 0 <= k < |xs| ==> Complete(xs[k])
    ensures var s := ReceiveAll(FRESH, payloadType, StreamPackets(payloadType, xs));
      s.mp == None && s.rtimestamp == Latest(xs) && AsSent(s.handed, Kept(xs))
    decreases |xs|
  {
    if xs != [] {
      var n := |xs| - 1;
      var front, x := xs[..n], xs[n];
      assert ArrivalOk(payloadType, x) && Complete(x);
      HandedExactly(payloadType, front);
      var ps, more := StreamPackets(payloadType, front), ArrivalPackets(payloadType, x.message, x.order);
      var s := ReceiveAll(FRESH, payloadType, ps);
      RunAppend(Inside(payloadType), Handling(payloadType), FRESH, ps, more);
      if x.message.base.timestamp >= Latest(front) {
        OneHandedOver(s, payloadType, x);
        AsSentMore(s.handed, ReceiveAll(s, payloadType, more).handed, Kept(front), x);
      } else {
        AllDropped(s, payloadType, x.message, x.order);
      }
    }
  }

  // ---------- Handed over twice ----------

  /** A message of one piece that arrives twice is handed over twice. */
  lemma {:induction false} TwiceHandedOver(payloadType: byte, m: Message)
    requires Proper(payloadType, m) && |m.data| <= PIECE
    ensures var w := Wire(payloadType, m, 0);
      var s := ReceiveAll(FRESH, payloadType, [w, w]);
      |s.handed| == 2 && s.handed[0] == s.handed[1] && s.handed[0].data == m.data
  {
    var w := Wire(payloadType, m, 0);
    assert Piece(m.data, 0) == m.data && PartHeader(m, 0) == m.base;
    ReceiveSnoc(FRESH, payloadType, [], m, 0);
    ReceiveSnoc(FRESH, payloadType, [w], m, 0);
    assert [] + [w] == [w] && [w] + [w] == [w, w];
  }

  /** When a part of another message of the same time comes between two parts of a message, the message is begun a
      second time, and both its beginnings are handed over. */
  lemma {:induction false} BegunAgain(payloadType: byte, a: Message, b: Message)
    requires Proper(payloadType, a) && Proper(payloadType, b) && Count(|a.data|) >= 2
    requires a.base.timestamp == b.base.timestamp && a.base.sequnum != b.base.sequnum
    ensures var s := ReceiveAll(FRESH, payloadType, [Wire(payloadType, a, 0), Wire(payloadType, b, 0), Wire(payloadType, a, 1)]);
      |Collected(s)| == 3 && Holds(a, {0}, Collected(s)[0]) && Holds(b, {0}, Collected(s)[1]) && Holds(a, {1}, Collected(s)[2])
  {
    var w0, w1, w2 := Wire(payloadType, a, 0), Wire(payloadType, b, 0), Wire(payloadType, a, 1);
    var s1, s2 := ReceiveAll(FRESH, payloadType, [w0]), ReceiveAll(FRESH, payloadType, [w0, w1]);
    var s3 := ReceiveAll(FRESH, payloadType, [w0, w1, w2]);
    assert [] + [w0] == [w0] && [w0] + [w1] == [w0, w1] && [w0, w1] + [w2] == [w0, w1, w2];
    ReceiveSnoc(FRESH, payloadType, [], a, 0);
    ReceiveSnoc(FRESH, payloadType, [w0], b, 0);
    ReceiveSnoc(FRESH, payloadType, [w0, w1], a, 1);
    FirstArrives(FRESH, payloadType, a, 0);
    OtherIsReady([], s1, a, {0}, b);
    FirstArrives(s1, payloadType, b, 0);
    OtherIsReady(Collected(s1), s2, b, {0}, a);
    FirstArrives(s2, payloadType, a, 1);
    assert Collected(s3)[0] == Collected(s2)[0] == Collected(s1)[0] && Collected(s3)[1] == Collected(s2)[1];
  }

  lemma {:induction false} OtherIsReady(before: seq<Assembled>, s: Receiver, m: Message, got: set<nat>, other: Message)
    requires Midway(before, s, m, got) && other.base.timestamp == m.base.timestamp && other.base.sequnum != m.base.sequnum
    ensures Ready(s, other)
  {
  }
}
