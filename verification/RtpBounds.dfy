/** When the receiver of rtp.c stays inside its buffers. */
module RtpBounds {
  import opened Bytes
  import opened Wrappers
  import opened RtpHeader
  import opened Rtp

  /** A buffer has the announced length, and no more bytes of it have come. */
  ghost predicate WellFormed(s: Receiver) {
    s.mp.Some? ==> s.mp.value.len <= s.mp.value.header.tlen == |s.mp.value.data|
  }

  /** The packet goes on with the message being put together. */
  predicate Continues(s: Receiver, h: Header) {
    s.mp.Some? && SameMessage(s.mp.value.header, h)
  }

  /** The tests of the receiver let the part of a longer message pass. */
  predicate PassesTests(s: Receiver, handler: bool, h: Header, p: seq<byte>) {
    if Continues(s, h) then |p| <= s.mp.value.header.tlen - s.mp.value.len && h.cpart < s.mp.value.header.tlen
    else handler && h.timestamp >= s.rtimestamp && (s.mp.Some? ==> h.timestamp >= s.mp.value.header.timestamp)
  }

  /** For any session and packet: the copy overruns exactly when the tests let the part pass and its end lies
      beyond the message. */
  lemma {:induction false} OverrunsExactly(s: Receiver, payloadType: byte, handler: bool, packet: seq<byte>)
    requires WellFormed(s) && |packet| > HEADER_BYTES
    ensures var h, p := Decode(packet[1..81]), packet[81..];
      Overruns(CopyMade(s, payloadType, handler, packet)) <==>
        && !Rejected(payloadType, h) && h.tlen != |p| && PassesTests(s, handler, h, p)
        && h.cpart + |p| > if Continues(s, h) then s.mp.value.header.tlen else h.tlen
  {
  }

  /** A step without an overrun keeps the session well formed; the message being put together, if it is another
      one than before, begins with the packet. */
  lemma {:induction false} StepKeeps(s: Receiver, payloadType: byte, handler: bool, packet: seq<byte>)
    requires WellFormed(s) && |packet| >= 1 && !Overruns(CopyMade(s, payloadType, handler, packet))
    ensures var s' := Receive(s, payloadType, handler, packet);
      && WellFormed(s')
      && (s'.mp.Some? ==>
            || (s.mp.Some? && s'.mp.value.header == s.mp.value.header)
            || (|packet| > HEADER_BYTES && s'.mp.value.header == Decode(packet[1..81])))
  {
  }

  // ---------- Packets that are safe in any order ----------

  /** The part lies inside the message it belongs to. */
  predicate PartFits(packet: seq<byte>) {
    |packet| > HEADER_BYTES ==>
      var h := Decode(packet[1..81]);
      h.cpart + (|packet| - 1 - HEADER_BYTES) <= h.tlen
  }

  /** Parts of one message agree about its length. */
  predicate Agree(a: seq<byte>, b: seq<byte>) {
    |a| > HEADER_BYTES && |b| > HEADER_BYTES && SameMessage(Decode(a[1..81]), Decode(b[1..81])) ==>
      Decode(a[1..81]).tlen == Decode(b[1..81]).tlen
  }

  ghost predicate Sound(packets: seq<seq<byte>>) {
    && (forall k :: 0 <= k < |packets| ==> PartFits(packets[k]))
    && forall j, k :: 0 <= j < |packets| && 0 <= k < |packets| ==> Agree(packets[j], packets[k])
  }

  /** The header of the message being put together came with one of the packets. */
  ghost predicate Known(s: Receiver, packets: seq<seq<byte>>) {
    s.mp.Some? ==> exists k :: 0 <= k < |packets| && Brought(packets[k], s.mp.value.header)
  }

  ghost predicate Brought(packet: seq<byte>, h: Header) {
    |packet| > HEADER_BYTES && h == Decode(packet[1..81])
  }

  lemma {:induction false} SoundStep(s: Receiver, payloadType: byte, packets: seq<seq<byte>>, i: nat)
    requires WellFormed(s) && Known(s, packets) && Sound(packets) && i < |packets| && packets[i] != []
    ensures !Overruns(CopyMade(s, payloadType, true, packets[i]))
    ensures WellFormed(Receive(s, payloadType, true, packets[i])) && Known(Receive(s, payloadType, true, packets[i]), packets)
  {
    var packet := packets[i];
    if |packet| > HEADER_BYTES {
      OverrunsExactly(s, payloadType, true, packet);
      assert PartFits(packet);
      if s.mp.Some? {
        var k :| 0 <= k < |packets| && Brought(packets[k], s.mp.value.header);
        assert Agree(packets[k], packet);
      }
      assert Brought(packet, Decode(packet[1..81]));
    }
    StepKeeps(s, payloadType, true, packet);
  }

  /** Packets whose parts lie inside their messages, with one length for each message, never make a new session
      copy outside a buffer, in whatever order they come and however often. */
  lemma {:induction false} SoundPacketsStayInside(payloadType: byte, packets: seq<seq<byte>>)
    requires Sound(packets)
    ensures InsideAll(FRESH, payloadType, packets)
  {
    SoundRun(payloadType, packets, |packets|);
    assert packets[..|packets|] == packets;
  }

  lemma {:induction false} SoundRun(payloadType: byte, packets: seq<seq<byte>>, n: nat)
    requires Sound(packets) && n <= |packets|
    ensures var s := ReceiveAll(FRESH, payloadType, packets[..n]);
      WellFormed(s) && Known(s, packets) && InsideAll(FRESH, payloadType, packets[..n])
  {
    if n != 0 {
      SoundRun(payloadType, packets, n - 1);
      assert packets[..n] == packets[..n - 1] + [packets[n - 1]];
      RunSnoc(Inside(payloadType), Handling(payloadType), FRESH, packets[..n - 1], packets[n - 1]);
      if packets[n - 1] != [] {
        SoundStep(ReceiveAll(FRESH, payloadType, packets[..n - 1]), payloadType, packets, n - 1);
      }
    }
  }

  // ---------- A packet that is not ----------

  /** A part of PIECE bytes that is to begin at the last byte of a message of two pieces. */
  function Misplaced(payloadType: byte, m: Message): seq<byte>
    requires Sendable(m) && |m.data| == 2 * PIECE
  {
    [payloadType] + Encode(m.base.(cpart := 2 * PIECE - 1)) + m.data[..PIECE]
  }

  /** After the first piece of such a message, it passes the tests and overruns. */
  lemma {:induction false} MisplacedOverruns(payloadType: byte, m: Message)
    requires Proper(payloadType, m) && |m.data| == 2 * PIECE
    ensures var s := ReceiveAll(FRESH, payloadType, [Wire(payloadType, m, 0)]);
      WellFormed(s) && Overruns(CopyMade(s, payloadType, true, Misplaced(payloadType, m)))
  {
    var w, packet := Wire(payloadType, m, 0), Misplaced(payloadType, m);
    FirstHalfHeld(payloadType, m);
    MisplacedParts(payloadType, m);
    OverrunsExactly(ReceiveAll(FRESH, payloadType, [w]), payloadType, true, packet);
  }

  lemma {:induction false} FirstHalfHeld(payloadType: byte, m: Message)
    requires Proper(payloadType, m) && |m.data| == 2 * PIECE
    ensures ReceiveAll(FRESH, payloadType, [Wire(payloadType, m, 0)]).mp == Some(FirstPart(m.base, m.data[..PIECE]))
  {
    ReceiveSnoc(FRESH, payloadType, [], m, 0);
    assert [] + [Wire(payloadType, m, 0)] == [Wire(payloadType, m, 0)];
    assert PartHeader(m, 0) == m.base && Piece(m.data, 0) == m.data[..PIECE];
  }

  lemma {:induction false} MisplacedParts(payloadType: byte, m: Message)
    requires Proper(payloadType, m) && |m.data| == 2 * PIECE
    ensures var packet := Misplaced(payloadType, m);
      && |packet| == 1 + HEADER_BYTES + PIECE
      && Decode(packet[1..81]) == m.base.(cpart := 2 * PIECE - 1) && packet[81..] == m.data[..PIECE]
  {
    var h := m.base.(cpart := 2 * PIECE - 1);
    Halves([payloadType], Encode(h));
    Halves([payloadType] + Encode(h), m.data[..PIECE]);
    SliceOfFront(Misplaced(payloadType, m), 81, 1, 81);
    DecodeEncode(h);
  }
}
