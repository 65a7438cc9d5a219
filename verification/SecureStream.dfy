/** The encrypted packet stream of TCP_server.c (and its copy in TCP_client.c): a writer that may see any
    part of a write accepted by its socket, and a reader that may find any part of the stream readable. */
module SecureStream {
  import opened Bytes
  import opened Wrappers
  import Nonce

  const MAC_BYTES: nat := 16
  const MAX_PACKET_SIZE: nat := 2048
  const LENGTH_ERROR: nat := 0xFFFF

  type Packet = seq<byte>

  /** The authenticated cipher: seal(key, nonce, plain) and open(key, nonce, sealed). */
  datatype Cipher = Cipher(seal: (Key, seq<byte>, Packet) -> seq<byte>,
                           open: (Key, seq<byte>, seq<byte>) -> Option<Packet>)
  {
    ghost predicate RoundTrips() {
      forall k: Key, n: seq<byte>, p: Packet ::
        |seal(k, n, p)| == |p| + MAC_BYTES && open(k, n, seal(k, n, p)) == Some(p)
    }
  }

  /** encrypt_data_symmetric refuses the empty packet. */
  function Encrypt(c: Cipher, key: Key, nonce: seq<byte>, plain: Packet): Option<seq<byte>> {
    if |plain| == 0 then None else Some(c.seal(key, nonce, plain))
  }

  /** decrypt_data_symmetric refuses anything too short to hold a byte of plain text. */
  function Decrypt(c: Cipher, key: Key, nonce: seq<byte>, sealed: seq<byte>): Option<Packet> {
    if |sealed| <= MAC_BYTES then None else c.open(key, nonce, sealed)
  }

  // ---------- The specification: the stream of frames ----------

  /** A packet the writer can accept. */
  predicate Sendable(p: Packet) {
    0 < |p| && |p| + MAC_BYTES <= MAX_PACKET_SIZE
  }

  /** One packet on the wire: its sealed length in network order, then the sealed packet. */
  ghost function Frame(c: Cipher, key: Key, nonce: seq<byte>, p: Packet): seq<byte> {
    Spell(|p| + MAC_BYTES, 2) + c.seal(key, nonce, p)
  }

  /** The packets ps on the wire, the first under nonce n and each one under the next nonce. */
  ghost function Frames(c: Cipher, key: Key, n: seq<byte>, ps: seq<Packet>): seq<byte>
    decreases |ps|
  {
    if ps == [] then [] else Frame(c, key, n, ps[0]) + Frames(c, key, Nonce.Advance(n, 1), ps[1..])
  }

  lemma {:induction false} FramesAppend(c: Cipher, key: Key, n: seq<byte>, ps: seq<Packet>, qs: seq<Packet>)
    ensures Frames(c, key, n, ps + qs) == Frames(c, key, n, ps) + Frames(c, key, Nonce.Advance(n, |ps|), qs)
    decreases |ps|
  {
    if ps == [] {
      assert ps + qs == qs;
      Nonce.AdvanceZero(n);
    } else {
      var n1 := Nonce.Advance(n, 1);
      assert (ps + qs)[1..] == ps[1..] + qs;
      FramesAppend(c, key, n1, ps[1..], qs);
      Nonce.AdvanceTwice(n, 1, |ps| - 1);
    }
  }

  lemma {:induction false} FramesSnoc(c: Cipher, key: Key, n: seq<byte>, ps: seq<Packet>, p: Packet)
    ensures Frames(c, key, n, ps + [p]) == Frames(c, key, n, ps) + Frame(c, key, Nonce.Advance(n, |ps|), p)
  {
    FramesAppend(c, key, n, ps, [p]);
    var m := Nonce.Advance(n, |ps|);
    assert Frames(c, key, m, [p]) == Frame(c, key, m, p) + Frames(c, key, Nonce.Advance(m, 1), []);
  }

  /** Frame i of the stream is sealed under the i-th nonce after the first, at the place where i frames end. */
  lemma {:induction false} FrameAt(c: Cipher, key: Key, n: seq<byte>, ps: seq<Packet>, i: nat)
    requires i < |ps|
    ensures Frames(c, key, n, ps[..i]) + Frame(c, key, Nonce.Advance(n, i), ps[i]) <= Frames(c, key, n, ps)
  {
    assert ps == ps[..i + 1] + ps[i + 1..] && ps[..i + 1] == ps[..i] + [ps[i]];
    FramesAppend(c, key, n, ps[..i + 1], ps[i + 1..]);
    FramesSnoc(c, key, n, ps[..i], ps[i]);
  }

  /** No two frames of one stream of fewer than 2^192 packets are sealed under the same nonce. */
  lemma {:induction false} NoNonceReused(n: seq<byte>, count: nat, i: nat, j: nat)
    requires |n| == Nonce.NONCE_BYTES && i < count && j < count <= Nonce.NONCE_COUNT
    ensures Nonce.Advance(n, i) == Nonce.Advance(n, j) <==> i == j
  {
    if i < j {
      Nonce.NoncesDistinct(n, i, j);
    } else if j < i {
      Nonce.NoncesDistinct(n, j, i);
    }
  }

  // ---------- The sockets ----------

  /** The sending end: it takes any part of what it is given, or fails. */
  class Socket {
    var stream: seq<byte>    // everything taken since the handshake
    ghost var refusals: nat  // how often it took less than it was given

    constructor ()
      ensures stream == [] && refusals == 0
    {
      stream, refusals := [], 0;
    }

    method Send(data: seq<byte>) returns (len: int)
      modifies this
      ensures -1 <= len <= |data|
      ensures stream == if len > 0 then old(stream) + data[..len] else old(stream)
      ensures refusals == old(refusals) + if len < |data| then 1 else 0
    {
      len :| -1 <= len <= |data|;
      if len > 0 {
        stream := stream + data[..len];
      }
      if len < |data| {
        refusals := refusals + 1;
      }
    }
  }

  /** The receiving end: stream is everything that has arrived since the handshake, consumed of it was read. */
  class Inbox {
    var stream: seq<byte>
    var consumed: nat

    constructor ()
      ensures stream == [] && consumed == 0
    {
      stream, consumed := [], 0;
    }

    ghost predicate Valid()
      reads this
    {
      consumed <= |stream|
    }

    /** read_TCP_length: 0 when nothing can be read, LENGTH_ERROR when the length is out of range. */
    method ReadLength() returns (length: nat)
      requires Valid()
      modifies this`consumed
      ensures Valid()
      ensures if |stream| - old(consumed) < 2 then length == 0 && consumed == old(consumed)
              else
                && consumed == old(consumed) + 2
                && var v := Value(stream[old(consumed)..consumed]);
                   length == if v > MAX_PACKET_SIZE then LENGTH_ERROR else v
    {
      var count := |stream| - consumed;
      if count >= 2 {
        length := Value(stream[consumed..consumed + 2]);
        consumed := consumed + 2;
        if length > MAX_PACKET_SIZE {
          return LENGTH_ERROR;
        }
        return length;
      }
      return 0;
    }

    /** read_TCP_packet. */
    method ReadBytes(length: nat) returns (data: Option<seq<byte>>)
      requires Valid()
      modifies this`consumed
      ensures Valid()
      ensures if |stream| - old(consumed) < length then data == None && consumed == old(consumed)
              else consumed == old(consumed) + length && data == Some(stream[old(consumed)..consumed])
    {
      var count := |stream| - consumed;
      if count >= length {
        data := Some(stream[consumed..consumed + length]);
        consumed := consumed + length;
      } else {
        data := None;
      }
    }
  }

  // ---------- The writer ----------

  /** A packet of the priority queue, of which sent bytes have gone out. */
  datatype Pending = Pending(data: seq<byte>, sent: nat)

  ghost predicate GoodQueue(q: seq<Pending>) {
    forall i :: 0 <= i < |q| ==> q[i].sent < |q[i].data|
  }

  /** What the queue has still to send. */
  ghost function QueueRest(q: seq<Pending>): seq<byte>
    requires GoodQueue(q)
  {
    if q == [] then [] else q[0].data[q[0].sent..] + QueueRest(q[1..])
  }

  lemma {:induction false} QueueRestSnoc(q: seq<Pending>, p: Pending)
    requires GoodQueue(q) && p.sent < |p.data|
    ensures GoodQueue(q + [p])
    ensures QueueRest(q + [p]) == QueueRest(q) + p.data[p.sent..]
  {
    if q == [] {
      assert q + [p] == [p];
      assert QueueRest([p]) == p.data[p.sent..] + QueueRest([]);
    } else {
      assert (q + [p])[1..] == q[1..] + [p] && (q + [p])[0] == q[0];
      QueueRestSnoc(q[1..], p);
      Regroup(q[0].data[q[0].sent..], QueueRest(q[1..]), p.data[p.sent..]);
    }
  }

  lemma {:induction false} Regroup(a: seq<byte>, b: seq<byte>, c: seq<byte>)
    ensures a + (b + c) == (a + b) + c
  {
  }

  lemma {:induction false} RestNotEmpty(q: seq<Pending>)
    requires GoodQueue(q) && q != []
    ensures QueueRest(q) != []
  {
  }

  /** Taking len bytes of rest moves them from what is owed to what has gone out. */
  lemma {:induction false} SendSplits(before: seq<byte>, rest: seq<byte>, len: nat, more: seq<byte>)
    requires len <= |rest|
    ensures before + (rest + more) == (before + rest[..len]) + (rest[len..] + more)
    ensures len == |rest| ==> rest[..len] == rest && rest[len..] + more == more
  {
    assert rest[..len] + rest[len..] == rest;
  }

  /** Sending len bytes of the first packet of the queue. */
  lemma {:induction false} QueueSent(before: seq<byte>, q: seq<Pending>, len: nat)
    requires GoodQueue(q) && q != [] && len <= |q[0].data| - q[0].sent
    ensures var p := q[0];
      var q' := if p.sent + len == |p.data| then q[1..] else [Pending(p.data, p.sent + len)] + q[1..];
      GoodQueue(q') && before + QueueRest(q) == (before + p.data[p.sent..][..len]) + QueueRest(q')
  {
    var p := q[0];
    SendSplits(before, p.data[p.sent..], len, QueueRest(q[1..]));
    var q' := [Pending(p.data, p.sent + len)] + q[1..];
    assert q'[1..] == q[1..] && p.data[p.sent..][len..] == p.data[p.sent + len..];
  }

  class Writer {
    const cipher: Cipher
    const sharedKey: Key
    const socket: Socket
    const sentNonce: array<byte>
    const lastPacket: array<byte>
    var lastPacketLength: nat
    var lastPacketSent: nat
    var priorityQueue: seq<Pending>

    ghost const firstNonce: seq<byte>
    ghost var accepted: seq<Packet>  // the packets for which Write returned 1
    ghost var frames: seq<byte>      // their frames

    constructor (cipher: Cipher, key: Key, nonce: array<byte>, socket: Socket)
      requires nonce.Length == Nonce.NONCE_BYTES && socket.stream == []
      ensures Valid() && accepted == [] && Idle() && firstNonce == nonce[..]
      ensures this.cipher == cipher && sharedKey == key && this.socket == socket && sentNonce == nonce
      ensures fresh(lastPacket)
    {
      this.cipher, sharedKey, this.socket, sentNonce := cipher, key, socket, nonce;
      lastPacket := new byte[2 + MAX_PACKET_SIZE];
      lastPacketLength, lastPacketSent, priorityQueue := 0, 0, [];
      firstNonce, accepted, frames := nonce[..], [], [];
      Nonce.AdvanceZero(nonce[..]);
    }

    ghost predicate Shape()
      reads this
    {
      && sentNonce.Length == Nonce.NONCE_BYTES == |firstNonce|
      && lastPacket.Length == 2 + MAX_PACKET_SIZE && lastPacket != sentNonce
      && lastPacketLength <= lastPacket.Length
      && (lastPacketSent < lastPacketLength || lastPacketSent == lastPacketLength == 0)
      && GoodQueue(priorityQueue)
    }

    /** What is still to be sent: the rest of the interrupted packet, then the rest of the priority queue. */
    ghost function Backlog(): seq<byte>
      requires Shape()
      reads this, lastPacket
    {
      lastPacket[lastPacketSent..lastPacketLength] + QueueRest(priorityQueue)
    }

    /** Nothing is left to be sent. */
    ghost predicate Idle()
      reads this
    {
      lastPacketLength == 0 && priorityQueue == []
    }

    lemma {:induction false} IdleIsEmpty()
      requires Shape()
      ensures Idle() <==> Backlog() == []
    {
      if lastPacketLength != 0 {
        assert |lastPacket[lastPacketSent..lastPacketLength]| > 0;
      } else if priorityQueue != [] {
        RestNotEmpty(priorityQueue);
        assert lastPacket[lastPacketSent..lastPacketLength] == [];
      }
    }

    ghost predicate Balanced()
      reads this, lastPacket, socket
    {
      Shape() && socket.stream + Backlog() == frames
    }

    /** The bytes on the wire and the backlog make up the frames of exactly the accepted packets, in order. */
    ghost predicate Valid()
      reads this, lastPacket, sentNonce, socket
    {
      && Balanced()
      && sentNonce[..] == Nonce.Advance(firstNonce, |accepted|)
      && frames == Frames(cipher, sharedKey, firstNonce, accepted)
      && forall i :: 0 <= i < |accepted| ==> Sendable(accepted[i])
    }

    /** send_pending_data_nonpriority: true when no interrupted packet is left. */
    method SendPendingNonpriority() returns (done: bool)
      requires Balanced()
      modifies this`lastPacketLength, this`lastPacketSent, socket
      ensures Balanced() && old(socket.stream) <= socket.stream
      ensures done <==> lastPacketLength == 0
      ensures socket.refusals == old(socket.refusals) + if done then 0 else 1
    {
      if lastPacketLength == 0 {
        return true;
      }
      ghost var rest, before := lastPacket[lastPacketSent..lastPacketLength], socket.stream;
      var left := lastPacketLength - lastPacketSent;
      var len := socket.Send(lastPacket[lastPacketSent..lastPacketLength]);
      if len <= 0 {
        return false;
      }
      SendSplits(before, rest, len, QueueRest(priorityQueue));
      if len == left {
        lastPacketLength := 0;
        lastPacketSent := 0;
        return true;
      }
      lastPacketSent := lastPacketSent + len;
      assert lastPacket[lastPacketSent..lastPacketLength] == rest[len..];
      return false;
    }

    lemma {:induction false} OnlyQueue()
      requires Shape() && lastPacketLength == 0
      ensures Backlog() == QueueRest(priorityQueue)
    {
      assert lastPacket[lastPacketSent..lastPacketLength] == [];
    }

    /** send_pending_data: true when nothing at all is left to send. */
    method SendPending() returns (done: bool)
      requires Balanced()
      modifies this`lastPacketLength, this`lastPacketSent, this`priorityQueue, socket
      ensures Balanced() && old(socket.stream) <= socket.stream
      ensures done <==> Idle()
      ensures socket.refusals == old(socket.refusals) + if done then 0 else 1
    {
      done := SendPendingNonpriority();
      if done {
        done := DrainQueue();
      }
    }

    /** Its second part, when no interrupted packet is left. */
    method DrainQueue() returns (done: bool)
      requires Balanced() && lastPacketLength == 0
      modifies this`priorityQueue, socket
      ensures Balanced() && old(socket.stream) <= socket.stream
      ensures done <==> priorityQueue == []
      ensures socket.refusals == old(socket.refusals) + if done then 0 else 1
    {
      OnlyQueue();
      var p := SendQueue(priorityQueue);
      priorityQueue := p;
      OnlyQueue();
      return p == [];
    }

    /** The loop over the queue; what is left of it. */
    method SendQueue(q: seq<Pending>) returns (p: seq<Pending>)
      requires Owed(q)
      modifies socket
      ensures Owed(p) && old(socket.stream) <= socket.stream
      ensures socket.refusals == old(socket.refusals) + if p == [] then 0 else 1
    {
      p := q;
      var stuck := false;
      while p != [] && !stuck
        invariant Owed(p) && old(socket.stream) <= socket.stream && (stuck ==> p != [])
        invariant socket.refusals == old(socket.refusals) + if stuck then 1 else 0
        decreases |p|, !stuck
        modifies socket
      {
        p, stuck := SendFirst(p);
      }
    }

    /** With the last packet gone, p is what is left to send.
        "== true" keeps the verifier from taking it apart wherever it is to be shown. */
    ghost predicate Owed(p: seq<Pending>)
      reads this, socket
    {
      (GoodQueue(p) && socket.stream + QueueRest(p) == frames) == true
    }

    /** Offers the first packet of the queue to the socket; stuck when the socket does not take all of it. */
    method SendFirst(p: seq<Pending>) returns (rest: seq<Pending>, stuck: bool)
      requires p != [] && Owed(p)
      modifies socket
      ensures Owed(rest) && old(socket.stream) <= socket.stream
      ensures if stuck then |rest| == |p| else rest == p[1..]
      ensures socket.refusals == old(socket.refusals) + if stuck then 1 else 0
    {
      var left := |p[0].data| - p[0].sent;
      ghost var before := socket.stream;
      var len := socket.Send(p[0].data[p[0].sent..]);
      if len > 0 {
        QueueSent(before, p, len);
      }
      if len == left {
        return p[1..], false;
      }
      if len > 0 {
        return [Pending(p[0].data, p[0].sent + len)] + p[1..], true;
      }
      return p, true;
    }

    /** add_priority, with memory available. */
    method AddPriority(packet: seq<byte>, sent: nat)
      requires Shape() && sent < |packet|
      modifies this`priorityQueue
      ensures Shape() && Backlog() == old(Backlog()) + packet[sent..]
    {
      QueueRestSnoc(priorityQueue, Pending(packet, sent));
      priorityQueue := priorityQueue + [Pending(packet, sent)];
    }

    /** What a priority packet does to the stream: it goes out as far as the socket takes it, and the rest
        joins the queue. */
    method SendPriority(packet: seq<byte>, sendPriority: bool)
      requires Balanced() && |packet| > 0 && (sendPriority ==> Idle())
      modifies this`priorityQueue, this`frames, socket
      ensures Balanced() && frames == old(frames) + packet && old(socket.stream) <= socket.stream
      ensures socket.refusals == old(socket.refusals) + if sendPriority && !Idle() then 1 else 0
      ensures !sendPriority ==> socket.stream == old(socket.stream)
    {
      ghost var before, backlog := socket.stream, Backlog();
      IdleIsEmpty();
      var len := 0;
      if sendPriority {
        len := socket.Send(packet);
      }
      if len <= 0 {
        len := 0;
      }
      frames := frames + packet;
      SendSplits(before, packet, len, []);
      if len == |packet| {
        return;
      }
      AddPriority(packet, len);
      if len == 0 {
        assert packet[0..] == packet;
        SendSplits(before, backlog, |backlog|, packet);
      }
    }

    /** What an ordinary packet does to the stream when nothing is pending: either the socket takes some of
        it, and the rest is kept to be finished first, or nothing happens. */
    method SendNow(packet: seq<byte>) returns (taken: bool)
      requires Balanced() && 0 < |packet| <= lastPacket.Length && Idle()
      modifies this`lastPacketLength, this`lastPacketSent, this`frames, lastPacket, socket
      ensures Balanced() && frames == old(frames) + (if taken then packet else [])
      ensures old(socket.stream) <= socket.stream && priorityQueue == []
      ensures socket.refusals == old(socket.refusals) + if taken && Idle() then 0 else 1
      ensures taken <==> socket.stream != old(socket.stream)
    {
      ghost var before := socket.stream;
      assert before == frames;
      var len := socket.Send(packet);
      if len <= 0 {
        return false;
      }
      frames := frames + packet;
      SendSplits(before, packet, len, []);
      if len == |packet| {
        return true;
      }
      forall i | 0 <= i < |packet| {
        lastPacket[i] := packet[i];
      }
      lastPacketLength := |packet|;
      lastPacketSent := len;
      assert lastPacket[len..|packet|] == packet[len..];
      return true;
    }

    /** increment_nonce, once the frame of data has been taken. */
    method Accept(ghost data: Packet)
      requires sentNonce.Length == Nonce.NONCE_BYTES
      requires sentNonce[..] == Nonce.Advance(firstNonce, |accepted|)
      requires frames == Frames(cipher, sharedKey, firstNonce, accepted) + Frame(cipher, sharedKey, sentNonce[..], data)
      modifies this`accepted, sentNonce
      ensures accepted == old(accepted) + [data]
      ensures sentNonce[..] == Nonce.Advance(firstNonce, |accepted|)
      ensures frames == Frames(cipher, sharedKey, firstNonce, accepted)
    {
      FramesSnoc(cipher, sharedKey, firstNonce, accepted, data);
      Nonce.AdvanceTwice(firstNonce, |accepted|, 1);
      Nonce.IncrementNonce(sentNonce);
      accepted := accepted + [data];
    }

    /** write_packet_TCP_secure_connection: 1 when data is taken for sending, 0 when it is not now, -1 when
        it never can be. */
    method Write(data: Packet, priority: bool) returns (r: int)
      requires Valid()
      modifies this, lastPacket, sentNonce, socket
      ensures Valid() && old(socket.stream) <= socket.stream
      ensures |data| + MAC_BYTES > MAX_PACKET_SIZE ==> r == -1
      ensures |data| == 0 ==> r == -1 || (r == 0 && !Idle())
      ensures cipher.RoundTrips() && Sendable(data) ==> r == 1 || (r == 0 && !priority)
      ensures accepted == if r == 1 then old(accepted) + [data] else old(accepted)
      ensures r == 0 ==> socket.refusals > old(socket.refusals)
      ensures r == 1 && !priority ==> priorityQueue == []
      ensures cipher.RoundTrips() && Sendable(data) && socket.refusals == old(socket.refusals) ==> r == 1 && Idle()
    {
      if |data| + MAC_BYTES > MAX_PACKET_SIZE {
        return -1;
      }
      var idle := SendPending();
      if !idle && !priority {
        return 0;
      }
      var sealed := Encrypt(cipher, sharedKey, sentNonce[..], data);
      if sealed == None || |sealed.value| != |data| + MAC_BYTES {
        return -1;
      }
      r := Offer(data, Spell(|data| + MAC_BYTES, 2) + sealed.value, priority, idle);
    }

    /** Its second half, with the frame of data made; idle says that nothing else is left to send. */
    method Offer(ghost data: Packet, packet: seq<byte>, priority: bool, idle: bool) returns (r: int)
      requires Valid() && Sendable(data) && packet == Frame(cipher, sharedKey, sentNonce[..], data)
      requires |packet| <= lastPacket.Length && (if idle then Idle() else priority)
      modifies this`priorityQueue, this`lastPacketLength, this`lastPacketSent, this`frames, this`accepted
      modifies lastPacket, sentNonce, socket
      ensures Valid() && old(socket.stream) <= socket.stream && (r == 1 || (r == 0 && !priority))
      ensures accepted == if r == 1 then old(accepted) + [data] else old(accepted)
      ensures r == 0 ==> socket.refusals > old(socket.refusals)
      ensures r == 1 && !priority ==> priorityQueue == []
      ensures idle && socket.refusals == old(socket.refusals) ==> r == 1 && Idle()
      ensures socket.refusals >= old(socket.refusals)
    {
      if priority {
        SendPriority(packet, idle);
      } else {
        var taken := SendNow(packet);
        if !taken {
          return 0;
        }
      }
      Accept(data);
      return 1;
    }
  }

  // ---------- The reader ----------

  /** Where frame i of the stream ps begins. */
  ghost function FrameStart(c: Cipher, key: Key, n: seq<byte>, ps: seq<Packet>, i: nat): nat
    requires i <= |ps|
  {
    |Frames(c, key, n, ps[..i])|
  }

  /** A stream that follows ps as far as it goes carries, at the start of frame i, its length and its seal. */
  lemma {:induction false} FrameParts(c: Cipher, key: Key, n: seq<byte>, ps: seq<Packet>, i: nat, stream: seq<byte>)
    requires i < |ps| && c.RoundTrips() && Sendable(ps[i]) && stream <= Frames(c, key, n, ps)
    ensures var start, len := FrameStart(c, key, n, ps, i), |ps[i]| + MAC_BYTES;
      && FrameStart(c, key, n, ps, i + 1) == start + 2 + len
      && (start + 2 <= |stream| ==> stream[start..start + 2] == Spell(len, 2))
      && (start + 2 + len <= |stream| ==>
            stream[start + 2..start + 2 + len] == c.seal(key, Nonce.Advance(n, i), ps[i]))
  {
    var before, len := Frames(c, key, n, ps[..i]), |ps[i]| + MAC_BYTES;
    var sealed := c.seal(key, Nonce.Advance(n, i), ps[i]);
    FrameSplit(c, key, n, ps, i);
    PrefixParts(before, Spell(len, 2), sealed, Frames(c, key, n, ps), stream);
  }

  lemma {:induction false} LengthBytes(len: nat)
    requires len < 0x1_0000
    ensures Value(Spell(len, 2)) == len
  {
    ValueOfSpell(len, 2);
    assert Pow256(2) == 0x1_0000;
  }

  lemma {:induction false} FrameSplit(c: Cipher, key: Key, n: seq<byte>, ps: seq<Packet>, i: nat)
    requires i < |ps|
    ensures var before, len := Frames(c, key, n, ps[..i]), |ps[i]| + MAC_BYTES;
      var sealed := c.seal(key, Nonce.Advance(n, i), ps[i]);
      && before + (Spell(len, 2) + sealed) <= Frames(c, key, n, ps)
      && FrameStart(c, key, n, ps, i + 1) == |before| + 2 + |sealed|
  {
    assert ps[..i + 1] == ps[..i] + [ps[i]];
    FramesSnoc(c, key, n, ps[..i], ps[i]);
    FrameAt(c, key, n, ps, i);
  }

  lemma {:induction false} PrefixParts(a: seq<byte>, b: seq<byte>, c: seq<byte>, all: seq<byte>, stream: seq<byte>)
    requires a + (b + c) <= all && stream <= all
    ensures |a| + |b| <= |stream| ==> stream[|a|..|a| + |b|] == b
    ensures |a| + |b| + |c| <= |stream| ==> stream[|a| + |b|..|a| + |b| + |c|] == c
  {
    var abc := a + (b + c);
    assert abc[|a|..|a| + |b|] == b && abc[|a| + |b|..] == c;
  }

  lemma {:induction false} PrefixSnoc<T>(s: seq<T>, t: seq<T>)
    requires s <= t && |s| < |t|
    ensures s + [t[|s|]] <= t
  {
  }

  class Reader {
    const cipher: Cipher
    const sharedKey: Key
    const inbox: Inbox
    const recvNonce: array<byte>
    var nextPacketLength: nat

    ghost const firstNonce: seq<byte>
    ghost var delivered: seq<Packet>  // the packets Read has returned

    constructor (cipher: Cipher, key: Key, nonce: array<byte>, inbox: Inbox)
      requires nonce.Length == Nonce.NONCE_BYTES && inbox.consumed == 0
      ensures delivered == [] && nextPacketLength == 0 && firstNonce == nonce[..]
      ensures this.cipher == cipher && sharedKey == key && this.inbox == inbox && recvNonce == nonce
    {
      this.cipher, sharedKey, this.inbox, recvNonce := cipher, key, inbox, nonce;
      nextPacketLength, firstNonce, delivered := 0, nonce[..], [];
    }

    /** The inbox holds a part of the stream of ps, and what was consumed of it is the frames of the
        delivered packets, plus the length of the next one when that has been read. */
    ghost predicate Follows(ps: seq<Packet>)
      reads this, recvNonce, inbox
    {
      && recvNonce.Length == Nonce.NONCE_BYTES
      && recvNonce[..] == Nonce.Advance(firstNonce, |delivered|)
      && delivered <= ps
      && Position(ps, |delivered|, nextPacketLength, inbox.stream, inbox.consumed)
    }

    /** Where a reader stands in the stream of ps: before packet i, with the length of it read when next is set.
        "== true" has the same use as above. */
    ghost predicate Position(ps: seq<Packet>, i: nat, next: nat, stream: seq<byte>, consumed: nat) {
      && i <= |ps| && consumed <= |stream|
      && (&& cipher.RoundTrips()
          && (forall j :: 0 <= j < |ps| ==> Sendable(ps[j]))
          && stream <= Frames(cipher, sharedKey, firstNonce, ps)
          && consumed == FrameStart(cipher, sharedKey, firstNonce, ps, i) + (if next == 0 then 0 else 2)
          && (next != 0 ==> i < |ps| && next == |ps[i]| + MAC_BYTES)) == true
    }

    /** How far the stream must have arrived for the next packet of ps to be complete. */
    ghost function NextEnd(ps: seq<Packet>): nat
      requires |delivered| < |ps|
      reads this
    {
      FrameStart(cipher, sharedKey, firstNonce, ps, |delivered| + 1)
    }

    lemma {:induction false} AtEnd(ps: seq<Packet>, next: nat, stream: seq<byte>, consumed: nat)
      requires Position(ps, |ps|, next, stream, consumed)
      ensures consumed == |stream|
    {
      assert ps[..|ps|] == ps;
    }

    /** The first half of read_packet_TCP_secure_connection: the length of the next packet. */
    method ReadNextLength(ghost ps: seq<Packet>) returns (len: nat)
      requires nextPacketLength == 0 && Position(ps, |delivered|, 0, inbox.stream, inbox.consumed)
      modifies inbox`consumed
      ensures len != LENGTH_ERROR
      ensures Position(ps, |delivered|, len, inbox.stream, inbox.consumed)
      ensures len == 0 ==> |delivered| == |ps| || |inbox.stream| < NextEnd(ps)
    {
      NextLength(ps, |delivered|, inbox.stream, inbox.consumed);
      len := inbox.ReadLength();
    }

    /** Between two packets, the next two bytes are the length of the next one. */
    lemma {:induction false} NextLength(ps: seq<Packet>, i: nat, stream: seq<byte>, consumed: nat)
      requires Position(ps, i, 0, stream, consumed)
      ensures i == |ps| ==> consumed == |stream|
      ensures i < |ps| && |stream| - consumed < 2 ==> |stream| < FrameStart(cipher, sharedKey, firstNonce, ps, i + 1)
      ensures i < |ps| && |stream| - consumed >= 2 ==>
        && Value(stream[consumed..consumed + 2]) == |ps[i]| + MAC_BYTES <= MAX_PACKET_SIZE
        && Position(ps, i, |ps[i]| + MAC_BYTES, stream, consumed + 2)
    {
      if i < |ps| {
        FrameParts(cipher, sharedKey, firstNonce, ps, i, stream);
        LengthBytes(|ps[i]| + MAC_BYTES);
      } else {
        AtEnd(ps, 0, stream, consumed);
      }
    }

    /** With its length known, the next packet opens to what was sent as soon as all of it is there. */
    lemma {:induction false} NextFrame(ps: seq<Packet>, i: nat, next: nat, stream: seq<byte>, consumed: nat)
      requires next != 0 && Position(ps, i, next, stream, consumed)
      ensures FrameStart(cipher, sharedKey, firstNonce, ps, i + 1) == consumed + next
      ensures consumed + next <= |stream| ==>
        && Position(ps, i + 1, 0, stream, consumed + next)
        && Decrypt(cipher, sharedKey, Nonce.Advance(firstNonce, i), stream[consumed..consumed + next]) == Some(ps[i])
    {
      FrameParts(cipher, sharedKey, firstNonce, ps, i, stream);
    }

    /** increment_nonce, once a packet has been opened. */
    method Deliver(ghost data: Packet)
      requires recvNonce.Length == Nonce.NONCE_BYTES && recvNonce[..] == Nonce.Advance(firstNonce, |delivered|)
      modifies this`delivered, recvNonce
      ensures delivered == old(delivered) + [data] && recvNonce[..] == Nonce.Advance(firstNonce, |delivered|)
    {
      Nonce.AdvanceTwice(firstNonce, |delivered|, 1);
      Nonce.IncrementNonce(recvNonce);
      delivered := delivered + [data];
    }

    /** The second half: the packet itself, once all of it has arrived. */
    method ReadNextPacket(ghost ps: seq<Packet>) returns (r: int, data: Packet)
      requires Follows(ps) && nextPacketLength != 0
      modifies this`nextPacketLength, this`delivered, recvNonce, inbox`consumed
      ensures Follows(ps)
      ensures if old(|inbox.stream| < NextEnd(ps)) then r == 0 && delivered == old(delivered)
              else r == |data| > 0 && data == ps[old(|delivered|)] && delivered == old(delivered) + [data]
    {
      var sealed := TakeSealed(ps);
      if sealed == None {
        return 0, [];
      }
      nextPacketLength := 0;
      r, data := Open(sealed.value, ps);
    }

    /** The bytes of the packet, if all of them are there. */
    method TakeSealed(ghost ps: seq<Packet>) returns (sealed: Option<seq<byte>>)
      requires nextPacketLength != 0 && Position(ps, |delivered|, nextPacketLength, inbox.stream, inbox.consumed)
      modifies inbox`consumed
      ensures |delivered| < |ps| && (sealed == None <==> |inbox.stream| < NextEnd(ps))
      ensures sealed == None ==> inbox.consumed == old(inbox.consumed)
      ensures sealed != None ==>
        && Position(ps, |delivered| + 1, 0, inbox.stream, inbox.consumed) && |sealed.value| == |ps[|delivered|]| + MAC_BYTES
        && Decrypt(cipher, sharedKey, Nonce.Advance(firstNonce, |delivered|), sealed.value) == Some(ps[|delivered|])
    {
      NextFrame(ps, |delivered|, nextPacketLength, inbox.stream, inbox.consumed);
      sealed := inbox.ReadBytes(nextPacketLength);
    }

    /** Its last step, with the bytes of the packet taken from the stream. */
    method Open(sealed: seq<byte>, ghost ps: seq<Packet>) returns (r: int, data: Packet)
      requires nextPacketLength == 0 && delivered <= ps && Position(ps, |delivered| + 1, 0, inbox.stream, inbox.consumed)
      requires recvNonce.Length == Nonce.NONCE_BYTES && recvNonce[..] == Nonce.Advance(firstNonce, |delivered|)
      requires Decrypt(cipher, sharedKey, recvNonce[..], sealed) == Some(ps[|delivered|])
      requires |sealed| == |ps[|delivered|]| + MAC_BYTES
      modifies this`delivered, recvNonce
      ensures Follows(ps)
      ensures r == |data| > 0 && data == ps[old(|delivered|)] && delivered == old(delivered) + [data]
    {
      var plain := Decrypt(cipher, sharedKey, recvNonce[..], sealed);
      if plain == None || |plain.value| + MAC_BYTES != |sealed| {
        return -1, [];
      }
      PrefixSnoc(delivered, ps);
      Deliver(plain.value);
      return |plain.value|, plain.value;
    }

    /** read_packet_TCP_secure_connection: the length of the packet that was read, 0 when none is complete
        yet, -1 when it must not be read. */
    method Read(maxLen: nat, ghost ps: seq<Packet>) returns (r: int, data: Packet)
      requires Follows(ps)
      modifies this`nextPacketLength, this`delivered, recvNonce, inbox`consumed
      ensures Follows(ps)
      ensures r > 0 ==> r == |data| && delivered == old(delivered) + [data] && delivered <= ps
      ensures r <= 0 ==> delivered == old(delivered)
      ensures old(|delivered| == |ps| || |inbox.stream| < NextEnd(ps)) ==> r <= 0
      ensures r == 0 ==> old(|delivered| == |ps| || |inbox.stream| < NextEnd(ps))
      ensures r < 0 ==> r == -1 && |delivered| < |ps| && |ps[|delivered|]| > maxLen
      ensures r <= maxLen
    {
      data := [];
      if nextPacketLength == 0 {
        var len := ReadNextLength(ps);
        if len == LENGTH_ERROR {
          return -1, [];
        }
        if len == 0 {
          return 0, [];
        }
        nextPacketLength := len;
      }
      if maxLen + MAC_BYTES < nextPacketLength {
        return -1, [];
      }
      r, data := ReadNextPacket(ps);
    }
  }
}
