/** One direction of a secure TCP link, end to end: a writer, the network, and a reader that started from
    the same key and nonce. */
module SecureLink {
  import opened Bytes
  import Nonce
  import opened SecureStream

  class Link {
    const writer: Writer
    const reader: Reader

    constructor (cipher: Cipher, key: Key, sentNonce: array<byte>, recvNonce: array<byte>, socket: Socket, inbox: Inbox)
      requires sentNonce.Length == recvNonce.Length == Nonce.NONCE_BYTES
      requires sentNonce != recvNonce && sentNonce[..] == recvNonce[..] && cipher.RoundTrips()
      requires socket.stream == inbox.stream == [] && inbox.consumed == 0
      ensures Valid() && writer.accepted == [] && reader.delivered == []
    {
      writer := new Writer(cipher, key, sentNonce, socket);
      reader := new Reader(cipher, key, recvNonce, inbox);
      Nonce.AdvanceZero(recvNonce[..]);
    }

    ghost function Repr(): set<object>
      reads this
    {
      {writer, writer.sentNonce, writer.lastPacket, writer.socket, reader, reader.recvNonce, reader.inbox}
    }

    /** Both ends are in order, and what has arrived is the beginning of what was sent. */
    ghost predicate Valid()
      reads this, Repr()
    {
      && reader.recvNonce != writer.sentNonce && reader.recvNonce != writer.lastPacket
      && reader.cipher == writer.cipher && reader.sharedKey == writer.sharedKey
      && reader.firstNonce == writer.firstNonce
      && writer.Valid() && reader.Follows(writer.accepted)
      && reader.inbox.stream <= writer.socket.stream
    }

    /** Accepting more packets does not disturb the reader. */
    lemma {:induction false} StillFollows(ps: seq<Packet>, qs: seq<Packet>, stream: seq<byte>)
      requires reader.Position(ps, |reader.delivered|, reader.nextPacketLength, stream, reader.inbox.consumed)
      requires ps <= qs && forall j :: 0 <= j < |qs| ==> Sendable(qs[j])
      ensures reader.Position(qs, |reader.delivered|, reader.nextPacketLength, stream, reader.inbox.consumed)
    {
      assert qs == ps + qs[|ps|..];
      FramesAppend(reader.cipher, reader.sharedKey, reader.firstNonce, ps, qs[|ps|..]);
      assert qs[..|reader.delivered|] == ps[..|reader.delivered|];
    }

    /** Send one packet. */
    method Write(data: Packet, priority: bool) returns (r: int)
      requires Valid()
      modifies writer, writer.lastPacket, writer.sentNonce, writer.socket
      ensures Valid() && reader.delivered == old(reader.delivered)
      ensures writer.accepted == old(writer.accepted) + (if r == 1 then [data] else [])
      ensures Sendable(data) ==> r == 1 || (r == 0 && !priority)
      ensures !Sendable(data) ==> r != 1
      ensures r == 0 ==> writer.socket.refusals > old(writer.socket.refusals)
      ensures Sendable(data) && writer.socket.refusals == old(writer.socket.refusals) ==> r == 1 && writer.Idle()
    {
      ghost var ps := writer.accepted;
      r := writer.Write(data, priority);
      StillFollows(ps, writer.accepted, reader.inbox.stream);
    }

    /** Give the socket another chance to send: unless it refuses some of it, all that is left goes out. */
    method Flush()
      requires Valid()
      modifies writer`lastPacketLength, writer`lastPacketSent, writer`priorityQueue, writer.socket
      ensures Valid() && writer.accepted == old(writer.accepted) && reader.delivered == old(reader.delivered)
      ensures writer.socket.refusals == old(writer.socket.refusals) ==> writer.Idle()
    {
      var _ := writer.SendPending();
    }

    lemma {:induction false} FrontIsPrefix(s: seq<byte>, n: nat)
      requires n <= |s|
      ensures s[..n] <= s && |s[..n]| == n
    {
    }

    /** The network brings some more of what was sent. */
    method Arrive(more: nat)
      requires Valid() && |reader.inbox.stream| + more <= |writer.socket.stream|
      modifies reader.inbox`stream
      ensures Valid() && reader.inbox.stream == writer.socket.stream[..old(|reader.inbox.stream|) + more]
    {
      reader.inbox.stream := writer.socket.stream[..|reader.inbox.stream| + more];
      FrontIsPrefix(writer.socket.stream, |reader.inbox.stream|);
    }

    /** One read: the next accepted packet, if all of it has arrived. The connection is never given up. */
    method ReadOne() returns (r: int, data: Packet)
      requires Valid()
      modifies reader`nextPacketLength, reader`delivered, reader.recvNonce, reader.inbox`consumed
      ensures Valid() && r >= 0
      ensures r == 0 ==> reader.delivered == old(reader.delivered)
      ensures r == 0 && |reader.delivered| < |writer.accepted| ==>
        |reader.inbox.stream| < reader.NextEnd(writer.accepted)
      ensures r > 0 ==> reader.delivered == old(reader.delivered) + [data] <= writer.accepted
    {
      r, data := reader.Read(MAX_PACKET_SIZE, writer.accepted);
    }

    /** do_confirmed_recv: read packets as long as complete ones are there. Every packet handed on is the
        next accepted one, and once everything sent has arrived none is missing. */
    method ReceiveAll() returns (packets: seq<Packet>)
      requires Valid()
      modifies reader`nextPacketLength, reader`delivered, reader.recvNonce, reader.inbox`consumed
      ensures Valid()
      ensures reader.delivered == old(reader.delivered) + packets && reader.delivered <= writer.accepted
      ensures writer.Idle() && reader.inbox.stream == writer.socket.stream ==>
        reader.delivered == writer.accepted
    {
      ghost var start := reader.delivered;
      packets := [];
      var r, data := ReadOne();
      while r != 0
        invariant Valid() && r >= 0
        invariant r > 0 ==> reader.delivered == start + (packets + [data])
        invariant r == 0 ==> reader.delivered == start + packets
        invariant r == 0 && |reader.delivered| < |writer.accepted| ==>
            |reader.inbox.stream| < reader.NextEnd(writer.accepted)
        decreases |writer.accepted| - |reader.delivered|, r
        modifies reader`nextPacketLength, reader`delivered, reader.recvNonce, reader.inbox`consumed
      {
        packets := packets + [data];
        r, data := ReadOne();
      }
      if writer.Idle() && reader.inbox.stream == writer.socket.stream {
        NothingLeft();
      }
    }

    /** When all frames have arrived, only having read them all stops the reader. */
    lemma {:induction false} NothingLeft()
      requires Valid() && writer.Idle() && reader.inbox.stream == writer.socket.stream
      requires |reader.delivered| < |writer.accepted| ==> |reader.inbox.stream| < reader.NextEnd(writer.accepted)
      ensures reader.delivered == writer.accepted
    {
      var ps, i := writer.accepted, |reader.delivered|;
      writer.IdleIsEmpty();
      if i < |ps| {
        assert ps == ps[..i + 1] + ps[i + 1..];
        FramesAppend(reader.cipher, reader.sharedKey, reader.firstNonce, ps[..i + 1], ps[i + 1..]);
      }
    }
  }
}
