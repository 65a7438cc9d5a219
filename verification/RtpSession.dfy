/** The RTP session of rtp.c, whose receiving half fills the buffer of one message in place. */
module RtpSession {
  import opened Bytes
  import opened Wrappers
  import opened RtpHeader
  import opened Rtp

  /** struct RTPMessage. */
  class Parted {
    const header: Header
    var len: nat
    const data: array<byte>

    ghost function View(): Assembled
      reads this, data
    {
      Assembled(header, len, data[..])
    }

    /** new_message: allocate bytes, the first of which are those of the part. */
    constructor (h: Header, allocate: nat, p: seq<byte>)
      requires |p| <= allocate
      ensures fresh(data) && header == h && len == |p|
      ensures data[..] == p + seq(allocate - |p|, _ => 0)
    {
      header, len := h, |p|;
      data := new byte[allocate](_ => 0);
      new;
      forall i | 0 <= i < |p| {
        data[i] := p[i];
      }
    }

    /** memcpy or memmove of p to place at. */
    method Copy(at: nat, p: seq<byte>)
      requires at + |p| <= data.Length
      modifies data
      ensures data[..] == Overlay(old(data[..]), at, p)
    {
      forall i | at <= i < at + |p| {
        data[i] := p[i - at];
      }
    }
  }

  class Session {
    const payloadType: byte
    const ssrc: nat
    const handler: bool
    var sequnum: nat
    var rsequnum: nat
    var rtimestamp: nat
    var mp: Parted?
    /** The calls of the handler, and of send_custom_lossy_packet, so far. */
    var handed: seq<Assembled>
    var sent: seq<seq<byte>>

    ghost predicate Valid()
      reads this, mp
    {
      && ssrc < TWO_32 && sequnum < TWO_16
      && (mp != null ==> mp.len <= mp.header.tlen == mp.data.Length)
    }

    ghost function View(): Receiver
      reads this, mp, if mp == null then {} else {mp.data}
    {
      Receiver(rsequnum, rtimestamp, if mp == null then None else Some(mp.View()), handed)
    }

    constructor (payloadType: byte, ssrc: nat, sequnum: nat, handler: bool)
      requires ssrc < TWO_32 && sequnum < TWO_16
      ensures Valid() && View() == FRESH && sent == []
      ensures this.payloadType == payloadType && this.ssrc == ssrc && this.handler == handler && this.sequnum == sequnum
    {
      this.payloadType, this.ssrc, this.handler, this.sequnum := payloadType, ssrc, handler, sequnum;
      rsequnum, rtimestamp, mp, handed, sent := 0, 0, null, [], [];
    }

    /** The message that rtp_send_data makes of data. */
    ghost function Outgoing(data: seq<byte>, now: nat): (m: Message)
      requires Valid() && |data| < TWO_16
      reads this, mp
      ensures Sendable(m) && m.data == data && (data != [] ==> Proper(payloadType, m))
    {
      Message(BaseHeader(payloadType, sequnum, now, ssrc, |data|), data)
    }

    /** rtp_send_data: a short message goes in one packet, a longer one in several. */
    method SendData(data: seq<byte>, now: nat)
      requires Valid() && |data| < TWO_16
      modifies this`sequnum, this`sent
      ensures Valid() && sequnum == (old(sequnum) + 1) % TWO_16
      ensures sent == old(sent) + Wires(payloadType, old(Outgoing(data, now)), Count(|data|))
    {
      ghost var m := Outgoing(data, now);
      var header := BaseHeader(payloadType, sequnum, now, ssrc, |data|);
      if MAX_CRYPTO_DATA_SIZE > |data| + HEADER_BYTES + 1 {
        assert Piece(data, 0) == data && PartHeader(m, 0) == header;
        sent := sent + [[payloadType] + Encode(header) + data];
      } else {
        SendPieces(data, header, m);
      }
      sequnum := (sequnum + 1) % TWO_16;
    }

    method SendPieces(data: seq<byte>, base: Header, ghost m: Message)
      requires Sendable(m) && m == Message(base, data) && |data| >= PIECE
      modifies this`sent
      ensures sent == old(sent) + Wires(payloadType, m, Count(|data|))
    {
      var done, piece, header := 0, PIECE, base;
      ghost var k := 0;
      while (|data| - done) + HEADER_BYTES + 1 > MAX_CRYPTO_DATA_SIZE
        invariant done == k * PIECE && done < |data| && k < Count(|data|)
        invariant header == PartHeader(m, k) && sent == old(sent) + Wires(payloadType, m, k)
      {
        sent := sent + [[payloadType] + Encode(header) + data[done..done + piece]];
        WiresSnoc(payloadType, m, k, data[done..done + piece]);
        done := done + piece;
        header := header.(cpart := done);
        k := k + 1;
      }
      piece := |data| - done;
      if piece != 0 {
        sent := sent + [[payloadType] + Encode(header) + data[done..done + piece]];
        WiresSnoc(payloadType, m, k, data[done..done + piece]);
      }
    }

    /** handle_rtp_packet; the result of the handler is taken as 0. When the copy of a part would not fit in the
        buffer of its message, overrun is set instead: what the program then does is not defined. */
    method HandlePacket(packet: seq<byte>) returns (r: int, overrun: bool)
      requires Valid() && |packet| >= 1
      modifies this`rsequnum, this`rtimestamp, this`mp, this`handed, mp, if mp == null then {} else {mp.data}
      ensures Valid() && overrun == Overruns(old(CopyMade(View(), payloadType, handler, packet)))
      ensures !overrun ==> View() == Receive(old(View()), payloadType, handler, packet)
      ensures r == if |packet| <= HEADER_BYTES || Rejected(payloadType, Decode(packet[1..81])) then -1 else 0
    {
      overrun := false;
      if |packet| - 1 < HEADER_BYTES {
        return -1, false;
      }
      var h, p := Decode(packet[1..81]), packet[81..];
      if h.pt != payloadType % 128 || h.cpart >= h.tlen {
        return -1, false;
      }
      r := 0;
      if h.tlen == |p| {
        if h.timestamp < rtimestamp {
          return;
        }
        rsequnum, rtimestamp := h.sequnum, h.timestamp;
        if mp != null {
          HandOver();
        }
        if handler {
          handed := handed + [Assembled(h, |p|, p)];
        }
      } else if mp == null {
        overrun := StartMessage(h, p);
      } else if mp.header.sequnum == h.sequnum && mp.header.timestamp == h.timestamp {
        overrun := AddPart(h, p);
      } else if mp.header.timestamp <= h.timestamp {
        HandOver();
        overrun := StartMessage(h, p);
      }
    }

    /** The message being put together goes to the handler. */
    method HandOver()
      requires Valid() && mp != null
      modifies this`mp, this`handed
      ensures Valid() && View() == Push(old(View()), handler) && mp == null
    {
      if handler {
        var bytes := mp.data[..];
        handed := handed + [Assembled(mp.header, mp.len, bytes)];
      }
      mp := null;
    }

    method StartMessage(h: Header, p: seq<byte>) returns (overrun: bool)
      requires Valid() && mp == null
      modifies this`rsequnum, this`rtimestamp, this`mp
      ensures Valid() && overrun == Overruns(BeginCopy(old(rtimestamp), handler, h, p))
      ensures !overrun ==> View() == Begin(old(View()), handler, h, p)
      ensures mp != null ==> fresh(mp) && fresh(mp.data)
    {
      if h.timestamp < rtimestamp {
        return false;
      }
      rsequnum, rtimestamp := h.sequnum, h.timestamp;
      overrun := handler && h.cpart + |p| > h.tlen;
      if handler && !overrun {
        var m := new Parted(h, h.tlen, p);
        m.Copy(h.cpart, p);
        mp := m;
      }
    }

    /** A further part of the message being put together. */
    method AddPart(h: Header, p: seq<byte>) returns (overrun: bool)
      requires Valid() && mp != null
      modifies this`mp, this`handed, mp`len, mp.data
      ensures Valid() && overrun == Overruns(ExtendCopy(old(mp.View()), h, p))
      ensures !overrun ==> View() == Extend(old(View()), handler, old(mp.View()), h, p)
    {
      overrun := false;
      if mp.header.tlen - mp.len < |p| || mp.header.tlen <= h.cpart {
        return;
      }
      if h.cpart + |p| > mp.data.Length {
        return true;
      }
      mp.Copy(h.cpart, p);
      mp.len := mp.len + |p|;
      if mp.len == mp.header.tlen {
        HandOver();
      }
    }
  }

  lemma {:induction false} WiresSnoc(payloadType: byte, m: Message, k: nat, p: seq<byte>)
    requires Sendable(m) && k < Count(|m.data|) && p == Piece(m.data, k)
    ensures Wires(payloadType, m, k) + [[payloadType] + Encode(PartHeader(m, k)) + p] == Wires(payloadType, m, k + 1)
  {
  }

  /** Packet i of a message byte by byte: the payload type; version 2 without padding, extension, sources or marker,
      and the low bits of the payload type; number, time and source, in network order; no contributing sources; where
      the piece belongs, and how long the message is; and at most 1292 bytes of it. */
  lemma {:induction false} SentBytes(payloadType: byte, sequnum: nat, now: nat, ssrc: nat, data: seq<byte>, i: nat)
    requires sequnum < TWO_16 && ssrc < TWO_32 && |data| < TWO_16 && i < Count(|data|)
    ensures 1292 * i <= |data|
    ensures var w := Wire(payloadType, Message(BaseHeader(payloadType, sequnum, now, ssrc, |data|), data), i);
      && 81 <= |w| <= 1373 && w[0] == payloadType && CommonBytes(w[1..81], payloadType, sequnum, now % 0x1_0000_0000, ssrc)
      && Value(w[1..81][76..78]) == 1292 * i && Value(w[1..81][78..80]) == |data|
      && w[81..] == data[1292 * i..if 1292 * (i + 1) < |data| then 1292 * (i + 1) else |data|]
  {
    var m := Message(BaseHeader(payloadType, sequnum, now, ssrc, |data|), data);
    PieceBytes(data, i);
    WireParts(payloadType, m, i);
    HeaderBytes(PartHeader(m, i), payloadType, sequnum, now % 0x1_0000_0000, ssrc);
  }

  lemma {:induction false} PieceBytes(data: seq<byte>, i: nat)
    requires i < Count(|data|)
    ensures 1292 * i <= |data|
    ensures Piece(data, i) == data[1292 * i..if 1292 * (i + 1) < |data| then 1292 * (i + 1) else |data|]
  {
  }

  lemma {:induction false} WireParts(payloadType: byte, m: Message, i: nat)
    requires Sendable(m) && i < Count(|m.data|)
    ensures var w := Wire(payloadType, m, i);
      w[0] == payloadType && w[1..81] == Encode(PartHeader(m, i)) && w[81..] == Piece(m.data, i)
  {
    Cut(payloadType, Encode(PartHeader(m, i)), Piece(m.data, i));
  }

  /** The 76 bytes of a header that all packets of a message have in common. */
  ghost predicate CommonBytes(e: seq<byte>, payloadType: byte, sequnum: nat, time: nat, ssrc: nat) {
    && |e| == 80 && e[0] == 128 && e[1] == payloadType % 128
    && Value(e[2..4]) == sequnum && Value(e[4..8]) == time && Value(e[8..12]) == ssrc
    && forall k :: 12 <= k < 76 ==> e[k] == 0
  }

  lemma {:induction false} HeaderBytes(h: Header, payloadType: byte, sequnum: nat, time: nat, ssrc: nat)
    requires InRange(h) && h.ve == 2 && h.pe == h.xe == h.cc == h.ma == 0 && h.pt == payloadType % 128
    requires h.sequnum == sequnum && h.timestamp == time && h.ssrc == ssrc && forall k :: 0 <= k < |h.csrc| ==> h.csrc[k] == 0
    ensures CommonBytes(Encode(h), payloadType, sequnum, time, ssrc)
    ensures Value(Encode(h)[76..78]) == h.cpart && Value(Encode(h)[78..80]) == h.tlen
  {
    var e := Encode(h);
    DecodeEncode(h);
    assert e[0] == Flags(h)[0] && e[1] == Flags(h)[1];
    forall k | 12 <= k < 76 ensures e[k] == 0 {
      assert e[k] == e[12..76][k - 12];
    }
  }

  lemma {:induction false} Cut(first: byte, e: seq<byte>, rest: seq<byte>)
    requires |e| == 80
    ensures ([first] + e + rest)[1..81] == e && ([first] + e + rest)[81..] == rest
  {
  }

  /** Of the messages that a session sends, a later one follows an earlier one as long as the clock has not
      turned back and fewer than 2^16 messages lie between them. */
  lemma {:induction false} SentInOrder(payloadType: byte, ssrc: nat, first: nat, j: nat, k: nat, now: nat, later: nat,
                                       a: seq<byte>, b: seq<byte>)
    requires ssrc < TWO_32 && |a| < TWO_16 && |b| < TWO_16 && 0 < k - j < TWO_16 && now <= later < TWO_32
    ensures Follows(Message(BaseHeader(payloadType, (first + j) % TWO_16, now, ssrc, |a|), a),
                    Message(BaseHeader(payloadType, (first + k) % TWO_16, later, ssrc, |b|), b))
  {
  }
}
