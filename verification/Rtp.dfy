/** Media messages cut into packets, and put together again from packets that may be lost or arrive out of
    order (rtp.c). */
module Rtp {
  import opened Bytes
  import opened Wrappers
  import opened RtpHeader

  const MAX_CRYPTO_DATA_SIZE: nat := 1373

  /** What a packet has room for beside the type byte and the header. */
  const PIECE: nat := MAX_CRYPTO_DATA_SIZE - (HEADER_BYTES + 1)

  // ---------- The pieces of a message ----------

  /** The number of pieces of a message of n bytes. */
  function Count(n: nat): (c: nat)
    ensures c >= 1 && (c - 1) * PIECE <= n <= c * PIECE
    ensures n > 0 ==> (c - 1) * PIECE < n
  {
    if n == 0 then 1 else (n + PIECE - 1) / PIECE
  }

  /** The length of piece i. */
  function Size(n: nat, i: nat): (r: nat)
    requires i < Count(n)
    ensures r <= PIECE && i * PIECE + r <= n
    ensures n > 0 ==> r > 0
    ensures i * PIECE + r == if i == Count(n) - 1 then n else (i + 1) * PIECE
  {
    if n - i * PIECE < PIECE then n - i * PIECE else PIECE
  }

  function Piece(data: seq<byte>, i: nat): (p: seq<byte>)
    requires i < Count(|data|)
    ensures |p| == Size(|data|, i)
  {
    data[i * PIECE..i * PIECE + Size(|data|, i)]
  }

  function Joined(data: seq<byte>, k: nat): seq<byte>
    requires k <= Count(|data|)
  {
    if k == 0 then [] else Joined(data, k - 1) + Piece(data, k - 1)
  }

  /** The pieces, one after the other, are the message. */
  lemma {:induction false} PiecesPartition(data: seq<byte>)
    ensures Joined(data, Count(|data|)) == data
  {
    var c := Count(|data|);
    PiecesSoFar(data, c - 1);
    assert data == data[..(c - 1) * PIECE] + data[(c - 1) * PIECE..];
  }

  lemma {:induction false} PiecesSoFar(data: seq<byte>, k: nat)
    requires k < Count(|data|)
    ensures k * PIECE <= |data| && Joined(data, k) == data[..k * PIECE]
  {
    if k != 0 {
      PiecesSoFar(data, k - 1);
    }
  }

  // ---------- What is sent ----------

  /** A message to send: its header with cpart still zero, and its bytes. */
  datatype Message = Message(base: Header, data: seq<byte>)

  ghost predicate Sendable(m: Message) {
    InRange(m.base) && m.base.cpart == 0 && m.base.tlen == |m.data|
  }

  function BaseHeader(payloadType: byte, sequnum: nat, now: nat, ssrc: nat, length: nat): (h: Header)
    requires sequnum < TWO_16 && ssrc < TWO_32 && length < TWO_16
    ensures InRange(h) && h.cpart == 0 && h.tlen == length
  {
    Header(2, 0, 0, 0, 0, payloadType % 128, sequnum, now % TWO_32, ssrc, seq(CSRC_BYTES, _ => 0), 0, length)
  }

  function PartHeader(m: Message, i: nat): (h: Header)
    requires Sendable(m) && i < Count(|m.data|)
    ensures InRange(h)
  {
    m.base.(cpart := i * PIECE)
  }

  /** Packet i of a message. */
  function Wire(payloadType: byte, m: Message, i: nat): (w: seq<byte>)
    requires Sendable(m) && i < Count(|m.data|)
    ensures HEADER_BYTES < |w| <= MAX_CRYPTO_DATA_SIZE
  {
    [payloadType] + Encode(PartHeader(m, i)) + Piece(m.data, i)
  }

  function Wires(payloadType: byte, m: Message, k: nat): (ws: seq<seq<byte>>)
    requires Sendable(m) && k <= Count(|m.data|)
    ensures |ws| == k && forall i: nat :: i < k ==> ws[i] == Wire(payloadType, m, i)
  {
    seq(k, i requires 0 <= i < k => Wire(payloadType, m, i))
  }

  // ---------- What is received ----------

  /** A message being put together or handed over: len bytes of it have come. */
  datatype Assembled = Assembled(header: Header, len: nat, data: seq<byte>)

  /** The receiving half of a session; handed are the messages its handler was called with. */
  datatype Receiver = Receiver(rsequnum: nat, rtimestamp: nat, mp: Option<Assembled>, handed: seq<Assembled>)

  /** memcpy into a buffer. */
  function Overlay(data: seq<byte>, at: nat, p: seq<byte>): (r: seq<byte>)
    ensures |r| == |data|
    ensures at + |p| <= |data| ==> r[at..at + |p|] == p
    ensures at + |p| <= |data| ==> forall j :: 0 <= j < |data| && !(at <= j < at + |p|) ==> r[j] == data[j]
  {
    if at + |p| <= |data| then data[..at] + p + data[at + |p|..] else data
  }

  /** new_message for a part, and the move of its bytes to their place. The bytes also stay at the front. */
  function FirstPart(h: Header, p: seq<byte>): Assembled {
    var buffer := if |p| <= h.tlen then p + seq(h.tlen - |p|, _ => 0) else p;
    Assembled(h, |p|, Overlay(buffer, h.cpart, p))
  }

  function Push(s: Receiver, handler: bool): Receiver {
    s.(mp := None, handed := s.handed + if handler && s.mp.Some? then [s.mp.value] else [])
  }

  function Begin(s: Receiver, handler: bool, h: Header, p: seq<byte>): Receiver {
    if h.timestamp < s.rtimestamp then s
    else s.(rsequnum := h.sequnum, rtimestamp := h.timestamp,
            mp := if handler then Some(FirstPart(h, p)) else s.mp)
  }

  predicate SameMessage(a: Header, b: Header) {
    a.sequnum == b.sequnum && a.timestamp == b.timestamp
  }

  function Extend(s: Receiver, handler: bool, a: Assembled, h: Header, p: seq<byte>): Receiver {
    if a.header.tlen - a.len < |p| || a.header.tlen <= h.cpart then s
    else
      var s' := s.(mp := Some(Assembled(a.header, a.len + |p|, Overlay(a.data, h.cpart, p))));
      if a.len + |p| == a.header.tlen then Push(s', handler) else s'
  }

  predicate Rejected(payloadType: byte, h: Header) {
    h.pt != payloadType % 128 || h.cpart >= h.tlen
  }

  function Accept(s: Receiver, handler: bool, h: Header, p: seq<byte>): Receiver {
    if h.tlen == |p| then
      if h.timestamp < s.rtimestamp then s
      else
        var s' := Push(s.(rsequnum := h.sequnum, rtimestamp := h.timestamp), handler);
        if handler then s'.(handed := s'.handed + [Assembled(h, |p|, p)]) else s'
    else if s.mp.Some? then
      var a := s.mp.value;
      if SameMessage(a.header, h) then Extend(s, handler, a, h, p)
      else if a.header.timestamp > h.timestamp then s
      else Begin(Push(s, handler), handler, h, p)
    else Begin(s, handler, h, p)
  }

  /** handle_rtp_packet. */
  function Receive(s: Receiver, payloadType: byte, handler: bool, packet: seq<byte>): Receiver
    requires |packet| >= 1
  {
    if |packet| - 1 < HEADER_BYTES then s
    else
      var h := Decode(packet[1..81]);
      if Rejected(payloadType, h) then s else Accept(s, handler, h, packet[81..])
  }

  // ---------- The copy into a buffer ----------

  /** A copy of the bytes of a part: their place, their number, and the size of the buffer. */
  datatype Copy = NoCopy | CopyTo(at: nat, length: nat, capacity: nat)

  predicate Overruns(c: Copy) {
    c.CopyTo? && c.at + c.length > c.capacity
  }

  /** The copy to its place that a part gets when a message begins with it. A part longer than its message does not
      even get there: new_message stops at its assertion. */
  function BeginCopy(rtimestamp: nat, handler: bool, h: Header, p: seq<byte>): Copy {
    if h.timestamp < rtimestamp || !handler then NoCopy else CopyTo(h.cpart, |p|, h.tlen)
  }

  /** And the one it gets when a message goes on with it: the test before it looks at the place and at the length,
      but not at both together. */
  function ExtendCopy(a: Assembled, h: Header, p: seq<byte>): Copy {
    if a.header.tlen - a.len < |p| || a.header.tlen <= h.cpart then NoCopy else CopyTo(h.cpart, |p|, |a.data|)
  }

  function AcceptCopy(s: Receiver, handler: bool, h: Header, p: seq<byte>): Copy {
    if h.tlen == |p| then
      if h.timestamp < s.rtimestamp || !handler then NoCopy else CopyTo(0, |p|, |p|)
    else if s.mp.Some? && SameMessage(s.mp.value.header, h) then ExtendCopy(s.mp.value, h, p)
    else if s.mp.Some? && s.mp.value.header.timestamp > h.timestamp then NoCopy
    else BeginCopy(s.rtimestamp, handler, h, p)
  }

  /** The copy that handle_rtp_packet makes for a packet. */
  function CopyMade(s: Receiver, payloadType: byte, handler: bool, packet: seq<byte>): Copy
    requires |packet| >= 1
  {
    if |packet| - 1 < HEADER_BYTES || Rejected(payloadType, Decode(packet[1..81])) then NoCopy
    else AcceptCopy(s, handler, Decode(packet[1..81]), packet[81..])
  }

  /** A run of steps. */
  function Run<S, P>(step: (S, P) -> S, s: S, ps: seq<P>): S {
    if ps == [] then s else step(Run(step, s, ps[..|ps| - 1]), ps[|ps| - 1])
  }

  /** ok holds before each step of a run. */
  ghost predicate Along<S, P>(ok: (S, P) -> bool, step: (S, P) -> S, s: S, ps: seq<P>) {
    ps == [] || (Along(ok, step, s, ps[..|ps| - 1]) && ok(Run(step, s, ps[..|ps| - 1]), ps[|ps| - 1]))
  }

  lemma {:induction false} RunAppend<S, P>(ok: (S, P) -> bool, step: (S, P) -> S, s: S, a: seq<P>, b: seq<P>)
    ensures Run(step, s, a + b) == Run(step, Run(step, s, a), b)
    ensures Along(ok, step, s, a) && Along(ok, step, Run(step, s, a), b) ==> Along(ok, step, s, a + b)
    decreases |b|
  {
    if b == [] {
      assert a + b == a;
    } else {
      var n := |b| - 1;
      assert (a + b)[..|a| + n] == a + b[..n] && (a + b)[|a| + n] == b[n];
      RunAppend(ok, step, s, a, b[..n]);
    }
  }

  lemma {:induction false} RunSnoc<S, P>(ok: (S, P) -> bool, step: (S, P) -> S, s: S, a: seq<P>, p: P)
    ensures Run(step, s, a + [p]) == step(Run(step, s, a), p)
    ensures Along(ok, step, s, a) && ok(Run(step, s, a), p) ==> Along(ok, step, s, a + [p])
  {
    assert (a + [p])[..|a|] == a;
  }

  function Handling(payloadType: byte): (Receiver, seq<byte>) -> Receiver {
    (s: Receiver, packet: seq<byte>) => if packet == [] then s else Receive(s, payloadType, true, packet)
  }

  ghost function Inside(payloadType: byte): (Receiver, seq<byte>) -> bool {
    (s: Receiver, packet: seq<byte>) => packet == [] || !Overruns(CopyMade(s, payloadType, true, packet))
  }

  /** The packets handled one after the other, with a handler present. */
  function ReceiveAll(s: Receiver, payloadType: byte, packets: seq<seq<byte>>): Receiver {
    Run(Handling(payloadType), s, packets)
  }

  /** No packet makes the receiver copy outside the buffer. */
  ghost predicate InsideAll(s: Receiver, payloadType: byte, packets: seq<seq<byte>>) {
    Along(Inside(payloadType), Handling(payloadType), s, packets)
  }

  // ---------- How much of a message has come ----------

  /** The length of those of the first k pieces that are in got. */
  function Total(n: nat, k: nat, got: set<nat>): (r: nat)
    requires k <= Count(n)
    ensures r <= k * PIECE && r <= n
  {
    if k == 0 then 0
    else Total(n, k - 1, got) + if k - 1 in got then Size(n, k - 1) else 0
  }

  lemma {:induction false} TotalAdds(n: nat, k: nat, got: set<nat>, i: nat)
    requires k <= Count(n) && i !in got
    ensures Total(n, k, got + {i}) == Total(n, k, got) + if i < k then Size(n, i) else 0
  {
    if k != 0 {
      TotalAdds(n, k - 1, got, i);
    }
  }

  ghost predicate Full(k: nat, got: set<nat>) {
    forall i: nat :: i < k ==> i in got
  }

  /** The bytes that have come are as many as the message has exactly when every piece has come. */
  lemma {:induction false} TotalFull(n: nat, got: set<nat>)
    requires n > 0
    ensures Total(n, Count(n), got) == n <==> Full(Count(n), got)
  {
    var c := Count(n);
    TotalFullBelow(n, c - 1, got);
  }

  lemma {:induction false} TotalFullBelow(n: nat, k: nat, got: set<nat>)
    requires k < Count(n)
    ensures Total(n, k, got) == k * PIECE <==> Full(k, got)
  {
    if k != 0 {
      TotalFullBelow(n, k - 1, got);
    }
  }

  lemma {:induction false} TotalNone(n: nat, k: nat)
    requires k <= Count(n)
    ensures Total(n, k, {}) == 0
  {
    if k != 0 {
      TotalNone(n, k - 1);
    }
  }

  // ---------- Reassembly ----------

  /** a holds the pieces of m that are in got, each in its place. */
  ghost predicate Holds(m: Message, got: set<nat>, a: Assembled) {
    var n := |m.data|;
    && Sendable(m) && a.header == m.base.(cpart := a.header.cpart) && |a.data| == n
    && a.len == Total(n, Count(n), got)
    && forall i: nat :: i in got ==> i < Count(n) && Piece(a.data, i) == Piece(m.data, i)
  }

  /** When every piece has come, the message is as it was sent. */
  lemma {:induction false} WholeMessage(m: Message, got: set<nat>, a: Assembled)
    requires Holds(m, got, a) && |m.data| > 0 && Full(Count(|m.data|), got)
    ensures a.data == m.data && a.len == |m.data|
  {
    TotalFull(|m.data|, got);
    forall j | 0 <= j < |m.data| ensures a.data[j] == m.data[j] {
      var i := PieceOf(|m.data|, j);
      assert i in got && Piece(a.data, i) == Piece(m.data, i);
      SameByte(a.data, m.data, i * PIECE, i * PIECE + Size(|m.data|, i), j);
    }
  }

  /** The piece that byte j is in. */
  lemma {:induction false} PieceOf(n: nat, j: nat) returns (i: nat)
    requires j < n
    ensures i < Count(n) && i * PIECE <= j < i * PIECE + Size(n, i)
  {
    i := j / PIECE;
  }

  lemma {:induction false} SameByte(s: seq<byte>, t: seq<byte>, lo: nat, hi: nat, j: nat)
    requires lo <= j < hi <= |s| == |t| && s[lo..hi] == t[lo..hi]
    ensures s[j] == t[j]
  {
    assert s[j] == s[lo..hi][j - lo] && t[j] == t[lo..hi][j - lo];
  }

  /** One more piece is copied to its place. */
  lemma {:induction false} HoldsMore(m: Message, got: set<nat>, a: Assembled, i: nat)
    requires Holds(m, got, a) && i < Count(|m.data|) && i !in got
    ensures a.len + Size(|m.data|, i) <= |m.data|
    ensures Holds(m, got + {i}, Assembled(a.header, a.len + Size(|m.data|, i), Overlay(a.data, i * PIECE, Piece(m.data, i))))
  {
    var n := |m.data|;
    TotalAdds(n, Count(n), got, i);
    var data := Overlay(a.data, i * PIECE, Piece(m.data, i));
    forall k: nat | k in got + {i} ensures k < Count(n) && Piece(data, k) == Piece(m.data, k) {
      PieceAfter(a.data, m.data, i, k);
    }
  }

  lemma {:induction false} Apart(n: nat, i: nat, k: nat)
    requires i < Count(n) && k < Count(n) && i != k
    ensures i * PIECE + Size(n, i) <= k * PIECE || k * PIECE + Size(n, k) <= i * PIECE
  {
  }

  /** The pieces of a buffer after piece i of data has been copied to its place. */
  lemma {:induction false} PieceAfter(buffer: seq<byte>, data: seq<byte>, i: nat, k: nat)
    requires |buffer| == |data| && i < Count(|data|) && k < Count(|data|)
    ensures Piece(Overlay(buffer, i * PIECE, Piece(data, i)), k) == if k == i then Piece(data, i) else Piece(buffer, k)
  {
    if k != i {
      OtherPiece(buffer, data, i, k);
    }
  }

  lemma {:induction false} OtherPiece(buffer: seq<byte>, data: seq<byte>, i: nat, k: nat)
    requires |buffer| == |data| && i < Count(|data|) && k < Count(|data|) && k != i
    ensures Piece(Overlay(buffer, i * PIECE, Piece(data, i)), k) == Piece(buffer, k)
  {
    var n, p := |data|, Piece(data, i);
    var at, lo, hi := i * PIECE, k * PIECE, k * PIECE + Size(|data|, k);
    Apart(n, i, k);
    OutsideOverlay(buffer, at, p, lo, hi);
    assert Piece(buffer, k) == buffer[lo..hi];
  }

  lemma {:induction false} OutsideOverlay(data: seq<byte>, at: nat, p: seq<byte>, lo: nat, hi: nat)
    requires at + |p| <= |data| && lo <= hi <= |data| && (hi <= at || at + |p| <= lo)
    ensures Overlay(data, at, p)[lo..hi] == data[lo..hi]
  {
    var r := Overlay(data, at, p);
    assert forall j :: lo <= j < hi ==> r[j] == data[j];
  }

  /** The first piece to come is moved to its place; what stays behind is no part of it. */
  lemma {:induction false} HoldsFirst(m: Message, i: nat)
    requires Sendable(m) && i < Count(|m.data|)
    ensures Holds(m, {i}, FirstPart(PartHeader(m, i), Piece(m.data, i)))
  {
    TotalNone(|m.data|, Count(|m.data|));
    TotalAdds(|m.data|, Count(|m.data|), {}, i);
    assert {} + {i} == {i};
  }

  lemma {:induction false} DecodeWire(payloadType: byte, m: Message, i: nat)
    requires Sendable(m) && i < Count(|m.data|)
    ensures var w := Wire(payloadType, m, i);
      && Decode(w[1..81]) == PartHeader(m, i) && w[81..] == Piece(m.data, i)
  {
    var w := Wire(payloadType, m, i);
    DecodeEncode(PartHeader(m, i));
    assert w[1..81] == Encode(PartHeader(m, i));
  }

  /** A message that has the session's type and at least one byte, as rtp_send_data makes them. */
  ghost predicate Proper(payloadType: byte, m: Message) {
    Sendable(m) && m.base.pt == payloadType % 128 && |m.data| > 0
  }

  /** Everything the handler was or will be called with. */
  function Collected(s: Receiver): seq<Assembled> {
    s.handed + if s.mp.Some? then [s.mp.value] else []
  }

  /** Nothing received so far is newer than m or a part of it. */
  ghost predicate Ready(s: Receiver, m: Message) {
    && s.rtimestamp <= m.base.timestamp
    && (s.mp.Some? ==> s.mp.value.header.timestamp <= m.base.timestamp && !SameMessage(s.mp.value.header, m.base))
  }

  /** s comes from before by the arrival of the pieces of m in got. */
  ghost predicate Midway(before: seq<Assembled>, s: Receiver, m: Message, got: set<nat>) {
    && s.rtimestamp == m.base.timestamp && |Collected(s)| == |before| + 1 && Collected(s)[..|before|] == before
    && Holds(m, got, Collected(s)[|before|])
    && (s.mp.None? <==> Full(Count(|m.data|), got))
  }

  lemma {:induction false} FirstArrives(s: Receiver, payloadType: byte, m: Message, i: nat)
    requires Proper(payloadType, m) && Ready(s, m) && i < Count(|m.data|)
    ensures !Overruns(AcceptCopy(s, true, PartHeader(m, i), Piece(m.data, i)))
    ensures Midway(Collected(s), Accept(s, true, PartHeader(m, i), Piece(m.data, i)), m, {i})
  {
    var a := FirstPart(PartHeader(m, i), Piece(m.data, i));
    HoldsFirst(m, i);
    TotalFull(|m.data|, {i});
    var s' := AcceptFirst(s, payloadType, m, i);
    assert Collected(s')[|Collected(s)|] == a;
  }

  lemma {:induction false} AcceptFirst(s: Receiver, payloadType: byte, m: Message, i: nat) returns (s': Receiver)
    requires Proper(payloadType, m) && Ready(s, m) && i < Count(|m.data|)
    ensures s' == Accept(s, true, PartHeader(m, i), Piece(m.data, i)) && s'.rtimestamp == m.base.timestamp
    ensures Collected(s') == Collected(s) + [FirstPart(PartHeader(m, i), Piece(m.data, i))]
    ensures s'.mp.None? <==> |Piece(m.data, i)| == |m.data|
  {
    var h, p := PartHeader(m, i), Piece(m.data, i);
    s' := Accept(s, true, h, p);
    if h.tlen == |p| {
      assert i == 0 && FirstPart(h, p).data == p;
      assert s'.handed == Collected(s) + [FirstPart(h, p)];
    } else {
      assert s'.mp == Some(FirstPart(h, p)) && s'.handed == Collected(s);
    }
  }

  lemma {:induction false} NextArrives(before: seq<Assembled>, s: Receiver, payloadType: byte, m: Message, got: set<nat>, i: nat)
    requires Proper(payloadType, m) && Midway(before, s, m, got) && i < Count(|m.data|) && i !in got && got != {}
    ensures !Overruns(AcceptCopy(s, true, PartHeader(m, i), Piece(m.data, i)))
    ensures Midway(before, Accept(s, true, PartHeader(m, i), Piece(m.data, i)), m, got + {i})
  {
    var h, p := PartHeader(m, i), Piece(m.data, i);
    assert !Full(Count(|m.data|), got);
    var a := s.mp.value;
    assert Collected(s)[|before|] == a && s.handed == before;
    HoldsMore(m, got, a, i);
    TotalFull(|m.data|, got + {i});
    var other :| other in got;
    assert other < Count(|m.data|);
    assert h.tlen != |p|;
    var s' := Accept(s, true, h, p);
    var a' := Assembled(a.header, a.len + |p|, Overlay(a.data, i * PIECE, p));
    assert Collected(s') == before + [a'];
  }

  // ---------- Whole deliveries ----------

  /** Some pieces of a message, each at most once, in the order in which they arrive. */
  datatype Arrival = Arrival(message: Message, order: seq<nat>)

  ghost predicate PiecesOf(n: nat, order: seq<nat>) {
    forall k :: 0 <= k < |order| ==> order[k] < Count(n)
  }

  ghost predicate NoRepetition(order: seq<nat>) {
    forall j, k :: 0 <= j < k < |order| ==> order[j] != order[k]
  }

  ghost predicate ArrivalOk(payloadType: byte, x: Arrival) {
    && Proper(payloadType, x.message) && x.order != []
    && PiecesOf(|x.message.data|, x.order) && NoRepetition(x.order)
  }

  function Got(order: seq<nat>): (r: set<nat>) {
    set k | 0 <= k < |order| :: order[k]
  }

  ghost predicate Complete(x: Arrival) {
    Full(Count(|x.message.data|), Got(x.order))
  }

  function ArrivalPackets(payloadType: byte, m: Message, order: seq<nat>): seq<seq<byte>>
    requires Sendable(m) && forall k :: 0 <= k < |order| ==> order[k] < Count(|m.data|)
  {
    if order == [] then []
    else ArrivalPackets(payloadType, m, order[..|order| - 1]) + [Wire(payloadType, m, order[|order| - 1])]
  }

  /** They are packets of the message as it was sent, in the order of arrival. */
  lemma {:induction false} ArrivalPacketsAreSent(payloadType: byte, m: Message, order: seq<nat>)
    requires Sendable(m) && forall k :: 0 <= k < |order| ==> order[k] < Count(|m.data|)
    ensures var ps := ArrivalPackets(payloadType, m, order);
      && |ps| == |order|
      && forall k :: 0 <= k < |order| ==> ps[k] == Wires(payloadType, m, Count(|m.data|))[order[k]]
  {
    if order != [] {
      ArrivalPacketsAreSent(payloadType, m, order[..|order| - 1]);
    }
  }

  lemma {:induction false} ReceiveSnoc(s: Receiver, payloadType: byte, packets: seq<seq<byte>>, m: Message, i: nat)
    requires Proper(payloadType, m) && i < Count(|m.data|)
    ensures var s1, w := ReceiveAll(s, payloadType, packets), Wire(payloadType, m, i);
      && ReceiveAll(s, payloadType, packets + [w]) == Accept(s1, true, PartHeader(m, i), Piece(m.data, i))
      && (InsideAll(s, payloadType, packets) && !Overruns(AcceptCopy(s1, true, PartHeader(m, i), Piece(m.data, i))) ==>
            InsideAll(s, payloadType, packets + [w]))
  {
    var w := Wire(payloadType, m, i);
    DecodeWire(payloadType, m, i);
    RunSnoc(Inside(payloadType), Handling(payloadType), s, packets, w);
    assert !Rejected(payloadType, PartHeader(m, i));
  }

  lemma {:induction false} GotSnoc(order: seq<nat>)
    requires order != []
    ensures Got(order) == Got(order[..|order| - 1]) + {order[|order| - 1]}
    ensures |order| > 1 ==> Got(order[..|order| - 1]) != {}
    ensures NoRepetition(order) ==> NoRepetition(order[..|order| - 1]) && order[|order| - 1] !in Got(order[..|order| - 1])
  {
    if |order| > 1 {
      assert order[..|order| - 1][0] in Got(order[..|order| - 1]);
    }
  }

  /** However the pieces of one message are ordered, and whichever of them are lost, the receiver holds exactly
      those that came; it calls the handler at the last of all. */
  lemma {:induction false} OneMessage(s: Receiver, payloadType: byte, x: Arrival)
    requires ArrivalOk(payloadType, x) && Ready(s, x.message)
    ensures var ps := ArrivalPackets(payloadType, x.message, x.order);
      && InsideAll(s, payloadType, ps)
      && Midway(Collected(s), ReceiveAll(s, payloadType, ps), x.message, Got(x.order))
  {
    PiecesArrive(s, payloadType, x.message, x.order);
  }

  lemma {:induction false} PiecesArrive(s: Receiver, payloadType: byte, m: Message, order: seq<nat>)
    requires Proper(payloadType, m) && Ready(s, m) && order != [] && PiecesOf(|m.data|, order) && NoRepetition(order)
    ensures var ps := ArrivalPackets(payloadType, m, order);
      && InsideAll(s, payloadType, ps)
      && Midway(Collected(s), ReceiveAll(s, payloadType, ps), m, Got(order))
    decreases |order|
  {
    var n := |order| - 1;
    var rest, i := order[..n], order[n];
    GotSnoc(order);
    var ps := ArrivalPackets(payloadType, m, rest);
    if n == 0 {
      assert rest == [] && Got(rest) == {} && ps == [];
      OnePiece(s, payloadType, m, i);
    } else {
      PiecesArrive(s, payloadType, m, rest);
      AnotherPiece(s, payloadType, ps, m, Got(rest), i);
    }
  }

  lemma {:induction false} OnePiece(s: Receiver, payloadType: byte, m: Message, i: nat)
    requires Proper(payloadType, m) && i < Count(|m.data|) && Ready(s, m)
    ensures var ps := [] + [Wire(payloadType, m, i)];
      InsideAll(s, payloadType, ps) && Midway(Collected(s), ReceiveAll(s, payloadType, ps), m, {} + {i})
  {
    FirstArrives(s, payloadType, m, i);
    assert {} + {i} == {i};
    ReceiveSnoc(s, payloadType, [], m, i);
  }

  lemma {:induction false} AnotherPiece(s: Receiver, payloadType: byte, ps: seq<seq<byte>>, m: Message, got: set<nat>, i: nat)
    requires Proper(payloadType, m) && i < Count(|m.data|) && i !in got && got != {} && InsideAll(s, payloadType, ps)
    requires Midway(Collected(s), ReceiveAll(s, payloadType, ps), m, got)
    ensures var ps' := ps + [Wire(payloadType, m, i)];
      InsideAll(s, payloadType, ps') && Midway(Collected(s), ReceiveAll(s, payloadType, ps'), m, got + {i})
  {
    NextArrives(Collected(s), ReceiveAll(s, payloadType, ps), payloadType, m, got, i);
    ReceiveSnoc(s, payloadType, ps, m, i);
  }

  ghost predicate ArrivalsOk(payloadType: byte, xs: seq<Arrival>) {
    forall k :: 0 <= k < |xs| ==> ArrivalOk(payloadType, xs[k])
  }

  /** Messages in the order in which they were sent; one that is lost altogether does not show. */
  ghost predicate StreamOk(payloadType: byte, xs: seq<Arrival>) {
    && ArrivalsOk(payloadType, xs)
    && forall k :: 0 < k < |xs| ==> Follows(xs[k - 1].message, xs[k].message)
  }

  /** m' was sent after m, and not so much later that the sequence number is the same again within the same
      tick of the clock. */
  ghost predicate Follows(m: Message, m': Message) {
    m.base.timestamp <= m'.base.timestamp && !SameMessage(m.base, m'.base)
  }

  function StreamPackets(payloadType: byte, xs: seq<Arrival>): seq<seq<byte>>
    requires ArrivalsOk(payloadType, xs)
  {
    if xs == [] then []
    else
      var n := |xs| - 1;
      StreamPackets(payloadType, xs[..n]) + ArrivalPackets(payloadType, xs[n].message, xs[n].order)
  }

  /** The receiver has collected, after before, one message for each of xs: what came of it. */
  ghost predicate Delivered(before: seq<Assembled>, s: Receiver, xs: seq<Arrival>) {
    && |Collected(s)| == |before| + |xs| && Collected(s)[..|before|] == before
    && (forall k: nat :: k < |xs| ==> Holds(xs[k].message, Got(xs[k].order), Collected(s)[|before| + k]))
    && (xs != [] ==> s.rtimestamp == xs[|xs| - 1].message.base.timestamp)
    && (xs != [] ==> (s.mp.None? <==> Complete(xs[|xs| - 1])))
  }

  lemma {:induction false} ReadyForNext(before: seq<Assembled>, s: Receiver, xs: seq<Arrival>, x: Arrival)
    requires xs != [] && Delivered(before, s, xs) && Follows(xs[|xs| - 1].message, x.message)
    ensures Ready(s, x.message)
  {
    var n := |xs| - 1;
    if s.mp.Some? {
      assert Holds(xs[n].message, Got(xs[n].order), Collected(s)[|before| + n]);
    }
  }

  lemma {:induction false} DeliveredMore(before: seq<Assembled>, s: Receiver, s': Receiver, xs: seq<Arrival>)
    requires xs != [] && Delivered(before, s, xs[..|xs| - 1])
    requires Midway(Collected(s), s', xs[|xs| - 1].message, Got(xs[|xs| - 1].order))
    ensures Delivered(before, s', xs)
  {
    var rest := xs[..|xs| - 1];
    var c, c' := Collected(s), Collected(s');
    assert c'[..|before|] == c[..|before|];
    forall k: nat | k < |xs| ensures Holds(xs[k].message, Got(xs[k].order), c'[|before| + k]) {
      if k < |rest| {
        assert c'[|before| + k] == c[|before| + k] && rest[k] == xs[k];
      }
    }
  }

  /** Whole streams: the handler is called once for each message of which anything arrived, in the order of
      sending, with all that arrived of it in place. */
  lemma {:induction false} Stream(s: Receiver, payloadType: byte, xs: seq<Arrival>)
    requires StreamOk(payloadType, xs) && (xs != [] ==> Ready(s, xs[0].message))
    ensures var ps := StreamPackets(payloadType, xs);
      InsideAll(s, payloadType, ps) && Delivered(Collected(s), ReceiveAll(s, payloadType, ps), xs)
    decreases |xs|
  {
    if xs != [] {
      var n := |xs| - 1;
      var rest, x := xs[..n], xs[n];
      var ps, more := StreamPackets(payloadType, rest), ArrivalPackets(payloadType, x.message, x.order);
      Stream(s, payloadType, rest);
      var s1 := ReceiveAll(s, payloadType, ps);
      if rest == [] {
        assert ps == [];
      } else {
        ReadyForNext(Collected(s), s1, rest, x);
      }
      OneMessage(s1, payloadType, x);
      RunAppend(Inside(payloadType), Handling(payloadType), s, ps, more);
      DeliveredMore(Collected(s), s1, ReceiveAll(s1, payloadType, more), xs);
    }
  }

  const FRESH := Receiver(0, 0, None, [])

  /** A new session that gets every piece of every message once, in any order within a message, calls the
      handler exactly once for each with the bytes that were sent, as long as the clock of the sender does not turn
      back. */
  lemma {:induction false} LosslessStream(payloadType: byte, xs: seq<Arrival>)
    requires StreamOk(payloadType, xs) && forall k :: 0 <= k < |xs| ==> Complete(xs[k])
    ensures var s := ReceiveAll(FRESH, payloadType, StreamPackets(payloadType, xs));
      && s.mp == None && |s.handed| == |xs|
      && forall k :: 0 <= k < |xs| ==> s.handed[k].data == xs[k].message.data && s.handed[k].len == |xs[k].message.data|
  {
    Stream(FRESH, payloadType, xs);
    var s := ReceiveAll(FRESH, payloadType, StreamPackets(payloadType, xs));
    assert Collected(FRESH) == [];
    assert Collected(s) == s.handed;
    forall k: nat | k < |xs| ensures s.handed[k].data == xs[k].message.data && s.handed[k].len == |xs[k].message.data| {
      assert Holds(xs[k].message, Got(xs[k].order), Collected(s)[0 + k]);
      assert Complete(xs[k]);
      WholeMessage(xs[k].message, Got(xs[k].order), s.handed[k]);
    }
  }

  /** Each piece at most once is needed: of a message of two full pieces, the first one twice passes for the
      whole. */
  lemma {:induction false} DuplicatePassesForWhole(payloadType: byte, m: Message)
    requires Proper(payloadType, m) && |m.data| == 2 * PIECE
    ensures var w := Wire(payloadType, m, 0);
      var s := ReceiveAll(FRESH, payloadType, [w, w]);
      && s.mp == None && |s.handed| == 1 && s.handed[0].len == |m.data|
      && s.handed[0].data == m.data[..PIECE] + seq(PIECE, _ => 0)
  {
    var w, p, h := Wire(payloadType, m, 0), m.data[..PIECE], PartHeader(m, 0);
    assert Piece(m.data, 0) == p;
    ReceiveSnoc(FRESH, payloadType, [], m, 0);
    ReceiveSnoc(FRESH, payloadType, [w], m, 0);
    assert [] + [w] == [w] && [w] + [w] == [w, w];
    var a := FirstPart(h, p);
    assert a.data == p + seq(PIECE, _ => 0);
    assert ReceiveAll(FRESH, payloadType, [w]).mp == Some(a);
    assert Overlay(a.data, 0, p) == a.data;
  }
}
