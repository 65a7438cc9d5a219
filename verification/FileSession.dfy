/** A whole file transfer: a sending slot and a receiving slot joined by two lossless FIFO channels, with the
    clients at both ends free to seek, accept, pause, resume, kill and send in any order. */
module FileSession {
  import opened Bytes
  import opened FileTransfer

  datatype ToReceiver = Request(size: uint64) | Data(bytes: seq<byte>) | FromSender(kind: Kind)

  datatype ToSender = FromReceiver(kind: Kind, position: uint64)

  /** Bytes handed over at a position of the file. */
  datatype Piece = Piece(position: uint64, bytes: seq<byte>)

  datatype Outcome = Unopened | Open | ClosedByData | ClosedOtherwise

  /** sent lists the pieces for which file_data succeeded, got the pieces passed to the receiving client, chunks
      the chunks the sending client was asked for; start is where the receiving client has asked to begin. */
  datatype World = World(sender: Transfer, receiver: Transfer, toReceiver: seq<ToReceiver>, toSender: seq<ToSender>,
                         sent: seq<Piece>, got: seq<Piece>, chunks: seq<Chunk>, start: uint64, outcome: Outcome)

  /** The sending client has just opened the transfer. */
  function Opened(size: uint64): World {
    World(NewSender(size), EMPTY, [Request(size)], [], [], [], [], 0, Unopened)
  }

  // ---------- Steps ----------

  datatype Step =
    | SenderControl(kind: Kind)
    | SenderData(position: uint64, bytes: seq<byte>)
    | SenderChunk
    | SenderDone                       // the friend has received the last packet
    | SenderBreak                      // the friend is gone
    | ReceiverControl(kind: Kind)
    | ReceiverSeek(position: uint64)
    | ReceiverBreak
    | ReceiverGets(reply: bool)        // the next packet arrives; reply: a kill reply could be sent
    | SenderGets(reply: bool)

  /** The step can happen. Calls of the clients that fail change nothing and are left out. */
  predicate Possible(w: World, step: Step) {
    match step
    case SenderControl(kind) => ControlError(w.sender, false, kind) == 0
    case SenderData(position, bytes) => DataError(w.sender, position, |bytes|) == 0
    case SenderChunk =>
      w.sender.status == Transferring && !w.sender.pausedUs && !w.sender.pausedOther && w.sender.requested < w.sender.size
    case SenderDone => w.sender.status == Finished
    case SenderBreak => true
    case ReceiverControl(kind) => ControlError(w.receiver, true, kind) == 0
    case ReceiverSeek(position) => SeekError(w.receiver, position) == 0
    case ReceiverBreak => true
    case ReceiverGets(_) => w.toReceiver != []
    case SenderGets(_) => w.toSender != []
  }

  function Close(w: World, how: Outcome): World {
    if w.receiver.status == Idle && w.outcome == Open then w.(outcome := how) else w
  }

  /** The receiving end takes a packet. */
  function ReceiverTakes(w: World, m: ToReceiver, reply: bool): World {
    match m
    case Request(size) =>
      if w.receiver.status == Idle then w.(receiver := HandleRequest(w.receiver, size), outcome := Open) else w
    case Data(bytes) =>
      if w.receiver.status != Transferring then w
      else
        var n := Passed(w.receiver, |bytes|);
        var piece := Piece(w.receiver.transferred, if n <= |bytes| then bytes[..n] else bytes);
        Close(w.(receiver := HandleData(w.receiver, |bytes|), got := w.got + [piece]), ClosedByData)
    case FromSender(kind) =>
      if w.receiver.status == Idle then
        if reply then w.(toSender := w.toSender + [FromReceiver(Kill, 0)]) else w
      else Close(w.(receiver := HandleControl(w.receiver, false, kind, 0).0), ClosedOtherwise)
  }

  /** The sending end takes a packet. */
  function SenderTakes(w: World, m: ToSender, reply: bool): World {
    if w.sender.status == Idle then
      if reply then w.(toReceiver := w.toReceiver + [FromSender(Kill)]) else w
    else w.(sender := HandleControl(w.sender, true, m.kind, m.position).0)
  }

  function Do(w: World, step: Step): (w': World)
    requires Possible(w, step)
  {
    match step
    case SenderControl(kind) =>
      w.(sender := AfterControl(w.sender, kind), toReceiver := w.toReceiver + [FromSender(kind)])
    case SenderData(position, bytes) =>
      w.(sender := AfterData(w.sender, |bytes|), toReceiver := w.toReceiver + [Data(bytes)],
         sent := w.sent + [Piece(position, bytes)])
    case SenderChunk =>
      w.(sender := AfterChunk(w.sender), chunks := w.chunks + [Chunk(w.sender.requested, ChunkLength(w.sender))])
    case SenderDone => w.(sender := w.sender.(status := Idle))
    case SenderBreak => w.(sender := w.sender.(status := Idle))
    case ReceiverControl(kind) =>
      Close(w.(receiver := AfterControl(w.receiver, kind), toSender := w.toSender + [FromReceiver(kind, 0)]), ClosedOtherwise)
    case ReceiverSeek(position) =>
      w.(receiver := w.receiver.(transferred := position), start := position,
         toSender := w.toSender + [FromReceiver(Seek, position)])
    case ReceiverBreak => Close(w.(receiver := w.receiver.(status := Idle)), ClosedOtherwise)
    case ReceiverGets(reply) => ReceiverTakes(w.(toReceiver := w.toReceiver[1..]), w.toReceiver[0], reply)
    case SenderGets(reply) => SenderTakes(w.(toSender := w.toSender[1..]), w.toSender[0], reply)
  }

  // ---------- The sending end by itself ----------

  /** Pieces that follow one another from from up to upTo. */
  ghost predicate Contiguous(ps: seq<Piece>, from: int, upTo: int)
    decreases |ps|
  {
    if ps == [] then from == upTo
    else
      var p := ps[|ps| - 1];
      p.position + |p.bytes| == upTo && Contiguous(ps[..|ps| - 1], from, p.position)
  }

  /** The piece after which both ends close. */
  predicate Closing(p: Piece, size: uint64) {
    |p.bytes| != MAX_FILE_DATA_SIZE || p.position + |p.bytes| == size
  }

  ghost predicate OnlyLastCloses(ps: seq<Piece>, size: uint64) {
    forall i :: 0 <= i < |ps| - 1 ==> !Closing(ps[i], size)
  }

  predicate Complete(ps: seq<Piece>, size: uint64) {
    ps != [] && Closing(ps[|ps| - 1], size)
  }

  /** Chunks that follow one another from from up to upTo. */
  ghost predicate Tiled(cs: seq<Chunk>, from: int, upTo: int)
    decreases |cs|
  {
    if cs == [] then from == upTo
    else
      var c := cs[|cs| - 1];
      c.length > 0 && c.position + c.length == upTo && Tiled(cs[..|cs| - 1], from, c.position)
  }

  /** How many chunks are asked for and not sent yet. */
  ghost predicate Outstanding(t: Transfer) {
    t.requested - t.transferred <= MAX_FILE_DATA_SIZE * t.slotsAllocated < t.requested - t.transferred + MAX_FILE_DATA_SIZE
  }

  /** Whole chunks have been asked for beyond what was sent, or everything has. */
  predicate Aligned(t: Transfer) {
    t.requested == t.size || (t.requested - t.transferred) % MAX_FILE_DATA_SIZE == 0
  }

  /** Where the sending end begins, as far as it knows. */
  function Base(t: Transfer, sent: seq<Piece>): uint64 {
    if sent == [] then t.transferred else sent[0].position
  }

  /** The pieces sent and the chunks asked for, without regard to the state of the slot. */
  ghost predicate Pieces(sent: seq<Piece>, chunks: seq<Chunk>, base: int, transferred: int, requested: int, size: uint64) {
    && 0 <= base <= transferred <= requested <= size
    && Contiguous(sent, base, transferred) && OnlyLastCloses(sent, size)
    && (forall i :: 0 <= i < |sent| ==> |sent[i].bytes| <= MAX_FILE_DATA_SIZE)
    && Tiled(chunks, base, requested)
    && (Complete(sent, size) && size != UINT64_MAX ==> transferred == size)
  }

  ghost predicate StatusOk(status: Status, sent: seq<Piece>, chunks: seq<Chunk>, size: uint64) {
    && (status == NotAccepted ==> sent == [] && chunks == [])
    && (status == Finished ==> Complete(sent, size))
    && (Complete(sent, size) ==> status == Finished || status == Idle)
  }

  ghost predicate SenderOk(t: Transfer, sent: seq<Piece>, chunks: seq<Chunk>, size: uint64) {
    && t.size == size && Pieces(sent, chunks, Base(t, sent), t.transferred, t.requested, size)
    && StatusOk(t.status, sent, chunks, size) && Settled(t, sent, size)
  }

  /** The requests are aligned, or were before the last piece. */
  ghost predicate Settled(t: Transfer, sent: seq<Piece>, size: uint64) {
    if Complete(sent, size) then
      t.requested == size || (t.requested - sent[|sent| - 1].position) % MAX_FILE_DATA_SIZE == 0
    else Outstanding(t) && Aligned(t)
  }

  // ---------- What is on the way ----------

  /** The bytes of the data packets in a channel. */
  ghost function DataIn(ms: seq<ToReceiver>): seq<seq<byte>> {
    if ms == [] then []
    else (if ms[0].Data? then [ms[0].bytes] else []) + DataIn(ms[1..])
  }

  ghost function BytesOf(ps: seq<Piece>): (r: seq<seq<byte>>)
    ensures |r| == |ps|
  {
    if ps == [] then [] else [ps[0].bytes] + BytesOf(ps[1..])
  }

  /** What the packets on the way to a sender that still waits at pos will make of it: it keeps waiting, at
      another position perhaps, or it starts, or it is killed. */
  datatype Outlook = Waits(pos: uint64) | Starts(pos: uint64) | Dies

  ghost function Foresee(ms: seq<ToSender>, pos: uint64, size: uint64): Outlook {
    if ms == [] then Waits(pos)
    else match ms[0].kind
      case Accept => Starts(pos)
      case Pause => Foresee(ms[1..], pos, size)
      case Kill => Dies
      case Seek => Foresee(ms[1..], if ms[0].position < size then ms[0].position else pos, size)
  }

  ghost predicate NoRequests(ms: seq<ToReceiver>) {
    forall i :: 0 <= i < |ms| ==> !ms[i].Request?
  }

  // ---------- The invariant ----------

  /** What was got is the beginning of what was sent, piece by piece, and the rest is on the way. */
  ghost predicate InOrder(got: seq<Piece>, sent: seq<Piece>, ms: seq<ToReceiver>) {
    |got| <= |sent| && got == sent[..|got|] && BytesOf(got) + DataIn(ms) == BytesOf(sent)
  }

  /** The receiving end is where the pieces it got end, and has seen nothing that closes it. */
  ghost predicate ReceiverOk(r: Transfer, got: seq<Piece>, start: uint64, size: uint64) {
    && (r.status == NotAccepted || r.status == Transferring) && r.size == size
    && Contiguous(got, start, r.transferred) && !Complete(got, size)
  }

  /** Both ends agree on where the file begins, now or once the packets on the way have arrived. */
  ghost predicate Agreed(s: Transfer, r: Status, ms: seq<ToSender>, sent: seq<Piece>, start: uint64, size: uint64) {
    && (sent != [] || s.status == Transferring || s.status == Finished ==> r == Transferring && Base(s, sent) == start)
    && (s.status == NotAccepted ==>
          Foresee(ms, s.transferred, size) == if r == NotAccepted then Waits(start) else Starts(start))
  }

  ghost predicate OpenOk(w: World, size: uint64) {
    && InOrder(w.got, w.sent, w.toReceiver) && ReceiverOk(w.receiver, w.got, w.start, size)
    && Agreed(w.sender, w.receiver.status, w.toSender, w.sent, w.start, size)
  }

  ghost predicate UnopenedOk(w: World, size: uint64) {
    && w.receiver.status == Idle && w.toSender == [] && w.got == [] && w.sent == [] && w.start == 0
    && (w.sender.status == NotAccepted || w.sender.status == Idle) && w.sender.transferred == 0
    && w.toReceiver != [] && w.toReceiver[0] == Request(size)
    && NoRequests(w.toReceiver[1..]) && DataIn(w.toReceiver) == []
  }

  ghost predicate ClosedOk(w: World, size: uint64) {
    && w.receiver.status == Idle
    && |w.got| <= |w.sent| && w.got == w.sent[..|w.got|]
    && (w.got != [] ==> Base(w.sender, w.sent) == w.start)
    && (w.outcome == ClosedByData ==> w.got == w.sent && Complete(w.sent, size))
  }

  ghost predicate ReceiverSide(w: World, size: uint64) {
    && (w.outcome != Unopened ==> NoRequests(w.toReceiver))
    && match w.outcome
       case Unopened => UnopenedOk(w, size)
       case Open => OpenOk(w, size)
       case _ => ClosedOk(w, size)
  }

  /** "== true" keeps the verifier from taking a predicate apart wherever it is to be shown. */
  ghost predicate Inv(w: World, size: uint64) {
    (SenderOk(w.sender, w.sent, w.chunks, size) && ReceiverSide(w, size)) == true
  }

  // ---------- Small facts ----------

  lemma {:induction false} DataInSnoc(ms: seq<ToReceiver>, m: ToReceiver)
    ensures DataIn(ms + [m]) == DataIn(ms) + (if m.Data? then [m.bytes] else [])
  {
    if ms == [] {
      assert ms + [m] == [m];
      assert DataIn([m]) == (if m.Data? then [m.bytes] else []) + DataIn([]);
    } else {
      assert (ms + [m])[1..] == ms[1..] + [m] && (ms + [m])[0] == ms[0];
      DataInSnoc(ms[1..], m);
      Regroup(if ms[0].Data? then [ms[0].bytes] else [], DataIn(ms[1..]), if m.Data? then [m.bytes] else []);
    }
  }

  lemma {:induction false} Regroup<T>(a: seq<T>, b: seq<T>, c: seq<T>)
    ensures a + (b + c) == (a + b) + c
  {
  }

  lemma {:induction false} BytesOfSnoc(ps: seq<Piece>, p: Piece)
    ensures BytesOf(ps + [p]) == BytesOf(ps) + [p.bytes]
  {
    if ps == [] {
      assert ps + [p] == [p];
      assert BytesOf([p]) == [p.bytes] + BytesOf([]);
    } else {
      assert (ps + [p])[1..] == ps[1..] + [p];
      BytesOfSnoc(ps[1..], p);
    }
  }

  lemma {:induction false} BytesOfAt(ps: seq<Piece>, i: nat)
    requires i < |ps|
    ensures BytesOf(ps)[i] == ps[i].bytes
  {
    if i != 0 {
      BytesOfAt(ps[1..], i - 1);
    }
  }

  lemma {:induction false} ContiguousSnoc(ps: seq<Piece>, from: int, upTo: int, p: Piece)
    requires Contiguous(ps, from, upTo) && p.position == upTo
    ensures Contiguous(ps + [p], from, upTo + |p.bytes|)
  {
    assert (ps + [p])[..|ps|] == ps;
  }

  lemma {:induction false} ContiguousBounds(ps: seq<Piece>, from: int, upTo: int)
    requires Contiguous(ps, from, upTo)
    ensures from <= upTo && (ps != [] ==> ps[0].position == from)
    decreases |ps|
  {
    if ps != [] {
      ContiguousBounds(ps[..|ps| - 1], from, ps[|ps| - 1].position);
    }
  }

  /** A beginning of contiguous pieces ends where the next piece begins. */
  lemma {:induction false} ContiguousPrefix(ps: seq<Piece>, from: int, upTo: int, k: nat, end: int)
    requires Contiguous(ps, from, upTo) && k < |ps| && Contiguous(ps[..k], from, end)
    ensures end == ps[k].position && end + |ps[k].bytes| <= upTo
    decreases |ps|
  {
    var n := |ps| - 1;
    if k == n {
      ContiguousEnd(ps[..n], from, end, ps[n].position);
    } else {
      assert ps[..n][..k] == ps[..k];
      ContiguousPrefix(ps[..n], from, ps[n].position, k, end);
    }
  }

  lemma {:induction false} ContiguousEnd(ps: seq<Piece>, from: int, a: int, b: int)
    requires Contiguous(ps, from, a) && Contiguous(ps, from, b)
    ensures a == b
  {
  }

  lemma {:induction false} ForeseeSnoc(ms: seq<ToSender>, m: ToSender, pos: uint64, size: uint64)
    requires Foresee(ms, pos, size).Waits?
    ensures Foresee(ms + [m], pos, size) == Foresee([m], Foresee(ms, pos, size).pos, size)
  {
    if ms == [] {
      assert ms + [m] == [m];
    } else {
      assert (ms + [m])[1..] == ms[1..] + [m];
      ForeseeSnoc(ms[1..], m, if ms[0].kind == Seek && ms[0].position < size then ms[0].position else pos, size);
    }
  }

  /** Nothing that follows changes a start or a kill. */
  lemma {:induction false} ForeseeDecided(ms: seq<ToSender>, m: ToSender, pos: uint64, size: uint64)
    requires !Foresee(ms, pos, size).Waits?
    ensures Foresee(ms + [m], pos, size) == Foresee(ms, pos, size)
  {
    assert (ms + [m])[1..] == ms[1..] + [m];
    if ms[0].kind == Pause || ms[0].kind == Seek {
      ForeseeDecided(ms[1..], m, if ms[0].kind == Seek && ms[0].position < size then ms[0].position else pos, size);
    }
  }

  lemma {:induction false} NoRequestsSnoc(ms: seq<ToReceiver>, m: ToReceiver)
    requires !m.Request?
    ensures NoRequests(ms) ==> NoRequests(ms + [m])
    ensures ms != [] && NoRequests(ms[1..]) ==> NoRequests((ms + [m])[1..])
  {
    if ms != [] {
      assert (ms + [m])[1..] == ms[1..] + [m];
    }
  }

  /** A packet without data put on the way to the receiving end. */
  lemma {:induction false} ControlOnTheWay(w: World, w': World, size: uint64, m: ToReceiver)
    requires ReceiverSide(w, size) && m.FromSender?
    requires w' == w.(sender := w'.sender, toReceiver := w.toReceiver + [m])
    requires w'.sender == w.sender || w'.sender.status == Idle || w.sender.status == w'.sender.status == Transferring
    requires w'.sender.transferred == w.sender.transferred
    ensures ReceiverSide(w', size)
  {
    DataInSnoc(w.toReceiver, m);
    NoRequestsSnoc(w.toReceiver, m);
    assert DataIn(w'.toReceiver) == DataIn(w.toReceiver);
  }

  // ---------- Every step keeps the invariant ----------

  lemma {:induction false} SenderControlKeeps(w: World, size: uint64, kind: Kind)
    requires Inv(w, size) && Possible(w, SenderControl(kind))
    ensures Inv(Do(w, SenderControl(kind)), size)
  {
    ControlOnTheWay(w, Do(w, SenderControl(kind)), size, FromSender(kind));
  }

  lemma {:induction false} ChunkSenderOk(t: Transfer, sent: seq<Piece>, chunks: seq<Chunk>, size: uint64)
    requires SenderOk(t, sent, chunks, size) && t.status == Transferring && t.requested < t.size
    ensures SenderOk(AfterChunk(t), sent, chunks + [Chunk(t.requested, ChunkLength(t))], size)
  {
    var chunks' := chunks + [Chunk(t.requested, ChunkLength(t))];
    assert chunks'[..|chunks|] == chunks;
    assert !Complete(sent, size);
    ChunkCounts(t);
  }

  lemma {:induction false} ChunkCounts(t: Transfer)
    requires t.transferred <= t.requested < t.size && Outstanding(t) && Aligned(t)
    ensures Outstanding(AfterChunk(t)) && Aligned(AfterChunk(t))
  {
    var d := t.requested - t.transferred;
    var q := d / MAX_FILE_DATA_SIZE;
    assert d == MAX_FILE_DATA_SIZE * q;
    assert q == t.slotsAllocated;
    if ChunkLength(t) == MAX_FILE_DATA_SIZE {
      assert d + MAX_FILE_DATA_SIZE == MAX_FILE_DATA_SIZE * (q + 1);
    }
  }

  lemma {:induction false} SenderChunkKeeps(w: World, size: uint64)
    requires Inv(w, size) && Possible(w, SenderChunk)
    ensures Inv(Do(w, SenderChunk), size)
  {
    ChunkSenderOk(w.sender, w.sent, w.chunks, size);
  }

  lemma {:induction false} SenderDataPieces(t: Transfer, sent: seq<Piece>, chunks: seq<Chunk>, size: uint64, bytes: seq<byte>)
    requires SenderOk(t, sent, chunks, size) && DataError(t, t.transferred, |bytes|) == 0
    ensures var sent' := sent + [Piece(t.transferred, bytes)];
      Pieces(sent', chunks, Base(t, sent), AfterData(t, |bytes|).transferred, t.requested, size)
  {
    ContiguousSnoc(sent, Base(t, sent), t.transferred, Piece(t.transferred, bytes));
    assert !Complete(sent, size);
    NotComplete(sent, Piece(t.transferred, bytes), size);
    if t.requested != size {
      Whole(t.requested - t.transferred);
    }
  }

  lemma {:induction false} Whole(d: int)
    requires d > 0 && d % MAX_FILE_DATA_SIZE == 0
    ensures d >= MAX_FILE_DATA_SIZE
  {
  }

  lemma {:induction false} NotComplete(ps: seq<Piece>, p: Piece, size: uint64)
    requires OnlyLastCloses(ps, size) && !Complete(ps, size)
    ensures OnlyLastCloses(ps + [p], size)
  {
  }

  lemma {:induction false} SenderDataSenderOk(t: Transfer, sent: seq<Piece>, chunks: seq<Chunk>, size: uint64, bytes: seq<byte>)
    requires SenderOk(t, sent, chunks, size) && DataError(t, t.transferred, |bytes|) == 0
    ensures var sent' := sent + [Piece(t.transferred, bytes)];
      SenderOk(AfterData(t, |bytes|), sent', chunks, size) && Base(AfterData(t, |bytes|), sent') == Base(t, sent)
  {
    SenderDataPieces(t, sent, chunks, size, bytes);
    SenderDataSettled(t, sent, chunks, size, bytes);
    SenderDataStatus(t, sent, chunks, size, bytes);
  }

  lemma {:induction false} SenderDataSettled(t: Transfer, sent: seq<Piece>, chunks: seq<Chunk>, size: uint64, bytes: seq<byte>)
    requires SenderOk(t, sent, chunks, size) && DataError(t, t.transferred, |bytes|) == 0
    ensures Settled(AfterData(t, |bytes|), sent + [Piece(t.transferred, bytes)], size)
  {
    assert !Complete(sent, size);
    if t.requested != size {
      Whole(t.requested - t.transferred);
    }
  }

  lemma {:induction false} SenderDataStatus(t: Transfer, sent: seq<Piece>, chunks: seq<Chunk>, size: uint64, bytes: seq<byte>)
    requires SenderOk(t, sent, chunks, size) && DataError(t, t.transferred, |bytes|) == 0
    ensures StatusOk(AfterData(t, |bytes|).status, sent + [Piece(t.transferred, bytes)], chunks, size)
  {
  }

  lemma {:induction false} InOrderSnoc(got: seq<Piece>, sent: seq<Piece>, ms: seq<ToReceiver>, p: Piece)
    requires InOrder(got, sent, ms)
    ensures InOrder(got, sent + [p], ms + [Data(p.bytes)])
  {
    DataInSnoc(ms, Data(p.bytes));
    BytesOfSnoc(sent, p);
    assert (sent + [p])[..|got|] == got;
  }

  lemma {:induction false} DataOnTheWay(w: World, w': World, size: uint64, p: Piece)
    requires ReceiverSide(w, size) && w.sender.status == Transferring && !Complete(w.sent, size)
    requires w' == w.(sender := w'.sender, toReceiver := w.toReceiver + [Data(p.bytes)], sent := w.sent + [p])
    requires Base(w'.sender, w'.sent) == Base(w.sender, w.sent)
    requires w'.sender.status == Transferring || w'.sender.status == Finished
    ensures ReceiverSide(w', size)
  {
    NoRequestsSnoc(w.toReceiver, Data(p.bytes));
    if w.outcome == Open {
      InOrderSnoc(w.got, w.sent, w.toReceiver, p);
    } else {
      assert (w.sent + [p])[..|w.got|] == w.sent[..|w.got|];
    }
  }

  lemma {:induction false} SenderDataKeeps(w: World, size: uint64, position: uint64, bytes: seq<byte>)
    requires Inv(w, size) && Possible(w, SenderData(position, bytes))
    ensures Inv(Do(w, SenderData(position, bytes)), size)
  {
    SenderDataSenderOk(w.sender, w.sent, w.chunks, size, bytes);
    DataOnTheWay(w, Do(w, SenderData(position, bytes)), size, Piece(position, bytes));
  }

  lemma {:induction false} ReceiverControlAgreed(s: Transfer, r: Transfer, ms: seq<ToSender>, sent: seq<Piece>,
                                                start: uint64, size: uint64, kind: Kind)
    requires Agreed(s, r.status, ms, sent, start, size) && ControlError(r, true, kind) == 0 && kind != Kill
    requires r.status == NotAccepted || r.status == Transferring
    ensures Agreed(s, AfterControl(r, kind).status, ms + [FromReceiver(kind, 0)], sent, start, size)
  {
    var m := FromReceiver(kind, 0);
    if s.status == NotAccepted {
      if r.status == NotAccepted {
        ForeseeSnoc(ms, m, s.transferred, size);
      } else {
        ForeseeDecided(ms, m, s.transferred, size);
      }
    }
  }

  /** Closing the receiving end other than by data. */
  lemma {:induction false} CloseKeeps(w: World, w': World, size: uint64)
    requires Inv(w, size) && w.outcome == Open && NoRequests(w'.toReceiver) && w'.receiver.status == Idle
    requires w' == w.(receiver := w'.receiver, toReceiver := w'.toReceiver, toSender := w'.toSender, outcome := ClosedOtherwise)
    ensures Inv(w', size)
  {
  }

  lemma {:induction false} ReceiverControlKeeps(w: World, size: uint64, kind: Kind)
    requires Inv(w, size) && Possible(w, ReceiverControl(kind))
    ensures Inv(Do(w, ReceiverControl(kind)), size)
  {
    if kind == Kill {
      CloseKeeps(w, Do(w, ReceiverControl(kind)), size);
    } else {
      ReceiverControlAgreed(w.sender, w.receiver, w.toSender, w.sent, w.start, size, kind);
    }
  }

  lemma {:induction false} ReceiverSeekKeeps(w: World, size: uint64, position: uint64)
    requires Inv(w, size) && Possible(w, ReceiverSeek(position))
    ensures Inv(Do(w, ReceiverSeek(position)), size)
  {
    if w.sender.status == NotAccepted {
      ForeseeSnoc(w.toSender, FromReceiver(Seek, position), w.sender.transferred, size);
    }
  }

  lemma {:induction false} SenderTakesSenderOk(t: Transfer, sent: seq<Piece>, chunks: seq<Chunk>, size: uint64, m: ToSender)
    requires SenderOk(t, sent, chunks, size) && t.status != Idle
    ensures SenderOk(HandleControl(t, true, m.kind, m.position).0, sent, chunks, size)
  {
  }

  lemma {:induction false} SenderTakesAgreed(s: Transfer, r: Status, ms: seq<ToSender>, sent: seq<Piece>, start: uint64, size: uint64)
    requires Agreed(s, r, ms, sent, start, size) && ms != [] && s.size == size && s.status != Idle
    requires (r == NotAccepted || r == Transferring) && (s.status == NotAccepted ==> sent == [])
    ensures Agreed(HandleControl(s, true, ms[0].kind, ms[0].position).0, r, ms[1..], sent, start, size)
  {
  }

  lemma {:induction false} SenderGetsKeeps(w: World, size: uint64, reply: bool)
    requires Inv(w, size) && Possible(w, SenderGets(reply))
    ensures Inv(Do(w, SenderGets(reply)), size)
  {
    if w.sender.status == Idle {
      if reply {
        ControlOnTheWay(w.(toSender := w.toSender[1..]), Do(w, SenderGets(reply)), size, FromSender(Kill));
      }
    } else {
      SenderTakesSenderOk(w.sender, w.sent, w.chunks, size, w.toSender[0]);
      if w.outcome == Open {
        SenderTakesAgreed(w.sender, w.receiver.status, w.toSender, w.sent, w.start, size);
      }
    }
  }

  lemma {:induction false} NextPiece(got: seq<Piece>, sent: seq<Piece>, ms: seq<ToReceiver>)
    requires InOrder(got, sent, ms) && ms != [] && ms[0].Data?
    ensures |got| < |sent| && sent[|got|].bytes == ms[0].bytes
    ensures InOrder(got + [sent[|got|]], sent, ms[1..])
  {
    var k, x, more := |got|, ms[0].bytes, DataIn(ms[1..]);
    assert DataIn(ms) == [x] + more;
    NextOf(BytesOf(got), x, more, BytesOf(sent));
    BytesOfAt(sent, k);
    BytesOfSnoc(got, sent[k]);
    assert got + [sent[k]] == sent[..k + 1];
  }

  lemma {:induction false} NextOf<T>(a: seq<T>, x: T, b: seq<T>, all: seq<T>)
    requires a + ([x] + b) == all
    ensures |a| < |all| && all[|a|] == x && (a + [x]) + b == all
  {
    Regroup(a, [x], b);
  }

  /** The receiving end takes the next piece whole, at its own position, and closes on it exactly when the
      sending end did. */
  lemma {:induction false} NextPieceTaken(s: Transfer, sent: seq<Piece>, chunks: seq<Chunk>, r: Transfer, got: seq<Piece>,
                                         start: uint64, size: uint64)
    requires SenderOk(s, sent, chunks, size) && ReceiverOk(r, got, start, size) && r.status == Transferring
    requires |got| < |sent| && got == sent[..|got|] && Base(s, sent) == start
    ensures var p := sent[|got|];
      var r' := HandleData(r, |p.bytes|);
      && Passed(r, |p.bytes|) == |p.bytes| && p.position == r.transferred
      && r'.transferred == r.transferred + |p.bytes| && Contiguous(got + [p], start, r'.transferred)
      && (r'.status == Idle <==> Closing(p, size)) && (r'.status != Idle ==> r' == r.(transferred := r'.transferred))
      && (Closing(p, size) ==> got + [p] == sent)
  {
    var k, p := |got|, sent[|got|];
    ContiguousPrefix(sent, start, s.transferred, k, r.transferred);
    ContiguousSnoc(got, start, r.transferred, p);
    WholeTaken(r, p, size);
    if Closing(p, size) {
      ClosesLast(s, sent, chunks, size, k);
    }
  }

  lemma {:induction false} WholeTaken(r: Transfer, p: Piece, size: uint64)
    requires r.status == Transferring && r.size == size && p.position == r.transferred && p.position + |p.bytes| <= size
    ensures var r' := HandleData(r, |p.bytes|);
      && Passed(r, |p.bytes|) == |p.bytes| && r'.transferred == r.transferred + |p.bytes|
      && (r'.status == Idle <==> Closing(p, size)) && (r'.status != Idle ==> r' == r.(transferred := r'.transferred))
  {
  }

  lemma {:induction false} ClosesLast(s: Transfer, sent: seq<Piece>, chunks: seq<Chunk>, size: uint64, k: nat)
    requires SenderOk(s, sent, chunks, size) && k < |sent| && Closing(sent[k], size)
    ensures sent[..k] + [sent[k]] == sent
  {
    assert k == |sent| - 1;
  }

  lemma {:induction false} ReceiverDataKeeps(w: World, size: uint64, reply: bool)
    requires Inv(w, size) && Possible(w, ReceiverGets(reply)) && w.toReceiver[0].Data?
    requires w.receiver.status == Transferring
    ensures Inv(Do(w, ReceiverGets(reply)), size)
  {
    NextPiece(w.got, w.sent, w.toReceiver);
    NextPieceTaken(w.sender, w.sent, w.chunks, w.receiver, w.got, w.start, size);
    var piece := w.sent[|w.got|];
    TakesWhole(w, piece, reply);
    PieceTakenKeeps(w, Do(w, ReceiverGets(reply)), size, piece);
  }

  lemma {:induction false} TakesWhole(w: World, piece: Piece, reply: bool)
    requires w.toReceiver != [] && w.toReceiver[0] == Data(piece.bytes)
    requires w.receiver.status == Transferring && w.outcome == Open
    requires piece.position == w.receiver.transferred && Passed(w.receiver, |piece.bytes|) == |piece.bytes|
    ensures var r' := HandleData(w.receiver, |piece.bytes|);
      Do(w, ReceiverGets(reply)) == w.(receiver := r', toReceiver := w.toReceiver[1..], got := w.got + [piece],
                                       outcome := if r'.status == Idle then ClosedByData else Open)
  {
    assert piece.bytes[..|piece.bytes|] == piece.bytes;
  }

  /** Taking a piece whole keeps the receiving side in order, or closes it with everything there. */
  lemma {:induction false} PieceTakenKeeps(w: World, w': World, size: uint64, piece: Piece)
    requires Inv(w, size) && w.outcome == Open && w.receiver.status == Transferring && w.toReceiver != []
    requires |w.got| < |w.sent| && piece == w.sent[|w.got|] && InOrder(w.got + [piece], w.sent, w.toReceiver[1..])
    requires var r' := HandleData(w.receiver, |piece.bytes|);
      && Contiguous(w.got + [piece], w.start, r'.transferred)
      && (r'.status == Idle <==> Closing(piece, size))
      && (r'.status != Idle ==> r' == w.receiver.(transferred := r'.transferred))
      && (Closing(piece, size) ==> w.got + [piece] == w.sent)
      && w' == w.(receiver := r', toReceiver := w.toReceiver[1..], got := w.got + [piece],
                  outcome := if r'.status == Idle then ClosedByData else Open)
    ensures Inv(w', size)
  {
    assert NoRequests(w.toReceiver[1..]);
  }

  lemma {:induction false} ReceiverGetsKeeps(w: World, size: uint64, reply: bool)
    requires Inv(w, size) && Possible(w, ReceiverGets(reply))
    ensures Inv(Do(w, ReceiverGets(reply)), size)
  {
    var m := w.toReceiver[0];
    if m.Data? && w.receiver.status == Transferring {
      ReceiverDataKeeps(w, size, reply);
    } else if m.Data? && w.outcome == Open {
      NextPiece(w.got, w.sent, w.toReceiver);
    } else if m.Request? && w.outcome == Unopened {
      OpeningKeeps(w, size, reply);
    } else if m.FromSender? {
      ReceiverControlArrives(w, size, reply, Do(w, ReceiverGets(reply)));
    }
  }

  lemma {:induction false} ReceiverControlArrives(w: World, size: uint64, reply: bool, w': World)
    requires Inv(w, size) && w.toReceiver != [] && w.toReceiver[0].FromSender?
    requires w' == ReceiverTakes(w.(toReceiver := w.toReceiver[1..]), w.toReceiver[0], reply)
    ensures Inv(w', size)
  {
    ControlNext(w, size);
    ControlTaken(w, size, w.toReceiver[0].kind, w.toReceiver[1..], reply, w');
  }

  lemma {:induction false} ControlTaken(w: World, size: uint64, kind: Kind, rest: seq<ToReceiver>, reply: bool, w': World)
    requires Inv(w, size) && w.outcome != Unopened && w.toReceiver != [] && NoRequests(rest)
    requires w.toReceiver[0] == FromSender(kind) && w.toReceiver[1..] == rest
    requires w.receiver.status == Idle <==> w.outcome != Open
    requires w' == ReceiverTakes(w.(toReceiver := rest), FromSender(kind), reply)
    ensures Inv(w', size)
  {
    if w.outcome == Open {
      ControlArrivesOpen(w, size, kind, rest, w');
    } else {
      ClosedControlKeeps(w, size, rest);
    }
  }

  /** A control packet that is next in the channel comes after the request, and so do those behind it. */
  lemma {:induction false} ControlNext(w: World, size: uint64)
    requires Inv(w, size) && w.toReceiver != [] && w.toReceiver[0].FromSender?
    ensures w.outcome != Unopened && NoRequests(w.toReceiver[1..])
    ensures w.receiver.status == Idle <==> w.outcome != Open
    ensures w.toReceiver[0] == FromSender(w.toReceiver[0].kind)
  {
  }

  lemma {:induction false} ControlArrivesOpen(w: World, size: uint64, kind: Kind, rest: seq<ToReceiver>, w': World)
    requires Inv(w, size) && w.outcome == Open && w.toReceiver != [] && NoRequests(rest)
    requires w.toReceiver[0] == FromSender(kind) && w.toReceiver[1..] == rest
    requires w' == Close(w.(toReceiver := rest, receiver := HandleControl(w.receiver, false, kind, 0).0), ClosedOtherwise)
    ensures Inv(w', size)
  {
    if kind == Kill {
      CloseKeeps(w, w', size);
    } else {
      assert DataIn(rest) == DataIn(w.toReceiver);
      ReceiverPauseKeeps(w, size, kind, rest);
    }
  }

  /** A closed receiving end answers a control packet with a kill, and does nothing else. */
  lemma {:induction false} ClosedControlKeeps(w: World, size: uint64, rest: seq<ToReceiver>)
    requires Inv(w, size) && (w.outcome == ClosedByData || w.outcome == ClosedOtherwise) && NoRequests(rest)
    ensures Inv(w.(toReceiver := rest), size)
    ensures Inv(w.(toReceiver := rest, toSender := w.toSender + [FromReceiver(Kill, 0)]), size)
  {
  }

  lemma {:induction false} ReceiverPauseKeeps(w: World, size: uint64, kind: Kind, rest: seq<ToReceiver>)
    requires Inv(w, size) && w.outcome == Open && kind != Kill && NoRequests(rest) && InOrder(w.got, w.sent, rest)
    ensures Inv(w.(toReceiver := rest, receiver := HandleControl(w.receiver, false, kind, 0).0), size)
  {
    PausedReceiverOk(w.receiver, w.got, w.start, size, kind);
    OpenAgain(w, size, rest, HandleControl(w.receiver, false, kind, 0).0);
  }

  lemma {:induction false} PausedReceiverOk(r: Transfer, got: seq<Piece>, start: uint64, size: uint64, kind: Kind)
    requires ReceiverOk(r, got, start, size) && kind != Kill
    ensures ReceiverOk(HandleControl(r, false, kind, 0).0, got, start, size)
    ensures HandleControl(r, false, kind, 0).0.status == r.status
  {
  }

  lemma {:induction false} OpenAgain(w: World, size: uint64, rest: seq<ToReceiver>, r: Transfer)
    requires Inv(w, size) && w.outcome == Open && NoRequests(rest) && InOrder(w.got, w.sent, rest)
    requires ReceiverOk(r, w.got, w.start, size) && r.status == w.receiver.status
    ensures Inv(w.(toReceiver := rest, receiver := r), size)
  {
    assert Agreed(w.sender, r.status, w.toSender, w.sent, w.start, size);
  }

  lemma {:induction false} OpeningKeeps(w: World, size: uint64, reply: bool)
    requires Inv(w, size) && w.outcome == Unopened && Possible(w, ReceiverGets(reply))
    ensures Inv(Do(w, ReceiverGets(reply)), size)
  {
    var w' := w.(toReceiver := w.toReceiver[1..], receiver := HandleRequest(w.receiver, size), outcome := Open);
    assert w.toReceiver[0] == Request(size);
    OpenedSide(w, w', size);
    assert Do(w, ReceiverGets(reply)) == w';
  }

  lemma {:induction false} OpenedSide(w: World, w': World, size: uint64)
    requires Inv(w, size) && w.outcome == Unopened
    requires w' == w.(toReceiver := w.toReceiver[1..], receiver := HandleRequest(w.receiver, size), outcome := Open)
    ensures Inv(w', size)
  {
    assert InOrder(w'.got, w'.sent, w'.toReceiver) && ReceiverOk(w'.receiver, w'.got, w'.start, size);
    assert Agreed(w'.sender, w'.receiver.status, w'.toSender, w'.sent, w'.start, size);
  }

  lemma {:induction false} SenderStopsKeeps(w: World, size: uint64)
    requires Inv(w, size)
    ensures Inv(w.(sender := w.sender.(status := Idle)), size)
  {
  }

  lemma {:induction false} ReceiverBreakKeeps(w: World, size: uint64)
    requires Inv(w, size)
    ensures Inv(Do(w, ReceiverBreak), size)
  {
    if w.outcome == Open {
      CloseKeeps(w, Do(w, ReceiverBreak), size);
    }
  }

  lemma {:induction false} StepKeeps(w: World, size: uint64, step: Step)
    requires Inv(w, size) && Possible(w, step)
    ensures Inv(Do(w, step), size)
  {
    match step
    case SenderControl(kind) => SenderControlKeeps(w, size, kind);
    case SenderData(position, bytes) => SenderDataKeeps(w, size, position, bytes);
    case SenderChunk => SenderChunkKeeps(w, size);
    case SenderDone => SenderStopsKeeps(w, size);
    case SenderBreak => SenderStopsKeeps(w, size);
    case ReceiverControl(kind) => ReceiverControlKeeps(w, size, kind);
    case ReceiverSeek(position) => ReceiverSeekKeeps(w, size, position);
    case ReceiverBreak => ReceiverBreakKeeps(w, size);
    case ReceiverGets(reply) => ReceiverGetsKeeps(w, size, reply);
    case SenderGets(reply) => SenderGetsKeeps(w, size, reply);
  }

  // ---------- Runs ----------

  ghost predicate IsRun(w: World, steps: seq<Step>)
    decreases |steps|
  {
    steps == [] || (Possible(w, steps[0]) && IsRun(Do(w, steps[0]), steps[1..]))
  }

  ghost function After(w: World, steps: seq<Step>): World
    requires IsRun(w, steps)
    decreases |steps|
  {
    if steps == [] then w else After(Do(w, steps[0]), steps[1..])
  }

  lemma {:induction false} OpenedOk(size: uint64)
    ensures Inv(Opened(size), size)
  {
    var w := Opened(size);
    assert w.toReceiver[1..] == [];
    assert DataIn(w.toReceiver) == DataIn([]);
  }

  lemma {:induction false} RunKeeps(w: World, size: uint64, steps: seq<Step>)
    requires Inv(w, size) && IsRun(w, steps)
    ensures Inv(After(w, steps), size)
    decreases |steps|
  {
    if steps != [] {
      StepKeeps(w, size, steps[0]);
      RunKeeps(Do(w, steps[0]), size, steps[1..]);
    }
  }

  lemma {:induction false} RunOk(size: uint64, steps: seq<Step>)
    requires IsRun(Opened(size), steps)
    ensures Inv(After(Opened(size), steps), size)
  {
    OpenedOk(size);
    RunKeeps(Opened(size), size, steps);
  }

  /** In every run: the pieces got are the first pieces sent, with the same positions, beginning where the
      receiving client asked for; and if the receiving end was closed by data, it has got everything, and the
      last piece is the one that finished the sending end. */
  lemma {:induction false} GotIsSent(size: uint64, steps: seq<Step>)
    requires IsRun(Opened(size), steps)
    ensures var w := After(Opened(size), steps);
      && w.got <= w.sent
      && (w.got != [] ==> w.got[0].position == w.start)
      && (w.outcome == Open ==> Contiguous(w.got, w.start, w.receiver.transferred))
      && (w.outcome == ClosedByData ==>
            && w.got == w.sent && Complete(w.sent, size)
            && (w.sender.status == Finished || w.sender.status == Idle)
            && (size != UINT64_MAX ==> w.sender.transferred == size))
  {
    RunOk(size, steps);
    var w := After(Opened(size), steps);
    assert w.sent[..|w.got|] <= w.sent;
    ContiguousBounds(w.sent, Base(w.sender, w.sent), w.sender.transferred);
  }

  /** The bytes of pieces, one after the other. */
  function Joined(ps: seq<Piece>): seq<byte> {
    if ps == [] then [] else Joined(ps[..|ps| - 1]) + ps[|ps| - 1].bytes
  }

  /** The sending client reads its pieces from file. */
  ghost predicate ReadFrom(ps: seq<Piece>, file: seq<byte>) {
    forall i :: 0 <= i < |ps| ==>
      ps[i].position + |ps[i].bytes| <= |file| && ps[i].bytes == file[ps[i].position..ps[i].position + |ps[i].bytes|]
  }

  lemma {:induction false} JoinedIsSlice(ps: seq<Piece>, from: int, upTo: int, file: seq<byte>)
    requires Contiguous(ps, from, upTo) && 0 <= from && upTo <= |file| && ReadFrom(ps, file)
    ensures from <= upTo && Joined(ps) == file[from..upTo]
    decreases |ps|
  {
    ContiguousBounds(ps, from, upTo);
    if ps != [] {
      var n := |ps| - 1;
      ContiguousBounds(ps[..n], from, ps[n].position);
      JoinedIsSlice(ps[..n], from, ps[n].position, file);
      SlicesMeet(file, from, ps[n].position, upTo);
    }
  }

  lemma {:induction false} SlicesMeet(file: seq<byte>, a: nat, b: nat, c: nat)
    requires a <= b <= c <= |file|
    ensures file[a..b] + file[b..c] == file[a..c]
  {
  }

  lemma {:induction false} PrefixContiguous(ps: seq<Piece>, from: int, upTo: int, k: nat) returns (end: int)
    requires Contiguous(ps, from, upTo) && k <= |ps|
    ensures Contiguous(ps[..k], from, end) && end <= upTo
    decreases |ps|
  {
    if k == |ps| {
      end := upTo;
      assert ps[..k] == ps;
    } else {
      var n := |ps| - 1;
      end := PrefixContiguous(ps[..n], from, ps[n].position, k);
      assert ps[..n][..k] == ps[..k];
    }
  }

  /** In every run in which the sending client reads from a file, of the announced size or of unknown size: the
      receiving client has got a part of the file that begins where it asked for, and, if its end was closed by
      data, everything up to where the sending end stopped, which for a known size is all of the rest. */
  lemma {:induction false} GotIsFile(size: uint64, steps: seq<Step>, file: seq<byte>) returns (end: int)
    requires IsRun(Opened(size), steps) && ReadFrom(After(Opened(size), steps).sent, file)
    requires After(Opened(size), steps).got != []
    ensures var w := After(Opened(size), steps);
      && w.start <= end <= |file| && end <= size && Joined(w.got) == file[w.start..end]
      && (w.outcome == Open ==> w.receiver.transferred == end)
      && (w.outcome == ClosedByData ==> end == w.sender.transferred && (size != UINT64_MAX ==> end == size))
  {
    RunOk(size, steps);
    var w := After(Opened(size), steps);
    var base, k := Base(w.sender, w.sent), |w.got|;
    end := PrefixContiguous(w.sent, base, w.sender.transferred, k);
    assert w.got == w.sent[..k];
    assert base == w.start;
    assert w.got[k - 1] == w.sent[k - 1] && end == w.sent[k - 1].position + |w.sent[k - 1].bytes|;
    JoinedIsSlice(w.got, w.start, end, file);
    if w.outcome == Open {
      ContiguousEnd(w.got, w.start, end, w.receiver.transferred);
    } else if w.outcome == ClosedByData {
      ContiguousEnd(w.got, w.start, end, w.sender.transferred);
    }
  }

  // ---------- Chunks ----------

  lemma {:induction false} TiledApart(cs: seq<Chunk>, from: int, upTo: int, i: nat, j: nat)
    requires Tiled(cs, from, upTo) && i < j < |cs|
    ensures from <= cs[i].position && cs[i].position + cs[i].length <= cs[j].position && cs[j].position + cs[j].length <= upTo
    ensures j == i + 1 ==> cs[i].position + cs[i].length == cs[j].position
    decreases |cs|
  {
    var n := |cs| - 1;
    TiledBounds(cs[..n], from, cs[n].position, i);
    if j < n {
      TiledApart(cs[..n], from, cs[n].position, i, j);
    }
  }

  lemma {:induction false} TiledBounds(cs: seq<Chunk>, from: int, upTo: int, i: nat)
    requires Tiled(cs, from, upTo) && i < |cs|
    ensures from <= cs[i].position && cs[i].position + cs[i].length <= upTo
    ensures i == |cs| - 1 ==> cs[i].position + cs[i].length == upTo
    decreases |cs|
  {
    var n := |cs| - 1;
    if i < n {
      TiledBounds(cs[..n], from, cs[n].position, i);
    } else if n > 0 {
      TiledBounds(cs[..n], from, cs[n].position, n - 1);
    }
  }

  /** In every run: what was sent has been asked for, what was asked for is in the file, and the chunks asked
      for lie end to end from where sending began to the end of what was asked for. */
  lemma {:induction false} ChunksTile(size: uint64, steps: seq<Step>)
    requires IsRun(Opened(size), steps)
    ensures var w := After(Opened(size), steps);
      var t := w.sender;
      && t.transferred <= t.requested <= t.size == size
      && Tiled(w.chunks, Base(t, w.sent), t.requested)
      && Contiguous(w.sent, Base(t, w.sent), t.transferred)
      && (t.status == Transferring ==> Outstanding(t))
  {
    RunOk(size, steps);
  }

  /** Beyond what was sent, whole chunks or the whole rest of the file have been asked for in every run,
      except when a file of unknown size was ended by a piece that is neither empty nor full. */
  lemma {:induction false} AlignedExactly(size: uint64, steps: seq<Step>)
    requires IsRun(Opened(size), steps)
    ensures var w := After(Opened(size), steps);
      Aligned(w.sender) <==>
        !(size == UINT64_MAX && w.sender.requested < UINT64_MAX
          && w.sent != [] && |w.sent[|w.sent| - 1].bytes| !in {0, MAX_FILE_DATA_SIZE})
  {
    RunOk(size, steps);
    var w := After(Opened(size), steps);
    if w.sent != [] && w.sender.requested != size {
      var p := w.sent[|w.sent| - 1];
      assert p.position + |p.bytes| == w.sender.transferred;
      if Complete(w.sent, size) {
        ShortRemainder(w.sender.requested - p.position, |p.bytes|);
      }
    }
  }

  lemma {:induction false} ShortRemainder(d: int, length: nat)
    requires d % MAX_FILE_DATA_SIZE == 0 && length <= MAX_FILE_DATA_SIZE
    ensures (d - length) % MAX_FILE_DATA_SIZE == 0 <==> length == 0 || length == MAX_FILE_DATA_SIZE
  {
    var q := d / MAX_FILE_DATA_SIZE;
    assert d == MAX_FILE_DATA_SIZE * q;
    if length == 0 || length == MAX_FILE_DATA_SIZE {
    } else {
      assert d - length == MAX_FILE_DATA_SIZE * (q - 1) + (MAX_FILE_DATA_SIZE - length);
    }
  }

  lemma {:induction false} OneStep(w: World, step: Step, steps: seq<Step>, end: World)
    requires Possible(w, step) && IsRun(Do(w, step), steps) && After(Do(w, step), steps) == end
    ensures IsRun(w, [step] + steps) && After(w, [step] + steps) == end
  {
    assert ([step] + steps)[1..] == steps;
  }

  /** A stream that is opened, accepted, asked for one chunk, and ended with a single byte. */
  function StreamAction(i: nat): Step {
    match i
    case 0 => ReceiverGets(true)
    case 1 => ReceiverControl(Accept)
    case 2 => SenderGets(true)
    case 3 => SenderChunk
    case _ => SenderData(0, [7])
  }

  function StreamWorld(i: nat): World {
    var open := Transfer(NotAccepted, UINT64_MAX, 0, 0, 0, false, false);
    var going := open.(status := Transferring);
    match i
    case 0 => Opened(UINT64_MAX)
    case 1 => World(open, open, [], [], [], [], [], 0, Open)
    case 2 => World(open, going, [], [FromReceiver(Accept, 0)], [], [], [], 0, Open)
    case 3 => World(going, going, [], [], [], [], [], 0, Open)
    case 4 => World(going.(requested := 1371, slotsAllocated := 1), going, [], [], [], [], [Chunk(0, 1371)], 0, Open)
    case _ => World(Transfer(Finished, UINT64_MAX, 1, 1371, 0, false, false), going, [Data([7])], [],
                    [Piece(0, [7])], [], [Chunk(0, 1371)], 0, Open)
  }

  lemma {:induction false} StreamStep(i: nat)
    requires i < 5
    ensures Possible(StreamWorld(i), StreamAction(i)) && Do(StreamWorld(i), StreamAction(i)) == StreamWorld(i + 1)
  {
    var w := StreamWorld(i);
    if i == 0 {
      assert w.toReceiver == [Request(UINT64_MAX)] && w.toReceiver[1..] == [];
    } else if i == 1 {
      assert w.toSender + [FromReceiver(Accept, 0)] == StreamWorld(2).toSender;
    } else if i == 2 {
      assert w.toSender[1..] == [];
    } else if i == 3 {
      assert w.chunks + [Chunk(0, 1371)] == StreamWorld(4).chunks;
    } else {
      assert w.sent + [Piece(0, [7])] == StreamWorld(5).sent;
    }
  }

  lemma {:induction false} StreamRun(i: nat) returns (steps: seq<Step>)
    requires i <= 5
    ensures IsRun(StreamWorld(i), steps) && After(StreamWorld(i), steps) == StreamWorld(5)
    decreases 5 - i
  {
    if i == 5 {
      steps := [];
    } else {
      steps := StreamRun(i + 1);
      StreamStep(i);
      OneStep(StreamWorld(i), StreamAction(i), steps, StreamWorld(5));
      steps := [StreamAction(i)] + steps;
    }
  }

  /** Such a run leaves the requests unaligned. */
  lemma {:induction false} StreamEndsUnaligned() returns (steps: seq<Step>)
    ensures IsRun(Opened(UINT64_MAX), steps) && !Aligned(After(Opened(UINT64_MAX), steps).sender)
  {
    steps := StreamRun(0);
  }
}
