/** One end of a file transfer in Messenger.c: what every call and every packet makes of a transfer slot. */
module FileTransfer {
  import opened Bytes

  /** MAX_CRYPTO_DATA_SIZE - 2 */
  const MAX_FILE_DATA_SIZE: nat := 1371
  const UINT64_MAX: nat := 0xFFFF_FFFF_FFFF_FFFF

  datatype Status = Idle | NotAccepted | Transferring | Finished

  datatype Kind = Accept | Pause | Kill | Seek

  /** struct File_Transfers. The two pause flags are the bits FILE_PAUSE_US and FILE_PAUSE_OTHER. */
  datatype Transfer = Transfer(status: Status, size: uint64, transferred: uint64, requested: uint64,
                               slotsAllocated: nat, pausedUs: bool, pausedOther: bool)

  const EMPTY := Transfer(Idle, 0, 0, 0, 0, false, false)

  // ---------- Calls of the client ----------

  /** new_filesender, once its packet is on the way. */
  function NewSender(size: uint64): Transfer {
    Transfer(NotAccepted, size, 0, 0, 0, false, false)
  }

  /** The checks of file_control: 0, or the error. */
  function ControlError(t: Transfer, receiving: bool, kind: Kind): int {
    if t.status == Idle then -3
    else if kind == Seek then -4
    else if kind == Pause && (t.pausedUs || t.status != Transferring) then -5
    else if kind == Accept && t.status == Transferring && !t.pausedUs then if t.pausedOther then -6 else -7
    else if kind == Accept && t.status == Finished then -7
    else if kind == Accept && t.status == NotAccepted && !receiving then -6
    else 0
  }

  /** file_control, once its packet is on the way. */
  function AfterControl(t: Transfer, kind: Kind): Transfer {
    match kind
    case Kill => t.(status := Idle)
    case Pause => t.(pausedUs := true)
    case Accept => t.(status := Transferring, pausedUs := false)
    case Seek => t
  }

  /** The checks of file_seek for a receiving slot. */
  function SeekError(t: Transfer, position: uint64): int {
    if t.status == Idle then -3
    else if t.status != NotAccepted then -5
    else if position >= t.size then -6
    else 0
  }

  /** The checks of file_data before anything is sent. */
  function DataError(t: Transfer, position: uint64, length: nat): int {
    if t.status != Transferring then -4
    else if length > MAX_FILE_DATA_SIZE then -5
    else if t.size - t.transferred < length then -5
    else if t.size != UINT64_MAX && length != MAX_FILE_DATA_SIZE && t.transferred + length != t.size then -5
    else if position != t.transferred || (t.requested <= position && t.size != 0) then -7
    else 0
  }

  /** file_data, once its packet is on the way. */
  function AfterData(t: Transfer, length: nat): Transfer
    requires t.transferred + length <= t.size
  {
    var t' := t.(transferred := t.transferred + length,
                 slotsAllocated := if t.slotsAllocated > 0 then t.slotsAllocated - 1 else 0);
    if length != MAX_FILE_DATA_SIZE || t.size == t'.transferred then t'.(status := Finished) else t'
  }

  /** The length of the next chunk that do_reqchunk_filecb asks for. */
  function ChunkLength(t: Transfer): nat
    requires t.requested <= t.size
  {
    if t.size - t.requested < MAX_FILE_DATA_SIZE then t.size - t.requested else MAX_FILE_DATA_SIZE
  }

  /** One more chunk asked for. */
  function AfterChunk(t: Transfer): Transfer
    requires t.requested <= t.size
  {
    t.(requested := t.requested + ChunkLength(t), slotsAllocated := t.slotsAllocated + 1)
  }

  // ---------- Packets from the friend ----------

  /** handle_filecontrol for a slot in use: the new slot, and whether the packet was in order. toSender says
      that the slot is a sending one; position is what a seek carries. */
  function HandleControl(t: Transfer, toSender: bool, kind: Kind, position: uint64): (Transfer, bool) {
    match kind
    case Accept =>
      if toSender && t.status == NotAccepted then (t.(status := Transferring), true)
      else if t.pausedOther then (t.(pausedOther := false), true)
      else (t, false)
    case Pause =>
      if t.pausedOther || t.status != Transferring then (t, false) else (t.(pausedOther := true), true)
    case Kill => (t.(status := Idle), true)
    case Seek =>
      if t.status != NotAccepted || !toSender || position >= t.size then (t, false)
      else (t.(transferred := position, requested := position), true)
  }

  /** PACKET_ID_FILE_SENDREQUEST. */
  function HandleRequest(t: Transfer, size: uint64): Transfer {
    if t.status != Idle then t
    else t.(status := NotAccepted, size := size, transferred := 0, pausedUs := false, pausedOther := false)
  }

  /** How much of a data packet is passed on: never more than is missing. Sums are taken modulo 2^64 and
      lengths modulo 2^16. */
  function Passed(t: Transfer, length: nat): (n: nat) {
    if (t.transferred + length) % 0x1_0000_0000_0000_0000 > t.size then (t.size - t.transferred) % 0x1_0000 else length
  }

  /** PACKET_ID_FILE_DATA for a transferring slot. */
  function HandleData(t: Transfer, length: nat): Transfer {
    var n := Passed(t, length);
    var t' := t.(transferred := (t.transferred + n) % 0x1_0000_0000_0000_0000);
    if n == 0 || t'.transferred >= t.size || n != MAX_FILE_DATA_SIZE then t'.(status := Idle) else t'
  }

  // ---------- When calls are refused ----------

  /** A client may accept what was offered to it, and resume what it has paused itself; it may pause what it has not
      paused yet, and kill anything. -6 means that only the friend can let it go on, -7 that it goes on already. */
  lemma {:induction false} ControlsAllowed(t: Transfer, receiving: bool, kind: Kind)
    ensures var e := ControlError(t, receiving, kind);
      && (e == -3 <==> t.status == Idle)
      && (t.status != Idle ==>
            match kind
            case Kill => e == 0
            case Seek => e == -4
            case Pause => e == if t.status == Transferring && !t.pausedUs then 0 else -5
            case Accept =>
              && (e == 0 <==> (t.status == NotAccepted && receiving) || (t.status == Transferring && t.pausedUs))
              && (e == -6 <==> (t.status == NotAccepted && !receiving) || (t.status == Transferring && !t.pausedUs && t.pausedOther))
              && (e == -7 <==> t.status == Finished || Going(t)))
    ensures var t' := AfterControl(t, kind);
      ControlError(t, receiving, kind) == 0 ==>
        && (kind == Kill <==> t'.status == Idle) && (kind != Kill ==> t' != t && t'.status == Transferring)
        && t'.pausedUs == (if kind == Kill then t.pausedUs else kind == Pause) && t'.pausedOther == t.pausedOther
        && t'.size == t.size && t'.transferred == t.transferred && t'.requested == t.requested
  {
  }

  /** Data is taken at the place where the file has got to, once it has been asked for, and only whole chunks before
      the end of a file of known size. */
  lemma {:induction false} DataAllowed(t: Transfer, position: uint64, length: nat)
    requires t.transferred <= t.size
    ensures var e := DataError(t, position, length);
      && (e == 0 <==>
            && t.status == Transferring && position == t.transferred && (t.transferred < t.requested || t.size == 0)
            && t.transferred + length <= t.size
            && (length == 1371 || (length < 1371 && (t.transferred + length == t.size || t.size == UINT64_MAX))))
      && (e == -4 <==> t.status != Transferring)
      && (e == -7 ==> position != t.transferred || (t.requested <= position && t.size != 0))
      && e in {0, -4, -5, -7}
  {
  }

  /** Only what has not been accepted yet can be made to begin elsewhere in the file. */
  lemma {:induction false} SeekAllowed(t: Transfer, position: uint64)
    ensures var e := SeekError(t, position);
      && (e == 0 <==> t.status == NotAccepted && position < t.size)
      && (e == -3 <==> t.status == Idle) && (e == -6 ==> position >= t.size) && e in {0, -3, -5, -6}
  {
  }

  /** Which control packets are in order; the others change nothing. */
  lemma {:induction false} ControlsHandled(t: Transfer, toSender: bool, kind: Kind, position: uint64)
    requires t.status != Idle
    ensures var (t', ok) := HandleControl(t, toSender, kind, position);
      && (!ok ==> t' == t)
      && match kind
         case Accept => (ok <==> t' != t) && (ok <==> (t.status == NotAccepted && toSender) || t.pausedOther)
         case Pause => (ok <==> t' != t) && (ok <==> t.status == Transferring && !t.pausedOther)
         case Kill => ok && t'.status == Idle
         case Seek => (ok <==> t.status == NotAccepted && toSender && position < t.size)
                      && (ok ==> t' == t.(transferred := position, requested := position))
  {
  }

  /** No more of a data packet is passed on than is missing. */
  lemma {:induction false} PassedIsMissing(t: Transfer, length: nat)
    requires t.transferred <= t.size && length < 0x1_0000 && t.transferred + length < 0x1_0000_0000_0000_0000
    ensures Passed(t, length) == if length <= t.size - t.transferred then length else t.size - t.transferred
    ensures HandleData(t, length).transferred == t.transferred + Passed(t, length) <= t.size
  {
  }

  // ---------- The slot, updated in place ----------

  /** A call of the chunk request callback. */
  datatype Chunk = Chunk(position: uint64, length: nat)

  class Slot {
    var status: Status
    var size: uint64
    var transferred: uint64
    var requested: uint64
    var slotsAllocated: nat
    var pausedUs: bool
    var pausedOther: bool

    function View(): Transfer
      reads this
    {
      Transfer(status, size, transferred, requested, slotsAllocated, pausedUs, pausedOther)
    }

    constructor ()
      ensures View() == EMPTY
    {
      status, size, transferred, requested, slotsAllocated := Idle, 0, 0, 0, 0;
      pausedUs, pausedOther := false, false;
    }

    /** file_control; sent says whether the control packet could be sent. */
    method FileControl(receiving: bool, kind: Kind, sent: bool) returns (r: int)
      modifies this
      ensures r == if ControlError(old(View()), receiving, kind) != 0 then ControlError(old(View()), receiving, kind)
                   else if sent then 0 else -8
      ensures View() == if r == 0 then AfterControl(old(View()), kind) else old(View())
    {
      if status == Idle {
        return -3;
      }
      if kind == Seek {
        return -4;
      }
      if kind == Pause && (pausedUs || status != Transferring) {
        return -5;
      }
      if kind == Accept {
        if status == Transferring {
          if !pausedUs {
            return if pausedOther then -6 else -7;
          }
        } else {
          if status != NotAccepted {
            return -7;
          }
          if !receiving {
            return -6;
          }
        }
      }
      if !sent {
        return -8;
      }
      if kind == Kill {
        status := Idle;
      } else if kind == Pause {
        pausedUs := true;
      } else if kind == Accept {
        status := Transferring;
        if pausedUs {
          pausedUs := false;
        }
      }
      return 0;
    }

    /** file_seek on a receiving slot. */
    method FileSeek(position: uint64, sent: bool) returns (r: int)
      modifies this
      ensures r == if SeekError(old(View()), position) != 0 then SeekError(old(View()), position)
                   else if sent then 0 else -8
      ensures View() == if r == 0 then old(View()).(transferred := position) else old(View())
    {
      if status == Idle {
        return -3;
      }
      if status != NotAccepted {
        return -5;
      }
      if position >= size {
        return -6;
      }
      if !sent {
        return -8;
      }
      transferred := position;
      return 0;
    }

    /** file_data on a sending slot; room says that the send queue has the free slots it must keep. */
    method FileData(position: uint64, length: nat, room: bool, sent: bool) returns (r: int)
      modifies this
      ensures var e := DataError(old(View()), position, length); r == if e != 0 then e else if room && sent then 0 else -6
      ensures r == 0 ==> old(View()).transferred + length <= old(View()).size && View() == AfterData(old(View()), length)
      ensures r != 0 ==> View() == old(View())
    {
      if status != Transferring {
        return -4;
      }
      if length > MAX_FILE_DATA_SIZE {
        return -5;
      }
      if size - transferred < length {
        return -5;
      }
      if size != UINT64_MAX && length != MAX_FILE_DATA_SIZE && transferred + length != size {
        return -5;
      }
      if position != transferred || (requested <= position && size != 0) {
        return -7;
      }
      if !room || !sent {
        return -6;
      }
      transferred := transferred + length;
      if slotsAllocated != 0 {
        slotsAllocated := slotsAllocated - 1;
      }
      if length != MAX_FILE_DATA_SIZE || size == transferred {
        status := Finished;
      }
      return 0;
    }

    /** What do_reqchunk_filecb does for this slot. freeSlots is how many packets may still be asked for, received
        that the friend has got the last packet; room and sent are as for file_data. The callback does not call
        back into the slot. Returns the chunks asked for, and whether the client is told that the file was sent. */
    method RequestChunks(freeSlots: nat, received: bool, room: bool, sent: bool) returns (chunks: seq<Chunk>, told: bool)
      requires requested <= size
      modifies this
      ensures told == (old(status) == Finished && received)
      ensures size == 0 ==>
        chunks == [] && View() == AfterEmpty(Told(old(View()), told), FreeFor(old(View()), freeSlots), room && sent)
      ensures size != 0 ==> (View(), chunks) == Requested(Told(old(View()), told), |chunks|)
      ensures |chunks| <= FreeFor(old(View()), freeSlots)
      ensures size != 0 && |chunks| < FreeFor(old(View()), freeSlots) ==> !Going(View()) || requested == size
      ensures !Going(old(View())) ==> chunks == []
      ensures chunks != [] ==> slotsAllocated <= freeSlots
      ensures size != 0 && Going(View()) && requested < size ==> slotsAllocated >= freeSlots
      ensures status == Idle <==> told || old(status) == Idle
    {
      told := false;
      var free := freeSlots;
      if status != Idle {
        if status == Finished && received {
          told := true;
          status := Idle;
        }
        free := if slotsAllocated > free then 0 else free - slotsAllocated;
      }
      chunks := [];
      if size == 0 {
        if status == Transferring && !pausedUs && !pausedOther && free != 0 {
          var _ := FileData(0, 0, room, sent);
        }
      } else {
        chunks := RequestLoop(free);
      }
    }

    /** Its loop, for a file that is not empty. */
    method RequestLoop(freeSlots: nat) returns (chunks: seq<Chunk>)
      requires requested <= size && size != 0
      modifies this`requested, this`slotsAllocated
      ensures requested <= size && (View(), chunks) == Requested(old(View()), |chunks|)
      ensures |chunks| <= freeSlots
      ensures |chunks| < freeSlots ==> !Going(View()) || requested == size
      ensures !Going(View()) ==> chunks == []
    {
      chunks := [];
      var free := freeSlots;
      while status == Transferring && !pausedUs && !pausedOther
        invariant requested <= size && 0 <= free && free + |chunks| == freeSlots
        invariant chunks == [] || (status == Transferring && !pausedUs && !pausedOther)
        invariant (View(), chunks) == Requested(old(View()), |chunks|)
        decreases free
      {
        if free == 0 {
          break;
        }
        var length := MAX_FILE_DATA_SIZE;
        if size == requested {
          break;
        }
        if size - requested < length {
          length := size - requested;
        }
        slotsAllocated := slotsAllocated + 1;
        var position := requested;
        requested := requested + length;
        chunks := chunks + [Chunk(position, length)];
        free := free - 1;
      }
    }

    /** handle_filecontrol; killBack says that a kill is sent back, since there is no such transfer. */
    method HandleFileControl(toSender: bool, kind: Kind, position: uint64) returns (ok: bool, killBack: bool)
      modifies this
      ensures killBack == (old(status) == Idle)
      ensures killBack ==> !ok && View() == old(View())
      ensures !killBack ==> (View(), ok) == HandleControl(old(View()), toSender, kind, position)
    {
      if status == Idle {
        return false, true;
      }
      killBack := false;
      if kind == Accept {
        if toSender && status == NotAccepted {
          status := Transferring;
        } else {
          if pausedOther {
            pausedOther := false;
          } else {
            return false, false;
          }
        }
      } else if kind == Pause {
        if pausedOther || status != Transferring {
          return false, false;
        }
        pausedOther := true;
      } else if kind == Kill {
        status := Idle;
      } else {
        if status != NotAccepted || !toSender {
          return false, false;
        }
        if position >= size {
          return false, false;
        }
        transferred := position;
        requested := position;
      }
      ok := true;
    }

    /** The packet that opens a transfer on a receiving slot. */
    method HandleSendRequest(fileSize: uint64)
      modifies this
      ensures View() == HandleRequest(old(View()), fileSize)
    {
      if status != Idle {
        return;
      }
      status := NotAccepted;
      size := fileSize;
      transferred := 0;
      pausedUs, pausedOther := false, false;
    }

    /** A data packet: whether the slot takes it, how much of it is passed to the client, where that belongs, and
        whether the client is then told that the file is complete. */
    method HandleFileData(length: nat) returns (taken: bool, position: uint64, passed: nat, complete: bool)
      modifies this
      ensures taken == (old(status) == Transferring)
      ensures !taken ==> View() == old(View()) && passed == 0 && !complete
      ensures taken ==> position == old(transferred) && passed == Passed(old(View()), length)
      ensures taken ==> View() == HandleData(old(View()), length) && (complete <==> status == Idle)
    {
      position := transferred;
      if status != Transferring {
        return false, position, 0, false;
      }
      taken := true;
      passed := length;
      if (transferred + length) % 0x1_0000_0000_0000_0000 > size {
        passed := (size - transferred) % 0x1_0000;
      }
      transferred := (transferred + passed) % 0x1_0000_0000_0000_0000;
      var rest := passed;
      if rest != 0 && (transferred >= size || rest != MAX_FILE_DATA_SIZE) {
        rest := 0;
      }
      complete := rest == 0;
      if complete {
        status := Idle;
      }
    }
  }

  predicate Going(t: Transfer) {
    t.status == Transferring && !t.pausedUs && !t.pausedOther
  }

  /** How many packets a slot may ask for: those that it has asked for and not sent yet are counted. */
  function FreeFor(t: Transfer, freeSlots: nat): nat {
    if t.status == Idle then freeSlots
    else if t.slotsAllocated > freeSlots then 0 else freeSlots - t.slotsAllocated
  }

  /** An empty file that has been accepted is sent as soon as one packet may be. */
  lemma {:induction false} EmptyIsSent(freeSlots: nat)
    requires freeSlots >= 1
    ensures var t := AfterControl(NewSender(0), Accept);
      Going(t) && AfterEmpty(t, FreeFor(t, freeSlots), true).status == Finished
  {
  }

  function Told(t: Transfer, told: bool): Transfer {
    if told then t.(status := Idle) else t
  }

  /** An empty file is sent as one empty packet. */
  function AfterEmpty(t: Transfer, free: nat, sent: bool): Transfer {
    if Going(t) && free != 0 && sent && DataError(t, 0, 0) == 0 then AfterData(t, 0) else t
  }

  /** n chunks asked for in a row: the slot after them, and the chunks. */
  function Requested(t: Transfer, n: nat): (r: (Transfer, seq<Chunk>))
    requires t.requested <= t.size
    ensures r.0.requested <= r.0.size && |r.1| == n && r.0.slotsAllocated == t.slotsAllocated + n
  {
    if n == 0 then (t, []) else
      var (u, chunks) := Requested(t, n - 1);
      (AfterChunk(u), chunks + [Chunk(u.requested, ChunkLength(u))])
  }
}
