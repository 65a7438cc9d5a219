/** Pausing and resuming in a file transfer: what the two ends know of each other's pauses, over whole runs. */
module FilePauses {
  import opened Bytes
  import opened FileTransfer
  import opened FileSession

  // ---------- What the packets on the way will tell ----------

  function KindsToReceiver(ms: seq<ToReceiver>): seq<Kind> {
    if ms == [] then []
    else if ms[0].FromSender? then [ms[0].kind] + KindsToReceiver(ms[1..])
    else KindsToReceiver(ms[1..])
  }

  function KindsToSender(ms: seq<ToSender>): seq<Kind> {
    if ms == [] then [] else [ms[0].kind] + KindsToSender(ms[1..])
  }

  /** Whether the other end is paused after all these control packets, if it was before them as paused says. */
  function Heard(kinds: seq<Kind>, paused: bool): bool {
    if kinds == [] then paused
    else match kinds[|kinds| - 1]
      case Pause => true
      case Accept => false
      case _ => Heard(kinds[..|kinds| - 1], paused)
  }

  /** The first of them is heard. */
  lemma {:induction false} HeardFirst(kinds: seq<Kind>, paused: bool)
    requires kinds != []
    ensures Heard(kinds, paused) == Heard(kinds[1..], Heard(kinds[..1], paused))
    decreases |kinds|
  {
    var n := |kinds| - 1;
    if n > 0 {
      HeardFirst(kinds[..n], paused);
      assert kinds[1..][..n - 1] == kinds[..n][1..] && kinds[..n][..1] == kinds[..1];
    } else {
      assert kinds[..1] == kinds && kinds[1..] == [];
    }
  }

  lemma {:induction false} HeardMore(kinds: seq<Kind>, k: Kind, paused: bool)
    ensures Heard(kinds + [k], paused) == if k == Pause then true else if k == Accept then false else Heard(kinds, paused)
  {
    assert (kinds + [k])[..|kinds|] == kinds;
  }

  lemma {:induction false} ToReceiverMore(ms: seq<ToReceiver>, m: ToReceiver)
    ensures KindsToReceiver(ms + [m]) == if m.FromSender? then KindsToReceiver(ms) + [m.kind] else KindsToReceiver(ms)
  {
    if ms == [] {
      assert ms + [m] == [m] && [m][1..] == [];
    } else {
      assert (ms + [m])[1..] == ms[1..] + [m];
      ToReceiverMore(ms[1..], m);
    }
  }

  lemma {:induction false} ToSenderMore(ms: seq<ToSender>, m: ToSender)
    ensures KindsToSender(ms + [m]) == KindsToSender(ms) + [m.kind]
  {
    if ms == [] {
      assert ms + [m] == [m] && [m][1..] == [];
    } else {
      assert (ms + [m])[1..] == ms[1..] + [m];
      ToSenderMore(ms[1..], m);
    }
  }

  /** No pause comes before the transfer has been accepted. */
  ghost predicate AcceptFirst(kinds: seq<Kind>) {
    kinds == [] || kinds[0] == Accept || (kinds[0] != Pause && AcceptFirst(kinds[1..]))
  }

  lemma {:induction false} AcceptFirstMore(kinds: seq<Kind>, k: Kind)
    requires AcceptFirst(kinds) && (k != Pause || Accept in kinds)
    ensures AcceptFirst(kinds + [k])
    decreases |kinds|
  {
    if kinds == [] {
      assert kinds + [k] == [k] && [k][1..] == [];
    } else if kinds[0] != Accept {
      assert (kinds + [k])[1..] == kinds[1..] + [k];
      AcceptFirstMore(kinds[1..], k);
    }
  }

  lemma {:induction false} StartsAccepted(ms: seq<ToSender>, pos: uint64, size: uint64)
    requires Foresee(ms, pos, size).Starts?
    ensures Accept in KindsToSender(ms)
    decreases |ms|
  {
    if ms[0].kind == Pause || ms[0].kind == Seek {
      StartsAccepted(ms[1..], if ms[0].kind == Seek && ms[0].position < size then ms[0].position else pos, size);
    }
  }

  // ---------- The invariant ----------

  /** What the receiving end knows of the pauses of the sending client, with what is on its way to it, is true.
      "== true" keeps the verifier from taking a predicate apart wherever it is to be shown. */
  ghost predicate SenderHeard(w: World) {
    (w.sender.status != Idle && (w.outcome == Unopened || w.outcome == Open) ==>
       && (w.sender.status == NotAccepted ==> KindsToReceiver(w.toReceiver) == [] && !w.sender.pausedUs)
       && (w.outcome == Open ==> w.sender.pausedUs == Heard(KindsToReceiver(w.toReceiver), w.receiver.pausedOther))) == true
  }

  /** And what the sending end knows of the pauses of the receiving client, as long as it has not sent everything:
      then it hears of no pause any more. */
  ghost predicate ReceiverHeard(w: World) {
    ((w.outcome == Unopened && w.sender.status == NotAccepted ==> !w.sender.pausedOther)
     && (w.outcome == Open && (w.sender.status == NotAccepted || w.sender.status == Transferring) ==>
           var kinds := KindsToSender(w.toSender);
           && w.receiver.pausedUs == Heard(kinds, w.sender.pausedOther)
           && (w.sender.status == NotAccepted ==> !w.sender.pausedOther && AcceptFirst(kinds))
           && (w.receiver.status == NotAccepted ==> !w.receiver.pausedUs && Pause !in kinds))) == true
  }

  // ---------- Every step keeps it ----------

  lemma {:induction false} OpenEnds(w: World, size: uint64)
    requires Inv(w, size) && w.outcome == Open
    ensures w.receiver.status == NotAccepted || w.receiver.status == Transferring
    ensures w.receiver.status == NotAccepted ==> w.sender.status == NotAccepted || w.sender.status == Idle
    ensures w.receiver.status == Transferring && w.sender.status == NotAccepted ==> Accept in KindsToSender(w.toSender)
  {
    assert OpenOk(w, size);
    if w.receiver.status == Transferring && w.sender.status == NotAccepted {
      StartsAccepted(w.toSender, w.sender.transferred, size);
    }
  }

  lemma {:induction false} UnopenedEnds(w: World, size: uint64)
    requires Inv(w, size) && w.outcome == Unopened
    ensures w.sender.status == NotAccepted || w.sender.status == Idle
    ensures w.receiver.status == Idle && w.toSender == [] && w.toReceiver != [] && w.toReceiver[0] == Request(size)
  {
    assert UnopenedOk(w, size);
  }

  /** A control packet does to a slot that is transferring what is to be heard of it. */
  lemma {:induction false} Hears(t: Transfer, toSender: bool, kinds: seq<Kind>, position: uint64)
    requires kinds != [] && (t.status == Transferring || (t.status == NotAccepted && kinds[0] != Pause && !t.pausedOther))
    ensures var t' := HandleControl(t, toSender, kinds[0], position).0;
      && Heard(kinds, t.pausedOther) == Heard(kinds[1..], t'.pausedOther) && t'.pausedUs == t.pausedUs
      && (t.status == NotAccepted ==> !t'.pausedOther)
      && (t'.status == t.status || t'.status == Idle || (t'.status == Transferring && toSender && kinds[0] == Accept))
      && (t'.status == NotAccepted && toSender ==> kinds[0] != Accept)
  {
    HeardFirst(kinds, t.pausedOther);
    assert kinds[..1] == [] + [kinds[0]];
    HeardMore([], kinds[0], t.pausedOther);
  }

  lemma {:induction false} DataLeavesPauses(t: Transfer, length: nat)
    ensures var t' := HandleData(t, length);
      t'.pausedUs == t.pausedUs && t'.pausedOther == t.pausedOther && (t'.status == t.status || t'.status == Idle)
  {
  }

  /** What a packet does at a receiving end that is open. */
  lemma {:induction false} OpenTakes(w: World, m: ToReceiver, reply: bool)
    requires w.outcome == Open && w.receiver.status != Idle
    ensures var w' := ReceiverTakes(w, m, reply);
      && w'.sender == w.sender && w'.toReceiver == w.toReceiver && w'.toSender == w.toSender
      && (w'.outcome == Open ==> w'.receiver.pausedUs == w.receiver.pausedUs && w'.receiver.status != Idle)
      && (w'.receiver.status == NotAccepted ==> w.receiver.status == NotAccepted)
      && w'.outcome != Unopened
      && (if m.FromSender? then w'.receiver == HandleControl(w.receiver, false, m.kind, 0).0
          else w'.receiver.pausedOther == w.receiver.pausedOther)
      && (!m.FromSender? && w'.outcome == Open ==> w'.receiver.status == w.receiver.status)
  {
    if m.Data? {
      DataLeavesPauses(w.receiver, |m.bytes|);
    }
  }

  /** A closed receiving end stays closed. */
  lemma {:induction false} ClosedStays(w: World, size: uint64, reply: bool)
    requires Inv(w, size) && (w.outcome == ClosedByData || w.outcome == ClosedOtherwise) && w.toReceiver != []
    ensures var w' := ReceiverTakes(w.(toReceiver := w.toReceiver[1..]), w.toReceiver[0], reply);
      w'.outcome == w.outcome && w'.sender == w.sender
  {
    assert ClosedOk(w, size) && !w.toReceiver[0].Request?;
  }

  /** The request opens it. */
  lemma {:induction false} RequestOpens(w: World, size: uint64, reply: bool)
    requires Inv(w, size) && w.outcome == Unopened
    ensures w.toReceiver != []
    ensures var w' := ReceiverTakes(w.(toReceiver := w.toReceiver[1..]), w.toReceiver[0], reply);
      && w'.outcome == Open && w'.sender == w.sender && w'.toSender == [] && w'.toReceiver == w.toReceiver[1..]
      && w'.receiver.status == NotAccepted && !w'.receiver.pausedUs && !w'.receiver.pausedOther
  {
    UnopenedEnds(w, size);
  }

  /** A step of the sending end that puts m on the way. */
  lemma {:induction false} SenderHeardMore(w: World, w': World, m: ToReceiver)
    requires SenderHeard(w) && !m.Request?
    requires w' == w.(sender := w'.sender, sent := w'.sent, toSender := w'.toSender, toReceiver := w.toReceiver + [m])
    requires w'.sender.status == Idle
          || (w.sender.status == Transferring && w'.sender.status != NotAccepted && m != FromSender(Kill)
              && w'.sender.pausedUs == if m == FromSender(Pause) then true else if m == FromSender(Accept) then false else w.sender.pausedUs)
    ensures SenderHeard(w')
  {
    ToReceiverMore(w.toReceiver, m);
    if m.FromSender? {
      HeardMore(KindsToReceiver(w.toReceiver), m.kind, w.receiver.pausedOther);
    }
  }

  lemma {:induction false} SenderHeardStep(w: World, size: uint64, step: Step)
    requires Inv(w, size) && SenderHeard(w) && Possible(w, step)
    ensures SenderHeard(Do(w, step))
  {
    match step
    case SenderControl(kind) => SenderActs(w, kind);
    case SenderData(position, bytes) => SenderSends(w, position, bytes);
    case SenderChunk => SenderAsks(w);
    case SenderDone => SenderStops(w, Do(w, step));
    case SenderBreak => SenderStops(w, Do(w, step));
    case ReceiverControl(kind) => ReceiverActsThere(w, kind);
    case ReceiverSeek(position) => ReceiverSeeksThere(w, position);
    case ReceiverBreak => ReceiverBreaksThere(w);
    case ReceiverGets(reply) => SenderHeardTaken(w, size, reply, Do(w, step));
    case SenderGets(reply) => SenderHeardHearing(w, reply, Do(w, step));
  }

  lemma {:induction false} ReceiverActsThere(w: World, kind: Kind)
    requires SenderHeard(w) && Possible(w, ReceiverControl(kind))
    ensures SenderHeard(Do(w, ReceiverControl(kind)))
  {
    SenderHeardElsewhere(w, Do(w, ReceiverControl(kind)));
  }

  lemma {:induction false} ReceiverSeeksThere(w: World, position: uint64)
    requires SenderHeard(w) && Possible(w, ReceiverSeek(position))
    ensures SenderHeard(Do(w, ReceiverSeek(position)))
  {
    SenderHeardElsewhere(w, Do(w, ReceiverSeek(position)));
  }

  lemma {:induction false} ReceiverBreaksThere(w: World)
    requires SenderHeard(w)
    ensures SenderHeard(Do(w, ReceiverBreak))
  {
    SenderHeardElsewhere(w, Do(w, ReceiverBreak));
  }

  lemma {:induction false} SenderSends(w: World, position: uint64, bytes: seq<byte>)
    requires SenderHeard(w) && Possible(w, SenderData(position, bytes))
    ensures SenderHeard(Do(w, SenderData(position, bytes)))
  {
    SenderHeardMore(w, Do(w, SenderData(position, bytes)), Data(bytes));
  }

  lemma {:induction false} SenderStops(w: World, w': World)
    requires w' == w.(sender := w.sender.(status := Idle))
    ensures SenderHeard(w')
  {
  }

  lemma {:induction false} SenderActs(w: World, kind: Kind)
    requires SenderHeard(w) && Possible(w, SenderControl(kind))
    ensures SenderHeard(Do(w, SenderControl(kind)))
  {
    SenderHeardMore(w, Do(w, SenderControl(kind)), FromSender(kind));
  }

  lemma {:induction false} SenderAsks(w: World)
    requires SenderHeard(w) && Possible(w, SenderChunk)
    ensures SenderHeard(Do(w, SenderChunk))
  {
  }

  /** A step that leaves the sending end, the packets from it, and what is known of its pauses. */
  lemma {:induction false} SenderHeardElsewhere(w: World, w': World)
    requires SenderHeard(w) && w'.sender == w.sender && w'.toReceiver == w.toReceiver
    requires w'.outcome == w.outcome || w'.outcome == ClosedOtherwise
    requires w'.receiver.pausedOther == w.receiver.pausedOther
    ensures SenderHeard(w')
  {
  }

  lemma {:induction false} SenderHeardHearing(w: World, reply: bool, w': World)
    requires SenderHeard(w) && w.toSender != [] && w' == SenderTakes(w.(toSender := w.toSender[1..]), w.toSender[0], reply)
    ensures SenderHeard(w')
  {
    if w.sender.status == Idle && reply {
      SenderHeardMore(w, w', FromSender(Kill));
    }
  }

  lemma {:induction false} SenderHeardTaken(w: World, size: uint64, reply: bool, w': World)
    requires Inv(w, size) && SenderHeard(w) && w.toReceiver != []
    requires w' == ReceiverTakes(w.(toReceiver := w.toReceiver[1..]), w.toReceiver[0], reply)
    ensures SenderHeard(w')
  {
    if w.outcome == Unopened {
      UnopenedEnds(w, size);
    } else if w.outcome == Open && w.sender.status != Idle {
      OpenEnds(w, size);
      var m, kinds := w.toReceiver[0], KindsToReceiver(w.toReceiver);
      OpenTakes(w.(toReceiver := w.toReceiver[1..]), m, reply);
      if m.FromSender? {
        assert kinds[0] == m.kind && kinds[1..] == KindsToReceiver(w.toReceiver[1..]);
        Hears(w.receiver, false, kinds, 0);
      }
    }
  }

  lemma {:induction false} ReceiverHeardStep(w: World, size: uint64, step: Step)
    requires Inv(w, size) && ReceiverHeard(w) && Possible(w, step)
    ensures ReceiverHeard(Do(w, step))
  {
    match step
    case ReceiverControl(kind) => ReceiverActs(w, size, kind);
    case ReceiverSeek(position) => ReceiverSeeks(w, size, position);
    case ReceiverBreak => ReceiverHeardElsewhere(w, Do(w, step));
    case SenderGets(reply) => ReceiverHeardTaken(w, size, reply, Do(w, step));
    case ReceiverGets(reply) => ReceiverHeardOpened(w, size, reply, Do(w, step));
    case SenderControl(kind) => SenderActsHere(w, kind);
    case SenderData(position, bytes) => SenderSendsHere(w, position, bytes);
    case SenderChunk => SenderAsksHere(w);
    case SenderDone => ReceiverHeardElsewhere(w, Do(w, step));
    case SenderBreak => ReceiverHeardElsewhere(w, Do(w, step));
  }

  /** A step that leaves the packets to the sending end and what is known there of pauses; the receiving end as well,
      unless it closes. */
  lemma {:induction false} ReceiverHeardElsewhere(w: World, w': World)
    requires ReceiverHeard(w) && w'.toSender == w.toSender && w'.sender.pausedOther == w.sender.pausedOther
    requires w'.outcome == w.outcome || w'.outcome == ClosedOtherwise
    requires w'.outcome == Open ==> w'.receiver == w.receiver
    requires w'.sender.status == NotAccepted || w'.sender.status == Transferring ==> w.sender.status == w'.sender.status
    ensures ReceiverHeard(w')
  {
  }

  lemma {:induction false} SenderActsHere(w: World, kind: Kind)
    requires ReceiverHeard(w) && Possible(w, SenderControl(kind))
    ensures ReceiverHeard(Do(w, SenderControl(kind)))
  {
    ReceiverHeardElsewhere(w, Do(w, SenderControl(kind)));
  }

  lemma {:induction false} SenderSendsHere(w: World, position: uint64, bytes: seq<byte>)
    requires ReceiverHeard(w) && Possible(w, SenderData(position, bytes))
    ensures ReceiverHeard(Do(w, SenderData(position, bytes)))
  {
    ReceiverHeardElsewhere(w, Do(w, SenderData(position, bytes)));
  }

  lemma {:induction false} SenderAsksHere(w: World)
    requires ReceiverHeard(w) && Possible(w, SenderChunk)
    ensures ReceiverHeard(Do(w, SenderChunk))
  {
    ReceiverHeardElsewhere(w, Do(w, SenderChunk));
  }

  lemma {:induction false} ReceiverSeeks(w: World, size: uint64, position: uint64)
    requires Inv(w, size) && ReceiverHeard(w) && Possible(w, ReceiverSeek(position))
    ensures ReceiverHeard(Do(w, ReceiverSeek(position)))
  {
    ReceiverHeardMore(w, size, Do(w, ReceiverSeek(position)), FromReceiver(Seek, position));
  }

  lemma {:induction false} ReceiverActs(w: World, size: uint64, kind: Kind)
    requires Inv(w, size) && ReceiverHeard(w) && Possible(w, ReceiverControl(kind))
    ensures ReceiverHeard(Do(w, ReceiverControl(kind)))
  {
    if w.outcome == Unopened {
      UnopenedEnds(w, size);
    } else if w.outcome == Open {
      OpenEnds(w, size);
      ReceiverHeardMore(w, size, Do(w, ReceiverControl(kind)), FromReceiver(kind, 0));
    }
  }

  /** One more packet from the receiving end, which is still there. */
  lemma {:induction false} ReceiverHeardMore(w: World, size: uint64, w': World, m: ToSender)
    requires Inv(w, size) && ReceiverHeard(w) && w.receiver.status != Idle
    requires w' == w.(receiver := w'.receiver, start := w'.start, outcome := w'.outcome, toSender := w.toSender + [m])
    requires w'.outcome == w.outcome || w'.outcome == ClosedOtherwise
    requires match m.kind
      case Kill => w'.outcome != Open
      case Seek => w.receiver.status == w'.receiver.status && w'.receiver.pausedUs == w.receiver.pausedUs
      case Pause => w.receiver.status == w'.receiver.status == Transferring && w'.receiver.pausedUs
      case Accept => w'.receiver.status == Transferring && !w'.receiver.pausedUs
    ensures ReceiverHeard(w')
  {
    if w.outcome == Open && w'.outcome == Open {
      var kinds := KindsToSender(w.toSender);
      OpenEnds(w, size);
      ToSenderMore(w.toSender, m);
      HeardMore(kinds, m.kind, w.sender.pausedOther);
      if w.sender.status == NotAccepted {
        AcceptFirstMore(kinds, m.kind);
      }
    }
  }

  lemma {:induction false} ReceiverHeardTaken(w: World, size: uint64, reply: bool, w': World)
    requires Inv(w, size) && ReceiverHeard(w) && w.toSender != []
    requires w' == SenderTakes(w.(toSender := w.toSender[1..]), w.toSender[0], reply)
    ensures ReceiverHeard(w')
  {
    if w.outcome == Unopened {
      UnopenedEnds(w, size);
    } else if w.outcome == Open && (w.sender.status == NotAccepted || w.sender.status == Transferring) {
      OpenEnds(w, size);
      var m, kinds := w.toSender[0], KindsToSender(w.toSender);
      assert kinds[0] == m.kind && kinds[1..] == KindsToSender(w.toSender[1..]);
      Hears(w.sender, true, kinds, m.position);
    }
  }

  lemma {:induction false} ReceiverHeardOpened(w: World, size: uint64, reply: bool, w': World)
    requires Inv(w, size) && ReceiverHeard(w) && w.toReceiver != []
    requires w' == ReceiverTakes(w.(toReceiver := w.toReceiver[1..]), w.toReceiver[0], reply)
    ensures ReceiverHeard(w')
  {
    if w.outcome == Unopened {
      UnopenedEnds(w, size);
      RequestOpens(w, size, reply);
    } else if w.outcome == Open {
      OpenEnds(w, size);
      OpenTakes(w.(toReceiver := w.toReceiver[1..]), w.toReceiver[0], reply);
      ReceiverHeardSame(w, w');
    } else {
      ClosedStays(w, size, reply);
    }
  }

  lemma {:induction false} ReceiverHeardSame(w: World, w': World)
    requires ReceiverHeard(w) && w.outcome == Open && w'.outcome != Unopened
    requires w'.outcome == Open ==> w'.sender == w.sender && w'.toSender == w.toSender && w'.receiver.pausedUs == w.receiver.pausedUs
    requires w'.receiver.status == NotAccepted ==> w.receiver.status == NotAccepted
    ensures ReceiverHeard(w')
  {
  }

  // ---------- Runs ----------

  lemma {:induction false} RunHeard(w: World, size: uint64, steps: seq<Step>)
    requires Inv(w, size) && SenderHeard(w) && ReceiverHeard(w) && IsRun(w, steps)
    ensures Inv(After(w, steps), size) && SenderHeard(After(w, steps)) && ReceiverHeard(After(w, steps))
    decreases |steps|
  {
    if steps != [] {
      StepKeeps(w, size, steps[0]);
      SenderHeardStep(w, size, steps[0]);
      ReceiverHeardStep(w, size, steps[0]);
      RunHeard(Do(w, steps[0]), size, steps[1..]);
    }
  }

  /** In every run, as long as data is being sent and the receiving end is open: each end is paused by its client
      exactly if the other end knows, or will when the control packets under way have arrived. */
  lemma {:induction false} PausesKnown(size: uint64, steps: seq<Step>)
    requires IsRun(Opened(size), steps)
    ensures var w := After(Opened(size), steps);
      w.outcome == Open && w.sender.status == Transferring ==>
        && w.receiver.status == Transferring
        && w.sender.pausedUs == Heard(KindsToReceiver(w.toReceiver), w.receiver.pausedOther)
        && w.receiver.pausedUs == Heard(KindsToSender(w.toSender), w.sender.pausedOther)
  {
    OpenedOk(size);
    RunHeard(Opened(size), size, steps);
    if After(Opened(size), steps).outcome == Open {
      OpenEnds(After(Opened(size), steps), size);
    }
  }

  /** So when none is under way, the two ends agree. */
  lemma {:induction false} PausesAgree(size: uint64, steps: seq<Step>)
    requires IsRun(Opened(size), steps)
    ensures var w := After(Opened(size), steps);
      w.outcome == Open && w.sender.status == Transferring
      && KindsToReceiver(w.toReceiver) == [] && KindsToSender(w.toSender) == [] ==>
        && w.sender.pausedUs == w.receiver.pausedOther && w.receiver.pausedUs == w.sender.pausedOther
        && (Going(w.sender) <==> Going(w.receiver))
  {
    PausesKnown(size, steps);
  }

  /** A transfer that the sending client has paused asks it for nothing more until it resumes it. */
  lemma {:induction false} PausedAsksNothing(w: World, steps: seq<Step>)
    requires Possible(w, SenderControl(Pause)) && IsRun(Do(w, SenderControl(Pause)), steps)
    requires SenderControl(Accept) !in steps
    ensures !Possible(After(Do(w, SenderControl(Pause)), steps), SenderChunk)
    ensures After(Do(w, SenderControl(Pause)), steps).chunks == w.chunks
  {
    StaysPaused(Do(w, SenderControl(Pause)), steps);
  }

  lemma {:induction false} StaysPaused(w: World, steps: seq<Step>)
    requires w.sender.pausedUs && IsRun(w, steps) && SenderControl(Accept) !in steps
    ensures After(w, steps).sender.pausedUs && After(w, steps).chunks == w.chunks
    decreases |steps|
  {
    if steps != [] {
      assert steps[0] != SenderControl(Accept);
      PausedStep(w, steps[0]);
      StaysPaused(Do(w, steps[0]), steps[1..]);
    }
  }

  lemma {:induction false} PausedStep(w: World, step: Step)
    requires w.sender.pausedUs && Possible(w, step) && step != SenderControl(Accept)
    ensures Do(w, step).sender.pausedUs && Do(w, step).chunks == w.chunks
  {
  }

  /** And when both clients let it go on, it does, as long as there is something left to ask for. */
  lemma {:induction false} ResumedAsks(w: World)
    requires Possible(w, SenderControl(Accept)) && !w.sender.pausedOther && w.sender.requested < w.sender.size
    ensures Possible(Do(w, SenderControl(Accept)), SenderChunk)
  {
  }
}
