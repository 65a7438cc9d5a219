/** Replay protection for lossy group packets (lossy_packet_not_received of group.c): a bitmap of 256 entries
    over message numbers that wrap at 2^16. */
module LossyWindow {
  import opened Bytes

  const MAX_LOSSY_COUNT: nat := 256
  const WRAP: nat := 0x1_0000

  /** What a peer entry remembers about the lossy messages of its peer. */
  datatype Window = Window(bottom: uint16, top: uint16, received: seq<bool>)

  datatype Verdict = Accepted | AlreadyReceived | Failure

  /** Conversion to uint16_t. */
  function Wrap(n: int): (m: uint16) {
    n % WRAP
  }

  /** How far above bottom the window's number with entry j lies. */
  function Offset(bottom: int, j: int): (d: nat)
    ensures d < MAX_LOSSY_COUNT
  {
    (j - bottom) % MAX_LOSSY_COUNT
  }

  /** The bitmap after the numbers from bottom up to bottom + distance - 1 have left it. */
  function Cleared(received: seq<bool>, bottom: int, distance: nat): (r: seq<bool>)
    ensures |r| == |received|
  {
    seq(|received|, j requires 0 <= j < |received| => received[j] && Offset(bottom, j) >= distance)
  }

  function Mark(received: seq<bool>, number: uint16): Window
    requires |received| == MAX_LOSSY_COUNT
  {
    Window(Wrap(number - MAX_LOSSY_COUNT + 1), number, received[number % MAX_LOSSY_COUNT := true])
  }

  /** lossy_packet_not_received as a function of the entry. */
  function Step(w: Window, number: uint16): (r: (Verdict, Window))
    requires |w.received| == MAX_LOSSY_COUNT
    ensures |r.1.received| == MAX_LOSSY_COUNT
  {
    if w.bottom == w.top then (Accepted, Mark(w.received, number))
    else if Wrap(number - w.bottom) < MAX_LOSSY_COUNT then
      if w.received[number % MAX_LOSSY_COUNT] then (AlreadyReceived, w)
      else (Accepted, w.(received := w.received[number % MAX_LOSSY_COUNT := true]))
    else if Wrap(number - w.bottom) > 0x8000 then (Failure, w)
    else
      var distance := Wrap(number - w.top);
      if distance >= MAX_LOSSY_COUNT then (Accepted, Mark(seq(MAX_LOSSY_COUNT, _ => false), number))
      else (Accepted, Mark(Cleared(w.received, w.bottom, distance), number))
  }

  // ---------- The specification, over numbers that never wrap ----------

  /** seen holds every number accepted so far; the window is the 256 numbers from bottom up. */
  datatype Ideal = Nothing | Seen(bottom: int, seen: set<int>)

  function IdealStep(a: Ideal, n: int): (Verdict, Ideal) {
    match a
    case Nothing => (Accepted, Seen(n - MAX_LOSSY_COUNT + 1, {n}))
    case Seen(bottom, seen) =>
      if n < bottom then (Failure, a)
      else if n in seen then (AlreadyReceived, a)
      else
        var reach := n - MAX_LOSSY_COUNT + 1;
        (Accepted, Seen(if reach > bottom then reach else bottom, seen + {n}))
  }

  /** The sender's numbers stay within half a wrap of the window. */
  predicate InReach(a: Ideal, n: int) {
    a == Nothing || (n - a.bottom <= 0x8000 && a.bottom - n < 0x8000)
  }

  /** The entry stands for a: the window has the same place modulo 2^16, and its bitmap is the set of
      accepted numbers within it. */
  ghost predicate Represents(w: Window, a: Ideal) {
    && |w.received| == MAX_LOSSY_COUNT
    && match a
       case Nothing =>
         w.bottom == w.top && forall j :: 0 <= j < MAX_LOSSY_COUNT ==> !w.received[j]
       case Seen(bottom, seen) =>
         && w.bottom == Wrap(bottom) && w.top == Wrap(bottom + MAX_LOSSY_COUNT - 1)
         && (forall n :: n in seen ==> n < bottom + MAX_LOSSY_COUNT)
         && (forall j :: 0 <= j < MAX_LOSSY_COUNT ==> (w.received[j] <==> Member(bottom, j) in seen))
  }

  /** The number of the window that entry j of the bitmap is about. */
  function Member(bottom: int, j: nat): (n: int)
    requires j < MAX_LOSSY_COUNT
    ensures bottom <= n < bottom + MAX_LOSSY_COUNT && n % MAX_LOSSY_COUNT == j
  {
    MemberAt(bottom, j);
    bottom + Offset(bottom, j)
  }

  lemma {:induction false} MemberAt(bottom: int, j: nat)
    requires j < MAX_LOSSY_COUNT
    ensures (bottom + Offset(bottom, j)) % MAX_LOSSY_COUNT == j
  {
    var q, r := (j - bottom) / MAX_LOSSY_COUNT, Offset(bottom, j);
    assert bottom + r == j - MAX_LOSSY_COUNT * q;
  }

  lemma {:induction false} MemberUnique(bottom: int, n: int)
    requires bottom <= n < bottom + MAX_LOSSY_COUNT
    ensures Member(bottom, n % MAX_LOSSY_COUNT) == n
  {
  }

  /** Differences survive the wrap. */
  lemma {:induction false} WrapDifference(a: int, b: int)
    ensures Wrap(Wrap(a) - Wrap(b)) == Wrap(a - b)
  {
    var qa, qb := a / WRAP, b / WRAP;
    var q, r := (Wrap(a) - Wrap(b)) / WRAP, (Wrap(a) - Wrap(b)) % WRAP;
    assert a - b == (qa - qb + q) * WRAP + r;
  }

  lemma {:induction false} WrapShift(a: int, k: int)
    ensures Wrap(Wrap(a) + k) == Wrap(a + k)
  {
    var q, r := (Wrap(a) + k) / WRAP, (Wrap(a) + k) % WRAP;
    assert a + k == (a / WRAP + q) * WRAP + r;
  }

  lemma {:induction false} SmallWrap(d: int)
    ensures 0 <= d < WRAP ==> Wrap(d) == d
    ensures -0x1_0000 <= d < 0 ==> Wrap(d) == d + WRAP
  {
  }

  lemma {:induction false} WrapIndex(n: int)
    ensures Wrap(n) % MAX_LOSSY_COUNT == n % MAX_LOSSY_COUNT
  {
    assert n == WRAP * (n / WRAP) + Wrap(n);
    assert n == MAX_LOSSY_COUNT * (256 * (n / WRAP)) + Wrap(n);
  }

  lemma {:induction false} MarkFirst(n: int, j: nat)
    requires j < MAX_LOSSY_COUNT
    ensures j == n % MAX_LOSSY_COUNT <==> Member(n - MAX_LOSSY_COUNT + 1, j) == n
  {
    MemberUnique(n - MAX_LOSSY_COUNT + 1, n);
  }

  /** Moving the window up by distance places keeps the entries of the numbers that stay, and gives the
      other entries to numbers above the old window. */
  lemma {:induction false} ShiftMember(bottom: int, distance: nat, j: nat)
    requires j < MAX_LOSSY_COUNT && distance < MAX_LOSSY_COUNT
    ensures Member(bottom + distance, j) ==
      Member(bottom, j) + if Offset(bottom, j) >= distance then 0 else MAX_LOSSY_COUNT
  {
    var k := Member(bottom, j) + if Offset(bottom, j) >= distance then 0 else MAX_LOSSY_COUNT;
    MemberUnique(bottom + distance, k);
  }

  lemma {:induction false} StepInside(w: Window, a: Ideal, n: int)
    requires Represents(w, a) && a.Seen? && a.bottom <= n < a.bottom + MAX_LOSSY_COUNT
    ensures var (v, w') := Step(w, Wrap(n)); var (v', a') := IdealStep(a, n); v == v' && Represents(w', a')
  {
    WrapDifference(n, a.bottom);
    SmallWrap(n - a.bottom);
    WrapIndex(n);
    MemberUnique(a.bottom, n);
    TopAboveBottom(a.bottom);
  }

  lemma {:induction false} TopAboveBottom(bottom: int)
    ensures Wrap(bottom) != Wrap(bottom + MAX_LOSSY_COUNT - 1)
  {
    WrapDifference(bottom + MAX_LOSSY_COUNT - 1, bottom);
  }

  /** What the 16-bit arithmetic comes to for a number above the window. */
  lemma {:induction false} DistancesAbove(bottom: int, n: int)
    requires bottom + MAX_LOSSY_COUNT <= n < bottom + WRAP
    ensures Wrap(Wrap(n) - Wrap(bottom)) == n - bottom
    ensures Wrap(Wrap(n) - Wrap(bottom + MAX_LOSSY_COUNT - 1)) == n - (bottom + MAX_LOSSY_COUNT - 1)
    ensures Wrap(Wrap(n) - MAX_LOSSY_COUNT + 1) == Wrap(n - MAX_LOSSY_COUNT + 1)
    ensures Wrap(n) % MAX_LOSSY_COUNT == n % MAX_LOSSY_COUNT
    ensures Wrap(bottom) != Wrap(bottom + MAX_LOSSY_COUNT - 1)
  {
    var top := bottom + MAX_LOSSY_COUNT - 1;
    WrapDifference(n, bottom);
    SmallWrap(n - bottom);
    WrapDifference(n, top);
    SmallWrap(n - top);
    WrapIndex(n);
    TopAboveBottom(bottom);
    WrapShift(n, -255);
  }

  lemma {:induction false} StepAbove(w: Window, a: Ideal, n: int)
    requires Represents(w, a) && a.Seen? && a.bottom + MAX_LOSSY_COUNT <= n <= a.bottom + 0x8000
    ensures var (v, w') := Step(w, Wrap(n)); var (v', a') := IdealStep(a, n); v == v' && Represents(w', a')
  {
    DistancesAbove(a.bottom, n);
    var distance := n - (a.bottom + MAX_LOSSY_COUNT - 1);
    var w' := Step(w, Wrap(n)).1;
    forall j | 0 <= j < MAX_LOSSY_COUNT
      ensures w'.received[j] <==> Member(n - MAX_LOSSY_COUNT + 1, j) in a.seen + {n}
    {
      MarkFirst(n, j);
      if distance < MAX_LOSSY_COUNT {
        ShiftMember(a.bottom, distance, j);
        ClearedAt(a.bottom, j);
      }
    }
  }

  lemma {:induction false} ClearedAt(bottom: int, j: nat)
    requires j < MAX_LOSSY_COUNT
    ensures Offset(Wrap(bottom), j) == Offset(bottom, j)
  {
    assert bottom == WRAP * (bottom / WRAP) + Wrap(bottom);
    assert j - Wrap(bottom) == j - bottom + MAX_LOSSY_COUNT * (256 * (bottom / WRAP));
  }

  /** The 16-bit bitmap decides exactly as the unbounded window does, and keeps standing for it. */
  lemma {:induction false} StepRefines(w: Window, a: Ideal, n: int)
    requires Represents(w, a) && InReach(a, n)
    ensures var (v, w') := Step(w, Wrap(n)); var (v', a') := IdealStep(a, n); v == v' && Represents(w', a')
  {
    match a {
      case Nothing =>
        WrapIndex(n);
        WrapShift(n, -255);
        forall j | 0 <= j < MAX_LOSSY_COUNT
          ensures Step(w, Wrap(n)).1.received[j] <==> Member(n - MAX_LOSSY_COUNT + 1, j) in {n}
        {
          MarkFirst(n, j);
        }
      case Seen(bottom, seen) =>
        if n < bottom {
          WrapDifference(n, bottom);
          SmallWrap(n - bottom);
          TopAboveBottom(bottom);
        } else if n < bottom + MAX_LOSSY_COUNT {
          StepInside(w, a, n);
        } else {
          StepAbove(w, a, n);
        }
    }
  }

  // ---------- Runs ----------

  /** The verdicts on a series of numbers as they arrive on the wire. */
  function Verdicts(w: Window, ns: seq<int>): (vs: seq<Verdict>)
    requires |w.received| == MAX_LOSSY_COUNT
    ensures |vs| == |ns|
    decreases |ns|
  {
    if ns == [] then [] else
      var (v, w') := Step(w, Wrap(ns[0]));
      [v] + Verdicts(w', ns[1..])
  }

  ghost predicate AllInReach(a: Ideal, ns: seq<int>)
    decreases |ns|
  {
    ns == [] || (InReach(a, ns[0]) && AllInReach(IdealStep(a, ns[0]).1, ns[1..]))
  }

  function SeenSet(a: Ideal): set<int> {
    if a == Nothing then {} else a.seen
  }

  /** Over any series of arrivals, a number already accepted is never accepted again. */
  lemma {:induction false} NeverAgain(w: Window, a: Ideal, ns: seq<int>, i: nat)
    requires Represents(w, a) && AllInReach(a, ns) && i < |ns| && ns[i] in SeenSet(a)
    ensures Verdicts(w, ns)[i] != Accepted
    decreases |ns|
  {
    StepRefines(w, a, ns[0]);
    if i != 0 {
      NeverAgain(Step(w, Wrap(ns[0])).1, IdealStep(a, ns[0]).1, ns[1..], i - 1);
    }
  }

  /** Each number is accepted at most once, whatever arrives in between. */
  lemma {:induction false} AcceptedOnce(w: Window, a: Ideal, ns: seq<int>, i: nat, j: nat)
    requires Represents(w, a) && AllInReach(a, ns) && i < j < |ns| && ns[i] == ns[j]
    ensures Verdicts(w, ns)[i] != Accepted || Verdicts(w, ns)[j] != Accepted
    decreases |ns|
  {
    StepRefines(w, a, ns[0]);
    var w', a' := Step(w, Wrap(ns[0])).1, IdealStep(a, ns[0]).1;
    if i != 0 {
      AcceptedOnce(w', a', ns[1..], i - 1, j - 1);
    } else if Verdicts(w, ns)[0] == Accepted {
      NeverAgain(w', a', ns[1..], j - 1);
    }
  }

  /** A number that was not accepted before is accepted when it lies in the window or ahead of it. */
  lemma {:induction false} UnseenAccepted(w: Window, a: Ideal, n: int)
    requires Represents(w, a) && InReach(a, n) && a.Seen?
    ensures Step(w, Wrap(n)).0 == Accepted <==> n >= a.bottom && n !in a.seen
    ensures Step(w, Wrap(n)).0 == AlreadyReceived <==> n >= a.bottom && n in a.seen
  {
    StepRefines(w, a, n);
  }

  /** Half a wrap is exactly how far ahead of the window a number may be. */
  lemma {:induction false} ReachIsExact(w: Window, a: Ideal, n: int)
    requires Represents(w, a) && a.Seen?
    requires a.bottom + MAX_LOSSY_COUNT <= n < a.bottom + WRAP
    ensures Step(w, Wrap(n)).0 == Accepted <==> n - a.bottom <= 0x8000
  {
    if n - a.bottom <= 0x8000 {
      StepRefines(w, a, n);
    } else {
      WrapDifference(n, a.bottom);
      SmallWrap(n - a.bottom);
      TopAboveBottom(a.bottom);
    }
  }

  /** And exactly how far behind: a number that has left the window counts as new again, and takes the window back
      to it, when it is half a wrap or more behind. */
  lemma {:induction false} ReachBehindIsExact(w: Window, a: Ideal, n: int)
    requires Represents(w, a) && a.Seen?
    requires a.bottom - WRAP + MAX_LOSSY_COUNT <= n < a.bottom
    ensures Step(w, Wrap(n)).0 == Accepted <==> a.bottom - n >= 0x8000
    ensures Step(w, Wrap(n)).0 == Accepted ==>
      Step(w, Wrap(n)).1.top == Wrap(n) && Step(w, Wrap(n)).1.bottom == Wrap(n - MAX_LOSSY_COUNT + 1)
  {
    WrapDifference(n, a.bottom);
    SmallWrap(n - a.bottom);
    TopAboveBottom(a.bottom);
    WrapShift(n, 1 - MAX_LOSSY_COUNT);
  }

  /** A whole wrap behind, a number is taken for the one in the window that has the same low bits. */
  lemma {:induction false} WrapBehind(w: Window, a: Ideal, n: int)
    requires Represents(w, a) && a.Seen? && a.bottom <= n + WRAP < a.bottom + MAX_LOSSY_COUNT
    ensures Step(w, Wrap(n)).0 == Accepted <==> n + WRAP !in a.seen
  {
    WrapShift(n, WRAP);
    assert Wrap(n + WRAP) == Wrap(n);
    StepRefines(w, a, n + WRAP);
  }

  // ---------- The peer entry ----------

  class PeerEntry {
    var bottomLossyNumber: uint16
    var topLossyNumber: uint16
    const recvLossy: array<bool>

    /** A new peer: memset to zero. */
    constructor ()
      ensures recvLossy.Length == MAX_LOSSY_COUNT && fresh(recvLossy) && Represents(View(), Nothing)
    {
      bottomLossyNumber, topLossyNumber := 0, 0;
      recvLossy := new bool[MAX_LOSSY_COUNT](_ => false);
    }

    ghost function View(): Window
      reads this, recvLossy
    {
      Window(bottomLossyNumber, topLossyNumber, recvLossy[..])
    }

    /** The window now ends with number. */
    method MoveTo(number: uint16)
      requires recvLossy.Length == MAX_LOSSY_COUNT
      modifies this, recvLossy
      ensures View() == Mark(old(recvLossy[..]), number)
    {
      topLossyNumber := number;
      bottomLossyNumber := Wrap(number - MAX_LOSSY_COUNT + 1);
      recvLossy[number % MAX_LOSSY_COUNT] := true;
    }

    /** The entries of the numbers that leave the window. */
    method ClearLeaving(distance: nat)
      requires recvLossy.Length == MAX_LOSSY_COUNT && distance < MAX_LOSSY_COUNT
      modifies recvLossy
      ensures recvLossy[..] == Cleared(old(recvLossy[..]), bottomLossyNumber, distance)
    {
      var bottom: int := bottomLossyNumber;
      var i := bottom;
      while i != bottom + distance
        invariant bottom <= i <= bottom + distance
        invariant forall j :: 0 <= j < MAX_LOSSY_COUNT ==>
            (recvLossy[j] <==> old(recvLossy[j]) && Offset(bottom, j) >= i - bottom)
        decreases bottom + distance - i
      {
        OnlyEntry(bottom, i);
        recvLossy[i % MAX_LOSSY_COUNT] := false;
        i := i + 1;
      }
    }

    /** lossy_packet_not_received. */
    method NotReceived(number: uint16) returns (r: Verdict)
      requires recvLossy.Length == MAX_LOSSY_COUNT
      modifies this, recvLossy
      ensures (r, View()) == Step(old(View()), number)
    {
      if bottomLossyNumber == topLossyNumber {
        MoveTo(number);
        return Accepted;
      }
      if Wrap(number - bottomLossyNumber) < MAX_LOSSY_COUNT {
        if recvLossy[number % MAX_LOSSY_COUNT] {
          return AlreadyReceived;
        }
        recvLossy[number % MAX_LOSSY_COUNT] := true;
        return Accepted;
      }
      if Wrap(number - bottomLossyNumber) > 0x8000 {
        return Failure;
      }
      var topDistance := Wrap(number - topLossyNumber);
      if topDistance >= MAX_LOSSY_COUNT {
        forall j | 0 <= j < MAX_LOSSY_COUNT {
          recvLossy[j] := false;
        }
        assert recvLossy[..] == seq(MAX_LOSSY_COUNT, _ => false);
        MoveTo(number);
        return Accepted;
      }
      ClearLeaving(topDistance);
      MoveTo(number);
      return Accepted;
    }
  }

  /** Of the 256 entries, i and no other has the offset i - bottom. */
  lemma {:induction false} OnlyEntry(bottom: int, i: int)
    requires bottom <= i < bottom + MAX_LOSSY_COUNT
    ensures forall j :: 0 <= j < MAX_LOSSY_COUNT ==>
      (j == i % MAX_LOSSY_COUNT <==> Offset(bottom, j) == i - bottom)
  {
    forall j | 0 <= j < MAX_LOSSY_COUNT
      ensures j == i % MAX_LOSSY_COUNT <==> Offset(bottom, j) == i - bottom
    {
      MemberUnique(bottom, i);
    }
  }
}
