/** The message-passing token ring of grencez_tok5.c. Process i reads the pipe that process i - 1 writes. */
module TokenRing {
  import opened Wrappers

  /** rand() % 5 */
  type Xid = x: int | 0 <= x < 5

  /** pipes[i] is the pipe into process i, oldest message first; started[i] says that process i has sent
      its first value. */
  datatype State = State(xid: seq<Xid>, pipes: seq<seq<Xid>>, started: seq<bool>)

  ghost predicate Shape(s: State) {
    |s.xid| == |s.pipes| == |s.started| >= 1
  }

  function Next(i: nat, n: nat): (j: nat)
    requires i < n
    ensures j < n
  {
    if i + 1 == n then 0 else i + 1
  }

  function Previous(i: nat, n: nat): (j: nat)
    requires i < n
    ensures j < n && Next(j, n) == i
  {
    if i == 0 then n - 1 else i - 1
  }

  /** The guarded actions: what process i sets its value to on reading xpd, if any guard holds. */
  function Action(i: nat, xpd: Xid, xid: Xid): Option<Xid> {
    if i == 0 then
      if xpd == 0 && xid == 0 then Some(1)
      else if xpd == 1 && xid <= 1 then Some(2)
      else if xpd > 1 && xid > 1 then Some(0)
      else None
    else
      if xpd == 0 && xid > 1 then Some(xid / 4)
      else if xpd == 1 && xid != 1 then Some(1)
      else if xpd == 2 && xid <= 1 then Some(2 + xid)
      else if xpd >= 3 && xid <= 1 then Some(4)
      else None
  }

  /** Which messages make a process take which value. It never takes the one that it has. */
  lemma {:induction false} Actions(i: nat, xpd: Xid, xid: Xid)
    ensures var r := Action(i, xpd, xid);
      && r != Some(xid)
      && (i == 0 ==>
            && (r == Some(0) <==> 2 <= xpd && 2 <= xid)
            && (r == Some(1) <==> xpd == xid == 0)
            && (r == Some(2) <==> xpd == 1 && (xid == 0 || xid == 1))
            && r != Some(3) && r != Some(4))
      && (i != 0 ==>
            && (r == Some(0) <==> xpd == 0 && (xid == 2 || xid == 3))
            && (r == Some(1) <==> (xpd == 0 && xid == 4) || (xpd == 1 && xid != 1))
            && (r == Some(2) <==> xpd == 2 && xid == 0)
            && (r == Some(3) <==> xpd == 2 && xid == 1)
            && (r == Some(4) <==> (xpd == 3 || xpd == 4) && (xid == 0 || xid == 1)))
  {
  }

  // ---------- Steps and runs ----------

  datatype Step = Start(i: nat) | Receive(i: nat)

  predicate Enabled(s: State, step: Step)
    requires Shape(s)
  {
    && step.i < |s.xid|
    && match step {
         case Start(i) => !s.started[i]
         case Receive(i) => s.started[i] && s.pipes[i] != []
       }
  }

  function Send(s: State, i: nat, v: Xid): State
    requires Shape(s) && i < |s.xid|
  {
    var j := Next(i, |s.xid|);
    s.(xid := s.xid[i := v], pipes := s.pipes[j := s.pipes[j] + [v]])
  }

  function Do(s: State, step: Step): (s': State)
    requires Shape(s) && Enabled(s, step)
    ensures Shape(s') && |s'.xid| == |s.xid|
  {
    match step
    case Start(i) => Send(s, i, s.xid[i]).(started := s.started[i := true])
    case Receive(i) =>
      var rest := s.(pipes := s.pipes[i := s.pipes[i][1..]]);
      match Action(i, s.pipes[i][0], s.xid[i]) {
        case Some(v) => Send(rest, i, v)
        case None => rest
      }
  }

  /** The step takes a message and sends none. */
  predicate Silent(s: State, step: Step)
    requires Shape(s) && Enabled(s, step)
  {
    step.Receive? && Action(step.i, s.pipes[step.i][0], s.xid[step.i]) == None
  }

  ghost predicate IsRun(s: State, steps: seq<Step>)
    requires Shape(s)
    decreases |steps|
  {
    steps == [] || (Enabled(s, steps[0]) && IsRun(Do(s, steps[0]), steps[1..]))
  }

  ghost function After(s: State, steps: seq<Step>): (s': State)
    requires Shape(s) && IsRun(s, steps)
    ensures Shape(s')
    decreases |steps|
  {
    if steps == [] then s else After(Do(s, steps[0]), steps[1..])
  }

  ghost function SilentSteps(s: State, steps: seq<Step>): nat
    requires Shape(s) && IsRun(s, steps)
    decreases |steps|
  {
    if steps == [] then 0
    else (if Silent(s, steps[0]) then 1 else 0) + SilentSteps(Do(s, steps[0]), steps[1..])
  }

  // ---------- Tokens ----------

  function Unstarted(started: seq<bool>): nat {
    if started == [] then 0 else (if started[0] then 0 else 1) + Unstarted(started[1..])
  }

  function InFlight(pipes: seq<seq<Xid>>): nat {
    if pipes == [] then 0 else |pipes[0]| + InFlight(pipes[1..])
  }

  /** Messages under way, counting the first message of a process that has yet to send it. */
  function Tokens(s: State): nat {
    InFlight(s.pipes) + Unstarted(s.started)
  }

  lemma {:induction false} InFlightUpdate(pipes: seq<seq<Xid>>, i: nat, p: seq<Xid>)
    requires i < |pipes|
    ensures InFlight(pipes[i := p]) == InFlight(pipes) - |pipes[i]| + |p|
  {
    if i != 0 {
      assert pipes[i := p][1..] == pipes[1..][i - 1 := p];
      InFlightUpdate(pipes[1..], i - 1, p);
    }
  }

  lemma {:induction false} UnstartedUpdate(started: seq<bool>, i: nat)
    requires i < |started| && !started[i]
    ensures Unstarted(started[i := true]) == Unstarted(started) - 1
  {
    if i != 0 {
      assert started[i := true][1..] == started[1..][i - 1 := true];
      UnstartedUpdate(started[1..], i - 1);
    }
  }

  lemma {:induction false} SomethingInFlight(pipes: seq<seq<Xid>>, i: nat)
    requires i < |pipes| && pipes[i] != []
    ensures InFlight(pipes) > 0
  {
    if i != 0 {
      SomethingInFlight(pipes[1..], i - 1);
    }
  }

  lemma {:induction false} SomethingUnstarted(started: seq<bool>, i: nat)
    requires i < |started| && !started[i]
    ensures Unstarted(started) > 0
  {
    if i != 0 {
      SomethingUnstarted(started[1..], i - 1);
    }
  }

  /** A step loses one token if it is silent and none otherwise. */
  lemma {:induction false} StepTokens(s: State, step: Step)
    requires Shape(s) && Enabled(s, step)
    ensures Tokens(Do(s, step)) == Tokens(s) - (if Silent(s, step) then 1 else 0)
  {
    var n := |s.xid|;
    match step {
      case Start(i) =>
        UnstartedUpdate(s.started, i);
        InFlightUpdate(s.pipes, Next(i, n), s.pipes[Next(i, n)] + [s.xid[i]]);
      case Receive(i) =>
        InFlightUpdate(s.pipes, i, s.pipes[i][1..]);
        var pipes := s.pipes[i := s.pipes[i][1..]];
        match Action(i, s.pipes[i][0], s.xid[i]) {
          case Some(v) => InFlightUpdate(pipes, Next(i, n), pipes[Next(i, n)] + [v]);
          case None =>
        }
    }
  }

  // ---------- The invariant ----------

  /** What process i knows of its predecessor: the newest message on the way is the predecessor's value, and
      when nothing is on the way, process i has nothing to do about that value. */
  ghost predicate UpToDate(s: State, i: nat)
    requires Shape(s) && i < |s.xid|
  {
    var p, pipe := Previous(i, |s.xid|), s.pipes[i];
    if !s.started[p] then pipe == []
    else if pipe != [] then pipe[|pipe| - 1] == s.xid[p]
    else s.started[i] && Action(i, s.xid[p], s.xid[i]) == None
  }

  ghost predicate Consistent(s: State) {
    Shape(s) && forall i :: 0 <= i < |s.xid| ==> UpToDate(s, i)
  }

  /** Where every run begins: nothing sent, and any values. */
  ghost predicate Initial(s: State) {
    && Shape(s)
    && (forall i :: 0 <= i < |s.xid| ==> s.pipes[i] == [])
    && (forall i :: 0 <= i < |s.xid| ==> !s.started[i])
  }

  /** An action leaves nothing to do about the value it was taken on. */
  lemma {:induction false} ActionSettles(i: nat, xpd: Xid, xid: Xid)
    requires Action(i, xpd, xid).Some?
    ensures Action(i, xpd, Action(i, xpd, xid).value) == None
  {
  }

  lemma {:induction false} StepKeepsUpToDate(s: State, step: Step, k: nat)
    requires Consistent(s) && Enabled(s, step) && k < |s.xid|
    ensures UpToDate(Do(s, step), k)
  {
    var n, i := |s.xid|, step.i;
    var p := Previous(k, n);
    assert UpToDate(s, k);
    assert k == Next(i, n) <==> p == i;
    if step.Receive? {
      var v := s.pipes[i][0];
      if Action(i, v, s.xid[i]).Some? {
        ActionSettles(i, v, s.xid[i]);
      }
    }
  }

  lemma {:induction false} StepConsistent(s: State, step: Step)
    requires Consistent(s) && Enabled(s, step)
    ensures Consistent(Do(s, step))
  {
    forall k | 0 <= k < |s.xid| ensures UpToDate(Do(s, step), k) {
      StepKeepsUpToDate(s, step, k);
    }
  }

  /** The values of processes 0 to i when each of 1 to i has nothing to do about its predecessor: they all
      stay on the side of 1 on which process 0 is. */
  lemma {:induction false} Settled(s: State, i: nat)
    requires Shape(s) && i < |s.xid|
    requires forall k :: 1 <= k <= i ==> Action(k, s.xid[k - 1], s.xid[k]) == None
    ensures s.xid[0] > 1 <==> s.xid[i] > 1
    ensures s.xid[0] == 1 ==> s.xid[i] == 1
  {
    if i != 0 {
      Settled(s, i - 1);
    }
  }

  /** The processes cannot all be disabled at once. */
  lemma {:induction false} SomeoneEnabled(s: State)
    requires Shape(s)
    ensures exists i :: 0 <= i < |s.xid| && Action(i, s.xid[Previous(i, |s.xid|)], s.xid[i]) != None
  {
    var n := |s.xid|;
    if forall i :: 0 <= i < n ==> Action(i, s.xid[Previous(i, n)], s.xid[i]) == None {
      forall k | 1 <= k <= n - 1 ensures Action(k, s.xid[k - 1], s.xid[k]) == None {
        assert Previous(k, n) == k - 1;
      }
      assert Previous(0, n) == n - 1;
      assert Action(0, s.xid[Previous(0, n)], s.xid[0]) == None;
      Settled(s, n - 1);
      assert false;
    }
  }

  /** So a consistent ring always has a token. */
  lemma {:induction false} TokenExists(s: State)
    requires Consistent(s)
    ensures Tokens(s) >= 1
  {
    SomeoneEnabled(s);
    var n := |s.xid|;
    var i :| 0 <= i < n && Action(i, s.xid[Previous(i, n)], s.xid[i]) != None;
    assert UpToDate(s, i);
    if !s.started[Previous(i, n)] {
      SomethingUnstarted(s.started, Previous(i, n));
    } else {
      SomethingInFlight(s.pipes, i);
    }
  }

  lemma {:induction false} InitialConsistent(s: State)
    requires Initial(s)
    ensures Consistent(s)
  {
  }

  /** Every run, from every choice of values: the tokens that are gone are exactly the silent steps, and the
      last token is never lost. */
  lemma {:induction false} RunTokens(s: State, steps: seq<Step>)
    requires Consistent(s) && IsRun(s, steps)
    ensures Consistent(After(s, steps))
    ensures 1 <= Tokens(After(s, steps)) == Tokens(s) - SilentSteps(s, steps)
    decreases |steps|
  {
    if steps == [] {
      TokenExists(s);
    } else {
      StepConsistent(s, steps[0]);
      StepTokens(s, steps[0]);
      RunTokens(Do(s, steps[0]), steps[1..]);
    }
  }

  /** A single token stays single: every message that is read from then on is passed on. */
  lemma {:induction false} SingleTokenForever(s: State, steps: seq<Step>)
    requires Consistent(s) && IsRun(s, steps) && Tokens(s) == 1
    ensures Tokens(After(s, steps)) == 1 && SilentSteps(s, steps) == 0
  {
    RunTokens(s, steps);
  }

  /** The ring can always go on. */
  lemma {:induction false} NeverStuck(s: State, steps: seq<Step>)
    requires Initial(s) && IsRun(s, steps)
    ensures exists step :: Enabled(After(s, steps), step)
    ensures SilentSteps(s, steps) < |s.xid|
  {
    InitialConsistent(s);
    RunTokens(s, steps);
    InitialTokens(s.pipes, s.started);
    var t := After(s, steps);
    if i :| 0 <= i < |t.xid| && !t.started[i] {
      assert Enabled(t, Start(i));
    } else {
      NoneUnstarted(t.started);
      var i := FindInFlight(t.pipes);
      assert Enabled(t, Receive(i));
    }
  }

  lemma {:induction false} NoneUnstarted(started: seq<bool>)
    requires forall i :: 0 <= i < |started| ==> started[i]
    ensures Unstarted(started) == 0
  {
    if started != [] {
      NoneUnstarted(started[1..]);
    }
  }

  lemma {:induction false} FindInFlight(pipes: seq<seq<Xid>>) returns (i: nat)
    requires InFlight(pipes) > 0
    ensures i < |pipes| && pipes[i] != []
  {
    if pipes[0] != [] {
      i := 0;
    } else {
      i := FindInFlight(pipes[1..]);
      i := i + 1;
    }
  }

  lemma {:induction false} InitialTokens(pipes: seq<seq<Xid>>, started: seq<bool>)
    requires |pipes| == |started|
    requires forall i :: 0 <= i < |pipes| ==> pipes[i] == [] && !started[i]
    ensures InFlight(pipes) + Unstarted(started) == |pipes|
  {
    if pipes != [] {
      InitialTokens(pipes[1..], started[1..]);
    }
  }

  // ---------- The program ----------

  /** The processes and their pipes, updated in place. */
  class Ring {
    const xid: array<Xid>
    const pipes: array<seq<Xid>>
    const started: array<bool>

    constructor (initial: seq<Xid>)
      requires |initial| >= 1
      ensures Valid() && Initial(View()) && View().xid == initial
      ensures fresh(xid) && fresh(pipes) && fresh(started)
    {
      xid := new Xid[|initial|](i requires 0 <= i < |initial| => initial[i]);
      pipes := new seq<Xid>[|initial|](_ => []);
      started := new bool[|initial|](_ => false);
      new;
      assert xid[..] == initial;
    }

    ghost function View(): State
      reads this, xid, pipes, started
    {
      State(xid[..], pipes[..], started[..])
    }

    ghost predicate Valid()
      reads this, xid, pipes, started
    {
      xid.Length == pipes.Length == started.Length >= 1 && Consistent(View())
    }

    /** SendSc: write the value of process i to the pipe into the next process. */
    method SendValue(i: nat)
      requires xid.Length == pipes.Length == started.Length && i < xid.Length
      modifies pipes
      ensures var j := Next(i, xid.Length); pipes[..] == old(pipes[..])[j := old(pipes[j]) + [xid[i]]]
    {
      var j := Next(i, xid.Length);
      pipes[j] := pipes[j] + [xid[i]];
    }

    /** Process i sends its first value. */
    method StartProcess(i: nat)
      requires Valid() && Enabled(View(), Start(i))
      modifies pipes, started
      ensures Valid() && View() == Do(old(View()), Start(i))
    {
      StepConsistent(View(), Start(i));
      ghost var before := View();
      SendValue(i);
      started[i] := true;
      assert xid[..] == before.xid[i := before.xid[i]];
      assert View() == Do(before, Start(i));
    }

    /** One turn of the loop of process i: read a message and take the action whose guard holds, if any. */
    method ReceiveMessage(i: nat)
      requires Valid() && Enabled(View(), Receive(i))
      modifies xid, pipes
      ensures Valid() && View() == Do(old(View()), Receive(i))
    {
      StepConsistent(View(), Receive(i));
      ghost var before := View();
      var xpd := pipes[i][0];
      pipes[i] := pipes[i][1..];
      ghost var rest := pipes[..];
      match Action(i, xpd, xid[i]) {
        case Some(v) =>
          xid[i] := v;
          SendValue(i);
          assert View() == Do(before, Receive(i));
        case None =>
          assert View() == Do(before, Receive(i));
      }
    }
  }
}
