/** The ring of grencez_tok5.c stabilises: from any values, however the processes are scheduled, there is a single
    token after a number of steps that only depends on the size of the ring. */
module RingConvergence {
  import opened Wrappers
  import opened TokenRing
  import opened RingTableau

  // ---------- What the processes have sent ----------

  /** All that has ever stood in the pipe into process i, when its predecessor has sent what is in hist. */
  function Inputs(s0: State, hist: seq<seq<Xid>>, i: nat): seq<Xid>
    requires Shape(s0) && |hist| == |s0.xid| && i < |hist|
  {
    s0.pipes[i] + hist[Previous(i, |hist|)]
  }

  /** The first value is sent without reading anything. */
  function Debt(s0: State, i: nat): nat
    requires Shape(s0) && i < |s0.xid|
  {
    if s0.started[i] then 0 else 1
  }

  /** Value k that process i has sent is what it does on reading its message k, less the debt. */
  ghost predicate TakenAt(s0: State, hist: seq<seq<Xid>>, i: nat, k: nat)
    requires Shape(s0) && |hist| == |s0.xid| && i < |hist| && Debt(s0, i) <= k < |hist[i]|
  {
    var ins, u := Inputs(s0, hist, i), Debt(s0, i);
    && k - u < |ins|
    && Action(i, ins[k - u], if k == 0 then s0.xid[i] else hist[i][k - 1]) == Some(hist[i][k])
  }

  function Read(s0: State, hist: seq<seq<Xid>>, i: nat): nat
    requires Shape(s0) && |hist| == |s0.xid| && i < |hist|
  {
    if |hist[i]| < Debt(s0, i) then 0 else |hist[i]| - Debt(s0, i)
  }

  /** hist[i] is what process i has sent on the way from s0 to s, with no token lost. */
  ghost predicate RecordedAt(s0: State, hist: seq<seq<Xid>>, s: State, i: nat)
    requires Shape(s0) && Shape(s) && |hist| == |s0.xid| == |s.xid| && i < |hist|
  {
    var h, ins, r := hist[i], Inputs(s0, hist, i), Read(s0, hist, i);
    && s.started[i] == (s0.started[i] || h != [])
    && s.xid[i] == (if h == [] then s0.xid[i] else h[|h| - 1])
    && r <= |ins| && s.pipes[i] == ins[r..]
    && forall k :: Debt(s0, i) <= k < |h| ==> TakenAt(s0, hist, i, k)
  }

  ghost predicate Recorded(s0: State, hist: seq<seq<Xid>>, s: State) {
    && Shape(s0) && Shape(s) && |hist| == |s0.xid| == |s.xid| >= 2
    && forall i :: 0 <= i < |hist| ==> RecordedAt(s0, hist, s, i)
  }

  lemma {:induction false} NothingRecorded(s: State) returns (hist: seq<seq<Xid>>)
    requires Shape(s) && |s.xid| >= 2
    ensures Recorded(s, hist, s) && InFlight(hist) == 0 && forall i :: 0 <= i < |hist| ==> hist[i] == []
  {
    hist := seq(|s.xid|, _ => []);
    assert forall i :: 0 <= i < |hist| ==> hist[i] == [];
    AllEmpty(hist);
    forall i | 0 <= i < |hist| ensures RecordedAt(s, hist, s, i) {
      assert Inputs(s, hist, i) == s.pipes[i];
    }
  }

  lemma {:induction false} AllEmpty(hist: seq<seq<Xid>>)
    requires forall i :: 0 <= i < |hist| ==> hist[i] == []
    ensures InFlight(hist) == 0
  {
    if hist != [] {
      AllEmpty(hist[1..]);
    }
  }

  /** The value that a step sends. */
  function Value(s: State, step: Step): Xid
    requires Shape(s) && Enabled(s, step) && !Silent(s, step)
  {
    match step
    case Start(i) => s.xid[i]
    case Receive(i) => Action(i, s.pipes[i][0], s.xid[i]).value
  }

  lemma {:induction false} OwnRecord(s0: State, hist: seq<seq<Xid>>, s: State, step: Step)
    requires Recorded(s0, hist, s) && Enabled(s, step) && !Silent(s, step)
    ensures RecordedAt(s0, hist[step.i := hist[step.i] + [Value(s, step)]], Do(s, step), step.i)
  {
    var i := step.i;
    var h, v := hist[i], Value(s, step);
    var hist' := hist[i := h + [v]];
    assert RecordedAt(s0, hist, s, i);
    assert Inputs(s0, hist', i) == Inputs(s0, hist, i);
    forall k | Debt(s0, i) <= k < |h| + 1 ensures TakenAt(s0, hist', i, k) {
      if k < |h| {
        assert TakenAt(s0, hist, i, k);
      }
    }
  }

  lemma {:induction false} NextRecord(s0: State, hist: seq<seq<Xid>>, s: State, step: Step)
    requires Recorded(s0, hist, s) && Enabled(s, step) && !Silent(s, step)
    ensures RecordedAt(s0, hist[step.i := hist[step.i] + [Value(s, step)]], Do(s, step), Next(step.i, |hist|))
  {
    var i, j := step.i, Next(step.i, |hist|);
    var v := Value(s, step);
    var hist' := hist[i := hist[i] + [v]];
    assert RecordedAt(s0, hist, s, j);
    assert Previous(j, |hist|) == i;
    assert Inputs(s0, hist', j) == Inputs(s0, hist, j) + [v];
    forall k | Debt(s0, j) <= k < |hist'[j]| ensures TakenAt(s0, hist', j, k) {
      assert TakenAt(s0, hist, j, k);
    }
  }

  lemma {:induction false} OtherRecord(s0: State, hist: seq<seq<Xid>>, s: State, step: Step, j: nat)
    requires Recorded(s0, hist, s) && Enabled(s, step) && !Silent(s, step)
    requires j < |hist| && j != step.i && j != Next(step.i, |hist|)
    ensures RecordedAt(s0, hist[step.i := hist[step.i] + [Value(s, step)]], Do(s, step), j)
  {
    var hist' := hist[step.i := hist[step.i] + [Value(s, step)]];
    assert RecordedAt(s0, hist, s, j);
    assert Previous(j, |hist|) != step.i;
    assert Inputs(s0, hist', j) == Inputs(s0, hist, j);
    forall k | Debt(s0, j) <= k < |hist'[j]| ensures TakenAt(s0, hist', j, k) {
      assert TakenAt(s0, hist, j, k);
    }
  }

  lemma {:induction false} StepRecorded(s0: State, hist: seq<seq<Xid>>, s: State, step: Step) returns (hist': seq<seq<Xid>>)
    requires Recorded(s0, hist, s) && Enabled(s, step) && !Silent(s, step)
    ensures Recorded(s0, hist', Do(s, step)) && InFlight(hist') == InFlight(hist) + 1
    ensures forall j :: 0 <= j < |hist| && j != step.i ==> hist'[j] == hist[j]
  {
    hist' := hist[step.i := hist[step.i] + [Value(s, step)]];
    InFlightUpdate(hist, step.i, hist[step.i] + [Value(s, step)]);
    forall j | 0 <= j < |hist| ensures RecordedAt(s0, hist', Do(s, step), j) {
      if j == step.i {
        OwnRecord(s0, hist, s, step);
      } else if j == Next(step.i, |hist|) {
        NextRecord(s0, hist, s, step);
      } else {
        OtherRecord(s0, hist, s, step, j);
      }
    }
  }

  /** A run in which no token is lost leaves a record of all its steps. */
  lemma {:induction false} RunRecorded(s0: State, hist: seq<seq<Xid>>, s: State, steps: seq<Step>) returns (hist': seq<seq<Xid>>)
    requires Recorded(s0, hist, s) && IsRun(s, steps) && SilentSteps(s, steps) == 0
    ensures Recorded(s0, hist', After(s, steps)) && InFlight(hist') == InFlight(hist) + |steps|
    ensures forall j :: 0 <= j < |hist| && !Acts(steps, j) ==> hist'[j] == hist[j]
    decreases |steps|
  {
    if steps == [] {
      hist' := hist;
    } else {
      var h := StepRecorded(s0, hist, s, steps[0]);
      hist' := RunRecorded(s0, h, Do(s, steps[0]), steps[1..]);
      forall j | 0 <= j < |hist| && !Acts(steps, j) ensures hist'[j] == hist[j] {
        assert steps[0].i != j;
        assert !Acts(steps[1..], j) by {
          forall k | 0 <= k < |steps[1..]| ensures steps[1..][k].i != j {
            assert steps[1..][k] == steps[k + 1];
          }
        }
      }
    }
  }

  /** Process j takes one of the steps. */
  ghost predicate Acts(steps: seq<Step>, j: nat) {
    exists k :: 0 <= k < |steps| && steps[k].i == j
  }

  // ---------- Everyone takes part ----------

  function Load(s: State, i: nat): nat
    requires Shape(s) && i < |s.xid|
  {
    |s.pipes[i]| + Debt(s, i)
  }

  /** The tokens that process 0 has before it up to process j. */
  function Offset(s: State, j: nat): nat
    requires Shape(s) && j < |s.xid|
  {
    if j == 0 then 0 else Offset(s, j - 1) + Load(s, j)
  }

  lemma {:induction false} InFlightSnoc(pipes: seq<seq<Xid>>, p: seq<Xid>)
    ensures InFlight(pipes + [p]) == InFlight(pipes) + |p|
  {
    if pipes == [] {
      assert pipes + [p] == [p] && [p][1..] == [];
    } else {
      assert (pipes + [p])[1..] == pipes[1..] + [p];
      InFlightSnoc(pipes[1..], p);
    }
  }

  lemma {:induction false} UnstartedSnoc(started: seq<bool>, b: bool)
    ensures Unstarted(started + [b]) == Unstarted(started) + if b then 0 else 1
  {
    if started == [] {
      assert started + [b] == [b] && [b][1..] == [];
    } else {
      assert (started + [b])[1..] == started[1..] + [b];
      UnstartedSnoc(started[1..], b);
    }
  }

  lemma {:induction false} TokensUpTo(s: State, j: nat)
    requires Shape(s) && j < |s.xid|
    ensures InFlight(s.pipes[..j + 1]) + Unstarted(s.started[..j + 1]) == Load(s, 0) + Offset(s, j)
  {
    assert s.pipes[..j + 1] == s.pipes[..j] + [s.pipes[j]] && s.started[..j + 1] == s.started[..j] + [s.started[j]];
    InFlightSnoc(s.pipes[..j], s.pipes[j]);
    UnstartedSnoc(s.started[..j], s.started[j]);
    if j != 0 {
      TokensUpTo(s, j - 1);
    }
  }

  lemma {:induction false} AllTokens(s: State)
    requires Shape(s)
    ensures Tokens(s) == Load(s, 0) + Offset(s, |s.xid| - 1)
  {
    var n := |s.xid|;
    TokensUpTo(s, n - 1);
    assert s.pipes[..n] == s.pipes && s.started[..n] == s.started;
  }

  /** Process i cannot be ahead of its predecessor by more than what was in its pipe. */
  lemma {:induction false} NotAhead(s0: State, hist: seq<seq<Xid>>, s: State, i: nat)
    requires Recorded(s0, hist, s) && i < |hist|
    ensures |hist[i]| <= |hist[Previous(i, |hist|)]| + Load(s0, i)
  {
    assert RecordedAt(s0, hist, s, i);
  }

  lemma {:induction false} OffsetGrows(s: State, i: nat, j: nat)
    requires Shape(s) && i <= j < |s.xid|
    ensures Offset(s, i) <= Offset(s, j)
  {
    if i < j {
      OffsetGrows(s, i, j - 1);
    }
  }

  lemma {:induction false} AheadUp(s0: State, hist: seq<seq<Xid>>, s: State, j: nat, i: nat)
    requires Recorded(s0, hist, s) && j <= i < |hist|
    ensures |hist[i]| <= |hist[j]| + Offset(s0, i) - Offset(s0, j)
  {
    if j < i {
      AheadUp(s0, hist, s, j, i - 1);
      NotAhead(s0, hist, s, i);
    }
  }

  /** No process is ahead of another by more than the tokens there are. */
  lemma {:induction false} AllClose(s0: State, hist: seq<seq<Xid>>, s: State, i: nat, j: nat)
    requires Recorded(s0, hist, s) && i < |hist| && j < |hist|
    ensures |hist[i]| <= |hist[j]| + Tokens(s0)
  {
    var n := |hist|;
    AllTokens(s0);
    if j <= i {
      AheadUp(s0, hist, s, j, i);
      OffsetGrows(s0, i, n - 1);
    } else {
      AheadUp(s0, hist, s, 0, i);
      NotAhead(s0, hist, s, 0);
      AheadUp(s0, hist, s, j, n - 1);
      OffsetGrows(s0, i, j);
    }
  }

  lemma {:induction false} SumAtMost(hist: seq<seq<Xid>>, most: nat)
    requires forall i :: 0 <= i < |hist| ==> |hist[i]| <= most
    ensures InFlight(hist) <= |hist| * most
  {
    if hist != [] {
      SumAtMost(hist[1..], most);
      assert |hist| * most == (|hist| - 1) * most + most;
    }
  }

  /** In a long run every process has sent many values. */
  lemma {:induction false} AllLong(s0: State, hist: seq<seq<Xid>>, s: State, least: nat, j: nat)
    requires Recorded(s0, hist, s) && j < |hist| && InFlight(hist) >= |hist| * (least + Tokens(s0))
    ensures |hist[j]| >= least
  {
    var n, most := |hist|, |hist[j]| + Tokens(s0);
    forall i | 0 <= i < n ensures |hist[i]| <= most {
      AllClose(s0, hist, s, i, j);
    }
    SumAtMost(hist, most);
    MulCancel(n, least + Tokens(s0), most);
  }

  lemma {:induction false} MulCancel(n: nat, a: nat, b: nat)
    requires n > 0 && n * a <= n * b
    ensures a <= b
  {
    if a > b {
      MulAdds(n, b, a - b);
    }
  }

  lemma {:induction false} MulAdds(n: nat, b: nat, c: nat)
    requires n > 0 && c > 0
    ensures n * (b + c) > n * b
  {
  }

  // ---------- The rows ----------

  /** The values of process j from the one on that the first value of process 0 leads to. */
  function Row(s0: State, hist: seq<seq<Xid>>, width: nat, j: nat): (r: seq<Xid>)
    requires Shape(s0) && |hist| == |s0.xid| && j < |hist| && |hist[j]| >= Offset(s0, j) + width
    ensures |r| == width && forall k :: 0 <= k < width ==> r[k] == hist[j][Offset(s0, j) + k]
  {
    hist[j][Offset(s0, j)..Offset(s0, j) + width]
  }

  lemma {:induction false} RowCell(s0: State, hist: seq<seq<Xid>>, s: State, rows: seq<seq<Xid>>, width: nat, j: nat, k: nat)
    requires Recorded(s0, hist, s) && |rows| == |hist| && 0 < j < |hist| && 0 < k < width
    requires |hist[j]| >= Offset(s0, j) + width && |hist[j - 1]| >= Offset(s0, j - 1) + width
    requires rows[j] == Row(s0, hist, width, j) && rows[j - 1] == Row(s0, hist, width, j - 1)
    ensures Cell(rows, j, k)
  {
    var x := Offset(s0, j) + k;
    assert RecordedAt(s0, hist, s, j);
    assert TakenAt(s0, hist, j, x);
    assert Inputs(s0, hist, j)[x - Debt(s0, j)] == hist[j - 1][Offset(s0, j - 1) + k];
    assert rows[j][k - 1] == hist[j][x - 1];
  }

  lemma {:induction false} RowHead(s0: State, hist: seq<seq<Xid>>, s: State, rows: seq<seq<Xid>>, width: nat, k: nat)
    requires Recorded(s0, hist, s) && |rows| == |hist| && 0 < Tokens(s0) <= k < width
    requires var n := |hist|;
      && |hist[0]| >= width && |hist[n - 1]| >= Offset(s0, n - 1) + width
      && rows[0] == Row(s0, hist, width, 0) && rows[n - 1] == Row(s0, hist, width, n - 1)
    ensures Head(rows, Tokens(s0), k)
  {
    var n := |hist|;
    AllTokens(s0);
    assert RecordedAt(s0, hist, s, 0);
    assert TakenAt(s0, hist, 0, k);
    assert Inputs(s0, hist, 0)[k - Debt(s0, 0)] == hist[n - 1][k - Load(s0, 0)];
    assert rows[0][k] == hist[0][k] && rows[0][k - 1] == hist[0][k - 1];
  }

  lemma {:induction false} RecordIsTableau(s0: State, hist: seq<seq<Xid>>, s: State, width: nat) returns (rows: seq<seq<Xid>>)
    requires Recorded(s0, hist, s) && Tokens(s0) > 0
    requires forall j :: 0 <= j < |hist| ==> |hist[j]| >= Offset(s0, j) + width
    ensures |rows| == |hist| && Tableau(rows, Tokens(s0), width)
  {
    rows := seq(|hist|, j requires 0 <= j < |hist| => Row(s0, hist, width, j));
    forall j, k | 0 < j < |rows| && 0 < k < width ensures Cell(rows, j, k) {
      RowCell(s0, hist, s, rows, width, j, k);
    }
    forall k | Tokens(s0) <= k < width ensures Head(rows, Tokens(s0), k) {
      RowHead(s0, hist, s, rows, width, k);
    }
  }

  // ---------- Stabilisation ----------

  /** How many steps a ring of n processes can take without losing one of several tokens. */
  function Patience(n: nat): nat {
    n * (7 * n + 1)
  }

  lemma {:induction false} QuietMeansSingle(s: State, steps: seq<Step>)
    requires Consistent(s) && IsRun(s, steps) && SilentSteps(s, steps) == 0
    requires Tokens(s) <= |s.xid| && |steps| >= Patience(|s.xid|)
    ensures Tokens(s) == 1
  {
    var n, t := |s.xid|, Tokens(s);
    TokenExists(s);
    if n >= 2 {
      var empty := NothingRecorded(s);
      var hist := RunRecorded(s, empty, s, steps);
      var end, width := After(s, steps), 3 * t + 2 * n + 1;
      forall j | 0 <= j < n ensures |hist[j]| >= Offset(s, j) + width {
        Enough(n, t, width);
        AllLong(s, hist, end, t + width, j);
        AllTokens(s);
        OffsetGrows(s, j, n - 1);
      }
      var rows := RecordIsTableau(s, hist, end, width);
      SingleToken(rows, t, width);
    }
  }

  lemma {:induction false} Enough(n: nat, t: nat, width: nat)
    requires t <= n && width == 3 * t + 2 * n + 1
    ensures Patience(n) >= n * (t + width + t)
  {
    MulAtMost(n, t + width + t, 7 * n + 1);
  }

  lemma {:induction false} MulAtMost(n: nat, a: nat, b: nat)
    requires a <= b
    ensures n * a <= n * b
  {
  }

  lemma {:induction false} RunSplits(s: State, a: seq<Step>, b: seq<Step>)
    requires Shape(s) && IsRun(s, a + b)
    ensures IsRun(s, a) && |After(s, a).xid| == |s.xid|
    ensures IsRun(After(s, a), b) && After(s, a + b) == After(After(s, a), b)
    decreases |a|
  {
    if a == [] {
      assert a + b == b;
    } else {
      assert (a + b)[1..] == a[1..] + b;
      RunSplits(Do(s, a[0]), a[1..], b);
    }
  }

  lemma {:induction false} StabilisesFrom(s: State, steps: seq<Step>)
    requires Consistent(s) && IsRun(s, steps) && Tokens(s) <= |s.xid|
    requires |steps| >= (Tokens(s) - 1) * Patience(|s.xid|)
    ensures Tokens(After(s, steps)) == 1
    decreases Tokens(s)
  {
    var n, t := |s.xid|, Tokens(s);
    TokenExists(s);
    if t == 1 {
      SingleTokenForever(s, steps);
    } else {
      var m := Patience(n);
      Remaining(t, t - 1, m);
      var a, b := steps[..m], steps[m..];
      assert a + b == steps;
      RunSplits(s, a, b);
      RunTokens(s, a);
      if SilentSteps(s, a) == 0 {
        QuietMeansSingle(s, a);
      }
      var s' := After(s, a);
      Remaining(t, Tokens(s'), m);
      StabilisesFrom(s', b);
    }
  }

  lemma {:induction false} Remaining(t: nat, t': nat, m: nat)
    requires 1 <= t' < t
    ensures (t - 1) * m - m >= (t' - 1) * m >= 0
  {
    assert (t - 1) * m - m == (t - 2) * m;
    var d := t - 1 - t';
    assert (t - 2) * m == (t' - 1) * m + d * m;
  }

  /** Self-stabilisation, for every size of the ring, every choice of values and every schedule. */
  lemma {:induction false} Stabilises(s: State, steps: seq<Step>)
    requires Initial(s) && IsRun(s, steps) && |steps| >= (|s.xid| - 1) * Patience(|s.xid|)
    ensures Consistent(After(s, steps)) && Tokens(After(s, steps)) == 1
  {
    InitialConsistent(s);
    InitialTokens(s.pipes, s.started);
    StabilisesFrom(s, steps);
    RunTokens(s, steps);
  }

  /** The single token visits everyone: in any 2 * n steps every process takes one. */
  lemma {:induction false} EveryoneActs(s: State, steps: seq<Step>, j: nat)
    requires Consistent(s) && IsRun(s, steps) && Tokens(s) == 1 && |steps| >= 2 * |s.xid| && j < |s.xid|
    ensures Acts(steps, j)
  {
    var n := |s.xid|;
    if n == 1 {
      assert steps[0].i == j;
    } else {
      SingleTokenForever(s, steps);
      var empty := NothingRecorded(s);
      var hist := RunRecorded(s, empty, s, steps);
      AllLong(s, hist, After(s, steps), 1, j);
      assert hist[j] != empty[j];
    }
  }

  /** And the ring does go on, for any number of steps. */
  lemma {:induction false} GoesOn(s: State, m: nat) returns (steps: seq<Step>)
    requires Initial(s)
    ensures |steps| == m && IsRun(s, steps)
  {
    steps := [];
    if m != 0 {
      steps := GoesOn(s, m - 1);
      NeverStuck(s, steps);
      var step :| Enabled(After(s, steps), step);
      RunAppends(s, steps, step);
      steps := steps + [step];
    }
  }

  lemma {:induction false} RunAppends(s: State, steps: seq<Step>, step: Step)
    requires Shape(s) && IsRun(s, steps) && Enabled(After(s, steps), step)
    ensures IsRun(s, steps + [step])
    decreases |steps|
  {
    if steps == [] {
      assert steps + [step] == [step] && [step][1..] == [];
    } else {
      assert (steps + [step])[1..] == steps[1..] + [step];
      RunAppends(Do(s, steps[0]), steps[1..], step);
    }
  }
}
