/** Why two tokens cannot circulate in the ring for long. The values that the processes take are written in rows,
    one for each process, shifted so that a value and what it makes the next process do are in the same column. */
module RingTableau {
  import opened Wrappers
  import opened TokenRing

  /** Process j took rows[j][k] on reading rows[j - 1][k]. */
  ghost predicate Cell(rows: seq<seq<Xid>>, j: nat, k: nat)
    requires 0 < j < |rows| && 0 < k < |rows[j]| && k < |rows[j - 1]|
  {
    Action(j, rows[j - 1][k], rows[j][k - 1]) == Some(rows[j][k])
  }

  /** Process 0 took rows[0][k] on reading the value t columns before of the last process. */
  ghost predicate Head(rows: seq<seq<Xid>>, t: nat, k: nat)
    requires rows != [] && 0 < t <= k < |rows[0]| && k - t < |rows[|rows| - 1]|
  {
    Action(0, rows[|rows| - 1][k - t], rows[0][k - 1]) == Some(rows[0][k])
  }

  /** Width columns of a run in which t tokens circulate and none is lost. */
  ghost predicate Tableau(rows: seq<seq<Xid>>, t: nat, width: nat) {
    && |rows| >= 2 && t >= 1
    && (forall j :: 0 <= j < |rows| ==> |rows[j]| == width)
    && (forall j, k :: 0 < j < |rows| && 0 < k < width ==> Cell(rows, j, k))
    && forall k :: t <= k < width ==> Head(rows, t, k)
  }

  // ---------- Columns ----------

  /** In each column all values are above 1 or none is. */
  lemma {:induction false} ColumnClass(rows: seq<seq<Xid>>, t: nat, width: nat, j: nat, k: nat)
    requires Tableau(rows, t, width) && j < |rows| && 0 < k < width
    ensures rows[j][k] > 1 <==> rows[0][k] > 1
  {
    if j != 0 {
      ColumnClass(rows, t, width, j - 1, k);
      assert Cell(rows, j, k);
    }
  }

  lemma {:induction false} ColumnOfOnes(rows: seq<seq<Xid>>, t: nat, width: nat, p: nat, j: nat)
    requires Tableau(rows, t, width) && j < |rows| && 0 < p < width && rows[0][p] == 1
    ensures rows[j][p] == 1
  {
    if j != 0 {
      ColumnOfOnes(rows, t, width, p, j - 1);
      assert Cell(rows, j, p);
    }
  }

  /** Before a one in row 0 there is a column of zeros. */
  lemma {:induction false} ColumnOfZeros(rows: seq<seq<Xid>>, t: nat, width: nat, p: nat, j: nat)
    requires Tableau(rows, t, width) && j < |rows| && t <= p < width && p >= 2 && rows[0][p] == 1
    ensures rows[j][p - 1] == 0
  {
    assert Head(rows, t, p);
    if j != 0 {
      ColumnOfOnes(rows, t, width, p, j - 1);
      ColumnClass(rows, t, width, j, p - 1);
      assert Cell(rows, j, p);
    }
  }

  /** And before that, no fours. */
  lemma {:induction false} NoFourBefore(rows: seq<seq<Xid>>, t: nat, width: nat, p: nat, j: nat)
    requires Tableau(rows, t, width) && 0 < j < |rows| && t <= p < width && p >= 3 && rows[0][p] == 1
    ensures rows[j][p - 2] < 4
  {
    ColumnOfZeros(rows, t, width, p, j - 1);
    ColumnOfZeros(rows, t, width, p, j);
    assert Cell(rows, j, p - 1);
  }

  // ---------- After a one ----------

  /** No ones in row 0 between p and q. */
  ghost predicate NoOnes(rows: seq<seq<Xid>>, p: nat, q: nat) {
    rows != [] && q <= |rows[0]| && forall k :: p < k < q ==> rows[0][k] != 1
  }

  /** After a one, row 0 goes on 2, 0, 2, 0 up to the next one. */
  lemma {:induction false} Alternates(rows: seq<seq<Xid>>, t: nat, width: nat, p: nat, q: nat, k: nat)
    requires Tableau(rows, t, width) && t <= p < k < q <= width && rows[0][p] == 1 && NoOnes(rows, p, q)
    ensures rows[0][k] == if (k - p) % 2 == 1 then 2 else 0
  {
    assert Head(rows, t, k) && rows[0][k] != 1;
    if k != p + 1 {
      Alternates(rows, t, width, p, q, k - 1);
    }
  }

  function Rung(i: nat, j: nat): Xid {
    if j <= i then 2 else if j == i + 1 then 3 else 4
  }

  /** The threes and fours that a one leaves in the columns above 1 after it. */
  lemma {:induction false} Ladder(rows: seq<seq<Xid>>, t: nat, width: nat, p: nat, q: nat, i: nat, j: nat)
    requires Tableau(rows, t, width) && t <= p < q <= width && rows[0][p] == 1 && NoOnes(rows, p, q)
    requires j < |rows| && p + 2 * i + 1 < q
    ensures rows[j][p + 2 * i + 1] == Rung(i, j)
    decreases i, j, 1
  {
    var k := p + 2 * i + 1;
    if j == 0 {
      Alternates(rows, t, width, p, q, k);
    } else {
      Ladder(rows, t, width, p, q, i, j - 1);
      if i == 0 {
        ColumnOfOnes(rows, t, width, p, j);
      } else {
        Below(rows, t, width, p, q, i, j);
      }
      assert Cell(rows, j, k);
    }
  }

  /** And the ones in the columns between. */
  lemma {:induction false} Below(rows: seq<seq<Xid>>, t: nat, width: nat, p: nat, q: nat, i: nat, j: nat)
    requires Tableau(rows, t, width) && t <= p < q <= width && rows[0][p] == 1 && NoOnes(rows, p, q)
    requires j < |rows| && i > 0 && p + 2 * i < q
    ensures rows[j][p + 2 * i] == if j <= i then 0 else 1
    decreases i, j, 0
  {
    if j == 0 {
      Alternates(rows, t, width, p, q, p + 2 * i);
    } else {
      Below(rows, t, width, p, q, i, j - 1);
      Ladder(rows, t, width, p, q, i - 1, j);
      assert Cell(rows, j, p + 2 * i);
    }
  }

  /** So ones in row 0 are far apart. */
  lemma {:induction false} OnesFarApart(rows: seq<seq<Xid>>, t: nat, width: nat, p: nat, q: nat)
    requires Tableau(rows, t, width) && 2 <= t <= p < q < width && rows[0][p] == 1 == rows[0][q]
    ensures q - p >= |rows|
    decreases q - p
  {
    if r :| p < r < q && rows[0][r] == 1 {
      OnesFarApart(rows, t, width, p, r);
    } else if q - p < |rows| {
      assert Head(rows, t, q) && NoOnes(rows, p, q);
      if q == p + 1 {
      } else {
        Alternates(rows, t, width, p, q, q - 1);
        var k := (q - p - 3) / 2;
        assert q - 2 == p + 2 * k + 1;
        Ladder(rows, t, width, p, q, k, k + 2);
        NoFourBefore(rows, t, width, q, k + 2);
      }
    }
  }

  // ---------- There is a one ----------

  /** Without ones row 0 alternates, from a zero at q on. */
  lemma {:induction false} AlternatesFrom(rows: seq<seq<Xid>>, t: nat, width: nat, q: nat, end: nat, k: nat)
    requires Tableau(rows, t, width) && t <= q <= k < end <= width && rows[0][q] == 0 && NoOnes(rows, q, end)
    ensures rows[0][k] == if (k - q) % 2 == 0 then 0 else 2
  {
    if k != q {
      AlternatesFrom(rows, t, width, q, end, k - 1);
      assert Head(rows, t, k);
    }
  }

  /** Row j then alternates in the same way from its j-th zero on. */
  lemma {:induction false} SettlesDown(rows: seq<seq<Xid>>, t: nat, width: nat, q: nat, end: nat, j: nat, i: nat)
    requires Tableau(rows, t, width) && t <= q < end <= width && rows[0][q] == 0 && NoOnes(rows, q, end)
    requires j < |rows| && i >= j && q + 2 * i + 1 < end
    ensures rows[j][q + 2 * i] == 0 && rows[j][q + 2 * i + 1] == 2
    decreases j, i
  {
    if j == 0 {
      AlternatesFrom(rows, t, width, q, end, q + 2 * i);
      AlternatesFrom(rows, t, width, q, end, q + 2 * i + 1);
    } else {
      SettlesDown(rows, t, width, q, end, j - 1, i);
      SettlesDown(rows, t, width, q, end, j - 1, i - 1);
      assert Cell(rows, j, q + 2 * i - 1);
      assert Cell(rows, j, q + 2 * i);
      assert Cell(rows, j, q + 2 * i + 1);
    }
  }

  lemma {:induction false} OneAppears(rows: seq<seq<Xid>>, t: nat, width: nat) returns (p: nat)
    requires Tableau(rows, t, width) && width >= 2 * t + 2 * |rows| + 1
    ensures t <= p < 2 * t + 2 * |rows| && rows[0][p] == 1
  {
    var n, end := |rows|, 2 * t + 2 * |rows| + 1;
    assert Head(rows, t, t) && Head(rows, t, t + 1);
    if k :| t <= k < end - 1 && rows[0][k] == 1 {
      p := k;
    } else {
      var q := if rows[0][t] == 0 then t else t + 1;
      assert rows[0][q] == 0 && NoOnes(rows, q, end - 1);
      SettlesDown(rows, t, width, q, end - 1, n - 1, n - 1);
      p := q + 2 * (n - 1) + t;
      assert Head(rows, t, p);
    }
  }

  /** As many tokens as there are processes, or fewer, are a single one. */
  lemma {:induction false} SingleToken(rows: seq<seq<Xid>>, t: nat, width: nat)
    requires Tableau(rows, t, width) && t <= |rows| && width >= 3 * t + 2 * |rows| + 1
    ensures t == 1
  {
    if t >= 2 {
      var p := OneAppears(rows, t, width);
      ColumnOfZeros(rows, t, width, p, |rows| - 1);
      assert Head(rows, t, p - 1 + t);
      OnesFarApart(rows, t, width, p, p - 1 + t);
    }
  }
}
