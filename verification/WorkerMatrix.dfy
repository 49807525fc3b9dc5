/** The cost matrix of the worker planner.  Rows are the workers left after forced tasks, columns
    are the available resource cells followed by one WAIT column per worker.  Two sentinels order
    the choices: every real task beats WAIT, and WAIT beats a forbidden pair.  That ordering is
    only a promise about sums, so what an optimal assignment may do with it is proved here. */
module WorkerMatrix {
  import opened MinCostAssignment
  import Ordering
  import opened Options

  const SENTINEL_GAP: real := 1000000.0
  const CLAIM_BONUS: real := 20.0

  /** How one worker stands to one available cell. */
  datatype Standing = Standing(
    net: Option<real>,        // None for minus infinity
    reservedForOther: bool,   // a live claim of another pool worker holds the cell
    reservedForSelf: bool,    // a live claim of this worker holds the cell
    collectable: bool)

  type Standings = seq<seq<Standing>>

  predicate Table(t: Standings, n: nat, k: nat) {
    |t| == n && forall r | 0 <= r < n :: |t[r]| == k
  }

  /** The costs of the finite pairs, row by row. */
  function FiniteCosts(row: seq<Standing>): seq<real> {
    if row == [] then []
    else
      var rest := FiniteCosts(row[..|row| - 1]);
      var last := row[|row| - 1];
      if last.net.Some? then rest + [-last.net.value] else rest
  }

  function Largest(costs: seq<real>): (m: real)
    requires costs != []
    ensures m in costs && forall x | x in costs :: x <= m
  {
    if |costs| == 1 then costs[0]
    else
      var m := Largest(costs[1..]);
      assert costs == [costs[0]] + costs[1..];
      if costs[0] > m then costs[0] else m
  }

  function AllFinite(t: Standings): seq<real> {
    if t == [] then [] else AllFinite(t[..|t| - 1]) + FiniteCosts(t[|t| - 1])
  }

  lemma {:induction false} FiniteInRow(row: seq<Standing>, j: int)
    requires 0 <= j < |row| && row[j].net.Some?
    ensures -row[j].net.value in FiniteCosts(row)
  {
    if j < |row| - 1 {
      FiniteInRow(row[..|row| - 1], j);
    }
  }

  lemma {:induction false} FiniteInTable(t: Standings, r: int, x: real)
    requires 0 <= r < |t| && x in FiniteCosts(t[r])
    ensures x in AllFinite(t)
  {
    if r < |t| - 1 {
      FiniteInTable(t[..|t| - 1], r, x);
    }
  }

  function MaxReal(t: Standings): real {
    if AllFinite(t) == [] then 0.0 else Largest(AllFinite(t))
  }

  function WaitCost(t: Standings): real {
    MaxReal(t) + SENTINEL_GAP
  }

  function ForbiddenCost(t: Standings): real {
    WaitCost(t) + SENTINEL_GAP
  }

  /** Whether the matrix marks a pair as forbidden. */
  predicate Forbidden(s: Standing, penalty: real) {
    || s.net.None?
    || (s.reservedForOther && penalty <= 0.0)
    || (!s.reservedForOther && !s.collectable)
  }

  function Entry(s: Standing, penalty: real, forbidden: real): real {
    if s.net.None? then forbidden
    else if s.reservedForOther then
      if penalty > 0.0 then -(s.net.value - penalty) else forbidden
    else if !s.collectable then forbidden
    else -(s.net.value + if s.reservedForSelf then CLAIM_BONUS else 0.0)
  }

  function CostMatrix(t: Standings, penalty: real): (costs: Matrix)
    ensures |costs| == |t|
  {
    var wait, forbidden := WaitCost(t), ForbiddenCost(t);
    seq(|t|, r requires 0 <= r < |t| =>
      seq(|t[r]|, j requires 0 <= j < |t[r]| => Entry(t[r][j], penalty, forbidden)) + seq(|t|, _ => wait))
  }

  lemma CostMatrixShape(t: Standings, penalty: real, n: nat, k: nat)
    requires 0 < n && Table(t, n, k)
    ensures Rectangular(CostMatrix(t, penalty)) && |CostMatrix(t, penalty)[0]| == k + n
    ensures forall r, j | 0 <= r < n && 0 <= j < k ::
              CostMatrix(t, penalty)[r][j] == Entry(t[r][j], penalty, ForbiddenCost(t))
    ensures forall r, j | 0 <= r < n && k <= j < k + n :: CostMatrix(t, penalty)[r][j] == WaitCost(t)
  {
    var c := CostMatrix(t, penalty);
    forall r | 0 <= r < n
      ensures |c[r]| == k + n
      ensures forall j | 0 <= j < k :: c[r][j] == Entry(t[r][j], penalty, ForbiddenCost(t))
      ensures forall j | k <= j < k + n :: c[r][j] == WaitCost(t)
    {
    }
  }

  /** A pair is forbidden exactly when its entry is the forbidden sentinel or, more usefully,
      exactly when it costs more than waiting; this needs a penalty below the gap. */
  lemma EntryBounds(t: Standings, penalty: real, n: nat, k: nat, r: int, j: int)
    requires Table(t, n, k) && 0 <= r < n && 0 <= j < k
    ensures var e := Entry(t[r][j], penalty, ForbiddenCost(t));
            if Forbidden(t[r][j], penalty) then e == WaitCost(t) + SENTINEL_GAP
            else penalty < SENTINEL_GAP ==> e < WaitCost(t)
  {
    var s := t[r][j];
    if s.net.Some? {
      FiniteInRow(t[r], j);
      FiniteInTable(t, r, -s.net.value);
    }
  }

  /** Every finite net value and the penalty are multiples of `1 / q`. */
  ghost predicate GridTable(t: Standings, penalty: real, q: int) {
    && 0 < q < INVERSE_EPSILON && OnGrid(penalty, q)
    && forall r, j | 0 <= r < |t| && 0 <= j < |t[r]| && t[r][j].net.Some? :: OnGrid(t[r][j].net.value, q)
  }

  lemma {:induction false} FiniteOnGrid(row: seq<Standing>, q: int)
    requires forall j | 0 <= j < |row| && row[j].net.Some? :: OnGrid(row[j].net.value, q)
    ensures forall x | x in FiniteCosts(row) :: OnGrid(x, q)
  {
    if row != [] {
      FiniteOnGrid(row[..|row| - 1], q);
      var last := row[|row| - 1];
      if last.net.Some? {
        NegateOnGrid(last.net.value, q);
      }
    }
  }

  lemma NegateOnGrid(x: real, q: int)
    requires OnGrid(x, q)
    ensures OnGrid(-x, q)
  {
    assert Multiple(0.0, q, 0);
    GridAdd(0.0, x, q);
  }

  lemma {:induction false} MaxOnGrid(t: Standings, q: int)
    requires forall r, j | 0 <= r < |t| && 0 <= j < |t[r]| && t[r][j].net.Some? :: OnGrid(t[r][j].net.value, q)
    ensures forall x | x in AllFinite(t) :: OnGrid(x, q)
  {
    if t != [] {
      MaxOnGrid(t[..|t| - 1], q);
      FiniteOnGrid(t[|t| - 1], q);
    }
  }

  lemma WholeOnGrid(n: int, q: int)
    ensures OnGrid(n as real, q)
  {
    assert Multiple(n as real, q, n * q);
  }

  /** Sentinels and bonuses are whole numbers, so the matrix stays on the grid of its values. */
  lemma CostMatrixSeparated(t: Standings, penalty: real, q: int)
    requires GridTable(t, penalty, q)
    ensures Separated(CostMatrix(t, penalty))
  {
    var c := CostMatrix(t, penalty);
    MaxOnGrid(t, q);
    WholeOnGrid(0, q);
    WholeOnGrid(1000000, q);
    WholeOnGrid(20, q);
    GridAdd(MaxReal(t), SENTINEL_GAP, q);
    GridAdd(WaitCost(t), SENTINEL_GAP, q);
    forall r, j | 0 <= r < |c| && 0 <= j < |c[r]|
      ensures OnGrid(c[r][j], q)
    {
      if j < |t[r]| && t[r][j].net.Some? {
        var net := t[r][j].net.value;
        GridAdd(net, penalty, q);
        GridAdd(net, CLAIM_BONUS, q);
        NegateOnGrid(net - penalty, q);
        NegateOnGrid(net + CLAIM_BONUS, q);
        NegateOnGrid(net, q);
      }
    }
    assert GridMatrix(c, q);
  }

  // ----- exchange arguments ---------------------------------------------------------------

  lemma {:induction false} TotalOfUpdate(c: Matrix, a: seq<int>, r: int, j: int, n: nat)
    requires Rectangular(c) && |a| == |c| && n <= |c| && 0 <= r < |c| && 0 <= j < |c[0]|
    requires forall i | 0 <= i < |a| :: 0 <= a[i] < |c[0]|
    ensures Total(c, a[r := j], n) == Total(c, a, n) + if r < n then c[r][j] - c[r][a[r]] else 0.0
  {
    if n > 0 {
      TotalOfUpdate(c, a, r, j, n - 1);
    }
  }

  /** An optimal assignment cannot be improved by moving one row to an unused column. */
  lemma NoBetterFreeColumn(c: Matrix, a: seq<int>, r: int, j: int)
    requires Rectangular(c) && Optimal(c, a) && 0 <= r < |c| && 0 <= j < |c[0]| && j !in a
    ensures c[r][a[r]] <= c[r][j]
  {
    var b := a[r := j];
    assert IsAssignment(c, b);
    TotalOfUpdate(c, a, r, j, |c|);
  }

  ghost function Members(a: seq<int>): (s: set<int>)
    ensures forall x :: x in s <==> x in a
    ensures |s| <= |a|
  {
    if a == [] then {} else Members(a[..|a| - 1]) + {a[|a| - 1]}
  }

  ghost function Range(lo: int, n: nat): (s: set<int>)
    ensures forall x :: x in s <==> lo <= x < lo + n
    ensures |s| == n
  {
    if n == 0 then {} else Range(lo, n - 1) + {lo + n - 1}
  }

  /** A worker on a real column leaves one of the WAIT columns unused. */
  lemma FreeWaitColumn(a: seq<int>, r: int, k: nat)
    requires 0 <= r < |a| && 0 <= a[r] < k
    ensures exists j :: k <= j < k + |a| && j !in a
  {
    if forall j :: k <= j < k + |a| ==> j in a {
      var wanted := Range(k, |a|) + {a[r]};
      assert wanted <= Members(a);
      Ordering.SubsetSize(wanted, Members(a));
      assert false;
    }
  }

  /** Waiting is always open, so no worker is ever given a forbidden pair. */
  lemma NeverForbidden(t: Standings, penalty: real, n: nat, k: nat, a: seq<int>, r: int)
    requires 0 < n && Table(t, n, k) && 0 <= r < n && Rectangular(CostMatrix(t, penalty))
    requires Optimal(CostMatrix(t, penalty), a) && a[r] < k
    ensures !Forbidden(t[r][a[r]], penalty)
  {
    CostMatrixShape(t, penalty, n, k);
    FreeWaitColumn(a, r, k);
    var j :| k <= j < k + |a| && j !in a;
    NoBetterFreeColumn(CostMatrix(t, penalty), a, r, j);
    EntryBounds(t, penalty, n, k, r, a[r]);
  }

  /** A worker waits only when every cell left over is forbidden to it. */
  lemma NoNeedlessWait(t: Standings, penalty: real, n: nat, k: nat, a: seq<int>, r: int, j: int)
    requires 0 < n && Table(t, n, k) && 0 <= r < n && Rectangular(CostMatrix(t, penalty))
    requires penalty < SENTINEL_GAP
    requires Optimal(CostMatrix(t, penalty), a) && a[r] >= k && 0 <= j < k && j !in a
    ensures Forbidden(t[r][j], penalty)
  {
    CostMatrixShape(t, penalty, n, k);
    NoBetterFreeColumn(CostMatrix(t, penalty), a, r, j);
    EntryBounds(t, penalty, n, k, r, j);
  }

  /** Worker 1 holds the claim on cell 0 but is better off on cell 1, and worker 0 can only reach
      cell 0 by preempting that claim. */
  ghost function ClaimTable(): Standings {
    [[Standing(Some(0.0), true, false, true), Standing(None, false, false, true)],
     [Standing(Some(0.0), false, true, true), Standing(Some(100.0), false, false, true)]]
  }

  lemma ClaimTableMax()
    ensures MaxReal(ClaimTable()) == 0.0
  {
    var t := ClaimTable();
    assert FiniteCosts(t[0]) == [0.0] by {
      assert t[0][..1] == [t[0][0]] && t[0][..1][..0] == [];
    }
    assert FiniteCosts(t[1]) == [0.0, -100.0] by {
      assert t[1][..1] == [t[1][0]] && t[1][..1][..0] == [];
    }
    assert t[..1] == [t[0]] && t[..1][..0] == [];
    assert AllFinite(t[..1]) == [0.0];
    assert AllFinite(t) == [0.0, 0.0, -100.0];
  }

  /** The bound on the penalty is sharp: from the sentinel gap on, a worker may be left waiting
      although a cell it is not forbidden to take stays free. */
  lemma PenaltyBoundSharp(penalty: real) returns (a: seq<int>)
    requires penalty >= SENTINEL_GAP
    ensures Rectangular(CostMatrix(ClaimTable(), penalty)) && Optimal(CostMatrix(ClaimTable(), penalty), a)
    ensures a[0] >= 2 && 0 !in a && !Forbidden(ClaimTable()[0][0], penalty)
  {
    a := [2, 1];
    ClaimTableCosts(penalty);
    ClaimTableOptimal(CostMatrix(ClaimTable(), penalty), penalty);
  }

  lemma ClaimTableOptimal(c: Matrix, penalty: real)
    requires penalty >= SENTINEL_GAP
    requires c == [[penalty, 2000000.0, 1000000.0, 1000000.0], [-20.0, -100.0, 1000000.0, 1000000.0]]
    ensures Rectangular(c) && Optimal(c, [2, 1])
  {
    var a := [2, 1];
    forall b: seq<int> | IsAssignment(c, b)
      ensures Total(c, a, 2) <= Total(c, b, 2)
    {
      TwoRows(c, a);
      TwoRows(c, b);
      assert c[0][b[0]] >= 1000000.0 && c[1][b[1]] >= -100.0;
    }
  }

  lemma ClaimTableEntries(penalty: real)
    requires penalty >= SENTINEL_GAP
    ensures Table(ClaimTable(), 2, 2) && WaitCost(ClaimTable()) == 1000000.0
    ensures Entry(ClaimTable()[0][0], penalty, ForbiddenCost(ClaimTable())) == penalty
    ensures Entry(ClaimTable()[0][1], penalty, ForbiddenCost(ClaimTable())) == 2000000.0
    ensures Entry(ClaimTable()[1][0], penalty, ForbiddenCost(ClaimTable())) == -20.0
    ensures Entry(ClaimTable()[1][1], penalty, ForbiddenCost(ClaimTable())) == -100.0
  {
    ClaimTableMax();
    hide MaxReal;
  }

  lemma ClaimTableCosts(penalty: real)
    requires penalty >= SENTINEL_GAP
    ensures Table(ClaimTable(), 2, 2)
    ensures CostMatrix(ClaimTable(), penalty)
         == [[penalty, 2000000.0, 1000000.0, 1000000.0], [-20.0, -100.0, 1000000.0, 1000000.0]]
  {
    ClaimTableEntries(penalty);
    CostMatrixShape(ClaimTable(), penalty, 2, 2);
    hide CostMatrix, ClaimTable, Entry, WaitCost, ForbiddenCost;
    var c := CostMatrix(ClaimTable(), penalty);
    assert c[0] == [c[0][0], c[0][1], c[0][2], c[0][3]];
    assert c[1] == [c[1][0], c[1][1], c[1][2], c[1][3]];
  }

  lemma TwoRows(c: Matrix, a: seq<int>)
    requires Rectangular(c) && |c| == 2 && IsAssignment(c, a)
    ensures Total(c, a, 2) == c[0][a[0]] + c[1][a[1]]
  {
    assert Total(c, a, 1) == Total(c, a, 0) + c[0][a[0]];
  }
}
