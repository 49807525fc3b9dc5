/** The deterministic rectangular minimum-cost assignment solver: a potential/slack Hungarian
    method over in-place arrays.

    The solver compares slacks up to a tolerance of 2^-52.  The comparisons are kept as they
    are, so two results are proved.  For every matrix the solver terminates with a complete
    assignment to distinct columns.  The assignment is optimal whenever the costs lie on a grid
    coarser than the tolerance, which covers all integer costs and every fixed-point scale. */
module MinCostAssignment {
  import Ordering

  datatype Outcome<+T> = Ok(value: T) | Err(error: Failure)

  datatype Failure = NotRectangular | Incomplete

  // 2^-52, the machine epsilon the slack comparisons use.
  const EPSILON: real := 1.0 / 4503599627370496.0
  const INVERSE_EPSILON: int := 4503599627370496

  type Matrix = seq<seq<real>>

  predicate Rectangular(costs: Matrix) {
    && 0 < |costs| <= |costs[0]|
    && forall r | 0 <= r < |costs| :: |costs[r]| == |costs[0]|
  }

  /** A choice of pairwise distinct columns, one for each row. */
  ghost predicate IsAssignment(costs: Matrix, a: seq<int>)
    requires Rectangular(costs)
  {
    && |a| == |costs|
    && (forall r | 0 <= r < |a| :: 0 <= a[r] < |costs[0]|)
    && Injective(a)
  }

  ghost predicate Injective(a: seq<int>) {
    forall r, s | 0 <= r < s < |a| :: a[r] != a[s]
  }

  /** Cost of the first `n` rows of an assignment. */
  ghost function Total(costs: Matrix, a: seq<int>, n: nat): real
    requires Rectangular(costs) && n <= |costs| && |a| == |costs|
    requires forall r | 0 <= r < |a| :: 0 <= a[r] < |costs[0]|
  {
    if n == 0 then 0.0 else Total(costs, a, n - 1) + costs[n - 1][a[n - 1]]
  }

  ghost predicate Optimal(costs: Matrix, a: seq<int>)
    requires Rectangular(costs)
  {
    && IsAssignment(costs, a)
    && forall b: seq<int> | IsAssignment(costs, b) :: Total(costs, a, |costs|) <= Total(costs, b, |costs|)
  }

  // ----- grids ---------------------------------------------------------------------------

  ghost predicate Multiple(x: real, q: int, k: int) {
    k as real == x * q as real
  }

  /** `x` is a whole number of units of size `1 / q`. */
  ghost predicate OnGrid(x: real, q: int) {
    exists k: int :: Multiple(x, q, k)
  }

  ghost predicate GridMatrix(costs: Matrix, q: int) {
    forall r, k | 0 <= r < |costs| && 0 <= k < |costs[r]| :: OnGrid(costs[r][k], q)
  }

  ghost predicate GridSeq(s: seq<real>, q: int) {
    forall k | 0 <= k < |s| :: OnGrid(s[k], q)
  }

  /** All costs are multiples of one unit larger than the tolerance. */
  ghost predicate Separated(costs: Matrix) {
    exists q: int :: 0 < q < INVERSE_EPSILON && GridMatrix(costs, q)
  }

  lemma GridAdd(x: real, y: real, q: int)
    requires OnGrid(x, q) && OnGrid(y, q)
    ensures OnGrid(x + y, q) && OnGrid(x - y, q)
  {
    var k: int :| Multiple(x, q, k);
    var l: int :| Multiple(y, q, l);
    assert Multiple(x + y, q, k + l);
    assert Multiple(x - y, q, k - l);
  }

  /** On a grid coarser than the tolerance, the tolerant comparison is the exact one. */
  lemma GridApart(x: real, y: real, q: int)
    requires 0 < q < INVERSE_EPSILON
    requires OnGrid(x, q) && OnGrid(y, q)
    ensures x < y - EPSILON <==> x < y
  {
    var k: int :| Multiple(x, q, k);
    var l: int :| Multiple(y, q, l);
    if x < y {
      var gap := y - x;
      assert gap * q as real == (l - k) as real;
      ScaledGap(gap, q, l - k);
    }
  }

  /** A positive multiple of 1/q exceeds the tolerance. */
  lemma ScaledGap(gap: real, q: int, m: int)
    requires gap > 0.0 && 0 < q < INVERSE_EPSILON && gap * q as real == m as real
    ensures EPSILON < gap
  {
    var scale := q as real;
    assert gap * scale > 0.0;
    assert m >= 1;
    assert EPSILON * scale < 1.0;
    ScaleLess(EPSILON, gap, scale);
  }

  lemma ScaleMonotone(x: real, y: real, q: real)
    requires 0.0 < q && x <= y
    ensures x * q <= y * q
  {
    assert (y - x) * q >= 0.0;
  }

  lemma ScaleLess(x: real, y: real, q: real)
    requires 0.0 < q && x * q < y * q
    ensures x < y
  {
    if y <= x {
      ScaleMonotone(y, x, q);
    }
  }

  // ----- solver state --------------------------------------------------------------------

  /** A slack, possibly the infinity it starts from. */
  datatype Slack = Infinite | Finite(value: real)

  predicate Below(a: Slack, b: Slack) {
    a.Finite? && (b.Infinite? || a.value < b.value - EPSILON)
  }

  predicate Near(a: Slack, b: Slack) {
    a.Finite? && b.Finite? && -EPSILON <= a.value - b.value <= EPSILON
  }

  function Minus(a: Slack, d: real): Slack {
    if a.Infinite? then a else Finite(a.value - d)
  }

  /** Reduced cost of row `r` and column `j`, both counted from one. */
  ghost function Reduced(c: Matrix, u: seq<real>, v: seq<real>, r: int, j: int): real
    requires Rectangular(c) && |u| == |c| + 1 && |v| == |c[0]| + 1
    requires 1 <= r <= |c| && 1 <= j <= |c[0]|
  {
    c[r - 1][j - 1] - u[r] - v[j]
  }

  /** Rows `1..i` and the columns other than `hole` are matched by `p`, with inverse `m`.
      `hole == |p|` means that no column is left out. */
  ghost predicate Matched(p: seq<int>, m: seq<int>, i: int, hole: int) {
    && 0 <= i < |m| && 0 <= hole <= |p|
    && (forall j | 0 <= j < |p| && j != hole :: 0 <= p[j] <= i && (p[j] != 0 ==> m[p[j]] == j))
    && (forall r | 1 <= r <= i :: 0 <= m[r] < |p| && m[r] != hole && p[m[r]] == r)
  }

  /** Dual feasibility of rows `1..n`, with complementary slackness outside column `hole`. */
  ghost predicate Dual(c: Matrix, u: seq<real>, v: seq<real>, p: seq<int>, n: int, hole: int)
    requires Rectangular(c) && |u| == |c| + 1 && |v| == |c[0]| + 1 && |p| == |c[0]| + 1
    requires 0 <= n <= |c|
    requires forall j | 1 <= j < |p| && j != hole :: 0 <= p[j] <= |c|
  {
    && (forall r, j | 1 <= r <= n && 1 <= j <= |c[0]| :: Reduced(c, u, v, r, j) >= 0.0)
    && (forall j | 1 <= j <= |c[0]| && j != hole && p[j] != 0 :: Reduced(c, u, v, p[j], j) == 0.0)
    && (forall j | 1 <= j <= |c[0]| :: v[j] <= 0.0)
    && (forall j | 1 <= j <= |c[0]| && j != hole && p[j] == 0 :: v[j] == 0.0)
  }

  // ----- optimality of a dual certificate ------------------------------------------------

  ghost function PotentialSum(v: seq<real>, a: seq<int>, n: nat): real
    requires n <= |a| && forall r | 0 <= r < |a| :: 0 <= a[r] < |v|
  {
    if n == 0 then 0.0 else PotentialSum(v, a, n - 1) + v[a[n - 1]]
  }

  /** The potentials of the columns below `w` that occur among the first `n` choices of `a`. */
  ghost function ColumnSum(v: seq<real>, a: seq<int>, n: nat, w: nat): real
    requires n <= |a| && w <= |v|
  {
    if w == 0 then 0.0
    else ColumnSum(v, a, n, w - 1) + if w - 1 in a[..n] then v[w - 1] else 0.0
  }

  lemma {:induction false} ColumnSumEmpty(v: seq<real>, a: seq<int>, w: nat)
    requires w <= |v|
    ensures ColumnSum(v, a, 0, w) == 0.0
  {
    if w > 0 {
      ColumnSumEmpty(v, a, w - 1);
    }
  }

  lemma {:induction false} ColumnSumStep(v: seq<real>, a: seq<int>, n: nat, w: nat)
    requires n < |a| && w <= |v| && Injective(a)
    ensures ColumnSum(v, a, n + 1, w)
         == ColumnSum(v, a, n, w) + if 0 <= a[n] < w then v[a[n]] else 0.0
  {
    if w > 0 {
      ColumnSumStep(v, a, n, w - 1);
      assert a[..n + 1] == a[..n] + [a[n]];
      assert a[n] !in a[..n];
    }
  }

  lemma {:induction false} SumByColumn(v: seq<real>, a: seq<int>, n: nat)
    requires n <= |a| && Injective(a)
    requires forall r | 0 <= r < |a| :: 0 <= a[r] < |v|
    ensures PotentialSum(v, a, n) == ColumnSum(v, a, n, |v|)
  {
    if n == 0 {
      ColumnSumEmpty(v, a, |v|);
    } else {
      SumByColumn(v, a, n - 1);
      ColumnSumStep(v, a, n - 1, |v|);
    }
  }

  lemma {:induction false} ColumnSumLeast(v: seq<real>, a: seq<int>, b: seq<int>, w: nat)
    requires w <= |v|
    requires forall j | 0 <= j < |v| :: v[j] <= 0.0 && (j !in a ==> v[j] == 0.0)
    ensures ColumnSum(v, a, |a|, w) <= ColumnSum(v, b, |b|, w)
  {
    if w > 0 {
      ColumnSumLeast(v, a, b, w - 1);
      assert a[..|a|] == a;
    }
  }

  lemma {:induction false} TotalBounds(c: Matrix, u: seq<real>, v: seq<real>, a: seq<int>, b: seq<int>, n: nat)
    requires Rectangular(c) && |u| == |c| && |v| == |c[0]| && n <= |c|
    requires IsAssignment(c, a) && IsAssignment(c, b)
    requires forall r, j | 0 <= r < |c| && 0 <= j < |c[0]| :: c[r][j] - u[r] - v[j] >= 0.0
    requires forall r | 0 <= r < |c| :: c[r][a[r]] - u[r] - v[a[r]] == 0.0
    ensures Total(c, a, n) - PotentialSum(v, a, n) <= Total(c, b, n) - PotentialSum(v, b, n)
  {
    if n > 0 {
      TotalBounds(c, u, v, a, b, n - 1);
      assert c[n - 1][b[n - 1]] - u[n - 1] - v[b[n - 1]] >= 0.0;
    }
  }

  /** Linear-programming duality: feasible potentials that are tight on `a`, non-positive, and
      zero on the columns `a` leaves free certify that `a` is optimal. */
  lemma DualCertificate(c: Matrix, u: seq<real>, v: seq<real>, a: seq<int>)
    requires Rectangular(c) && |u| == |c| && |v| == |c[0]| && IsAssignment(c, a)
    requires forall r, j | 0 <= r < |c| && 0 <= j < |c[0]| :: c[r][j] - u[r] - v[j] >= 0.0
    requires forall r | 0 <= r < |c| :: c[r][a[r]] - u[r] - v[a[r]] == 0.0
    requires forall j | 0 <= j < |v| :: v[j] <= 0.0 && (j !in a ==> v[j] == 0.0)
    ensures Optimal(c, a)
  {
    forall b: seq<int> | IsAssignment(c, b)
      ensures Total(c, a, |c|) <= Total(c, b, |c|)
    {
      TotalBounds(c, u, v, a, b, |c|);
      SumByColumn(v, a, |a|);
      SumByColumn(v, b, |b|);
      ColumnSumLeast(v, a, b, |v|);
    }
  }

  // ----- the solver ----------------------------------------------------------------------

  /** The alternating tree grown for row `i`.  Column 0 stands for row `i` itself; `used` marks
      the columns reached, `rank` the order in which they were reached. */
  ghost predicate Tree(p: seq<int>, way: seq<int>, used: seq<bool>, rank: seq<int>, n: int)
  {
    && |way| == |p| && |used| == |p| && |rank| == |p|
    && (forall j | 0 <= j < |p| && used[j] :: 0 <= rank[j] < n && p[j] != 0)
    && (forall j | 1 <= j < |p| && used[j] :: 0 <= way[j] < |p| && used[way[j]] && rank[way[j]] < rank[j])
  }

  ghost predicate Shape(c: Matrix, u: seq<real>, v: seq<real>, p: seq<int>, way: seq<int>, used: seq<bool>,
                        minv: seq<Slack>)
  {
    && Rectangular(c) && |u| == |c| + 1 && |v| == |c[0]| + 1
    && |p| == |way| == |used| == |minv| == |v|
    && forall j | 0 <= j < |p| :: 0 <= p[j] <= |c| && (used[j] ==> p[j] != 0)
  }

  /** Columns are reached from the tree; those inside it along edges of reduced cost zero, those
      outside it along an edge whose reduced cost is the recorded slack. */
  ghost predicate Reached(c: Matrix, u: seq<real>, v: seq<real>, p: seq<int>, way: seq<int>, used: seq<bool>,
                          minv: seq<Slack>)
    requires Shape(c, u, v, p, way, used, minv)
  {
    forall j | 1 <= j < |p| && (used[j] || minv[j].Finite?) ::
      && 0 <= way[j] < |p| && used[way[j]]
      && Reduced(c, u, v, p[way[j]], j) == if used[j] then 0.0 else minv[j].value
  }

  /** The slack recorded for a column outside the tree bounds its reduced cost from the tree. */
  ghost predicate Bounded(c: Matrix, u: seq<real>, v: seq<real>, p: seq<int>, way: seq<int>, used: seq<bool>,
                          minv: seq<Slack>)
    requires Shape(c, u, v, p, way, used, minv)
  {
    forall j, k | 1 <= j < |p| && !used[j] && 0 <= k < |p| && used[k] ::
      minv[j].Finite? && Reduced(c, u, v, p[k], j) >= minv[j].value
  }

  ghost predicate Gridded(u: seq<real>, v: seq<real>, minv: seq<Slack>, q: int) {
    && GridSeq(u, q) && GridSeq(v, q)
    && (forall j | 1 <= j < |minv| && minv[j].Finite? :: OnGrid(minv[j].value, q))
  }

  /** The exact facts kept while the tree of row `i` grows, on the grid `1 / q`: rows up to `n`
      are dual feasible, and slacks and predecessors are those of the tree. */
  ghost predicate Priced(c: Matrix, u: seq<real>, v: seq<real>, p: seq<int>, way: seq<int>, used: seq<bool>,
                         minv: seq<Slack>, n: int, q: int)
    requires Shape(c, u, v, p, way, used, minv) && 0 <= n <= |c|
  {
    && Dual(c, u, v, p, n, 0)
    && Reached(c, u, v, p, way, used, minv)
    && Bounded(c, u, v, p, way, used, minv)
    && Gridded(u, v, minv, q)
  }

  lemma {:induction false} ImageSize(m: seq<int>, n: nat) returns (image: set<int>)
    requires n < |m|
    ensures forall r | 1 <= r <= n :: m[r] in image
    ensures |image| <= n
  {
    if n == 0 {
      image := {};
    } else {
      image := ImageSize(m, n - 1);
      image := image + {m[n]};
    }
  }

  ghost function UpTo(n: nat): (s: set<int>)
    ensures forall j :: j in s <==> 0 <= j < n
    ensures |s| == n
  {
    if n == 0 then {} else UpTo(n - 1) + {n - 1}
  }

  /** The tree cannot swallow every column: there are more columns than matched rows. */
  lemma FreeColumn(p: seq<int>, m: seq<int>, i: int, used: seq<bool>)
    requires |p| > 0 && Matched(p, m, i, |p|) && i < |p| && |used| == |p|
    requires forall j | 0 <= j < |p| && used[j] :: p[j] != 0
    requires used[0]
    ensures exists j :: 1 <= j < |p| && !used[j]
  {
    if forall j :: 1 <= j < |p| ==> used[j] {
      var image := ImageSize(m, i);
      var columns := UpTo(|p|);
      forall j | j in columns
        ensures j in image
      {
        assert used[j] && p[j] != 0 && m[p[j]] == j;
      }
      Ordering.SubsetSize(columns, image);
      assert false;
    }
  }

  /** The slack and column a scan settles on: a column replaces the one before only if its slack is
      lower by more than the tolerance. */
  function Choice(minv: seq<Slack>, used: seq<bool>): (Slack, int)
    requires |minv| == |used|
  {
    var n := |minv| - 1;
    if n <= 0 then (Infinite, 0)
    else
      var best := Choice(minv[..n], used[..n]);
      if !used[n] && Below(minv[n], best.0) then (minv[n], n) else best
  }

  /** The choice is an open column, and no open slack is lower by more than the tolerance. */
  lemma {:induction false} ChoiceFacts(minv: seq<Slack>, used: seq<bool>)
    requires |minv| == |used| && forall j | 1 <= j < |minv| && !used[j] :: minv[j].Finite?
    ensures var (delta, k) := Choice(minv, used);
      && (forall j | 1 <= j < |minv| && !used[j] :: !Below(minv[j], delta))
      && if k == 0 then delta == Infinite && forall j | 1 <= j < |minv| :: used[j]
         else 1 <= k < |minv| && !used[k] && delta == minv[k]
  {
    var n := |minv| - 1;
    if n > 0 {
      ChoiceFacts(minv[..n], used[..n]);
    }
  }

  /** On a grid the scan settles on the first open column among those of least slack. */
  lemma {:induction false} FirstLeast(minv: seq<Slack>, used: seq<bool>, q: int)
    requires |minv| == |used| && 0 < q < INVERSE_EPSILON
    requires forall j | 1 <= j < |minv| && !used[j] :: minv[j].Finite? && OnGrid(minv[j].value, q)
    ensures var (delta, k) := Choice(minv, used);
      if k == 0 then delta == Infinite && forall j | 1 <= j < |minv| :: used[j]
      else
        && 1 <= k < |minv| && !used[k] && delta == minv[k]
        && (forall j | 1 <= j < |minv| && !used[j] :: minv[k].value <= minv[j].value)
        && (forall j | 1 <= j < k && !used[j] :: minv[k].value < minv[j].value)
  {
    var n := |minv| - 1;
    if n > 0 {
      FirstLeast(minv[..n], used[..n], q);
      var best := Choice(minv[..n], used[..n]);
      if !used[n] && best.1 != 0 {
        GridApart(minv[n].value, best.0.value, q);
      }
    }
  }

  /** The choice among the first columns, one column at a time. */
  lemma ChoiceStep(minv: seq<Slack>, used: seq<bool>, j: nat)
    requires |minv| == |used| && 1 <= j < |minv|
    ensures Choice(minv[..1], used[..1]) == (Infinite, 0)
    ensures var best := Choice(minv[..j], used[..j]);
      Choice(minv[..j + 1], used[..j + 1]) == if !used[j] && Below(minv[j], best.0) then (minv[j], j) else best
  {
    assert minv[..j + 1][..j] == minv[..j] && used[..j + 1][..j] == used[..j];
  }

  /** What one scan of row `i0` from column `j0` does to slacks and predecessors. */
  ghost predicate Scanned(c: Matrix, u: seq<real>, v: seq<real>, way: seq<int>, used: seq<bool>, minv: seq<Slack>,
                          j0: int, i0: int, way': seq<int>, minv': seq<Slack>, delta: Slack, j1: int)
  {
    && Rectangular(c) && |u| == |c| + 1 && 1 <= i0 <= |c|
    && |way| == |used| == |minv| == |way'| == |minv'| == |v| == |c[0]| + 1
    && (forall j | 0 <= j < |used| && (j == 0 || used[j]) :: minv'[j] == minv[j] && way'[j] == way[j])
    && (forall j | 1 <= j < |used| && !used[j] ::
          var cur := Finite(Reduced(c, u, v, i0, j));
          if Below(cur, minv[j]) then minv'[j] == cur && way'[j] == j0
          else minv'[j] == minv[j] && way'[j] == way[j])
    && ((exists j :: 1 <= j < |used| && !used[j])
        ==> 1 <= j1 < |used| && !used[j1] && minv'[j1] == delta && delta.Finite?)
    && (delta, j1) == Choice(minv', used)
    && (forall j | 1 <= j < |used| && !used[j] :: !Below(minv'[j], delta))
  }

  /** The slacks a row starts with, and the column, counted from one, that it is given alone. */
  function RowSlacks(row: seq<real>): (slacks: seq<Slack>)
    ensures |slacks| == |row| + 1
  {
    [Infinite] + seq(|row|, j requires 0 <= j < |row| => Finite(row[j]))
  }

  function RowPick(row: seq<real>): int {
    Choice(RowSlacks(row), [true] + seq(|row|, _ => false)).1
  }

  predicate Zeroed(s: seq<real>) {
    forall j | 0 <= j < |s| :: s[j] == 0.0
  }

  /** The state in which the first row is scanned. */
  ghost predicate Blank(u: seq<real>, v: seq<real>, used: seq<bool>, minv: seq<Slack>) {
    && Zeroed(u) && Zeroed(v)
    && (forall j | 0 <= j < |used| :: !used[j]) && (forall j | 0 <= j < |minv| :: minv[j] == Infinite)
  }

  /** No column is matched. */
  predicate Untouched(p: seq<int>) {
    forall j | 1 <= j < |p| :: p[j] == 0
  }

  /** The first scan of all. */
  lemma BlankScan(c: Matrix, u: seq<real>, v: seq<real>, way: seq<int>, used: seq<bool>, minv: seq<Slack>,
                  i0: int, way': seq<int>, minv': seq<Slack>, delta: Slack, j1: int)
    requires |used| > 0 && Scanned(c, u, v, way, used[0 := true], minv, 0, i0, way', minv', delta, j1)
    requires Blank(u, v, used, minv)
    ensures j1 == RowPick(c[i0 - 1]) && 1 <= j1 < |way'| && way'[j1] == 0
  {
    var row := c[i0 - 1];
    assert minv' == RowSlacks(row);
    assert used[0 := true] == [true] + seq(|row|, _ => false);
    assert !used[0 := true][1];
  }

  lemma UnitAtMost(q: int)
    requires q >= INVERSE_EPSILON
    ensures 0.0 < 1.0 / q as real <= EPSILON
    ensures OnGrid(1.0 / q as real, q) && OnGrid(0.0, q)
  {
    var scale := q as real;
    var unit := 1.0 / scale;
    assert unit * scale == 1.0;
    assert Multiple(unit, q, 1) && Multiple(0.0, q, 0);
    assert EPSILON * scale >= 1.0;
    assert unit <= EPSILON;
  }

  /** On any finer grid the scan may miss the least: of two entries one unit apart it keeps the
      first, even if the second is less. */
  lemma NearTieMissed(q: int)
    requires q >= INVERSE_EPSILON
    ensures RowPick([1.0 / q as real, 0.0]) == 1
  {
    var row := [1.0 / q as real, 0.0];
    var minv, used := RowSlacks(row), [true] + seq(2, _ => false);
    UnitAtMost(q);
    ChoiceStep(minv, used, 1);
    ChoiceStep(minv, used, 2);
    assert minv[..3] == minv && used[..3] == used;
  }

  /** The column picked for a row alone is one of its least entries. */
  ghost predicate LeastPicked(row: seq<real>) {
    1 <= RowPick(row) <= |row| && forall j | 0 <= j < |row| :: row[RowPick(row) - 1] <= row[j]
  }

  lemma LeastOnGrid(row: seq<real>, q: int)
    requires row != [] && GridSeq(row, q) && 0 < q < INVERSE_EPSILON
    ensures LeastPicked(row)
  {
    var minv, used := RowSlacks(row), [true] + seq(|row|, _ => false);
    FirstLeast(minv, used, q);
    assert !used[1];
    forall j | 0 <= j < |row|
      ensures row[RowPick(row) - 1] <= row[j]
    {
      assert !used[j + 1] && minv[j + 1] == Finite(row[j]);
    }
  }

  /** One row alone is settled on a least entry, for all rows on a grid, exactly if the grid is
      coarser than the tolerance. */
  lemma OneRowExactly(q: int)
    requires q > 0
    ensures (forall row: seq<real> | row != [] && GridSeq(row, q) :: LeastPicked(row)) <==> q < INVERSE_EPSILON
  {
    if q < INVERSE_EPSILON {
      forall row: seq<real> | row != [] && GridSeq(row, q)
        ensures LeastPicked(row)
      {
        LeastOnGrid(row, q);
      }
    } else {
      var row := [1.0 / q as real, 0.0];
      UnitAtMost(q);
      NearTieMissed(q);
      assert GridSeq(row, q) && row[0] > row[1];
      assert !LeastPicked(row);
    }
  }

  /** One scan: relax every column outside the tree against row `i0`, and pick the least slack. */
  method ScanColumns(c: Matrix, u: array<real>, v: array<real>, way: array<int>, minv: array<Slack>,
                     used: array<bool>, j0: int, i0: int)
    returns (delta: Slack, j1: int)
    requires Rectangular(c) && u.Length == |c| + 1
    requires v.Length == way.Length == minv.Length == used.Length == |c[0]| + 1
    requires 0 <= j0 < used.Length && 1 <= i0 <= |c|
    modifies way, minv
    ensures Scanned(c, u[..], v[..], old(way[..]), used[..], old(minv[..]), j0, i0, way[..], minv[..], delta, j1)
  {
    delta, j1 := Infinite, 0;
    assert Choice(minv[..1], used[..1]) == (Infinite, 0);
    hide Choice, Reduced;
    for j := 1 to used.Length
      invariant (delta, j1) == Choice(minv[..j], used[..j]) && 0 <= j1 < j
      invariant forall k | 0 <= k < used.Length && (k == 0 || k >= j || used[k]) ::
                  minv[k] == old(minv[k]) && way[k] == old(way[k])
      invariant forall k | 1 <= k < j && !used[k] ::
                  var cur := Finite(Reduced(c, u[..], v[..], i0, k));
                  if Below(cur, old(minv[k])) then minv[k] == cur && way[k] == j0
                  else minv[k] == old(minv[k]) && way[k] == old(way[k])
    {
      if !used[j] {
        var cur := Finite(c[i0 - 1][j - 1] - u[i0] - v[j]);
        assert cur.value == Reduced(c, u[..], v[..], i0, j) by { ReducedIs(c, u[..], v[..], i0, j); }
        if Below(cur, minv[j]) {
          minv[j] := cur;
          way[j] := j0;
        }
        if Below(minv[j], delta) || (Near(minv[j], delta) && j < j1) {
          delta := minv[j];
          j1 := j;
        }
      }
      ChoiceStep(minv[..], used[..], j);
      assert minv[..][..j] == minv[..j] && used[..][..j] == used[..j];
      assert minv[..][..j + 1] == minv[..j + 1] && used[..][..j + 1] == used[..j + 1];
    }
    assert minv[..used.Length] == minv[..] && used[..used.Length] == used[..];
    ChoiceFacts(minv[..], used[..]);
  }

  lemma ReducedIs(c: Matrix, u: seq<real>, v: seq<real>, r: int, j: int)
    requires Rectangular(c) && |u| == |c| + 1 && |v| == |c[0]| + 1
    requires 1 <= r <= |c| && 1 <= j <= |c[0]|
    ensures Reduced(c, u, v, r, j) == c[r - 1][j - 1] - u[r] - v[j]
  {
  }

  /** What moving the potentials of the tree by `delta` does. */
  ghost predicate Shifted(u: seq<real>, v: seq<real>, m: seq<int>, used: seq<bool>, minv: seq<Slack>, i: int,
                          delta: real, u': seq<real>, v': seq<real>, minv': seq<Slack>)
  {
    && |u'| == |u| && |v| == |minv| == |v'| == |minv'| == |used| && i < |u| && i < |m|
    && (forall r | 1 <= r <= i :: 0 <= m[r] < |used|)
    && (forall r | 1 <= r <= i :: u'[r] == u[r] + if used[m[r]] then delta else 0.0)
    && (forall r | 0 <= r < |u| && !(1 <= r <= i) :: u'[r] == u[r])
    && (forall j | 0 <= j < |v| :: v'[j] == v[j] - if used[j] then delta else 0.0)
    && (forall j | 0 <= j < |v| :: minv'[j] == if used[j] then minv[j] else Minus(minv[j], delta))
  }

  /** Move the potentials of the tree by `delta`, and the remaining slacks towards it. */
  method ShiftPotentials(u: array<real>, v: array<real>, p: array<int>, minv: array<Slack>, used: array<bool>,
                         delta: real, ghost m: seq<int>, ghost i: int)
    requires u != v && p.Length == v.Length == minv.Length == used.Length
    requires Matched(p[..], m, i, p.Length) && i < u.Length
    requires forall j | 0 <= j < p.Length && used[j] :: p[j] != 0
    modifies u, v, minv
    ensures Shifted(old(u[..]), old(v[..]), m, used[..], old(minv[..]), i, delta, u[..], v[..], minv[..])
  {
    for j := 0 to p.Length
      invariant forall r | 1 <= r <= i :: u[r] == old(u[r]) + if m[r] < j && used[m[r]] then delta else 0.0
      invariant forall r | 0 <= r < u.Length && !(1 <= r <= i) :: u[r] == old(u[r])
      invariant forall k | 0 <= k < v.Length ::
                  v[k] == old(v[k]) - if k < j && used[k] then delta else 0.0
      invariant forall k | 0 <= k < v.Length ::
                  minv[k] == if k < j && !used[k] then Minus(old(minv[k]), delta) else old(minv[k])
    {
      assert p[j] == p[..][j];
      if used[j] {
        assert m[p[j]] == j;
        u[p[j]] := u[p[j]] + delta;
        v[j] := v[j] - delta;
      } else {
        minv[j] := Minus(minv[j], delta);
      }
    }
  }

  lemma ReducedOnGrid(c: Matrix, u: seq<real>, v: seq<real>, r: int, j: int, q: int)
    requires Rectangular(c) && |u| == |c| + 1 && |v| == |c[0]| + 1
    requires 1 <= r <= |c| && 1 <= j <= |c[0]|
    requires GridMatrix(c, q) && GridSeq(u, q) && GridSeq(v, q)
    ensures OnGrid(Reduced(c, u, v, r, j), q)
  {
    GridAdd(c[r - 1][j - 1], u[r], q);
    GridAdd(c[r - 1][j - 1] - u[r], v[j], q);
  }

  /** The slack kept by a relaxation is the smaller of the two. */
  function Relaxed(cur: real, old_: Slack): real {
    if Below(Finite(cur), old_) then cur else if old_.Finite? then old_.value else cur
  }

  lemma RelaxedExact(cur: real, old_: Slack, q: int)
    requires 0 < q < INVERSE_EPSILON && OnGrid(cur, q) && (old_.Finite? ==> OnGrid(old_.value, q))
    ensures var s := Relaxed(cur, old_); OnGrid(s, q) && s <= cur && (old_.Finite? ==> s <= old_.value)
  {
    if old_.Finite? {
      GridApart(cur, old_.value, q);
    }
  }

  /** Scanning row `p[j0]` once column `j0` has joined the tree keeps the exact facts. */
  lemma ScanKeeps(c: Matrix, u: seq<real>, v: seq<real>, p: seq<int>, way: seq<int>, used: seq<bool>,
                  minv: seq<Slack>, q: int, j0: int, way': seq<int>, minv': seq<Slack>, delta: Slack, j1: int)
    requires Shape(c, u, v, p, way, used, minv) && |way'| == |minv'| == |p|
    requires 0 < q < INVERSE_EPSILON && GridMatrix(c, q)
    requires 0 <= j0 < |p| && !used[j0] && p[j0] != 0
    requires Reached(c, u, v, p, way, used, minv) && Bounded(c, u, v, p, way, used, minv) && Gridded(u, v, minv, q)
    requires if used[0] then j0 != 0 && minv[j0] == Finite(0.0) else j0 == 0 && forall j | 0 <= j < |p| :: !used[j]
    requires Scanned(c, u, v, way, used[j0 := true], minv, j0, p[j0], way', minv', delta, j1)
    ensures Reached(c, u, v, p, way', used[j0 := true], minv')
    ensures Bounded(c, u, v, p, way', used[j0 := true], minv')
    ensures Gridded(u, v, minv', q)
  {
    forall j | 1 <= j < |p| && !used[j] && j != j0
      ensures minv'[j].Finite? && OnGrid(minv'[j].value, q)
      ensures minv'[j].value <= Reduced(c, u, v, p[j0], j)
      ensures minv[j].Finite? ==> minv'[j].value <= minv[j].value
    {
      var cur := Reduced(c, u, v, p[j0], j);
      ReducedOnGrid(c, u, v, p[j0], j, q);
      RelaxedExact(cur, minv[j], q);
      assert minv'[j] == Finite(Relaxed(cur, minv[j]));
    }
  }

  /** Moving the potentials by the least slack keeps the exact facts. */
  lemma ShiftKeeps(c: Matrix, u: seq<real>, v: seq<real>, p: seq<int>, m: seq<int>, way: seq<int>, used: seq<bool>,
                   minv: seq<Slack>, i: int, delta: real, u': seq<real>, v': seq<real>, minv': seq<Slack>)
    requires Shape(c, u, v, p, way, used, minv) && |u'| == |u| && |v'| == |minv'| == |v|
    requires 1 <= i <= |c| && Matched(p, m, i, |p|) && used[0]
    requires Reached(c, u, v, p, way, used, minv) && Bounded(c, u, v, p, way, used, minv)
    requires Shifted(u, v, m, used, minv, i, delta, u', v', minv')
    ensures Reached(c, u', v', p, way, used, minv')
    ensures Bounded(c, u', v', p, way, used, minv')
  {
    forall j | 0 <= j < |p| && used[j]
      ensures 1 <= p[j] <= i && u'[p[j]] == u[p[j]] + delta
    {
      assert m[p[j]] == j;
    }
  }

  /** Moving the potentials by the least slack keeps dual feasibility, and extends it to row `i`. */
  lemma ShiftDual(c: Matrix, u: seq<real>, v: seq<real>, p: seq<int>, m: seq<int>, way: seq<int>, used: seq<bool>,
                  minv: seq<Slack>, i: int, n: int, delta: real, u': seq<real>, v': seq<real>, minv': seq<Slack>)
    requires Shape(c, u, v, p, way, used, minv) && |u'| == |u| && |v'| == |minv'| == |v|
    requires 1 <= i <= |c| && 0 <= n <= |c| && Matched(p, m, i, |p|) && used[0] && p[0] == i
    requires Dual(c, u, v, p, n, 0) && Bounded(c, u, v, p, way, used, minv)
    requires if n == i then delta >= 0.0 else n == i - 1 && forall j | 1 <= j < |p| :: !used[j]
    requires forall j | 1 <= j < |p| && !used[j] :: minv[j].Finite? && minv[j].value >= delta
    requires Shifted(u, v, m, used, minv, i, delta, u', v', minv')
    ensures Dual(c, u', v', p, i, 0)
  {
    forall r, j | 1 <= r <= i && 1 <= j <= |c[0]|
      ensures Reduced(c, u', v', r, j) >= 0.0
    {
      assert p[m[r]] == r;
      if used[m[r]] && !used[j] {
        assert Reduced(c, u, v, p[m[r]], j) >= minv[j].value;
      } else {
        assert r <= n;
        assert Reduced(c, u, v, r, j) >= 0.0;
      }
    }
    forall j | 1 <= j <= |c[0]| && p[j] != 0
      ensures Reduced(c, u', v', p[j], j) == 0.0
    {
      assert m[p[j]] == j;
      assert Reduced(c, u, v, p[j], j) == 0.0;
    }
  }

  lemma ShiftGrid(u: seq<real>, v: seq<real>, minv: seq<Slack>, delta: real, q: int,
                  u': seq<real>, v': seq<real>, minv': seq<Slack>)
    requires |u'| == |u| && |v'| == |v| == |minv| == |minv'|
    requires Gridded(u, v, minv, q) && OnGrid(delta, q)
    requires forall r | 0 <= r < |u| :: u'[r] == u[r] || u'[r] == u[r] + delta
    requires forall j | 0 <= j < |v| :: v'[j] == v[j] || v'[j] == v[j] - delta
    requires forall j | 0 <= j < |v| :: minv'[j] == minv[j] || minv'[j] == Minus(minv[j], delta)
    ensures Gridded(u', v', minv', q)
  {
    forall r | 0 <= r < |u| ensures OnGrid(u'[r], q) {
      GridAdd(u[r], delta, q);
    }
    forall j | 0 <= j < |v| ensures OnGrid(v'[j], q) {
      GridAdd(v[j], delta, q);
    }
    forall j | 1 <= j < |minv| && minv'[j].Finite? ensures OnGrid(minv'[j].value, q) {
      GridAdd(minv[j].value, delta, q);
    }
  }

  /** The facts about the growing tree that hold whatever the costs are.  `j0` is the next column. */
  ghost predicate Growing(p: seq<int>, m: seq<int>, way: seq<int>, used: seq<bool>, minv: seq<Slack>, rank: seq<int>,
                          n: int, i: int, j0: int)
  {
    && 1 <= i < |p| && Matched(p, m, i, |p|) && p[0] == i && |minv| == |p|
    && Tree(p, way, used, rank, n) && 0 <= j0 < |p| && !used[j0] && (used[0] <==> j0 != 0)
    && (forall j | 1 <= j < |p| && !used[j] && minv[j].Finite? :: 0 <= way[j] < |p| && used[way[j]])
    && if used[0] then (forall j | 1 <= j < |p| && !used[j] :: minv[j].Finite?)
       else (forall j | 0 <= j < |p| :: !used[j] && minv[j].Infinite?)
  }

  lemma GrowStep(c: Matrix, u: seq<real>, v: seq<real>, p: seq<int>, m: seq<int>, way: seq<int>, used: seq<bool>,
                 minv: seq<Slack>, rank: seq<int>, n: int, i: int, j0: int,
                 way': seq<int>, minv1: seq<Slack>, minv': seq<Slack>, delta: Slack, j1: int)
    requires Growing(p, m, way, used, minv, rank, n, i, j0) && p[j0] != 0 && |c| >= i && n >= 0
    requires Scanned(c, u, v, way, used[j0 := true], minv, j0, p[j0], way', minv1, delta, j1)
    requires |minv'| == |minv1| && forall j | 0 <= j < |p| :: minv1[j].Finite? <==> minv'[j].Finite?
    ensures Growing(p, m, way', used[j0 := true], minv', rank[j0 := n], n + 1, i, j1) && delta.Finite?
  {
    FreeColumn(p, m, i, used[j0 := true]);
  }

  /** `delta` is the least slack outside the tree; `n` is the last row known to be feasible. */
  ghost predicate LeastSlack(used: seq<bool>, minv: seq<Slack>, delta: real) {
    |minv| == |used| && forall j | 1 <= j < |used| && !used[j] :: minv[j].Finite? && minv[j].value >= delta
  }

  lemma LeastIsExact(p: seq<int>, m: seq<int>, way: seq<int>, used: seq<bool>, minv: seq<Slack>, rank: seq<int>,
                     n: int, i: int, j0: int, u: seq<real>, v: seq<real>, q: int, delta: Slack)
    requires Growing(p, m, way, used, minv, rank, n, i, j0) && used[0]
    requires 0 < q < INVERSE_EPSILON && Gridded(u, v, minv, q) && delta.Finite? && OnGrid(delta.value, q)
    requires forall j | 1 <= j < |used| && !used[j] :: !Below(minv[j], delta)
    ensures LeastSlack(used, minv, delta.value)
  {
    forall j | 1 <= j < |p| && !used[j]
      ensures minv[j].Finite? && minv[j].value >= delta.value
    {
      assert minv[j].Finite?;
      GridApart(minv[j].value, delta.value, q);
    }
  }

  lemma LeastIsNonNegative(c: Matrix, u: seq<real>, v: seq<real>, p: seq<int>, way: seq<int>, used: seq<bool>,
                           minv: seq<Slack>, i: int, j1: int)
    requires Shape(c, u, v, p, way, used, minv) && 0 <= i <= |c|
    requires forall j | 0 <= j < |p| :: p[j] <= i
    requires Dual(c, u, v, p, i, 0) && Reached(c, u, v, p, way, used, minv)
    requires 1 <= j1 < |p| && !used[j1] && minv[j1].Finite?
    ensures minv[j1].value >= 0.0
  {
    assert Reduced(c, u, v, p[way[j1]], j1) == minv[j1].value;
  }

  lemma GrowPriced(c: Matrix, u: seq<real>, v: seq<real>, p: seq<int>, m: seq<int>, way: seq<int>, used: seq<bool>,
                   minv: seq<Slack>, rank: seq<int>, n: int, i: int, j0: int, q: int, j1: int, first: bool,
                   u': seq<real>, v': seq<real>, minv': seq<Slack>)
    requires Growing(p, m, way, used, minv, rank, n, i, j1) && used[0] && i <= |c|
    requires first ==> forall j | 1 <= j < |p| :: !used[j]
    requires 0 < q < INVERSE_EPSILON && Shape(c, u, v, p, way, used, minv)
    requires Priced(c, u, v, p, way, used, minv, if first then i - 1 else i, q)
    requires minv[j1].Finite? && forall j | 1 <= j < |used| && !used[j] :: !Below(minv[j], minv[j1])
    requires Shifted(u, v, m, used, minv, i, minv[j1].value, u', v', minv')
    ensures Shape(c, u', v', p, way, used, minv')
    ensures Priced(c, u', v', p, way, used, minv', i, q) && minv'[j1] == Finite(0.0)
  {
    hide Dual, Reached, Bounded, Reduced, Tree, Below, GridMatrix;
    var delta := minv[j1].value;
    LeastIsExact(p, m, way, used, minv, rank, n, i, j1, u, v, q, minv[j1]);
    if !first {
      LeastIsNonNegative(c, u, v, p, way, used, minv, i, j1);
    }
    ShiftDual(c, u, v, p, m, way, used, minv, i, if first then i - 1 else i, delta, u', v', minv');
    ShiftKeeps(c, u, v, p, m, way, used, minv, i, delta, u', v', minv');
    ShiftGrid(u, v, minv, delta, q, u', v', minv');
  }

  /** The loop invariant of the tree: the structural facts, and on a grid the exact ones. */
  ghost predicate TreeInvariant(c: Matrix, u: seq<real>, v: seq<real>, p: seq<int>, m: seq<int>, way: seq<int>,
                                used: seq<bool>, minv: seq<Slack>, rank: seq<int>, n: int, i: int, j0: int, q: int)
  {
    && Growing(p, m, way, used, minv, rank, n, i, j0) && n >= 0 && i <= |c|
    && Shape(c, u, v, p, way, used, minv)
    && (q > 0 ==>
          && q < INVERSE_EPSILON && GridMatrix(c, q)
          && Priced(c, u, v, p, way, used, minv, if used[0] then i else i - 1, q)
          && (used[0] ==> minv[j0] == Finite(0.0)))
  }

  /** The exact facts of one round, on a grid. */
  lemma StepPriced(c: Matrix, u: seq<real>, v: seq<real>, p: seq<int>, m: seq<int>, way: seq<int>, used: seq<bool>,
                   minv: seq<Slack>, rank: seq<int>, n: int, i: int, j0: int, q: int,
                   way': seq<int>, minv1: seq<Slack>, delta: Slack, j1: int,
                   u': seq<real>, v': seq<real>, minv': seq<Slack>)
    requires q > 0 && TreeInvariant(c, u, v, p, m, way, used, minv, rank, n, i, j0, q) && p[j0] != 0
    requires Scanned(c, u, v, way, used[j0 := true], minv, j0, p[j0], way', minv1, delta, j1)
    requires delta.Finite? && Shifted(u, v, m, used[j0 := true], minv1, i, delta.value, u', v', minv')
    requires |rank| == |p| && Growing(p, m, way', used[j0 := true], minv1, rank[j0 := n], n + 1, i, j1)
    ensures Shape(c, u', v', p, way', used[j0 := true], minv')
    ensures Priced(c, u', v', p, way', used[j0 := true], minv', i, q) && minv'[j1] == Finite(0.0)
  {
    hide Choice, Dual, Reached, Bounded, Reduced, Tree, GridMatrix, GridSeq, Below;
    ScanKeeps(c, u, v, p, way, used, minv, q, j0, way', minv1, delta, j1);
    GrowPriced(c, u, v, p, m, way', used[j0 := true], minv1, rank[j0 := n], n + 1, i, j0, q, j1, !used[0],
               u', v', minv');
  }

  lemma TreeStep(c: Matrix, u: seq<real>, v: seq<real>, p: seq<int>, m: seq<int>, way: seq<int>, used: seq<bool>,
                 minv: seq<Slack>, rank: seq<int>, n: int, i: int, j0: int, q: int,
                 way': seq<int>, minv1: seq<Slack>, delta: Slack, j1: int,
                 u': seq<real>, v': seq<real>, minv': seq<Slack>)
    requires TreeInvariant(c, u, v, p, m, way, used, minv, rank, n, i, j0, q) && p[j0] != 0
    requires Scanned(c, u, v, way, used[j0 := true], minv, j0, p[j0], way', minv1, delta, j1)
    requires delta.Finite? && Shifted(u, v, m, used[j0 := true], minv1, i, delta.value, u', v', minv')
    ensures TreeInvariant(c, u', v', p, m, way', used[j0 := true], minv', rank[j0 := n], n + 1, i, j1, q)
  {
    assert |rank| == |p|;
    hide Choice, Dual, Reached, Bounded, Reduced, Tree, GridMatrix, GridSeq, Below;
    GrowStep(c, u, v, p, m, way, used, minv, rank, n, i, j0, way', minv1, minv1, delta, j1);
    GrowStep(c, u, v, p, m, way, used, minv, rank, n, i, j0, way', minv1, minv', delta, j1);
    if q > 0 {
      StepPriced(c, u, v, p, m, way, used, minv, rank, n, i, j0, q, way', minv1, delta, j1, u', v', minv');
    }
  }

  /** Take column `j0` into the tree, scan its row and move the potentials; `j1` is next. */
  method TakeColumn(c: Matrix, u: array<real>, v: array<real>, p: array<int>, way: array<int>, minv: array<Slack>,
                    used: array<bool>, j0: int, i: int, ghost m: seq<int>, ghost rank: seq<int>, ghost n: int,
                    ghost q: int)
    returns (j1: int)
    requires u != v && p != way
    requires TreeInvariant(c, u[..], v[..], p[..], m, way[..], used[..], minv[..], rank, n, i, j0, q)
    requires 0 <= j0 < p.Length && p[j0] != 0
    modifies u, v, way, minv, used
    ensures used[..] == old(used[..])[j0 := true]
    ensures TreeInvariant(c, u[..], v[..], p[..], m, way[..], used[..], minv[..], rank[j0 := n], n + 1, i, j1, q)
    ensures 1 <= j1 < p.Length && !used[j1]
    ensures j0 == 0 && Blank(old(u[..]), old(v[..]), old(used[..]), old(minv[..])) ==>
              j1 == RowPick(c[i - 1]) && way[j1] == 0
  {
    ghost var p0, u0, v0, way0, used0, minv0 := p[..], u[..], v[..], way[..], used[..], minv[..];
    TreeBasics(c, u0, v0, p0, m, way0, used0, minv0, rank, n, i, j0, q);
    hide TreeInvariant, Choice, Blank, RowPick, Scanned, Shifted, Matched;
    used[j0] := true;
    var i0 := p[j0];
    assert used[..] == used0[j0 := true] && i0 == p0[j0];
    var delta: Slack;
    delta, j1 := ScanColumns(c, u, v, way, minv, used, j0, i0);
    ghost var minv1 := minv[..];
    ScanFinds(c, u0, v0, p0, m, way0, used[..], minv0, i, j0, i0, way[..], minv1, delta, j1);
    ShiftPotentials(u, v, p, minv, used, delta.value, m, i);
    RoundDone(c, u0, v0, p0, m, way0, used0, minv0, rank, n, i, j0, q, way[..], minv1, delta, j1,
              u[..], v[..], minv[..]);
  }

  /** The scan finds an open column. */
  lemma ScanFinds(c: Matrix, u: seq<real>, v: seq<real>, p: seq<int>, m: seq<int>, way: seq<int>, used: seq<bool>,
                  minv: seq<Slack>, i: int, j0: int, i0: int, way': seq<int>, minv': seq<Slack>, delta: Slack, j1: int)
    requires |p| > 0 && Matched(p, m, i, |p|) && i < |p| && |used| == |p| && used[0]
    requires forall j | 0 <= j < |p| && used[j] :: p[j] != 0
    requires Scanned(c, u, v, way, used, minv, j0, i0, way', minv', delta, j1)
    ensures delta.Finite? && 1 <= j1 < |used| && !used[j1]
  {
    FreeColumn(p, m, i, used);
  }

  /** After one round: the tree has grown, and a first round of all made the first choice. */
  lemma RoundDone(c: Matrix, u: seq<real>, v: seq<real>, p: seq<int>, m: seq<int>, way: seq<int>, used: seq<bool>,
                  minv: seq<Slack>, rank: seq<int>, n: int, i: int, j0: int, q: int,
                  way': seq<int>, minv1: seq<Slack>, delta: Slack, j1: int,
                  u': seq<real>, v': seq<real>, minv': seq<Slack>)
    requires TreeInvariant(c, u, v, p, m, way, used, minv, rank, n, i, j0, q) && p[j0] != 0
    requires Scanned(c, u, v, way, used[j0 := true], minv, j0, p[j0], way', minv1, delta, j1)
    requires delta.Finite? && Shifted(u, v, m, used[j0 := true], minv1, i, delta.value, u', v', minv')
    requires 1 <= j1 < |used| && !used[j0 := true][j1]
    ensures TreeInvariant(c, u', v', p, m, way', used[j0 := true], minv', rank[j0 := n], n + 1, i, j1, q)
    ensures j0 == 0 && Blank(u, v, used, minv) ==> j1 == RowPick(c[i - 1]) && 1 <= j1 < |way'| && way'[j1] == 0
  {
    TreeBasics(c, u, v, p, m, way, used, minv, rank, n, i, j0, q);
    hide TreeInvariant, Choice, Shifted, Blank, RowPick;
    if j0 == 0 && Blank(u, v, used, minv) {
      BlankScan(c, u, v, way, used, minv, p[j0], way', minv1, delta, j1);
    }
    hide Scanned;
    TreeStep(c, u, v, p, m, way, used, minv, rank, n, i, j0, q, way', minv1, delta, j1, u', v', minv');
  }

  /** What one round needs to know of the tree before it starts. */
  lemma TreeBasics(c: Matrix, u: seq<real>, v: seq<real>, p: seq<int>, m: seq<int>, way: seq<int>, used: seq<bool>,
                   minv: seq<Slack>, rank: seq<int>, n: int, i: int, j0: int, q: int)
    requires TreeInvariant(c, u, v, p, m, way, used, minv, rank, n, i, j0, q) && 0 <= j0 < |p| && p[j0] != 0
    ensures Rectangular(c) && |u| == |c| + 1 && |p| == |way| == |used| == |minv| == |v| == |c[0]| + 1 == |rank|
    ensures Matched(p, m, i, |p|) && i < |p| && i <= |c| && !used[j0] && 1 <= p[j0] <= |c|
    ensures (used[0] || j0 == 0) && forall j | 0 <= j < |p| && used[j] :: p[j] != 0
    ensures p[0] == i && 1 <= i
  {
  }

  /** The solver's state between rows: rows `1..i` are matched, and on a grid priced. */
  ghost predicate Solved(c: Matrix, u: seq<real>, v: seq<real>, p: seq<int>, m: seq<int>, i: int, n: int, hole: int,
                         q: int)
  {
    && Rectangular(c) && |u| == |c| + 1 && |v| == |p| == |c[0]| + 1 && |m| == |c| + 1
    && 0 <= i <= |c| && 0 <= n <= |c| && Matched(p, m, i, hole)
    && (q > 0 ==>
          && q < INVERSE_EPSILON && GridMatrix(c, q)
          && GridSeq(u, q) && GridSeq(v, q) && Dual(c, u, v, p, n, hole))
  }

  lemma TreeStart(c: Matrix, u: seq<real>, v: seq<real>, p: seq<int>, m: seq<int>, way: seq<int>,
                  used: seq<bool>, minv: seq<Slack>, i: int, q: int)
    requires 1 <= i && Solved(c, u, v, p, m, i, i - 1, |p|, q) && p[0] == i
    requires |way| == |used| == |minv| == |p| && forall j | 0 <= j < |p| :: !used[j] && minv[j].Infinite?
    ensures TreeInvariant(c, u, v, p, m, way, used, minv, seq(|p|, _ => 0), 0, i, 0, q)
  {
  }

  /** A path in the tree leads from free column `j0` back to column 0. */
  ghost predicate PathFound(c: Matrix, u: seq<real>, v: seq<real>, p: seq<int>, way: seq<int>, used: seq<bool>,
                            rank: seq<int>, n: int, j0: int, q: int)
  {
    && Rectangular(c) && |u| == |c| + 1 && |v| == |p| == |c[0]| + 1
    && (forall j | 0 <= j < |p| :: 0 <= p[j] <= |c|)
    && Tree(p, way, used, rank, n) && 1 <= j0 < |p| && !used[j0] && p[j0] == 0
    && (forall j | 1 <= j < |p| && (used[j] || j == j0) ::
          && 0 <= way[j] < |p| && used[way[j]]
          && (q > 0 ==> Reduced(c, u, v, p[way[j]], j) == 0.0))
  }

  lemma TreeEnd(c: Matrix, u: seq<real>, v: seq<real>, p: seq<int>, m: seq<int>, way: seq<int>,
                used: seq<bool>, minv: seq<Slack>, rank: seq<int>, n: int, i: int, j0: int, q: int)
    requires TreeInvariant(c, u, v, p, m, way, used, minv, rank, n, i, j0, q) && |m| == |c| + 1
    requires 0 <= j0 < |p| && p[j0] == 0
    ensures Solved(c, u, v, p, m, i, i, j0, q)
    ensures PathFound(c, u, v, p, way, used, rank, n, j0, q)
  {
  }

  /** Take columns until a free one is reached. */
  method TakeColumns(c: Matrix, u: array<real>, v: array<real>, p: array<int>, way: array<int>, minv: array<Slack>,
                     used: array<bool>, i: int, ghost m: seq<int>, ghost q: int)
    returns (j0: int, ghost rank: seq<int>, ghost n: int)
    requires u != v && p != way && 0 < p.Length == used.Length && p[0] != 0 && !used[0]
    requires TreeInvariant(c, u[..], v[..], p[..], m, way[..], used[..], minv[..], seq(p.Length, _ => 0), 0, i, 0, q)
    modifies u, v, way, minv, used
    ensures 0 <= j0 < p.Length && p[j0] == 0
    ensures TreeInvariant(c, u[..], v[..], p[..], m, way[..], used[..], minv[..], rank, n, i, j0, q)
    ensures Blank(old(u[..]), old(v[..]), old(used[..]), old(minv[..])) && Untouched(p[..]) ==>
              j0 == RowPick(c[i - 1]) && way[j0] == 0
  {
    hide TreeInvariant, Blank, RowPick;
    j0, rank, n := 0, seq(p.Length, _ => 0), 0;
    ghost var outside := UpTo(p.Length);
    while true
      invariant 0 <= j0 < p.Length == |rank| && p[j0] != 0 && !used[j0]
      invariant TreeInvariant(c, u[..], v[..], p[..], m, way[..], used[..], minv[..], rank, n, i, j0, q)
      invariant forall j | 0 <= j < p.Length && !used[j] :: j in outside
      invariant j0 == 0 ==> u[..] == old(u[..]) && v[..] == old(v[..]) && used[..] == old(used[..]) && minv[..] == old(minv[..])
      invariant Untouched(p[..]) ==> j0 == 0
      decreases outside
    {
      ghost var before := used[..];
      var j1 := TakeColumn(c, u, v, p, way, minv, used, j0, i, m, rank, n, q);
      assert forall j | 0 <= j < p.Length && !used[j] :: !before[j] && j != j0;
      outside := outside - {j0};
      rank, n := rank[j0 := n], n + 1;
      j0 := j1;
      if p[j0] == 0 {
        break;
      }
    }
  }

  /** Grow the alternating tree of row `i` until it reaches a free column. */
  method GrowTree(c: Matrix, u: array<real>, v: array<real>, p: array<int>, way: array<int>, i: int,
                  ghost m: seq<int>, ghost q: int)
    returns (j0: int, ghost reached: seq<bool>, ghost rank: seq<int>, ghost n: int)
    requires 1 <= i && Solved(c, u[..], v[..], p[..], m, i, i - 1, p.Length, q) && p[0] == i
    requires way.Length == p.Length && u != v && p != way
    modifies u, v, way
    ensures Solved(c, u[..], v[..], p[..], m, i, i, j0, q)
    ensures PathFound(c, u[..], v[..], p[..], way[..], reached, rank, n, j0, q)
    ensures Zeroed(old(u[..])) && Zeroed(old(v[..])) && Untouched(p[..]) ==>
              j0 == RowPick(c[i - 1]) && 0 <= j0 < way.Length && way[j0] == 0
  {
    var cols := |c[0]|;
    assert |m| == |c| + 1 && p.Length == cols + 1;
    var minv := new Slack[cols + 1](_ => Infinite);
    var used := new bool[cols + 1](_ => false);
    TreeStart(c, u[..], v[..], p[..], m, way[..], used[..], minv[..], i, q);
    assert Zeroed(u[..]) && Zeroed(v[..]) ==> Blank(u[..], v[..], used[..], minv[..]);
    hide TreeInvariant, Solved, PathFound, Blank, RowPick;
    j0, rank, n := TakeColumns(c, u, v, p, way, minv, used, i, m, q);
    reached := used[..];
    TreeEnd(c, u[..], v[..], p[..], m, way[..], reached, minv[..], rank, n, i, j0, q);
  }

  /** The order in which column `j` was reached; the free column at the end comes last. */
  ghost function Order(used: seq<bool>, rank: seq<int>, n: int, j: int): int
    requires |rank| == |used| && 0 <= j < |used|
  {
    if used[j] then rank[j] else n
  }

  /** While the path is being flipped, `p0` is the matching before and column `j` is open. */
  ghost predicate Flipping(p: seq<int>, p0: seq<int>, used: seq<bool>, rank: seq<int>, n: int, start: int, j: int) {
    && |p| == |p0| == |used| == |rank| && 0 <= j < |p| && (used[j] || j == start)
    && forall k | 0 <= k < |p| && used[k] && rank[k] < Order(used, rank, n, j) :: p[k] == p0[k]
  }

  lemma FlipStep(c: Matrix, u: seq<real>, v: seq<real>, p: seq<int>, m: seq<int>, i: int, p0: seq<int>, way: seq<int>,
                 used: seq<bool>, rank: seq<int>, n: int, start: int, q: int, j: int)
    requires PathFound(c, u, v, p0, way, used, rank, n, start, q)
    requires Flipping(p, p0, used, rank, n, start, j) && j != 0
    requires Solved(c, u, v, p, m, i, i, j, q)
    ensures 0 <= way[j] < |p| && used[way[j]] && 1 <= p[way[j]] <= i
    ensures Order(used, rank, n, way[j]) < Order(used, rank, n, j)
    ensures Flipping(p[j := p[way[j]]], p0, used, rank, n, start, way[j])
    ensures Solved(c, u, v, p[j := p[way[j]]], m[p[way[j]] := j], i, i, way[j], q)
  {
    var k := way[j];
    assert rank[k] < Order(used, rank, n, j);
    assert p[k] == p0[k] && p[k] != 0 && k != j;
    var r := p[k];
    assert m[r] == k;
    var p', m' := p[j := r], m[r := j];
    forall s | 1 <= s <= i
      ensures 0 <= m'[s] < |p'| && m'[s] != k && p'[m'[s]] == s
    {
      if s != r {
        assert p[m[s]] == s && m[s] != k;
      }
    }
    assert Matched(p', m', i, k);
  }

  /** Flip the matching along the path, from the free column back to column 0. */
  method Augment(c: Matrix, p: array<int>, way: array<int>, start: int, ghost u: seq<real>, ghost v: seq<real>,
                 ghost m: seq<int>, ghost i: int, ghost used: seq<bool>, ghost rank: seq<int>, ghost n: int,
                 ghost q: int)
    returns (ghost m': seq<int>)
    requires p != way && PathFound(c, u, v, p[..], way[..], used, rank, n, start, q)
    requires Solved(c, u, v, p[..], m, i, i, start, q)
    modifies p
    ensures Solved(c, u, v, p[..], m', i, i, 0, q)
    ensures 0 <= start < way.Length && way[start] == 0 ==>
              p.Length > 0 && 0 <= old(p[0]) < |m| && m' == m[old(p[0]) := start]
  {
    var j0 := start;
    m' := m;
    ghost var p0, w := p[..], way[..];
    while true
      invariant j0 != 0 && way[..] == w
      invariant Flipping(p[..], p0, used, rank, n, start, j0)
      invariant Solved(c, u, v, p[..], m', i, i, j0, q)
      invariant w[start] == 0 ==> j0 == start && p[..] == p0 && m' == m
      decreases Order(used, rank, n, j0)
    {
      ghost var before := p[..];
      FlipStep(c, u, v, before, m', i, p0, w, used, rank, n, start, q, j0);
      var j1 := way[j0];
      p[j0] := p[j1];
      assert p[..] == before[j0 := before[j1]];
      m' := m'[p[j1] := j0];
      j0 := j1;
      if j0 == 0 {
        break;
      }
    }
  }

  /** Row `i` joins through the pseudo column 0. */
  lemma RowJoins(c: Matrix, u: seq<real>, v: seq<real>, p: seq<int>, m: seq<int>, i: int, q: int)
    requires 1 <= i <= |c| && Solved(c, u, v, p, m, i - 1, i - 1, 0, q)
    ensures Solved(c, u, v, p[0 := i], m[i := 0], i, i - 1, |p|, q)
  {
  }

  /** Read the assignment off the matched columns. */
  method ReadOff(c: Matrix, p: array<int>, ghost m: seq<int>) returns (a: array<int>)
    requires Rectangular(c) && p.Length == |c[0]| + 1 && |m| == |c| + 1
    requires Matched(p[..], m, |c|, 0)
    ensures fresh(a) && a.Length == |c| && forall r | 0 <= r < |c| :: a[r] == m[r + 1] - 1
  {
    a := new int[|c|](_ => -1);
    ghost var p0 := p[..];
    for j := 1 to p.Length
      invariant p[..] == p0
      invariant forall r | 0 <= r < |c| :: a[r] == if m[r + 1] < j then m[r + 1] - 1 else -1
    {
      assert p[j] == p0[j];
      var row := p[j];
      if row != 0 {
        assert m[row] == j;
        a[row - 1] := j - 1;
      }
    }
  }

  lemma ReadOffAssigns(c: Matrix, p: seq<int>, m: seq<int>, a: seq<int>)
    requires Rectangular(c) && |p| == |c[0]| + 1 && |m| == |c| + 1 && Matched(p, m, |c|, 0)
    requires |a| == |c| && forall r | 0 <= r < |c| :: a[r] == m[r + 1] - 1
    ensures IsAssignment(c, a)
    ensures forall j | 0 <= j < |c[0]| && j !in a :: p[j + 1] == 0
  {
    forall r, s | 0 <= r < s < |a|
      ensures a[r] != a[s]
    {
      assert p[m[r + 1]] == r + 1 && p[m[s + 1]] == s + 1;
    }
    forall j | 0 <= j < |c[0]| && p[j + 1] != 0
      ensures j in a
    {
      assert m[p[j + 1]] == j + 1;
      assert a[p[j + 1] - 1] == j;
    }
  }

  lemma ReadOffOptimal(c: Matrix, u: seq<real>, v: seq<real>, p: seq<int>, m: seq<int>, a: seq<int>)
    requires Rectangular(c) && |u| == |c| + 1 && |v| == |p| == |c[0]| + 1 && |m| == |c| + 1
    requires Matched(p, m, |c|, 0) && Dual(c, u, v, p, |c|, 0)
    requires |a| == |c| && forall r | 0 <= r < |c| :: a[r] == m[r + 1] - 1
    requires IsAssignment(c, a) && forall j | 0 <= j < |c[0]| && j !in a :: p[j + 1] == 0
    ensures Optimal(c, a)
  {
    var u1, v1 := u[1..], v[1..];
    forall r, j | 0 <= r < |c| && 0 <= j < |c[0]|
      ensures c[r][j] - u1[r] - v1[j] == Reduced(c, u, v, r + 1, j + 1) >= 0.0
    {
    }
    forall r | 0 <= r < |c|
      ensures c[r][a[r]] - u1[r] - v1[a[r]] == 0.0
    {
      assert p[m[r + 1]] == r + 1;
      assert Reduced(c, u, v, p[m[r + 1]], m[r + 1]) == 0.0;
    }
    DualCertificate(c, u1, v1, a);
  }

  /** One round of the solver: match row `i` at least cost, rearranging the rows before it. */
  method AddRow(c: Matrix, u: array<real>, v: array<real>, p: array<int>, way: array<int>, i: int,
                ghost m: seq<int>, ghost q: int)
    returns (ghost m': seq<int>)
    requires 1 <= i <= |c| && Solved(c, u[..], v[..], p[..], m, i - 1, i - 1, 0, q)
    requires way.Length == p.Length && u != v && p != way
    modifies u, v, p, way
    ensures Solved(c, u[..], v[..], p[..], m', i, i, 0, q)
    ensures Zeroed(old(u[..])) && Zeroed(old(v[..])) && Untouched(old(p[..])) ==>
              i < |m'| && m'[i] == RowPick(c[i - 1])
  {
    RowJoins(c, u[..], v[..], p[..], m, i, q);
    ghost var before, joined := p[..], m[i := 0];
    p[0] := i;
    assert p[..] == before[0 := i];
    hide Solved, PathFound;
    var j0; ghost var reached, rank, n;
    j0, reached, rank, n := GrowTree(c, u, v, p, way, i, joined, q);
    m' := Augment(c, p, way, j0, u[..], v[..], joined, i, reached, rank, n, q);
  }

  /** Match all rows, one after the other. */
  method AddRows(c: Matrix, u: array<real>, v: array<real>, p: array<int>, way: array<int>, ghost m: seq<int>,
                 ghost q: int)
    returns (ghost m': seq<int>)
    requires |c| > 0 && Solved(c, u[..], v[..], p[..], m, 0, 0, 0, q) && |m| == |c| + 1
    requires way.Length == p.Length && u != v && p != way
    requires Zeroed(u[..]) && Zeroed(v[..]) && Untouched(p[..])
    modifies u, v, p, way
    ensures Solved(c, u[..], v[..], p[..], m', |c|, |c|, 0, q)
    ensures |c| == 1 ==> |m'| == 2 && m'[1] == RowPick(c[0])
  {
    hide Solved, RowPick;
    m' := m;
    for i := 1 to |c| + 1
      invariant Solved(c, u[..], v[..], p[..], m', i - 1, i - 1, 0, q)
      invariant i == 1 ==> Zeroed(u[..]) && Zeroed(v[..]) && Untouched(p[..])
      invariant i > 1 && |c| == 1 ==> |m'| == 2 && m'[1] == RowPick(c[0])
    {
      m' := AddRow(c, u, v, p, way, i, m', q);
      InverseSize(c, u[..], v[..], p[..], m', i, i, 0, q);
    }
  }

  lemma InverseSize(c: Matrix, u: seq<real>, v: seq<real>, p: seq<int>, m: seq<int>, i: int, n: int, hole: int, q: int)
    requires Solved(c, u, v, p, m, i, n, hole, q)
    ensures |m| == |c| + 1
  {
  }

  /** The solver. */
  method MinimumCostAssignment(costs: Matrix) returns (r: Outcome<seq<int>>)
    ensures costs == [] ==> r == Ok([])
    ensures costs != [] && !Rectangular(costs) ==> r == Err(NotRectangular)
    ensures Rectangular(costs) ==> r.Ok? && IsAssignment(costs, r.value)
    ensures Rectangular(costs) && Separated(costs) ==> Optimal(costs, r.value)
    ensures Rectangular(costs) && |costs| == 1 ==> r.value == [RowPick(costs[0]) - 1]
  {
    if |costs| == 0 {
      return Ok([]);
    }
    var rows, cols := |costs|, |costs[0]|;
    if cols < rows || exists k :: 0 <= k < rows && |costs[k]| != cols {
      return Err(NotRectangular);
    }
    var u := new real[rows + 1](_ => 0.0);
    var v := new real[cols + 1](_ => 0.0);
    var p := new int[cols + 1](_ => 0);
    var way := new int[cols + 1](_ => 0);
    ghost var q := PickGrid(costs);
    assert Multiple(0.0, q, 0);
    ghost var m := seq(rows + 1, _ => 0);
    assert Solved(costs, u[..], v[..], p[..], m, 0, 0, 0, q);
    hide RowPick;
    m := AddRows(costs, u, v, p, way, m, q);
    var assignment := ReadOff(costs, p, m);
    ReadOffAssigns(costs, p[..], m, assignment[..]);
    if q > 0 {
      ReadOffOptimal(costs, u[..], v[..], p[..], m, assignment[..]);
    }
    if exists k :: 0 <= k < rows && assignment[k] < 0 {
      return Err(Incomplete);
    }
    return Ok(assignment[..]);
  }

  /** On every grid that is not coarser than the tolerance there is a matrix on which the solver is
      not optimal. */
  method NearTie(q: int) returns (costs: Matrix, columns: seq<int>)
    requires q >= INVERSE_EPSILON
    ensures costs == [[1.0 / q as real, 0.0]] && GridMatrix(costs, q) && columns == [0]
    ensures Rectangular(costs) && IsAssignment(costs, columns) && !Optimal(costs, columns)
  {
    costs := [[1.0 / q as real, 0.0]];
    var r := MinimumCostAssignment(costs);
    NearTieMissed(q);
    UnitAtMost(q);
    columns := r.value;
    hide RowPick, OnGrid;
    assert IsAssignment(costs, [1]);
    assert Total(costs, [1], 1) == Total(costs, [1], 0) + costs[0][1];
    assert Total(costs, [0], 1) == Total(costs, [0], 0) + costs[0][0];
  }

  lemma PickGrid(costs: Matrix) returns (q: int)
    ensures Separated(costs) ==> 0 < q
    ensures q > 0 ==> q < INVERSE_EPSILON && GridMatrix(costs, q)
  {
    q := 0;
    if Separated(costs) {
      q :| 0 < q < INVERSE_EPSILON && GridMatrix(costs, q);
    }
  }
}
