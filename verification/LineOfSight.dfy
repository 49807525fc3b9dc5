/** The integer line of sight.  The walk from origin to target is incremental; what it decides has
    a closed form over the obstacles of the bounding rectangle, from which symmetry follows. */
module LineOfSight {
  import opened CellKeys

  function Sign(n: int): int {
    if n > 0 then 1 else if n < 0 then -1 else 0
  }

  /** The cell `i` columns and `j` rows away from `a` in the direction of `b`. */
  function Toward(a: Cell, b: Cell, i: int, j: int): Cell {
    Cell(Along(a.x, b.x, i), Along(a.y, b.y, j))
  }

  function Along(origin: int, target: int, n: int): int {
    if origin < target then origin + n else if origin > target then origin - n else origin
  }

  /** Twice the distance, scaled by the width plus the height of the rectangle, by which the
      offset `(i, j)` misses the line from `(0, 0)` to `(nx, ny)`. */
  function Miss(nx: nat, ny: nat, i: int, j: int): nat {
    2 * Abs(i * ny - j * nx)
  }

  /** Whether the line passes the offset: inside the cell, or for sight also at its corner. */
  predicate Meets(nx: nat, ny: nat, i: int, j: int, cornerSides: bool) {
    Miss(nx, ny, i, j) < nx + ny || (cornerSides && Miss(nx, ny, i, j) == nx + ny)
  }

  /** The closed form: some obstacle other than the endpoints lies on the line. */
  ghost predicate Blocked(a: Cell, b: Cell, obstacles: set<Cell>, cornerSides: bool) {
    exists c :: c in obstacles && Obstructs(a, b, c, cornerSides)
  }

  predicate Obstructs(a: Cell, b: Cell, c: Cell, cornerSides: bool) {
    var nx, ny := Abs(b.x - a.x), Abs(b.y - a.y);
    var i, j := Abs(c.x - a.x), Abs(c.y - a.y);
    && c != a && c != b
    && i <= nx && j <= ny && c == Toward(a, b, i, j)
    && Meets(nx, ny, i, j, cornerSides)
  }

  // ----- arithmetic of one step -----------------------------------------------------------

  lemma Scale(a: int, b: int, n: nat)
    requires a <= b
    ensures a * n <= b * n
  {
  }

  lemma Distribute(i: int, ny: nat)
    ensures (2 * i + 1) * ny == 2 * (i * ny) + ny
    ensures (i + 1) * ny == i * ny + ny
  {
  }

  /** A step to the right: no offset above the current one, in its column, is on the line. */
  lemma StepAcross(nx: nat, ny: nat, i: nat, j: nat, k: nat)
    requires (2 * i + 1) * ny < (2 * j + 1) * nx && k > j
    ensures !Meets(nx, ny, i, k, true)
  {
    Distribute(i, ny);
    Distribute(j, nx);
    Scale(j + 1, k, nx);
  }

  /** A step up: no offset to the right of the current one, in its row, is on the line. */
  lemma StepUp(nx: nat, ny: nat, i: nat, j: nat, k: nat)
    requires (2 * i + 1) * ny > (2 * j + 1) * nx && k > i
    ensures !Meets(nx, ny, k, j, true)
  {
    Distribute(i, ny);
    Distribute(j, nx);
    Scale(i + 1, k, ny);
  }

  /** A diagonal step passes exactly at the corner of the two side cells. */
  lemma StepDiagonal(nx: nat, ny: nat, i: nat, j: nat)
    requires (2 * i + 1) * ny == (2 * j + 1) * nx
    ensures Miss(nx, ny, i + 1, j) == nx + ny == Miss(nx, ny, i, j + 1)
  {
    Distribute(i, ny);
    Distribute(j, nx);
  }

  /** Beyond the side cells, a diagonal step leaves nothing behind in its column or row. */
  lemma BeyondCorner(nx: nat, ny: nat, i: nat, j: nat, k: nat)
    requires (2 * i + 1) * ny == (2 * j + 1) * nx && nx > 0 && ny > 0
    ensures k > j + 1 ==> !Meets(nx, ny, i, k, true)
    ensures k > i + 1 ==> !Meets(nx, ny, k, j, true)
  {
    Distribute(i, ny);
    Distribute(j, nx);
    if k > j + 1 {
      Distribute(j + 1, nx);
      Scale(j + 2, k, nx);
    }
    if k > i + 1 {
      Distribute(i + 1, ny);
      Scale(i + 2, k, ny);
    }
  }

  // ----- the walk -------------------------------------------------------------------------

  /** Offsets on the line come before the walk's position in both directions or after it. */
  ghost predicate Divided(nx: nat, ny: nat, ix: int, iy: int, cornerSides: bool) {
    forall i, j | 0 <= i <= nx && 0 <= j <= ny && Meets(nx, ny, i, j, cornerSides) ::
      (i <= ix && j <= iy) || (i >= ix && j >= iy)
  }

  /** Offsets on the line up to the walk's position hold no obstacle. */
  ghost predicate Clear(a: Cell, b: Cell, obstacles: set<Cell>, ix: int, iy: int, cornerSides: bool) {
    var nx, ny := Abs(b.x - a.x), Abs(b.y - a.y);
    forall i, j | 0 <= i <= ix && 0 <= j <= iy && Meets(nx, ny, i, j, cornerSides) ::
      var c := Toward(a, b, i, j); c != a && c != b ==> c !in obstacles
  }

  lemma TowardOffsets(a: Cell, b: Cell, i: nat, j: nat)
    requires i <= Abs(b.x - a.x) && j <= Abs(b.y - a.y)
    ensures var c := Toward(a, b, i, j); Abs(c.x - a.x) == i && Abs(c.y - a.y) == j
    ensures Toward(a, b, i, j) == b <==> i == Abs(b.x - a.x) && j == Abs(b.y - a.y)
  {
  }

  /** The next position of the walk. */
  function Next(nx: nat, ny: nat, ix: nat, iy: nat): (int, int) {
    var nextX, nextY := (2 * ix + 1) * ny, (2 * iy + 1) * nx;
    if nextX < nextY then (ix + 1, iy) else if nextX > nextY then (ix, iy + 1) else (ix + 1, iy + 1)
  }

  lemma NextStays(nx: nat, ny: nat, ix: nat, iy: nat)
    requires ix <= nx && iy <= ny && (ix < nx || iy < ny)
    ensures Next(nx, ny, ix, iy).0 <= nx && Next(nx, ny, ix, iy).1 <= ny
  {
    Distribute(ix, ny);
    Distribute(iy, nx);
    if ix == nx {
      Scale(iy + 1, ny, nx);
    }
    if iy == ny {
      Scale(ix + 1, nx, ny);
    }
  }

  lemma NextOnLine(nx: nat, ny: nat, ix: nat, iy: nat)
    requires ix <= nx && iy <= ny && (ix < nx || iy < ny) && Meets(nx, ny, ix, iy, false)
    ensures var (x, y) := Next(nx, ny, ix, iy); Meets(nx, ny, x, y, false)
  {
    Distribute(ix, ny);
    Distribute(iy, nx);
    NextStays(nx, ny, ix, iy);
  }

  /** Whether the step from `(ix, iy)` to `(x, y)` passes the offset `(i, j)`: the new position,
      or at a corner one of its two sides. */
  predicate PassedBy(ix: int, iy: int, x: int, y: int, i: int, j: int, cornerSides: bool) {
    || (i == x && j == y)
    || (cornerSides && x > ix && y > iy && ((i == x && j == iy) || (i == ix && j == y)))
  }

  predicate Open(a: Cell, b: Cell, obstacles: set<Cell>, i: int, j: int) {
    Toward(a, b, i, j) != b ==> Toward(a, b, i, j) !in obstacles
  }

  /** None of the offsets passed by a step holds an obstacle. */
  predicate StepOpen(a: Cell, b: Cell, obstacles: set<Cell>, ix: int, iy: int, x: int, y: int, cornerSides: bool) {
    && Open(a, b, obstacles, x, y)
    && (cornerSides && x > ix && y > iy ==> Open(a, b, obstacles, x, iy) && Open(a, b, obstacles, ix, y))
  }

  lemma MeetsAtCorner(nx: nat, ny: nat, i: int, j: int, cornerSides: bool)
    requires Meets(nx, ny, i, j, cornerSides)
    ensures Meets(nx, ny, i, j, true)
    ensures Miss(nx, ny, i, j) == nx + ny ==> cornerSides
  {
  }

  lemma DiagonalPassesAt(nx: nat, ny: nat, ix: nat, iy: nat, cornerSides: bool, i: nat, j: nat)
    requires (2 * ix + 1) * ny == (2 * iy + 1) * nx && nx > 0 && ny > 0
    requires Meets(nx, ny, i, j, cornerSides) && i >= ix && j >= iy
    ensures (i == ix && j == iy) || (i > ix && j > iy) || PassedBy(ix, iy, ix + 1, iy + 1, i, j, cornerSides)
  {
    MeetsAtCorner(nx, ny, i, j, cornerSides);
    StepDiagonal(nx, ny, ix, iy);
    if i == ix {
      BeyondCorner(nx, ny, ix, iy, j);
    } else if j == iy {
      BeyondCorner(nx, ny, ix, iy, i);
    }
  }

  lemma StepPassesAt(nx: nat, ny: nat, ix: nat, iy: nat, cornerSides: bool, i: nat, j: nat)
    requires ix <= nx && iy <= ny && (ix < nx || iy < ny)
    requires Meets(nx, ny, i, j, cornerSides) && i >= ix && j >= iy
    ensures var (x, y) := Next(nx, ny, ix, iy);
            (i == ix && j == iy) || (i >= x && j >= y) || PassedBy(ix, iy, x, y, i, j, cornerSides)
  {
    MeetsAtCorner(nx, ny, i, j, cornerSides);
    var (x, y) := Next(nx, ny, ix, iy);
    NextStays(nx, ny, ix, iy);
    if y == iy {
      if i == ix && j > iy {
        StepAcross(nx, ny, ix, iy, j);
      }
    } else if x == ix {
      if j == iy && i > ix {
        StepUp(nx, ny, ix, iy, i);
      }
    } else {
      DiagonalPassesAt(nx, ny, ix, iy, cornerSides, i, j);
    }
  }

  lemma StepDivides(nx: nat, ny: nat, ix: nat, iy: nat, cornerSides: bool)
    requires ix <= nx && iy <= ny && (ix < nx || iy < ny) && Divided(nx, ny, ix, iy, cornerSides)
    ensures var (x, y) := Next(nx, ny, ix, iy); Divided(nx, ny, x, y, cornerSides)
  {
    var (x, y) := Next(nx, ny, ix, iy);
    forall i, j | 0 <= i <= nx && 0 <= j <= ny && Meets(nx, ny, i, j, cornerSides)
      ensures (i <= x && j <= y) || (i >= x && j >= y)
    {
      if i >= ix && j >= iy {
        StepPassesAt(nx, ny, ix, iy, cornerSides, i, j);
      }
    }
  }

  /** After a step that found nothing in its way, the passed offsets are still clear. */
  lemma StepClears(a: Cell, b: Cell, obstacles: set<Cell>, ix: nat, iy: nat, cornerSides: bool)
    requires var nx, ny := Abs(b.x - a.x), Abs(b.y - a.y);
      var (x, y) := Next(nx, ny, ix, iy);
      && ix <= nx && iy <= ny && (ix < nx || iy < ny) && Divided(nx, ny, ix, iy, cornerSides)
      && Clear(a, b, obstacles, ix, iy, cornerSides)
      && StepOpen(a, b, obstacles, ix, iy, x, y, cornerSides)
    ensures var (x, y) := Next(Abs(b.x - a.x), Abs(b.y - a.y), ix, iy); Clear(a, b, obstacles, x, y, cornerSides)
  {
    var nx, ny := Abs(b.x - a.x), Abs(b.y - a.y);
    var (x, y) := Next(nx, ny, ix, iy);
    NextStays(nx, ny, ix, iy);
    forall i, j | 0 <= i <= x && 0 <= j <= y && Meets(nx, ny, i, j, cornerSides)
      ensures var c := Toward(a, b, i, j); c != a && c != b ==> c !in obstacles
    {
      if i >= ix && j >= iy {
        StepPassesAt(nx, ny, ix, iy, cornerSides, i, j);
      }
    }
  }

  /** An offset on the line that holds an obstacle blocks. */
  lemma Witness(a: Cell, b: Cell, obstacles: set<Cell>, i: nat, j: nat, cornerSides: bool)
    requires i <= Abs(b.x - a.x) && j <= Abs(b.y - a.y) && i + j > 0
    requires Meets(Abs(b.x - a.x), Abs(b.y - a.y), i, j, cornerSides)
    requires Toward(a, b, i, j) in obstacles && Toward(a, b, i, j) != b
    ensures Blocked(a, b, obstacles, cornerSides)
  {
    TowardOffsets(a, b, i, j);
    assert Obstructs(a, b, Toward(a, b, i, j), cornerSides);
  }

  lemma AllClear(a: Cell, b: Cell, obstacles: set<Cell>, cornerSides: bool)
    requires Clear(a, b, obstacles, Abs(b.x - a.x), Abs(b.y - a.y), cornerSides)
    ensures !Blocked(a, b, obstacles, cornerSides)
  {
    forall c | c in obstacles
      ensures !Obstructs(a, b, c, cornerSides)
    {
      var i, j := Abs(c.x - a.x), Abs(c.y - a.y);
      var d := Toward(a, b, i, j);
    }
  }

  /** The walk at offset `(ix, iy)`, with nothing in its way so far. */
  ghost predicate Walking(a: Cell, b: Cell, obstacles: set<Cell>, ix: int, iy: int, cornerSides: bool) {
    var nx, ny := Abs(b.x - a.x), Abs(b.y - a.y);
    && 0 <= ix <= nx && 0 <= iy <= ny && (nx + ny > 0 ==> Meets(nx, ny, ix, iy, false))
    && Divided(nx, ny, ix, iy, cornerSides) && Clear(a, b, obstacles, ix, iy, cornerSides)
  }

  /** A step whose passed cells hold no obstacle continues the walk. */
  lemma WalkOn(a: Cell, b: Cell, obstacles: set<Cell>, ix: nat, iy: nat, cornerSides: bool)
    requires Walking(a, b, obstacles, ix, iy, cornerSides) && (ix < Abs(b.x - a.x) || iy < Abs(b.y - a.y))
    requires var (x, y) := Next(Abs(b.x - a.x), Abs(b.y - a.y), ix, iy);
      StepOpen(a, b, obstacles, ix, iy, x, y, cornerSides)
    ensures var (x, y) := Next(Abs(b.x - a.x), Abs(b.y - a.y), ix, iy); Walking(a, b, obstacles, x, y, cornerSides)
  {
    var nx, ny := Abs(b.x - a.x), Abs(b.y - a.y);
    NextStays(nx, ny, ix, iy);
    NextOnLine(nx, ny, ix, iy);
    StepDivides(nx, ny, ix, iy, cornerSides);
    StepClears(a, b, obstacles, ix, iy, cornerSides);
  }

  /** A step with an obstacle among its passed cells decides the walk. */
  lemma WalkStopped(a: Cell, b: Cell, obstacles: set<Cell>, ix: nat, iy: nat, cornerSides: bool, i: nat, j: nat)
    requires Walking(a, b, obstacles, ix, iy, cornerSides) && (ix < Abs(b.x - a.x) || iy < Abs(b.y - a.y))
    requires var (x, y) := Next(Abs(b.x - a.x), Abs(b.y - a.y), ix, iy); PassedBy(ix, iy, x, y, i, j, cornerSides)
    requires Toward(a, b, i, j) in obstacles && Toward(a, b, i, j) != b
    ensures Blocked(a, b, obstacles, cornerSides)
  {
    var nx, ny := Abs(b.x - a.x), Abs(b.y - a.y);
    var (x, y) := Next(nx, ny, ix, iy);
    NextStays(nx, ny, ix, iy);
    NextOnLine(nx, ny, ix, iy);
    if x > ix && y > iy {
      StepDiagonal(nx, ny, ix, iy);
    }
    Witness(a, b, obstacles, i, j, cornerSides);
  }

  /** Look at the two cells beside a diagonal step. */
  method CornerBlocked(origin: Cell, target: Cell, obstacles: set<Cell>, x: int, y: int, sx: int, sy: int,
                       ghost ix: nat, ghost iy: nat)
    returns (hit: bool)
    requires Walking(origin, target, obstacles, ix, iy, true) && Cell(x, y) == Toward(origin, target, ix, iy)
    requires sx == Sign(target.x - origin.x) && sy == Sign(target.y - origin.y)
    requires ix < Abs(target.x - origin.x) || iy < Abs(target.y - origin.y)
    requires Next(Abs(target.x - origin.x), Abs(target.y - origin.y), ix, iy) == (ix + 1, iy + 1)
    ensures hit ==> Blocked(origin, target, obstacles, true)
    ensures !hit ==> Open(origin, target, obstacles, ix + 1, iy) && Open(origin, target, obstacles, ix, iy + 1)
  {
    NextStays(Abs(target.x - origin.x), Abs(target.y - origin.y), ix, iy);
    var sideX, sideY := Cell(x + sx, y), Cell(x, y + sy);
    if sideX != target && sideX in obstacles {
      WalkStopped(origin, target, obstacles, ix, iy, true, ix + 1, iy);
      return true;
    }
    if sideY != target && sideY in obstacles {
      WalkStopped(origin, target, obstacles, ix, iy, true, ix, iy + 1);
      return true;
    }
    return false;
  }

  /** The walk decides the closed form. */
  method SupercoverLineBlocked(origin: Cell, target: Cell, obstacles: set<Cell>, cornerSides: bool)
    returns (blocked: bool)
    ensures blocked <==> Blocked(origin, target, obstacles, cornerSides)
  {
    var dx, dy := target.x - origin.x, target.y - origin.y;
    var nx, ny := Abs(dx), Abs(dy);
    var sx, sy := Sign(dx), Sign(dy);
    var x, y := origin.x, origin.y;
    var ix: nat, iy: nat := 0, 0;
    while ix < nx || iy < ny
      invariant Cell(x, y) == Toward(origin, target, ix, iy)
      invariant Walking(origin, target, obstacles, ix, iy, cornerSides)
      decreases nx - ix + ny - iy
    {
      ghost var jx, jy := ix, iy;
      var nextX, nextY := (2 * ix + 1) * ny, (2 * iy + 1) * nx;
      if nextX < nextY {
        x, ix := x + sx, ix + 1;
      } else if nextX > nextY {
        y, iy := y + sy, iy + 1;
      } else {
        if cornerSides {
          var hit := CornerBlocked(origin, target, obstacles, x, y, sx, sy, ix, iy);
          if hit {
            return true;
          }
        }
        x, y, ix, iy := x + sx, y + sy, ix + 1, iy + 1;
      }
      var current := Cell(x, y);
      if current != target && current in obstacles {
        WalkStopped(origin, target, obstacles, jx, jy, cornerSides, ix, iy);
      } else {
        WalkOn(origin, target, obstacles, jx, jy, cornerSides);
      }
      if current == target {
        TowardOffsets(origin, target, ix, iy);
        break;
      }
      if current in obstacles {
        return true;
      }
    }
    AllClear(origin, target, obstacles, cornerSides);
    return false;
  }

  method VisionLineBlocked(origin: Cell, target: Cell, obstacles: set<Cell>) returns (blocked: bool)
    ensures blocked <==> Blocked(origin, target, obstacles, true)
  {
    blocked := SupercoverLineBlocked(origin, target, obstacles, true);
  }

  method ShotLineBlocked(origin: Cell, target: Cell, obstacles: set<Cell>) returns (blocked: bool)
    ensures blocked <==> Blocked(origin, target, obstacles, false)
  {
    blocked := SupercoverLineBlocked(origin, target, obstacles, false);
  }

  // ----- consequences ---------------------------------------------------------------------

  /** Seen from the other end, an offset misses the line by the same amount. */
  lemma MissFromOtherEnd(nx: nat, ny: nat, i: int, j: int)
    ensures Miss(nx, ny, nx - i, ny - j) == Miss(nx, ny, i, j)
  {
    assert (nx - i) * ny - (ny - j) * nx == -(i * ny - j * nx);
  }

  lemma ObstructsFromOtherEnd(a: Cell, b: Cell, c: Cell, cornerSides: bool)
    requires Obstructs(a, b, c, cornerSides)
    ensures Obstructs(b, a, c, cornerSides)
  {
    var nx, ny := Abs(b.x - a.x), Abs(b.y - a.y);
    var i, j := Abs(c.x - a.x), Abs(c.y - a.y);
    assert Abs(c.x - b.x) == nx - i && Abs(c.y - b.y) == ny - j;
    MissFromOtherEnd(nx, ny, i, j);
  }

  /** Sight and shots are symmetric in origin and target. */
  lemma BlockedSymmetric(a: Cell, b: Cell, obstacles: set<Cell>, cornerSides: bool)
    ensures Blocked(a, b, obstacles, cornerSides) <==> Blocked(b, a, obstacles, cornerSides)
  {
    forall c | c in obstacles
      ensures Obstructs(a, b, c, cornerSides) <==> Obstructs(b, a, c, cornerSides)
    {
      if Obstructs(a, b, c, cornerSides) {
        ObstructsFromOtherEnd(a, b, c, cornerSides);
      } else if Obstructs(b, a, c, cornerSides) {
        ObstructsFromOtherEnd(b, a, c, cornerSides);
      }
    }
  }

  /** What stops a shot stops sight; what stops only sight sits exactly at a corner. */
  lemma ShotImpliesVision(a: Cell, b: Cell, obstacles: set<Cell>)
    ensures Blocked(a, b, obstacles, false) ==> Blocked(a, b, obstacles, true)
    ensures Blocked(a, b, obstacles, true) && !Blocked(a, b, obstacles, false) ==>
              exists c :: c in obstacles && Obstructs(a, b, c, true)
                && Miss(Abs(b.x - a.x), Abs(b.y - a.y), Abs(c.x - a.x), Abs(c.y - a.y))
                   == Abs(b.x - a.x) + Abs(b.y - a.y)
  {
    forall c | c in obstacles && Obstructs(a, b, c, false)
      ensures Obstructs(a, b, c, true)
    {
    }
  }
}
