/** Routes on the four-way grid, and what a breadth-first search knows about them.

    A search is described by the routes it has found: `trail` maps every discovered cell to one
    route from the start.  The depth of a cell is the length of that route. */
module GridSearch {
  import opened CellKeys
  import Ordering
  import opened Options

  datatype Direction = East | South | West | North

  function Step(c: Cell, d: Direction): Cell {
    match d
    case East => Cell(c.x + 1, c.y)
    case South => Cell(c.x, c.y + 1)
    case West => Cell(c.x - 1, c.y)
    case North => Cell(c.x, c.y - 1)
  }

  /** East and south are the positive directions. */
  lemma StepsAre(c: Cell)
    ensures Step(c, East).x - c.x == 1 == c.x - Step(c, West).x && Step(c, East).y == c.y == Step(c, West).y
    ensures Step(c, South).y - c.y == 1 == c.y - Step(c, North).y && Step(c, South).x == c.x == Step(c, North).x
  {
  }

  /** The order in which every search of the program tries the directions. */
  const DIRECTIONS: seq<Direction> := [East, South, West, North]

  lemma EveryDirection()
    ensures forall d: Direction :: d in DIRECTIONS
  {
    forall d: Direction
      ensures d in DIRECTIONS
    {
      assert DIRECTIONS[0] == East && DIRECTIONS[1] == South && DIRECTIONS[2] == West && DIRECTIONS[3] == North;
      match d
      case East =>
      case South =>
      case West =>
      case North =>
    }
  }

  predicate Adjacent(a: Cell, b: Cell) {
    exists d :: Step(a, d) == b
  }

  function Chebyshev(a: Cell, b: Cell): nat {
    var dx, dy := Abs(a.x - b.x), Abs(a.y - b.y);
    if dx > dy then dx else dy
  }

  ghost function Column(x: int, y: int, height: nat): (s: set<Cell>)
    ensures forall c :: c in s <==> c.x == x && y <= c.y < y + height
    ensures |s| == height
  {
    if height == 0 then {} else Column(x, y, height - 1) + {Cell(x, y + height - 1)}
  }

  ghost function Strip(x: int, width: nat, y: int, height: nat): (s: set<Cell>)
    ensures forall c :: c in s <==> x <= c.x < x + width && y <= c.y < y + height
    ensures |s| == width * height
  {
    if width == 0 then {}
    else
      var front, last := Strip(x, width - 1, y, height), Column(x + width - 1, y, height);
      assert front !! last && (width - 1) * height + height == width * height;
      front + last
  }

  function BoxSize(radius: nat): nat {
    (2 * radius + 1) * (2 * radius + 1)
  }

  /** The cells within a search radius. */
  ghost function Box(center: Cell, radius: nat): (s: set<Cell>)
    ensures forall c :: c in s <==> Chebyshev(center, c) <= radius
    ensures |s| == BoxSize(radius)
  {
    Strip(center.x - radius, 2 * radius + 1, center.y - radius, 2 * radius + 1)
  }

  /** A walk from `start` over cells that are free; the start itself need not be. */
  ghost predicate Route(free: Cell -> bool, start: Cell, p: seq<Cell>) {
    && p != [] && p[0] == start
    && forall k {:trigger Hop(free, p, k)} | 1 <= k < |p| :: Hop(free, p, k)
  }

  ghost predicate Hop(free: Cell -> bool, p: seq<Cell>, k: int)
    requires 1 <= k < |p|
  {
    free(p[k]) && Adjacent(p[k - 1], p[k])
  }

  function End(p: seq<Cell>): Cell
    requires p != []
  {
    p[|p| - 1]
  }

  ghost predicate RouteTo(free: Cell -> bool, start: Cell, target: Cell, p: seq<Cell>) {
    Route(free, start, p) && End(p) == target
  }

  ghost predicate Shortest(free: Cell -> bool, start: Cell, target: Cell, p: seq<Cell>) {
    RouteTo(free, start, target, p) && forall q | RouteTo(free, start, target, q) :: |p| <= |q|
  }

  /** Cells within a radius that are not listed as obstacles; anything unknown is open. */
  ghost function Open(start: Cell, blocked: set<Cell>, radius: nat): Cell -> bool {
    (c: Cell) => Chebyshev(start, c) <= radius && c !in blocked
  }

  lemma RoutePrefix(free: Cell -> bool, start: Cell, p: seq<Cell>, n: nat)
    requires Route(free, start, p) && 0 < n <= |p|
    ensures Route(free, start, p[..n])
  {
    var q := p[..n];
    forall k | 1 <= k < |q|
      ensures Hop(free, q, k)
    {
      assert Hop(free, p, k);
    }
  }

  lemma RouteExtends(free: Cell -> bool, start: Cell, p: seq<Cell>, n: Cell)
    requires Route(free, start, p) && free(n) && Adjacent(End(p), n)
    ensures Route(free, start, p + [n])
  {
    var q := p + [n];
    forall k | 1 <= k < |q|
      ensures Hop(free, q, k)
    {
      if k < |p| {
        assert Hop(free, p, k);
      }
    }
  }

  // ----- the state of a breadth-first search -----------------------------------------------

  type Trails = map<Cell, seq<Cell>>

  /** The route of `c` extends the route of the cell it was discovered from. */
  ghost predicate Chained(trail: Trails, start: Cell, c: Cell)
    requires c in trail
  {
    if c == start then trail[c] == [start]
    else
      && |trail[c]| >= 2
      && var p := trail[c][|trail[c]| - 2]; p in trail && trail[p] == trail[c][..|trail[c]| - 1]
  }

  /** Every discovered cell has its route, and routes extend each other. */
  ghost predicate Trailed(free: Cell -> bool, start: Cell, trail: Trails) {
    && start in trail
    && (forall c | c in trail :: RouteTo(free, start, c, trail[c]))
    && (forall c {:trigger Chained(trail, start, c)} | c in trail :: Chained(trail, start, c))
  }

  /** The queue holds discovered cells by depth, all within one step of `d`. */
  ghost predicate Queued(trail: Trails, queue: seq<Cell>, d: int) {
    && (forall k | 0 <= k < |queue| :: queue[k] in trail && d <= |trail[queue[k]]| - 1 <= d + 1)
    && (forall k, l | 0 <= k < l < |queue| :: queue[k] != queue[l] && |trail[queue[k]]| <= |trail[queue[l]]|)
    && (forall c | c in trail :: |trail[c]| - 1 <= d + 1)
  }

  /** All free neighbours of `c` are discovered, no deeper than they should be. */
  ghost predicate Expanded(free: Cell -> bool, trail: Trails, c: Cell)
    requires c in trail
  {
    forall e | free(Step(c, e)) :: Step(c, e) in trail && |trail[Step(c, e)]| <= |trail[c]| + 1
  }

  /** Everything discovered outside the queue and `busy` has been expanded. */
  ghost predicate Swept(free: Cell -> bool, trail: Trails, queue: seq<Cell>, busy: set<Cell>) {
    forall c | c in trail && c !in queue && c !in busy :: Expanded(free, trail, c)
  }

  ghost predicate Searching(free: Cell -> bool, start: Cell, trail: Trails, queue: seq<Cell>, busy: set<Cell>, d: int) {
    Trailed(free, start, trail) && Queued(trail, queue, d) && Swept(free, trail, queue, busy)
  }

  lemma SearchStarts(free: Cell -> bool, start: Cell)
    ensures Searching(free, start, map[start := [start]], [start], {}, 0)
  {
  }

  /** No route is shorter than the one found, and no undiscovered cell is as near as the queue. */
  lemma {:induction false} NoShorterRoute(free: Cell -> bool, start: Cell, trail: Trails, queue: seq<Cell>, d: int,
                                          p: seq<Cell>)
    requires Searching(free, start, trail, queue, {}, d) && Route(free, start, p)
    ensures End(p) in trail ==> |trail[End(p)]| <= |p|
    ensures End(p) !in trail ==> |p| - 1 > d && queue != []
  {
    assert Chained(trail, start, start);
    if |p| > 1 {
      var q := p[..|p| - 1];
      RoutePrefix(free, start, p, |p| - 1);
      NoShorterRoute(free, start, trail, queue, d, q);
      assert End(q) == p[|p| - 2] && Hop(free, p, |p| - 1);
      if End(q) in trail && End(q) !in queue {
        assert Expanded(free, trail, End(q));
      }
    }
  }

  lemma HeadDepth(free: Cell -> bool, start: Cell, trail: Trails, queue: seq<Cell>, busy: set<Cell>, d: int)
    requires Searching(free, start, trail, queue, busy, d) && queue != []
    ensures queue[0] in trail && Searching(free, start, trail, queue, busy, |trail[queue[0]]| - 1)
  {
  }

  /** Taking the head off the queue. */
  lemma TakeHead(free: Cell -> bool, start: Cell, trail: Trails, queue: seq<Cell>, d: int)
    requires Searching(free, start, trail, queue, {}, d) && queue != []
    ensures queue[0] in trail && var e := |trail[queue[0]]| - 1; Searching(free, start, trail, queue[1..], {queue[0]}, e)
  {
    var e := |trail[queue[0]]| - 1;
    forall k | 0 <= k < |queue[1..]|
      ensures queue[1..][k] in trail && e <= |trail[queue[1..][k]]| - 1 <= e + 1
    {
      assert queue[1..][k] == queue[k + 1];
    }
    forall c | c in trail && c !in queue[1..] && c != queue[0]
      ensures Expanded(free, trail, c)
    {
      assert queue == [queue[0]] + queue[1..];
    }
  }

  function Found(trail: Trails, current: Cell, n: Cell): Trails
    requires current in trail
  {
    trail[n := trail[current] + [n]]
  }

  lemma DiscoverTrailed(free: Cell -> bool, start: Cell, trail: Trails, current: Cell, n: Cell)
    requires Trailed(free, start, trail) && current in trail && free(n) && Adjacent(current, n) && n !in trail
    ensures Trailed(free, start, Found(trail, current, n))
  {
    var found := Found(trail, current, n);
    RouteExtends(free, start, trail[current], n);
    assert trail[current] == found[n][..|found[n]| - 1];
    assert found[n][|found[n]| - 2] == current;
    assert Chained(trail, start, start);
    forall c | c in found
      ensures Chained(found, start, c)
    {
      if c != n {
        assert Chained(trail, start, c);
      }
    }
  }

  lemma DiscoverQueued(trail: Trails, queue: seq<Cell>, current: Cell, n: Cell)
    requires current in trail && Queued(trail, queue, |trail[current]| - 1) && n !in trail
    ensures Queued(Found(trail, current, n), queue + [n], |trail[current]| - 1)
  {
  }

  lemma DiscoverSwept(free: Cell -> bool, trail: Trails, queue: seq<Cell>, current: Cell, n: Cell)
    requires current in trail && Swept(free, trail, queue, {current}) && n !in trail
    ensures Swept(free, Found(trail, current, n), queue + [n], {current})
  {
    var found := Found(trail, current, n);
    forall c | c in found && c !in queue + [n] && c != current
      ensures Expanded(free, found, c)
    {
      assert Expanded(free, trail, c);
    }
  }

  /** Discovering a free neighbour of the cell being expanded. */
  lemma Discover(free: Cell -> bool, start: Cell, trail: Trails, queue: seq<Cell>, current: Cell, n: Cell)
    requires current in trail && Searching(free, start, trail, queue, {current}, |trail[current]| - 1)
    requires free(n) && Adjacent(current, n) && n !in trail
    ensures Searching(free, start, Found(trail, current, n), queue + [n], {current}, |trail[current]| - 1)
  {
    DiscoverTrailed(free, start, trail, current, n);
    DiscoverQueued(trail, queue, current, n);
    DiscoverSwept(free, trail, queue, current, n);
  }

  /** Once the cell being expanded has shown all its neighbours, it is done. */
  lemma FinishHead(free: Cell -> bool, start: Cell, trail: Trails, queue: seq<Cell>, current: Cell)
    requires current in trail && Searching(free, start, trail, queue, {current}, |trail[current]| - 1)
    requires forall e | free(Step(current, e)) :: Step(current, e) in trail
    ensures Searching(free, start, trail, queue, {}, |trail[current]| - 1)
    ensures queue != [] ==> Searching(free, start, trail, queue, {}, |trail[queue[0]]| - 1)
  {
    assert Expanded(free, trail, current);
  }

  lemma TrailFree(free: Cell -> bool, start: Cell, trail: Trails, c: Cell)
    requires Trailed(free, start, trail) && c in trail && c != start
    ensures free(c)
  {
    assert Chained(trail, start, c) && Hop(free, trail[c], |trail[c]| - 1);
  }

  /** Routes extend each other all the way down. */
  lemma {:induction false} TrailPrefix(free: Cell -> bool, start: Cell, trail: Trails, c: Cell, k: nat)
    requires Trailed(free, start, trail) && c in trail && k < |trail[c]|
    ensures trail[c][k] in trail && trail[trail[c][k]] == trail[c][..k + 1]
    decreases |trail[c]|
  {
    if k == |trail[c]| - 1 {
      assert trail[c][..k + 1] == trail[c];
    } else {
      assert Chained(trail, start, c);
      var p := trail[c][|trail[c]| - 2];
      TrailPrefix(free, start, trail, p, k);
      assert trail[p][..k + 1] == trail[c][..k + 1];
    }
  }

  /** A trail never visits a cell twice. */
  lemma TrailSimple(free: Cell -> bool, start: Cell, trail: Trails, c: Cell)
    requires Trailed(free, start, trail) && c in trail
    ensures forall k, l | 0 <= k < l < |trail[c]| :: trail[c][k] != trail[c][l]
  {
    forall k, l | 0 <= k < l < |trail[c]|
      ensures trail[c][k] != trail[c][l]
    {
      TrailPrefix(free, start, trail, c, k);
      TrailPrefix(free, start, trail, c, l);
    }
  }

  // ----- parent links ---------------------------------------------------------------------

  type Parents = map<Cell, Option<Cell>>

  ghost predicate LinkedAt(parents: Parents, trail: Trails, start: Cell, c: Cell)
    requires c in parents && c in trail
  {
    if c == start then parents[c] == None
    else |trail[c]| >= 2 && parents[c] == Some(trail[c][|trail[c]| - 2])
  }

  /** The parent links spell out the routes of the search. */
  ghost predicate Linked(parents: Parents, trail: Trails, start: Cell) {
    && parents.Keys == trail.Keys
    && forall c {:trigger LinkedAt(parents, trail, start, c)} | c in parents :: LinkedAt(parents, trail, start, c)
  }

  lemma LinkDiscovered(parents: Parents, trail: Trails, start: Cell, current: Cell, n: Cell)
    requires Linked(parents, trail, start) && current in trail && n !in trail && start in trail
    requires trail[current] != [] && End(trail[current]) == current
    ensures Linked(parents[n := Some(current)], Found(trail, current, n), start)
  {
    var linked, found := parents[n := Some(current)], Found(trail, current, n);
    assert found[n][|found[n]| - 2] == current;
    forall c | c in linked
      ensures LinkedAt(linked, found, start, c)
    {
      if c != n {
        assert LinkedAt(parents, trail, start, c);
      }
    }
  }

  lemma ParentOf(parents: Parents, free: Cell -> bool, start: Cell, trail: Trails, c: Cell)
    requires Linked(parents, trail, start) && Trailed(free, start, trail) && c in parents && c != start
    ensures parents[c].Some? && parents[c].value in parents && |trail[c]| >= 2
    ensures trail[parents[c].value] == trail[c][..|trail[c]| - 1]
  {
    assert LinkedAt(parents, trail, start, c) && Chained(trail, start, c);
  }

  // ----- a plain sweep: a search that only keeps the visited cells and their depths ---------

  datatype Entry = Entry(cell: Cell, depth: nat)

  function Cells(queue: seq<Entry>): (cells: seq<Cell>)
    ensures |cells| == |queue| && forall k | 0 <= k < |queue| :: cells[k] == queue[k].cell
  {
    seq(|queue|, k requires 0 <= k < |queue| => queue[k].cell)
  }

  ghost predicate Depths(trail: Trails, queue: seq<Entry>) {
    forall k | 0 <= k < |queue| :: queue[k].cell in trail && queue[k].depth == |trail[queue[k].cell]| - 1
  }

  /** The state of a sweep; `busy` is the cell being expanded, if any. */
  ghost predicate Sweeping(free: Cell -> bool, start: Cell, trail: Trails, queue: seq<Entry>, visited: set<Cell>,
                           explored: nat, busy: set<Cell>, d: int)
  {
    && Searching(free, start, trail, Cells(queue), busy, d) && Depths(trail, queue)
    && visited == trail.Keys && explored + |queue| == |visited|
  }

  lemma SweepStarts(free: Cell -> bool, start: Cell)
    ensures Sweeping(free, start, map[start := [start]], [Entry(start, 0)], {start}, 0, {}, 0)
  {
    SearchStarts(free, start);
    assert Cells([Entry(start, 0)]) == [start];
    assert (map[start := [start]]).Keys == {start};
  }

  lemma SweepHead(free: Cell -> bool, start: Cell, trail: Trails, queue: seq<Entry>, visited: set<Cell>, explored: nat,
                  d: int)
    requires Sweeping(free, start, trail, queue, visited, explored, {}, d) && queue != []
    ensures var c := queue[0].cell;
      && c in trail && queue[0].depth == |trail[c]| - 1
      && Sweeping(free, start, trail, queue[1..], visited, explored + 1, {c}, queue[0].depth)
      && forall p | Route(free, start, p) && End(p) !in visited :: |p| > |trail[c]|
  {
    hide Searching;
    var c := queue[0].cell;
    assert Cells(queue[1..]) == Cells(queue)[1..] && Cells(queue)[0] == c;
    TakeHead(free, start, trail, Cells(queue), d);
    HeadDepth(free, start, trail, Cells(queue), {}, d);
    forall p | Route(free, start, p) && End(p) !in visited
      ensures |p| > |trail[c]|
    {
      NoShorterRoute(free, start, trail, Cells(queue), |trail[c]| - 1, p);
    }
  }

  lemma SweepSorted(free: Cell -> bool, start: Cell, trail: Trails, queue: seq<Entry>, visited: set<Cell>,
                    explored: nat, busy: set<Cell>, d: int)
    requires Sweeping(free, start, trail, queue, visited, explored, busy, d)
    ensures forall k | 0 <= k < |queue| :: queue[k].depth >= queue[0].depth
  {
    forall k | 0 <= k < |queue|
      ensures queue[k].depth >= queue[0].depth
    {
      assert k > 0 ==> |trail[Cells(queue)[0]]| <= |trail[Cells(queue)[k]]|;
    }
  }

  lemma SweepFinds(free: Cell -> bool, start: Cell, trail: Trails, queue: seq<Entry>, visited: set<Cell>, explored: nat,
                   c: Cell, depth: nat, n: Cell)
    requires Sweeping(free, start, trail, queue, visited, explored, {c}, depth)
    requires c in trail && depth == |trail[c]| - 1 && free(n) && Adjacent(c, n) && n !in visited
    ensures Sweeping(free, start, Found(trail, c, n), queue + [Entry(n, depth + 1)], visited + {n}, explored, {c}, depth)
    ensures RouteTo(free, start, n, Found(trail, c, n)[n])
  {
    Discover(free, start, trail, Cells(queue), c, n);
    assert Cells(queue + [Entry(n, depth + 1)]) == Cells(queue) + [n];
    assert Found(trail, c, n).Keys == visited + {n};
  }

  lemma SweepDone(free: Cell -> bool, start: Cell, trail: Trails, queue: seq<Entry>, visited: set<Cell>, explored: nat,
                  c: Cell, depth: nat)
    requires Sweeping(free, start, trail, queue, visited, explored, {c}, depth)
    requires c in trail && depth == |trail[c]| - 1
    requires forall e | free(Step(c, e)) :: Step(c, e) in visited
    ensures Sweeping(free, start, trail, queue, visited, explored, {}, depth)
  {
    FinishHead(free, start, trail, Cells(queue), c);
  }

  /** A sweep that has run dry has visited every cell a route can reach. */
  lemma SweepComplete(free: Cell -> bool, start: Cell, trail: Trails, visited: set<Cell>, explored: nat, d: int,
                      p: seq<Cell>)
    requires Sweeping(free, start, trail, [], visited, explored, {}, d) && Route(free, start, p)
    ensures End(p) in visited
  {
    NoShorterRoute(free, start, trail, Cells([]), d, p);
  }

  lemma SweepFacts(free: Cell -> bool, start: Cell, trail: Trails, queue: seq<Entry>, visited: set<Cell>, explored: nat,
                   busy: set<Cell>, d: int)
    requires Sweeping(free, start, trail, queue, visited, explored, busy, d)
    ensures visited == trail.Keys && start in visited && explored + |queue| == |visited|
    ensures forall c | c in visited :: c == start || free(c)
    ensures forall c | c in visited :: RouteTo(free, start, c, trail[c])
  {
    forall c | c in visited && c != start
      ensures free(c)
    {
      TrailFree(free, start, trail, c);
    }
  }

  // ----- searches that give up ---------------------------------------------------------------

  /** `c` is reachable, and by a route no longer than any route to the target. */
  ghost predicate NoFarther(free: Cell -> bool, start: Cell, target: Cell, c: Cell) {
    exists p :: RouteTo(free, start, c, p) && forall q | RouteTo(free, start, target, q) :: |p| <= |q|
  }

  /** More cells than the budget allows to expand are no farther away than the target. */
  ghost predicate Crowded(free: Cell -> bool, start: Cell, target: Cell, budget: nat) {
    exists s: set<Cell> :: |s| > budget && forall c | c in s :: NoFarther(free, start, target, c)
  }

  /** A search that has discovered more than the budget, but not the target, gives up with reason. */
  lemma SearchCrowded(free: Cell -> bool, start: Cell, trail: Trails, queue: seq<Cell>, d: int, target: Cell, budget: nat)
    requires Searching(free, start, trail, queue, {}, d) && target !in trail && |trail.Keys| > budget
    ensures Crowded(free, start, target, budget)
  {
    forall c | c in trail.Keys
      ensures NoFarther(free, start, target, c)
    {
      forall q | RouteTo(free, start, target, q)
        ensures |trail[c]| <= |q|
      {
        NoShorterRoute(free, start, trail, queue, d, q);
      }
    }
  }

  lemma SweepCrowded(free: Cell -> bool, start: Cell, trail: Trails, queue: seq<Entry>, visited: set<Cell>,
                     explored: nat, d: int, target: Cell, budget: nat)
    requires Sweeping(free, start, trail, queue, visited, explored, {}, d)
    requires target !in visited && explored >= budget && queue != []
    ensures Crowded(free, start, target, budget)
  {
    SearchCrowded(free, start, trail, Cells(queue), d, target, budget);
  }

  /** A budget for the whole box is never too small. */
  lemma BoxNotCrowded(free: Cell -> bool, start: Cell, target: Cell, radius: nat, budget: nat)
    requires budget >= BoxSize(radius) && forall c | free(c) :: Chebyshev(start, c) <= radius
    ensures !Crowded(free, start, target, budget)
  {
    forall s: set<Cell> | forall c | c in s :: NoFarther(free, start, target, c)
      ensures |s| <= budget
    {
      forall c | c in s
        ensures c in Box(start, radius)
      {
        var p :| RouteTo(free, start, c, p);
        assert |p| > 1 ==> Hop(free, p, |p| - 1);
      }
      Ordering.SubsetSize(s, Box(start, radius));
    }
  }
}
