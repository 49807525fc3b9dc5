/** Deterministic four-way navigation over explicit terrain knowledge: the shortest path under
    optional search limits, and the cells reachable within a distance. */
module Navigation {
  import opened CellKeys
  import opened GridSearch
  import opened Options

  datatype Policy = BlockUnknown | AllowUnknown

  datatype Bounds = Bounds(minX: int, maxX: int, minY: int, maxY: int)

  datatype Terrain = Terrain(open: set<Cell>, blocked: set<Cell>, bounds: Option<Bounds>)

  datatype Limits = Limits(nodeBudget: nat, searchRadius: nat)

  datatype PathResult = Path(cells: seq<Cell>) | Unreachable | LimitExceeded | LimitsRequired

  predicate Contains(b: Bounds, c: Cell) {
    b.minX <= c.x <= b.maxX && b.minY <= c.y <= b.maxY
  }

  predicate Inside(t: Terrain, c: Cell) {
    t.bounds.Some? ==> Contains(t.bounds.value, c)
  }

  predicate CanEnter(t: Terrain, c: Cell, policy: Policy) {
    Inside(t, c) && c !in t.blocked && (c in t.open || policy == AllowUnknown)
  }

  predicate InRadius(start: Cell, limits: Option<Limits>, c: Cell) {
    limits.Some? ==> Chebyshev(start, c) <= limits.value.searchRadius
  }

  /** The cells a path may use, wherever they are. */
  ghost function Enterable(t: Terrain, policy: Policy): Cell -> bool {
    (c: Cell) => InRange(c) && CanEnter(t, c, policy)
  }

  /** The cells a path may use under the limits. */
  ghost function Allowed(t: Terrain, policy: Policy, start: Cell, limits: Option<Limits>): Cell -> bool {
    (c: Cell) => InRange(c) && CanEnter(t, c, policy) && InRadius(start, limits, c)
  }

  // ----- what a path is ---------------------------------------------------------------------

  /** A cell that terrain and policy let a path use, spelled out. */
  ghost predicate Legal(t: Terrain, policy: Policy, c: Cell) {
    && -0x8000_0000 <= c.x <= 0x7fff_ffff && -0x8000_0000 <= c.y <= 0x7fff_ffff
    && (t.bounds.Some? ==>
          && t.bounds.value.minX <= c.x <= t.bounds.value.maxX
          && t.bounds.value.minY <= c.y <= t.bounds.value.maxY)
    && c !in t.blocked
    && (policy == BlockUnknown ==> c in t.open)
  }

  /** A walk from cell to neighbouring cell, over legal cells only, from one place to another. */
  ghost predicate LegalWalk(t: Terrain, policy: Policy, start: Cell, target: Cell, p: seq<Cell>) {
    && p != [] && p[0] == start && p[|p| - 1] == target
    && (forall k | 0 <= k < |p| :: Legal(t, policy, p[k]))
    && forall k | 1 <= k < |p| :: Manhattan(p[k - 1], p[k]) == 1
  }

  lemma EnterableIsLegal(t: Terrain, policy: Policy)
    ensures forall c :: Enterable(t, policy)(c) <==> Legal(t, policy, c)
  {
  }

  /** The cells allowed under limits are the legal ones within the radius of the start. */
  lemma AllowedIsLegal(t: Terrain, policy: Policy, start: Cell, limits: Option<Limits>, c: Cell)
    ensures Allowed(t, policy, start, limits)(c)
        <==> Legal(t, policy, c)
             && (limits.Some? ==>
                   && start.x - limits.value.searchRadius <= c.x <= start.x + limits.value.searchRadius
                   && start.y - limits.value.searchRadius <= c.y <= start.y + limits.value.searchRadius)
  {
  }

  lemma AdjacentIsNext(a: Cell, b: Cell)
    ensures Adjacent(a, b) <==> Manhattan(a, b) == 1
  {
    if Manhattan(a, b) == 1 {
      assert b in {Step(a, East), Step(a, South), Step(a, West), Step(a, North)};
    }
  }

  lemma WalkIsRoute(t: Terrain, policy: Policy, start: Cell, target: Cell, p: seq<Cell>)
    ensures LegalWalk(t, policy, start, target, p)
        <==> Enterable(t, policy)(start) && RouteTo(Enterable(t, policy), start, target, p)
  {
    EnterableIsLegal(t, policy);
    hide Enterable, Legal, Adjacent, Manhattan;
    if p != [] {
      forall k | 1 <= k < |p|
        ensures Adjacent(p[k - 1], p[k]) <==> Manhattan(p[k - 1], p[k]) == 1
      {
        AdjacentIsNext(p[k - 1], p[k]);
      }
      if LegalWalk(t, policy, start, target, p) {
        assert forall k | 1 <= k < |p| :: Hop(Enterable(t, policy), p, k);
      }
      if Enterable(t, policy)(start) && RouteTo(Enterable(t, policy), start, target, p) {
        forall k | 1 <= k < |p|
          ensures Legal(t, policy, p[k]) && Adjacent(p[k - 1], p[k])
        {
          assert Hop(Enterable(t, policy), p, k);
        }
      }
    }
  }

  // ----- direction order ------------------------------------------------------------------

  function Without(ds: seq<Direction>, taken: seq<Direction>): (r: seq<Direction>)
    ensures forall d :: d in r <==> d in ds && d !in taken
  {
    if ds == [] then []
    else if ds[0] in taken then Without(ds[1..], taken)
    else [ds[0]] + Without(ds[1..], taken)
  }

  /** Directions toward the target first, longer axis before the shorter, then the fixed order. */
  function OrderedDirections(origin: Cell, target: Cell): (ds: seq<Direction>)
    ensures forall d :: d in ds
  {
    var dx, dy := target.x - origin.x, target.y - origin.y;
    var xs := if dx == 0 then [] else if dx > 0 then [East] else [West];
    var ys := if dy == 0 then [] else if dy > 0 then [South] else [North];
    var preferred := if Abs(dx) >= Abs(dy) then xs + ys else ys + xs;
    EveryDirection();
    preferred + Without(DIRECTIONS, preferred)
  }

  predicate Horizontal(d: Direction) {
    d == East || d == West
  }

  /** The direction leads closer to the target. */
  predicate Nearer(origin: Cell, target: Cell, d: Direction) {
    Manhattan(Step(origin, d), target) < Manhattan(origin, target)
  }

  function Rank(d: Direction): nat {
    match d
    case East => 0
    case South => 1
    case West => 2
    case North => 3
  }

  /** `p` is tried before `q`: directions that lead closer come first, along the longer axis before
      the shorter and horizontally if they tie; the others in the order east, south, west, north. */
  ghost predicate TriedBefore(origin: Cell, target: Cell, p: Direction, q: Direction) {
    && p != q
    && (Nearer(origin, target, q) ==>
          && Nearer(origin, target, p)
          && (Horizontal(p) <==> Abs(target.x - origin.x) >= Abs(target.y - origin.y)))
    && (!Nearer(origin, target, p) ==> Rank(p) < Rank(q))
  }

  /** All six pairs of four directions are in order. */
  ghost predicate InOrder(origin: Cell, target: Cell, ds: seq<Direction>) {
    && |ds| == 4
    && TriedBefore(origin, target, ds[0], ds[1]) && TriedBefore(origin, target, ds[0], ds[2])
    && TriedBefore(origin, target, ds[0], ds[3]) && TriedBefore(origin, target, ds[1], ds[2])
    && TriedBefore(origin, target, ds[1], ds[3]) && TriedBefore(origin, target, ds[2], ds[3])
  }

  function Rest(taken: seq<Direction>): (ds: seq<Direction>)
    ensures ds == Without(DIRECTIONS, taken)
  {
    WithoutTaken(taken);
    (if East in taken then [] else [East]) + ((if South in taken then [] else [South])
      + ((if West in taken then [] else [West]) + (if North in taken then [] else [North])))
  }

  /** Each direction is tried once, and in that order. */
  lemma DirectionsOrdered(origin: Cell, target: Cell)
    ensures InOrder(origin, target, OrderedDirections(origin, target))
  {
    NearerDirections(origin, target);
    var dx, dy := target.x - origin.x, target.y - origin.y;
    var empty: seq<Direction> := [];
    if dx == 0 && dy == 0 {
      assert empty + empty == empty;
      NoAxis(origin, target);
    } else if dy == 0 {
      var x := if dx > 0 then East else West;
      assert [x] + empty == [x];
      OneAxis(origin, target, x);
    } else if dx == 0 {
      var y := if dy > 0 then South else North;
      assert [y] + empty == [y];
      OneAxis(origin, target, y);
    } else {
      var x, y := if dx > 0 then East else West, if dy > 0 then South else North;
      assert [x] + [y] == [x, y] && [y] + [x] == [y, x];
      if Abs(dx) >= Abs(dy) {
        TwoAxes(origin, target, x, y);
      } else {
        TwoAxes(origin, target, y, x);
      }
    }
  }

  lemma NoAxis(origin: Cell, target: Cell)
    requires OrderedDirections(origin, target) == [] + Without(DIRECTIONS, [])
    requires forall d :: !Nearer(origin, target, d)
    ensures InOrder(origin, target, OrderedDirections(origin, target))
  {
    hide Nearer, OrderedDirections, Without;
    var rest := Rest([]);
    assert [] + rest == [East, South, West, North];
  }

  lemma OneAxis(origin: Cell, target: Cell, first: Direction)
    requires OrderedDirections(origin, target) == [first] + Without(DIRECTIONS, [first])
    requires forall d :: Nearer(origin, target, d) <==> d == first
    requires Horizontal(first) <==> Abs(target.x - origin.x) >= Abs(target.y - origin.y)
    ensures InOrder(origin, target, OrderedDirections(origin, target))
  {
    hide Nearer, OrderedDirections, Without;
    var rest := Rest([first]);
    assert [first] + rest == match first
      case East => [East, South, West, North]
      case West => [West, East, South, North]
      case South => [South, East, West, North]
      case North => [North, East, South, West];
  }

  lemma TwoAxes(origin: Cell, target: Cell, first: Direction, second: Direction)
    requires Horizontal(first) <==> !Horizontal(second)
    requires OrderedDirections(origin, target) == [first, second] + Without(DIRECTIONS, [first, second])
    requires forall d :: Nearer(origin, target, d) <==> d == first || d == second
    requires Horizontal(first) <==> Abs(target.x - origin.x) >= Abs(target.y - origin.y)
    ensures InOrder(origin, target, OrderedDirections(origin, target))
  {
    hide Nearer, OrderedDirections, Without, Abs;
    var c := if first == West || second == West then East else if first == North || second == North then South else West;
    var d := if first == North || second == North then (if c == East then South else West) else North;
    RestOfTwo(first, second, c, d);
    var ds := OrderedDirections(origin, target);
    assert ds == [first, second, c, d];
    assert TriedBefore(origin, target, first, second);
    assert TriedBefore(origin, target, first, c) && TriedBefore(origin, target, first, d);
    assert TriedBefore(origin, target, second, c) && TriedBefore(origin, target, second, d);
    hide TriedBefore;
  }

  lemma RestOfTwo(first: Direction, second: Direction, c: Direction, d: Direction)
    requires Horizontal(first) <==> !Horizontal(second)
    requires c == if first == West || second == West then East
                  else if first == North || second == North then South else West
    requires d == if first == North || second == North then (if c == East then South else West) else North
    ensures Without(DIRECTIONS, [first, second]) == [c, d]
  {
    hide Without;
    var rest := Rest([first, second]);
  }

  lemma NearerDirections(origin: Cell, target: Cell)
    ensures Nearer(origin, target, East) <==> target.x > origin.x
    ensures Nearer(origin, target, West) <==> target.x < origin.x
    ensures Nearer(origin, target, South) <==> target.y > origin.y
    ensures Nearer(origin, target, North) <==> target.y < origin.y
  {
  }

  lemma WithoutStep(ds: seq<Direction>, taken: seq<Direction>)
    ensures Without(ds, taken)
         == if ds == [] then [] else (if ds[0] in taken then [] else [ds[0]]) + Without(ds[1..], taken)
  {
  }

  lemma WithoutTaken(taken: seq<Direction>)
    ensures Without(DIRECTIONS, taken)
         == (if East in taken then [] else [East]) + ((if South in taken then [] else [South])
              + ((if West in taken then [] else [West]) + (if North in taken then [] else [North])))
  {
    hide Without;
    var south, west, north := DIRECTIONS[1..], DIRECTIONS[2..], DIRECTIONS[3..];
    assert south[1..] == west && west[1..] == north && north[1..] == [];
    WithoutStep(DIRECTIONS, taken);
    WithoutStep(south, taken);
    WithoutStep(west, taken);
    WithoutStep(north, taken);
    WithoutStep([], taken);
    assert Without(north, taken) == if North in taken then [] else [North];
  }

  // ----- shortest path --------------------------------------------------------------------

  function Reversed(s: seq<Cell>): (r: seq<Cell>)
    ensures |r| == |s|
  {
    if s == [] then [] else [s[|s| - 1]] + Reversed(s[..|s| - 1])
  }

  lemma UnwindStep(parents: Parents, start: Cell, free: Cell -> bool, trail: Trails, full: seq<Cell>, n: nat, c: Cell)
    requires Linked(parents, trail, start) && Trailed(free, start, trail) && c in parents
    requires n <= |full| && trail[c] == full[..n]
    ensures n > 0 && full[n - 1] == c
    ensures var up := parents[c];
            if up.Some? then n > 1 && up.value in parents && up.value in trail && trail[up.value] == full[..n - 1] else n == 1
  {
    assert LinkedAt(parents, trail, start, c) && Chained(trail, start, c);
    assert full[..n][..n - 1] == full[..n - 1];
    assert End(trail[c]) == c;
  }

  /** Walk the parent links back from `current` and turn the list around. */
  method Unwind(parents: Parents, start: Cell, current: Cell, target: Cell, ghost free: Cell -> bool,
                ghost trail: Trails)
    returns (path: seq<Cell>)
    requires Linked(parents, trail, start) && Trailed(free, start, trail) && current in parents
    ensures current in trail && path == trail[current] + [target]
  {
    ghost var full := trail[current] + [target];
    path := [target];
    var cursor := Some(current);
    ghost var n := |trail[current]|;
    while cursor.Some?
      invariant 0 <= n <= |trail[current]| && Reversed(path) == full[n..]
      invariant if cursor.Some? then cursor.value in parents && cursor.value in trail && trail[cursor.value] == full[..n]
                else n == 0
      decreases n
    {
      var c := cursor.value;
      UnwindStep(parents, start, free, trail, full, n, c);
      assert (path + [c])[..|path|] == path;
      assert full[n - 1..] == [c] + full[n..];
      path := path + [c];
      cursor := parents[c];
      n := n - 1;
    }
    path := Reversed(path);
    assert full[0..] == full;
  }

  /** No enterable neighbour of `c` lies outside the radius. */
  ghost predicate Unpruned(t: Terrain, policy: Policy, start: Cell, limits: Option<Limits>, c: Cell) {
    forall e | Enterable(t, policy)(Step(c, e)) :: InRadius(start, limits, Step(c, e))
  }

  /** No cell expanded so far has an enterable neighbour outside the radius. */
  ghost predicate NothingPruned(t: Terrain, policy: Policy, start: Cell, limits: Option<Limits>, trail: Trails,
                                queue: seq<Cell>, busy: set<Cell>)
  {
    forall c | c in trail && c !in queue && c !in busy :: Unpruned(t, policy, start, limits, c)
  }

  /** When the search has run dry and pruned nothing, what it found is all there is. */
  lemma {:induction false} FoundEverything(t: Terrain, policy: Policy, start: Cell, limits: Option<Limits>,
                                           trail: Trails, d: int, p: seq<Cell>)
    requires Searching(Allowed(t, policy, start, limits), start, trail, [], {}, d)
    requires NothingPruned(t, policy, start, limits, trail, [], {})
    requires Route(Enterable(t, policy), start, p)
    ensures End(p) in trail
  {
    if |p| > 1 {
      var q := p[..|p| - 1];
      RoutePrefix(Enterable(t, policy), start, p, |p| - 1);
      FoundEverything(t, policy, start, limits, trail, d, q);
      assert End(q) == p[|p| - 2] && Hop(Enterable(t, policy), p, |p| - 1);
      var e :| Step(End(q), e) == End(p);
      assert Expanded(Allowed(t, policy, start, limits), trail, End(q)) && Unpruned(t, policy, start, limits, End(q));
    }
  }

  /** `c` has a neighbour outside the radius that is not known to be blocked. */
  ghost predicate Edge(t: Terrain, start: Cell, limits: Option<Limits>, c: Cell) {
    exists e :: AcrossEdge(t, start, limits, Step(c, e))
  }

  predicate AcrossEdge(t: Terrain, start: Cell, limits: Option<Limits>, n: Cell) {
    InRange(n) && !InRadius(start, limits, n) && Inside(t, n) && n !in t.blocked
  }

  ghost predicate EdgeSeen(t: Terrain, start: Cell, limits: Option<Limits>, trail: Trails) {
    exists c :: c in trail && Edge(t, start, limits, c)
  }

  /** The cells a route within the limits can reach lead on beyond them. */
  ghost predicate LeadsOut(t: Terrain, policy: Policy, start: Cell, limits: Option<Limits>) {
    exists c, p :: RouteTo(Allowed(t, policy, start, limits), start, c, p) && Edge(t, start, limits, c)
  }

  /** What the caller may conclude from the result.  Unreachable is final.  The limits are blamed
      only when the target lies outside the radius, when more cells than the budget are no farther
      than the target, or when no route stays inside the radius but the search could have gone on
      outside. */
  ghost predicate Answers(t: Terrain, start: Cell, target: Cell, policy: Policy, limits: Option<Limits>, r: PathResult) {
    var all, near := Enterable(t, policy), Allowed(t, policy, start, limits);
    match r
    case Path(p) => Shortest(near, start, target, p) && all(start) && forall k, l | 0 <= k < l < |p| :: p[k] != p[l]
    case Unreachable => !all(start) || !all(target) || forall q :: !RouteTo(all, start, target, q)
    case LimitExceeded =>
      && limits.Some?
      && (|| Chebyshev(start, target) > limits.value.searchRadius
          || Crowded(near, start, target, limits.value.nodeBudget)
          || ((forall q :: !RouteTo(near, start, target, q)) && LeadsOut(t, policy, start, limits)))
    case LimitsRequired => policy == AllowUnknown && t.bounds.None? && limits.None?
  }

  /** The loop invariant of the search; `busy` is the cell being expanded, if any. */
  ghost predicate Exploring(t: Terrain, start: Cell, target: Cell, policy: Policy, limits: Option<Limits>,
                            trail: Trails, queue: seq<Cell>, parents: Parents, expanded: nat, pruned: bool,
                            busy: set<Cell>, d: int)
  {
    && Searching(Allowed(t, policy, start, limits), start, trail, queue, busy, d)
    && Linked(parents, trail, start) && target !in trail
    && expanded + |queue| == |trail.Keys| && (pruned ==> limits.Some? && EdgeSeen(t, start, limits, trail))
    && (!pruned ==> NothingPruned(t, policy, start, limits, trail, queue, busy))
  }

  lemma ExploreHead(t: Terrain, start: Cell, target: Cell, policy: Policy, limits: Option<Limits>, trail: Trails,
                    queue: seq<Cell>, parents: Parents, expanded: nat, pruned: bool, d: int)
    requires Exploring(t, start, target, policy, limits, trail, queue, parents, expanded, pruned, {}, d) && queue != []
    ensures queue[0] in trail && queue[0] !in queue[1..]
    ensures Exploring(t, start, target, policy, limits, trail, queue[1..], parents, expanded + 1, pruned,
                      {queue[0]}, |trail[queue[0]]| - 1)
  {
    hide Searching, Linked;
    var near := Allowed(t, policy, start, limits);
    HeadIsOnce(near, start, trail, queue, d);
    TakeHead(near, start, trail, queue, d);
    assert queue == [queue[0]] + queue[1..];
  }

  lemma HeadIsOnce(free: Cell -> bool, start: Cell, trail: Trails, queue: seq<Cell>, d: int)
    requires Searching(free, start, trail, queue, {}, d) && queue != []
    ensures queue[0] !in queue[1..]
  {
  }

  lemma ExploreNeighbor(t: Terrain, start: Cell, target: Cell, policy: Policy, limits: Option<Limits>, trail: Trails,
                        queue: seq<Cell>, parents: Parents, expanded: nat, pruned: bool, current: Cell, n: Cell)
    requires current in trail && current !in queue
    requires Exploring(t, start, target, policy, limits, trail, queue, parents, expanded, pruned, {current},
                       |trail[current]| - 1)
    requires n != target && n !in trail && Adjacent(current, n) && Allowed(t, policy, start, limits)(n)
    ensures Exploring(t, start, target, policy, limits, Found(trail, current, n), queue + [n],
                      parents[n := Some(current)], expanded, pruned, {current}, |trail[current]| - 1)
  {
    Discover(Allowed(t, policy, start, limits), start, trail, queue, current, n);
    LinkDiscovered(parents, trail, start, current, n);
    assert Found(trail, current, n).Keys == trail.Keys + {n};
    PruneDiscovered(t, policy, start, limits, trail, queue, current, n, pruned);
    assert EdgeSeen(t, start, limits, trail) ==> EdgeSeen(t, start, limits, Found(trail, current, n));
  }

  lemma PruneDiscovered(t: Terrain, policy: Policy, start: Cell, limits: Option<Limits>, trail: Trails,
                        queue: seq<Cell>, current: Cell, n: Cell, pruned: bool)
    requires current in trail && (!pruned ==> NothingPruned(t, policy, start, limits, trail, queue, {current}))
    ensures !pruned ==> NothingPruned(t, policy, start, limits, Found(trail, current, n), queue + [n], {current})
  {
  }

  /** The neighbour in direction `e` has been dealt with. */
  ghost predicate Handled(t: Terrain, start: Cell, policy: Policy, limits: Option<Limits>, trail: Trails, pruned: bool,
                          n: Cell)
  {
    && (Allowed(t, policy, start, limits)(n) ==> n in trail)
    && (!pruned && Enterable(t, policy)(n) ==> InRadius(start, limits, n))
  }

  lemma ExploreDone(t: Terrain, start: Cell, target: Cell, policy: Policy, limits: Option<Limits>, trail: Trails,
                    queue: seq<Cell>, parents: Parents, expanded: nat, pruned: bool, current: Cell, ds: seq<Direction>)
    requires current in trail && current !in queue
    requires Exploring(t, start, target, policy, limits, trail, queue, parents, expanded, pruned, {current},
                       |trail[current]| - 1)
    requires forall m | 0 <= m < |ds| :: Handled(t, start, policy, limits, trail, pruned, Step(current, ds[m]))
    requires forall e :: e in ds
    ensures Exploring(t, start, target, policy, limits, trail, queue, parents, expanded, pruned, {},
                      if queue == [] then |trail[current]| - 1 else |trail[queue[0]]| - 1)
  {
    forall e
      ensures Handled(t, start, policy, limits, trail, pruned, Step(current, e))
    {
      assert e in ds;
    }
    FinishHead(Allowed(t, policy, start, limits), start, trail, queue, current);
    assert !pruned ==> Unpruned(t, policy, start, limits, current);
  }

  lemma ExploreFacts(t: Terrain, start: Cell, target: Cell, policy: Policy, limits: Option<Limits>, trail: Trails,
                     queue: seq<Cell>, parents: Parents, expanded: nat, pruned: bool, busy: set<Cell>, d: int)
    requires Exploring(t, start, target, policy, limits, trail, queue, parents, expanded, pruned, busy, d)
    ensures parents.Keys == trail.Keys && target !in trail && start in trail
    ensures expanded + |queue| == |trail.Keys| && (pruned ==> limits.Some?)
  {
  }

  /** The radius cut off a neighbour of the cell being expanded. */
  lemma ExplorePrunes(t: Terrain, start: Cell, target: Cell, policy: Policy, limits: Option<Limits>, trail: Trails,
                      queue: seq<Cell>, parents: Parents, expanded: nat, pruned: bool, current: Cell, n: Cell, d: int)
    requires Exploring(t, start, target, policy, limits, trail, queue, parents, expanded, pruned, {current}, d)
    requires current in trail && Adjacent(current, n) && AcrossEdge(t, start, limits, n)
    ensures Exploring(t, start, target, policy, limits, trail, queue, parents, expanded, true, {current}, d)
  {
    var e :| Step(current, e) == n;
    assert Edge(t, start, limits, current);
  }

  /** Look at one neighbour of `current`. */
  method Visit(t: Terrain, start: Cell, target: Cell, policy: Policy, limits: Option<Limits>, current: Cell,
               neighbor: Cell, queue0: seq<Cell>, parents0: Parents, pruned0: bool, ghost trail0: Trails,
               ghost expanded: nat)
    returns (found: bool, queue: seq<Cell>, parents: Parents, pruned: bool, ghost trail: Trails)
    requires current in trail0 && current !in queue0 && Adjacent(current, neighbor)
    requires Exploring(t, start, target, policy, limits, trail0, queue0, parents0, expanded, pruned0, {current},
                       |trail0[current]| - 1)
    ensures current in trail && trail[current] == trail0[current] && current !in queue
    ensures Exploring(t, start, target, policy, limits, trail, queue, parents, expanded, pruned, {current},
                      |trail[current]| - 1)
    ensures if found then neighbor == target && Allowed(t, policy, start, limits)(target)
            else Handled(t, start, policy, limits, trail, pruned, neighbor)
    ensures (trail == trail0 && queue == queue0)
            || (trail.Keys == trail0.Keys + {neighbor} && neighbor !in trail0)
    ensures pruned0 ==> pruned
  {
    hide Exploring;
    found, queue, parents, pruned, trail := false, queue0, parents0, pruned0, trail0;
    ExploreFacts(t, start, target, policy, limits, trail, queue, parents, expanded, pruned, {current},
                 |trail[current]| - 1);
    if !InRange(neighbor) {
    } else if !InRadius(start, limits, neighbor) {
      if Inside(t, neighbor) && neighbor !in t.blocked {
        ExplorePrunes(t, start, target, policy, limits, trail, queue, parents, expanded, pruned, current, neighbor,
                      |trail[current]| - 1);
        pruned := true;
      }
    } else if neighbor in parents || !CanEnter(t, neighbor, policy) {
    } else if neighbor == target {
      found := true;
    } else {
      ExploreNeighbor(t, start, target, policy, limits, trail, queue, parents, expanded, pruned, current, neighbor);
      parents := parents[neighbor := Some(current)];
      queue := queue + [neighbor];
      trail := Found(trail, current, neighbor);
    }
  }

  lemma HandledStays(t: Terrain, start: Cell, policy: Policy, limits: Option<Limits>, trail: Trails, pruned: bool,
                     trail': Trails, pruned': bool, n: Cell)
    requires Handled(t, start, policy, limits, trail, pruned, n) && trail.Keys <= trail'.Keys && (pruned ==> pruned')
    ensures Handled(t, start, policy, limits, trail', pruned', n)
  {
  }

  /** Look at the neighbours of `current` in order; stop at the target. */
  method Expand(t: Terrain, start: Cell, target: Cell, policy: Policy, limits: Option<Limits>, current: Cell,
                queue0: seq<Cell>, parents0: Parents, pruned0: bool, ghost trail0: Trails, ghost expanded: nat)
    returns (found: bool, queue: seq<Cell>, parents: Parents, pruned: bool, ghost trail: Trails)
    requires current in trail0 && current !in queue0
    requires Exploring(t, start, target, policy, limits, trail0, queue0, parents0, expanded, pruned0, {current},
                       |trail0[current]| - 1)
    ensures current in trail && trail[current] == trail0[current]
    ensures if found then
              && Adjacent(current, target) && Allowed(t, policy, start, limits)(target)
              && Exploring(t, start, target, policy, limits, trail, queue, parents, expanded, pruned, {current},
                           |trail[current]| - 1)
            else exists d :: Exploring(t, start, target, policy, limits, trail, queue, parents, expanded, pruned, {}, d)
    ensures (trail.Keys == trail0.Keys && queue == queue0) || trail0.Keys < trail.Keys
  {
    hide Exploring, Handled, Allowed;
    found, queue, parents, pruned, trail := false, queue0, parents0, pruned0, trail0;
    var ds := OrderedDirections(current, target);
    for k := 0 to |ds|
      invariant current in trail && current !in queue && trail[current] == trail0[current]
      invariant Exploring(t, start, target, policy, limits, trail, queue, parents, expanded, pruned, {current},
                          |trail[current]| - 1)
      invariant forall m | 0 <= m < k :: Handled(t, start, policy, limits, trail, pruned, Step(current, ds[m]))
      invariant (trail.Keys == trail0.Keys && queue == queue0) || trail0.Keys < trail.Keys
    {
      ghost var trail1, pruned1 := trail, pruned;
      found, queue, parents, pruned, trail := Visit(t, start, target, policy, limits, current, Step(current, ds[k]),
                                                    queue, parents, pruned, trail, expanded);
      if found {
        return;
      }
      forall m | 0 <= m < k
        ensures Handled(t, start, policy, limits, trail, pruned, Step(current, ds[m]))
      {
        HandledStays(t, start, policy, limits, trail1, pruned1, trail, pruned, Step(current, ds[m]));
      }
    }
    ExploreDone(t, start, target, policy, limits, trail, queue, parents, expanded, pruned, current, ds);
  }

  /** No allowed route reaches the target within `n` cells. */
  ghost predicate Beyond(t: Terrain, start: Cell, target: Cell, policy: Policy, limits: Option<Limits>, n: nat) {
    forall q | RouteTo(Allowed(t, policy, start, limits), start, target, q) :: |q| > n
  }

  lemma TargetBeyondHead(t: Terrain, start: Cell, target: Cell, policy: Policy, limits: Option<Limits>, trail: Trails,
                         queue: seq<Cell>, parents: Parents, expanded: nat, pruned: bool, d: int)
    requires Exploring(t, start, target, policy, limits, trail, queue, parents, expanded, pruned, {}, d) && queue != []
    ensures queue[0] in trail && Beyond(t, start, target, policy, limits, |trail[queue[0]]|)
  {
    var near := Allowed(t, policy, start, limits);
    HeadDepth(near, start, trail, queue, {}, d);
    forall q | RouteTo(near, start, target, q)
      ensures |q| > |trail[queue[0]]|
    {
      NoShorterRoute(near, start, trail, queue, |trail[queue[0]]| - 1, q);
    }
  }

  lemma FoundPath(t: Terrain, start: Cell, target: Cell, policy: Policy, limits: Option<Limits>, trail: Trails,
                  queue: seq<Cell>, parents: Parents, expanded: nat, pruned: bool, current: Cell, d: int)
    requires Exploring(t, start, target, policy, limits, trail, queue, parents, expanded, pruned, {current}, d)
    requires current in trail && Adjacent(current, target) && Allowed(t, policy, start, limits)(target)
    requires Beyond(t, start, target, policy, limits, |trail[current]|)
    ensures Shortest(Allowed(t, policy, start, limits), start, target, trail[current] + [target])
    ensures var p := trail[current] + [target]; forall k, l | 0 <= k < l < |p| :: p[k] != p[l]
  {
    var near := Allowed(t, policy, start, limits);
    RouteExtends(near, start, trail[current], target);
    DiscoverTrailed(near, start, trail, current, target);
    TrailSimple(near, start, Found(trail, current, target), target);
  }

  /** The search ran dry. */
  lemma RanDry(t: Terrain, start: Cell, target: Cell, policy: Policy, limits: Option<Limits>, trail: Trails,
               parents: Parents, expanded: nat, pruned: bool, d: int)
    requires Exploring(t, start, target, policy, limits, trail, [], parents, expanded, pruned, {}, d)
    ensures forall q :: !RouteTo(Allowed(t, policy, start, limits), start, target, q)
    ensures !pruned ==> forall q :: !RouteTo(Enterable(t, policy), start, target, q)
    ensures pruned ==> LeadsOut(t, policy, start, limits)
  {
    forall q | RouteTo(Allowed(t, policy, start, limits), start, target, q)
      ensures false
    {
      NoShorterRoute(Allowed(t, policy, start, limits), start, trail, [], d, q);
    }
    if !pruned {
      forall q | RouteTo(Enterable(t, policy), start, target, q)
        ensures false
      {
        FoundEverything(t, policy, start, limits, trail, d, q);
      }
    }
  }

  lemma SearchBegins(t: Terrain, start: Cell, target: Cell, policy: Policy, limits: Option<Limits>)
    requires start != target
    ensures Exploring(t, start, target, policy, limits, map[start := [start]], [start], map[start := None], 0, false, {}, 0)
  {
    var trail: Trails, parents: Parents := map[start := [start]], map[start := None];
    SearchStarts(Allowed(t, policy, start, limits), start);
    assert trail.Keys == {start} && LinkedAt(parents, trail, start, start);
  }

  /** The deterministic shortest path, start and target included. */
  method ShortestPath(t: Terrain, start: Cell, target: Cell, policy: Policy, limits: Option<Limits>)
    returns (r: PathResult)
    requires InRange(start) && InRange(target)
    ensures Answers(t, start, target, policy, limits, r)
    ensures r.Path? ==> LegalWalk(t, policy, start, target, r.cells)
    ensures r.Unreachable? ==> forall q :: !LegalWalk(t, policy, start, target, q)
    ensures policy == AllowUnknown && t.bounds.None? && limits.None? <==> r == LimitsRequired
  {
    r := AnyPath(t, start, target, policy, limits);
    AnswerIsLegal(t, start, target, policy, limits, r);
  }

  /** What an answer says of legal walks. */
  lemma AnswerIsLegal(t: Terrain, start: Cell, target: Cell, policy: Policy, limits: Option<Limits>, r: PathResult)
    requires Answers(t, start, target, policy, limits, r)
    ensures r.Path? ==> LegalWalk(t, policy, start, target, r.cells)
    ensures r.Unreachable? ==> forall q :: !LegalWalk(t, policy, start, target, q)
  {
    if r.Path? {
      AllowedEnterable(t, policy, start, limits);
      Widen(Allowed(t, policy, start, limits), Enterable(t, policy), start, target, r.cells);
      WalkIsRoute(t, policy, start, target, r.cells);
    }
    if r.Unreachable? {
      forall q
        ensures !LegalWalk(t, policy, start, target, q)
      {
        EnterableIsLegal(t, policy);
        WalkIsRoute(t, policy, start, target, q);
      }
    }
  }

  lemma AllowedEnterable(t: Terrain, policy: Policy, start: Cell, limits: Option<Limits>)
    ensures forall c | Allowed(t, policy, start, limits)(c) :: Enterable(t, policy)(c)
  {
  }

  lemma Widen(near: Cell -> bool, all: Cell -> bool, start: Cell, target: Cell, p: seq<Cell>)
    requires RouteTo(near, start, target, p) && forall c | near(c) :: all(c)
    ensures RouteTo(all, start, target, p)
  {
    forall k | 1 <= k < |p|
      ensures Hop(all, p, k)
    {
      assert Hop(near, p, k);
    }
  }

  method AnyPath(t: Terrain, start: Cell, target: Cell, policy: Policy, limits: Option<Limits>)
    returns (r: PathResult)
    requires InRange(start) && InRange(target)
    ensures Answers(t, start, target, policy, limits, r)
    ensures policy == AllowUnknown && t.bounds.None? && limits.None? <==> r == LimitsRequired
  {
    if policy == AllowUnknown && t.bounds.None? && limits.None? {
      return LimitsRequired;
    }
    if !CanEnter(t, start, policy) || !CanEnter(t, target, policy) {
      return Unreachable;
    }
    if limits.Some? && Chebyshev(start, target) > limits.value.searchRadius {
      return LimitExceeded;
    }
    if start == target {
      return Path([start]);
    }
    r := Search(t, start, target, policy, limits);
  }

  method Search(t: Terrain, start: Cell, target: Cell, policy: Policy, limits: Option<Limits>) returns (r: PathResult)
    requires InRange(start) && start != target && CanEnter(t, start, policy)
    ensures Answers(t, start, target, policy, limits, r) && r != LimitsRequired
  {
    hide Exploring, Linked, Trailed, Beyond, Shortest, Answers, World, Allowed, InRadius, CanEnter, InRange;
    var queue: seq<Cell> := [start];
    var parents: Parents := map[start := None];
    var expanded, pruned := 0, false;
    ghost var trail: Trails, d := map[start := [start]], 0;
    SearchBegins(t, start, target, policy, limits);
    while queue != []
      invariant Exploring(t, start, target, policy, limits, trail, queue, parents, expanded, pruned, {}, d)
      decreases World() - trail.Keys, |queue|
    {
      ExploreFacts(t, start, target, policy, limits, trail, queue, parents, expanded, pruned, {}, d);
      if limits.Some? && expanded >= limits.value.nodeBudget {
        BudgetSpent(t, start, target, policy, limits, trail, queue, parents, expanded, pruned, d);
        return LimitExceeded;
      }
      ExploreHead(t, start, target, policy, limits, trail, queue, parents, expanded, pruned, d);
      TargetBeyondHead(t, start, target, policy, limits, trail, queue, parents, expanded, pruned, d);
      var current := queue[0];
      queue := queue[1..];
      expanded := expanded + 1;
      var found;
      found, queue, parents, pruned, trail :=
        Expand(t, start, target, policy, limits, current, queue, parents, pruned, trail, expanded);
      if found {
        FoundPath(t, start, target, policy, limits, trail, queue, parents, expanded, pruned, current,
                  |trail[current]| - 1);
        LinksOf(t, start, target, policy, limits, trail, queue, parents, expanded, pruned, {current}, |trail[current]| - 1);
        var path := Unwind(parents, start, current, target, Allowed(t, policy, start, limits), trail);
        AnswersPath(t, start, target, policy, limits, path);
        return Path(path);
      }
      d :| Exploring(t, start, target, policy, limits, trail, queue, parents, expanded, pruned, {}, d);
      FoundCells(t, start, target, policy, limits, trail, queue, parents, expanded, pruned, d);
    }
    ExploreFacts(t, start, target, policy, limits, trail, queue, parents, expanded, pruned, {}, d);
    RanDry(t, start, target, policy, limits, trail, parents, expanded, pruned, d);
    AnswersDry(t, start, target, policy, limits, pruned);
    if pruned {
      return LimitExceeded;
    }
    return Unreachable;
  }

  /** All cells with coordinates in range. */
  ghost function World(): (s: set<Cell>)
    ensures forall c :: c in s <==> InRange(c)
  {
    set x: int, y: int | COORDINATE_MIN <= x <= COORDINATE_MAX && COORDINATE_MIN <= y <= COORDINATE_MAX :: Cell(x, y)
  }

  lemma FoundCells(t: Terrain, start: Cell, target: Cell, policy: Policy, limits: Option<Limits>, trail: Trails,
                   queue: seq<Cell>, parents: Parents, expanded: nat, pruned: bool, d: int)
    requires Exploring(t, start, target, policy, limits, trail, queue, parents, expanded, pruned, {}, d)
    requires InRange(start)
    ensures trail.Keys <= World()
    ensures limits.Some? ==> forall c | c in trail :: Chebyshev(start, c) <= limits.value.searchRadius
  {
    hide Exploring, Linked, Trailed;
    LinksOf(t, start, target, policy, limits, trail, queue, parents, expanded, pruned, {}, d);
    forall c | c in trail
      ensures InRange(c) && InRadius(start, limits, c)
    {
      if c != start {
        TrailFree(Allowed(t, policy, start, limits), start, trail, c);
      }
    }
  }

  lemma AnswersPath(t: Terrain, start: Cell, target: Cell, policy: Policy, limits: Option<Limits>, p: seq<Cell>)
    requires Shortest(Allowed(t, policy, start, limits), start, target, p) && Enterable(t, policy)(start)
    requires forall k, l | 0 <= k < l < |p| :: p[k] != p[l]
    ensures Answers(t, start, target, policy, limits, Path(p))
  {
  }

  /** The budget ran out before the target was found. */
  lemma BudgetSpent(t: Terrain, start: Cell, target: Cell, policy: Policy, limits: Option<Limits>, trail: Trails,
                    queue: seq<Cell>, parents: Parents, expanded: nat, pruned: bool, d: int)
    requires Exploring(t, start, target, policy, limits, trail, queue, parents, expanded, pruned, {}, d)
    requires queue != [] && limits.Some? && expanded >= limits.value.nodeBudget
    ensures Answers(t, start, target, policy, limits, LimitExceeded)
  {
    hide Searching, Crowded, Linked;
    SearchCrowded(Allowed(t, policy, start, limits), start, trail, queue, d, target, limits.value.nodeBudget);
  }

  lemma AnswersDry(t: Terrain, start: Cell, target: Cell, policy: Policy, limits: Option<Limits>, pruned: bool)
    requires pruned ==> limits.Some? && LeadsOut(t, policy, start, limits)
    requires forall q :: !RouteTo(Allowed(t, policy, start, limits), start, target, q)
    requires !pruned ==> forall q :: !RouteTo(Enterable(t, policy), start, target, q)
    ensures Answers(t, start, target, policy, limits, if pruned then LimitExceeded else Unreachable)
  {
  }

  lemma LinksOf(t: Terrain, start: Cell, target: Cell, policy: Policy, limits: Option<Limits>, trail: Trails,
                queue: seq<Cell>, parents: Parents, expanded: nat, pruned: bool, busy: set<Cell>, d: int)
    requires Exploring(t, start, target, policy, limits, trail, queue, parents, expanded, pruned, busy, d)
    ensures Linked(parents, trail, start) && Trailed(Allowed(t, policy, start, limits), start, trail)
  {
  }

  /** With a budget for the whole box, the limits are blamed only when no route stays inside them. */
  lemma BoxBudgetDecides(t: Terrain, start: Cell, target: Cell, policy: Policy, limits: Option<Limits>)
    requires Answers(t, start, target, policy, limits, LimitExceeded)
    requires limits.value.nodeBudget >= BoxSize(limits.value.searchRadius)
    ensures start == target || forall q :: !RouteTo(Allowed(t, policy, start, limits), start, target, q)
  {
    hide Crowded, BoxSize, LeadsOut;
    var near := Allowed(t, policy, start, limits);
    BoxNotCrowded(near, start, target, limits.value.searchRadius, limits.value.nodeBudget);
    if Chebyshev(start, target) > limits.value.searchRadius {
      forall q | RouteTo(near, start, target, q)
        ensures start == target
      {
        assert |q| > 1 ==> Hop(near, q, |q| - 1);
      }
    }
  }

  // ----- reachable cells -------------------------------------------------------------------

  datatype ReachResult = Reached(cells: set<Cell>) | Blocked | NoDistanceLimit | NegativeDistance

  /** `c` is reached from `start` by a route of at most `limit` steps. */
  ghost predicate ReachedWithin(free: Cell -> bool, start: Cell, limit: Option<nat>, c: Cell) {
    exists p :: RouteTo(free, start, c, p) && (limit.Some? ==> |p| - 1 <= limit.value)
  }

  ghost predicate ReachesExactly(free: Cell -> bool, start: Cell, limit: Option<nat>, cells: set<Cell>) {
    forall c :: c in cells <==> ReachedWithin(free, start, limit, c)
  }

  /** No cell visited so far is farther than the limit. */
  ghost predicate Near(trail: Trails, visited: set<Cell>, limit: Option<nat>) {
    limit.Some? ==> forall c | c in visited :: c in trail && |trail[c]| - 1 <= limit.value
  }

  /** Once the head of the queue is at the limit, the visited cells are the reachable ones. */
  lemma LimitReached(free: Cell -> bool, start: Cell, limit: Option<nat>, trail: Trails, queue: seq<Entry>,
                     visited: set<Cell>, explored: nat, d: int)
    requires Sweeping(free, start, trail, queue, visited, explored, {}, d) && Near(trail, visited, limit)
    requires queue == [] || (limit.Some? && queue[0].depth >= limit.value)
    ensures ReachesExactly(free, start, limit, visited)
  {
    hide Sweeping;
    SweepFacts(free, start, trail, queue, visited, explored, {}, d);
    if queue != [] {
      SweepHead(free, start, trail, queue, visited, explored, d);
    }
    forall c
      ensures c in visited <==> ReachedWithin(free, start, limit, c)
    {
      if c in visited {
        assert RouteTo(free, start, c, trail[c]);
      }
      if ReachedWithin(free, start, limit, c) && c !in visited {
        var p :| RouteTo(free, start, c, p) && (limit.Some? ==> |p| - 1 <= limit.value);
        if queue == [] {
          SweepComplete(free, start, trail, visited, explored, d, p);
        }
        assert false;
      }
    }
  }

  /** Visit the enterable neighbours of `current`. */
  method ExpandReach(t: Terrain, start: Cell, policy: Policy, limit: Option<nat>, current: Cell, distance: nat,
                     queue0: seq<Entry>, visited0: set<Cell>, ghost trail0: Trails, ghost explored: nat)
    returns (queue: seq<Entry>, visited: set<Cell>, ghost trail: Trails)
    requires Sweeping(Enterable(t, policy), start, trail0, queue0, visited0, explored, {current}, distance)
    requires current in trail0 && distance == |trail0[current]| - 1 && (limit.Some? ==> distance < limit.value)
    requires Near(trail0, visited0, limit)
    ensures Sweeping(Enterable(t, policy), start, trail, queue, visited, explored, {}, distance)
    ensures Near(trail, visited, limit)
    ensures (visited == visited0 && queue == queue0) || visited0 < visited
  {
    hide Sweeping;
    ghost var free := Enterable(t, policy);
    queue, visited, trail := queue0, visited0, trail0;
    for k := 0 to |DIRECTIONS|
      invariant Sweeping(free, start, trail, queue, visited, explored, {current}, distance)
      invariant current in trail && distance == |trail[current]| - 1
      invariant (visited == visited0 && queue == queue0) || visited0 < visited
      invariant Near(trail, visited, limit)
      invariant forall m | 0 <= m < k :: free(Step(current, DIRECTIONS[m])) ==> Step(current, DIRECTIONS[m]) in visited
    {
      var neighbor := Step(current, DIRECTIONS[k]);
      if !InRange(neighbor) || neighbor in visited || !CanEnter(t, neighbor, policy) {
        continue;
      }
      SweepFinds(free, start, trail, queue, visited, explored, current, distance, neighbor);
      visited := visited + {neighbor};
      trail := Found(trail, current, neighbor);
      queue := queue + [Entry(neighbor, distance + 1)];
    }
    forall e | free(Step(current, e))
      ensures Step(current, e) in visited
    {
      EveryDirection();
      assert e in DIRECTIONS;
    }
    SweepDone(free, start, trail, queue, visited, explored, current, distance);
  }

  /** All cells reachable from `start`, within a path distance if one is given. */
  method ReachableCells(t: Terrain, start: Cell, policy: Policy, maxDistance: Option<int>) returns (r: ReachResult)
    requires InRange(start)
    ensures r.NegativeDistance? <==> maxDistance.Some? && maxDistance.value < 0
    ensures r.NoDistanceLimit? <==> maxDistance.None? && policy == AllowUnknown && t.bounds.None?
    ensures r.Blocked? ==> !Legal(t, policy, start)
    ensures r.Reached? ==>
              && Legal(t, policy, start)
              && forall c :: c in r.cells <==>
                   exists p :: LegalWalk(t, policy, start, c, p)
                               && (maxDistance.Some? ==> |p| - 1 <= maxDistance.value)
  {
    if maxDistance.Some? && maxDistance.value < 0 {
      return NegativeDistance;
    }
    if maxDistance.None? && policy == AllowUnknown && t.bounds.None? {
      return NoDistanceLimit;
    }
    if !CanEnter(t, start, policy) {
      return Blocked;
    }
    var cells := Flood(t, start, policy, AsLimit(maxDistance));
    FloodIsLegal(t, start, policy, AsLimit(maxDistance), cells);
    return Reached(cells);
  }

  lemma FloodIsLegal(t: Terrain, start: Cell, policy: Policy, limit: Option<nat>, cells: set<Cell>)
    requires Enterable(t, policy)(start) && ReachesExactly(Enterable(t, policy), start, limit, cells)
    ensures Legal(t, policy, start)
    ensures forall c :: c in cells <==>
              exists p :: LegalWalk(t, policy, start, c, p) && (limit.Some? ==> |p| - 1 <= limit.value)
  {
    EnterableIsLegal(t, policy);
    hide Enterable, Legal, RouteTo, LegalWalk;
    forall c
      ensures c in cells <==>
        exists p :: LegalWalk(t, policy, start, c, p) && (limit.Some? ==> |p| - 1 <= limit.value)
    {
      forall p
        ensures LegalWalk(t, policy, start, c, p) <==> RouteTo(Enterable(t, policy), start, c, p)
      {
        WalkIsRoute(t, policy, start, c, p);
      }
      assert c in cells <==> ReachedWithin(Enterable(t, policy), start, limit, c);
    }
  }

  function AsLimit(maxDistance: Option<int>): Option<nat> {
    if maxDistance.Some? && maxDistance.value >= 0 then Some(maxDistance.value) else None
  }

  method Flood(t: Terrain, start: Cell, policy: Policy, limit: Option<nat>) returns (visited: set<Cell>)
    requires InRange(start)
    ensures ReachesExactly(Enterable(t, policy), start, limit, visited)
  {
    hide Sweeping, ReachesExactly, World;
    ghost var free := Enterable(t, policy);
    var queue := [Entry(start, 0)];
    visited := {start};
    ghost var trail: Trails, explored, d, draining := map[start := [start]], 0, 0, false;
    SweepStarts(free, start);
    while queue != []
      invariant if draining then
                  && ReachesExactly(free, start, limit, visited) && limit.Some?
                  && forall k | 0 <= k < |queue| :: queue[k].depth >= limit.value
                else Sweeping(free, start, trail, queue, visited, explored, {}, d) && Near(trail, visited, limit)
      decreases World() - visited, |queue|
    {
      var current, distance := queue[0].cell, queue[0].depth;
      if limit.Some? && distance >= limit.value {
        if !draining {
          LimitReached(free, start, limit, trail, queue, visited, explored, d);
          SweepSorted(free, start, trail, queue, visited, explored, {}, d);
          draining := true;
        }
        queue := queue[1..];
        continue;
      }
      SweepHead(free, start, trail, queue, visited, explored, d);
      explored, d := explored + 1, distance;
      queue, visited, trail := ExpandReach(t, start, policy, limit, current, distance, queue[1..], visited, trail, explored);
      SweepFacts(free, start, trail, queue, visited, explored, {}, d);
    }
    if !draining {
      LimitReached(free, start, limit, trail, queue, visited, explored, d);
    }
  }
}
