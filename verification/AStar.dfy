/** Best-first routing with a Manhattan heuristic.  Discouraged cells cost more; a target on an
    obstacle is replaced by its open neighbours.  The heap holds stale entries, which are skipped
    when popped, and costs at or above a ceiling are never recorded. */
module AStar {
  import opened CellKeys
  import opened GridSearch
  import Ordering
  import opened Options

  const DISCOURAGED_PENALTY: nat := 4
  const CEILING: nat := 0x7fff_ffff

  function StepCost(discouraged: set<Cell>, c: Cell): nat {
    if c in discouraged then 1 + DISCOURAGED_PENALTY else 1
  }

  function Cost(discouraged: set<Cell>, p: seq<Cell>): nat {
    if |p| <= 1 then 0 else Cost(discouraged, p[..|p| - 1]) + StepCost(discouraged, p[|p| - 1])
  }

  /** The cells that count as arriving. */
  function Goals(target: Cell, blocked: set<Cell>): set<Cell> {
    if target in blocked then
      (set e: Direction | Step(target, e) !in blocked :: Step(target, e))
    else {target}
  }

  /** Standing at `c` counts as having reached the target: it is the target, or an open cell next to
      it when the target is an obstacle. */
  ghost predicate Arrives(target: Cell, blocked: set<Cell>, c: Cell) {
    if target in blocked then c !in blocked && Adjacent(target, c) else c == target
  }

  lemma GoalsArrive(target: Cell, blocked: set<Cell>)
    ensures forall c :: c in Goals(target, blocked) <==> Arrives(target, blocked, c)
  {
  }

  /** A route costs 1 a cell after the start and 4 more for each discouraged one. */
  lemma {:induction false} CostCounts(discouraged: set<Cell>, p: seq<Cell>)
    requires p != []
    ensures Cost(discouraged, p) == |p| - 1 + 4 * Discouragements(discouraged, p)
  {
    if |p| > 1 {
      CostCounts(discouraged, p[..|p| - 1]);
    }
  }

  /** How many cells of the route after its start are discouraged. */
  function Discouragements(discouraged: set<Cell>, p: seq<Cell>): nat {
    if |p| <= 1 then 0
    else Discouragements(discouraged, p[..|p| - 1]) + if p[|p| - 1] in discouraged then 1 else 0
  }

  /** A cheapest route from `start` to any goal. */
  ghost predicate Cheapest(free: Cell -> bool, start: Cell, goals: set<Cell>, discouraged: set<Cell>, p: seq<Cell>) {
    && Route(free, start, p) && End(p) in goals
    && forall q | Route(free, start, q) && End(q) in goals :: Cost(discouraged, p) <= Cost(discouraged, q)
  }

  // ----- the heuristic --------------------------------------------------------------------

  ghost predicate IsNearest(goals: set<Cell>, c: Cell, h: nat) {
    && (exists g :: g in goals && Manhattan(c, g) == h)
    && forall g | g in goals :: h <= Manhattan(c, g)
  }

  lemma NearestUnique(goals: set<Cell>, c: Cell, h: nat, k: nat)
    requires IsNearest(goals, c, h) && IsNearest(goals, c, k)
    ensures h == k
  {
  }

  lemma {:induction false} NearestExists(goals: set<Cell>, c: Cell)
    requires goals != {}
    ensures exists h :: IsNearest(goals, c, h)
    decreases |goals|
  {
    var g :| g in goals;
    var rest := goals - {g};
    assert goals == rest + {g};
    if rest == {} {
      assert IsNearest(goals, c, Manhattan(c, g));
    } else {
      NearestExists(rest, c);
      var k: nat :| IsNearest(rest, c, k);
      assert IsNearest(goals, c, if k < Manhattan(c, g) then k else Manhattan(c, g));
    }
  }

  /** Distance to the nearest goal. */
  ghost function H(goals: set<Cell>, c: Cell): (h: nat)
    requires goals != {}
    ensures IsNearest(goals, c, h)
  {
    NearestExists(goals, c);
    var h :| IsNearest(goals, c, h);
    h
  }

  method Heuristic(goals: set<Cell>, c: Cell) returns (h: nat)
    requires goals != {}
    ensures h == H(goals, c)
  {
    var g :| g in goals;
    h := Manhattan(c, g);
    var rest := goals - {g};
    while rest != {}
      invariant rest <= goals
      invariant exists g :: g in goals && Manhattan(c, g) == h
      invariant forall g | g in goals - rest :: h <= Manhattan(c, g)
      decreases rest
    {
      var k :| k in rest;
      rest := rest - {k};
      if Manhattan(c, k) < h {
        h := Manhattan(c, k);
      }
    }
    NearestUnique(goals, c, h, H(goals, c));
  }

  /** The heuristic is consistent: one step changes it by at most one, the least cost of a step. */
  lemma Consistent(goals: set<Cell>, discouraged: set<Cell>, a: Cell, b: Cell)
    requires goals != {} && Adjacent(a, b)
    ensures H(goals, a) <= StepCost(discouraged, b) + H(goals, b)
  {
    var g :| g in goals && Manhattan(b, g) == H(goals, b);
    assert Manhattan(a, g) <= 1 + Manhattan(b, g);
  }

  /** Along a route the heuristic drops by no more than the cost paid. */
  lemma {:induction false} ConsistentAlong(free: Cell -> bool, start: Cell, goals: set<Cell>, discouraged: set<Cell>,
                                           q: seq<Cell>, k: nat)
    requires goals != {} && Route(free, start, q) && k < |q|
    ensures Cost(discouraged, q[..k + 1]) + H(goals, q[k]) <= Cost(discouraged, q) + H(goals, End(q))
  {
    if k == |q| - 1 {
      assert q[..k + 1] == q;
    } else {
      var r := q[..|q| - 1];
      RoutePrefix(free, start, q, |q| - 1);
      ConsistentAlong(free, start, goals, discouraged, r, k);
      assert r[..k + 1] == q[..k + 1];
      assert Hop(free, q, |q| - 1);
      Consistent(goals, discouraged, End(r), End(q));
    }
  }

  lemma GoalIsNear(goals: set<Cell>, c: Cell)
    requires c in goals
    ensures H(goals, c) == 0
  {
    assert Manhattan(c, c) == 0;
  }

  // ----- search state ---------------------------------------------------------------------

  datatype HeapEntry = HeapEntry(f: nat, sequence: nat, g: nat, cell: Cell)

  type Scores = map<Cell, nat>

  /** Every scored cell has a route of that cost. */
  ghost predicate Routed(free: Cell -> bool, start: Cell, discouraged: set<Cell>, score: Scores, trail: Trails) {
    && score.Keys == trail.Keys && start in trail && trail[start] == [start]
    && forall c | c in trail ::
         RouteTo(free, start, c, trail[c]) && Cost(discouraged, trail[c]) == score[c] && score[c] < CEILING
  }

  /** The score of an expanded cell cannot be beaten. */
  ghost predicate Settled(free: Cell -> bool, start: Cell, discouraged: set<Cell>, score: Scores, c: Cell)
    requires c in score
  {
    forall q | RouteTo(free, start, c, q) :: score[c] <= Cost(discouraged, q)
  }

  /** A step out of `c` has been taken into account, unless it would reach the ceiling. */
  ghost predicate Relaxed(free: Cell -> bool, discouraged: set<Cell>, score: Scores, c: Cell, n: Cell)
    requires c in score
  {
    free(n) && score[c] + StepCost(discouraged, n) < CEILING ==>
      n in score && score[n] <= score[c] + StepCost(discouraged, n)
  }

  /** Expanded cells are settled, and all but `busy` have shown their neighbours. */
  ghost predicate Closed(free: Cell -> bool, start: Cell, discouraged: set<Cell>, goals: set<Cell>, score: Scores,
                         closed: set<Cell>, busy: set<Cell>)
  {
    && closed <= score.Keys && closed !! goals
    && (start in closed || (closed == {} && score.Keys == {start}))
    && (forall c | c in closed :: Settled(free, start, discouraged, score, c))
    && (forall c, e | c in closed && c !in busy :: Relaxed(free, discouraged, score, c, Step(c, e)))
  }

  /** The heap: stale entries are above the score, every open cell has its current entry. */
  ghost predicate Heaped(goals: set<Cell>, score: Scores, closed: set<Cell>, heap: set<HeapEntry>, sequence: nat)
    requires goals != {}
  {
    && (forall x | x in heap ::
          && x.cell in score && x.g >= score[x.cell] && x.f == x.g + H(goals, x.cell) && x.sequence <= sequence
          && (x.cell in closed ==> x.g > score[x.cell]))
    && (forall x, y | x in heap && y in heap && x.cell == y.cell && x.g == y.g :: x == y)
    && (forall c | c in score && c !in closed :: exists x :: x in heap && x.cell == c && x.g == score[c])
  }

  // ----- why a popped cell is settled -------------------------------------------------------

  /** A route below the ceiling to a cell not yet expanded passes an open cell whose score is no
      more than what the route has paid there. */
  lemma {:induction false} Crossing(free: Cell -> bool, start: Cell, discouraged: set<Cell>, goals: set<Cell>,
                                    score: Scores, trail: Trails, closed: set<Cell>, q: seq<Cell>)
    returns (k: nat)
    requires Routed(free, start, discouraged, score, trail)
    requires Closed(free, start, discouraged, goals, score, closed, {})
    requires Route(free, start, q) && End(q) !in closed && Cost(discouraged, q) < CEILING
    ensures k < |q| && q[k] in score && q[k] !in closed && score[q[k]] <= Cost(discouraged, q[..k + 1])
  {
    if |q| == 1 {
      k := 0;
      assert q[..1] == q && score[start] == Cost(discouraged, trail[start]) == 0;
    } else {
      var r := q[..|q| - 1];
      RoutePrefix(free, start, q, |q| - 1);
      if End(r) in closed {
        assert Hop(free, q, |q| - 1);
        var e :| Step(End(r), e) == End(q);
        assert Settled(free, start, discouraged, score, End(r));
        assert Relaxed(free, discouraged, score, End(r), Step(End(r), e));
        k := |q| - 1;
        assert q[..k + 1] == q;
      } else {
        k := Crossing(free, start, discouraged, goals, score, trail, closed, r);
        assert r[..k + 1] == q[..k + 1];
      }
    }
  }

  predicate Least(heap: set<HeapEntry>, x: HeapEntry) {
    x in heap && forall y | y in heap :: x.f < y.f || (x.f == y.f && x.sequence <= y.sequence)
  }

  /** No route to an unexpanded cell undercuts the least entry of the heap. */
  lemma LeastBounds(free: Cell -> bool, start: Cell, discouraged: set<Cell>, goals: set<Cell>, score: Scores,
                    trail: Trails, closed: set<Cell>, heap: set<HeapEntry>, sequence: nat, x: HeapEntry, q: seq<Cell>)
    requires goals != {} && Routed(free, start, discouraged, score, trail)
    requires Closed(free, start, discouraged, goals, score, closed, {}) && Heaped(goals, score, closed, heap, sequence)
    requires Least(heap, x) && x.g < CEILING
    requires Route(free, start, q) && End(q) !in closed
    ensures x.f <= Cost(discouraged, q) + H(goals, End(q)) || x.g < CEILING <= Cost(discouraged, q)
  {
    if Cost(discouraged, q) < CEILING {
      var k := Crossing(free, start, discouraged, goals, score, trail, closed, q);
      ConsistentAlong(free, start, goals, discouraged, q, k);
      var y :| y in heap && y.cell == q[k] && y.g == score[q[k]];
    }
  }

  /** A fresh entry on top of the heap is settled. */
  lemma PoppedSettled(free: Cell -> bool, start: Cell, discouraged: set<Cell>, goals: set<Cell>, score: Scores,
                      trail: Trails, closed: set<Cell>, heap: set<HeapEntry>, sequence: nat, x: HeapEntry)
    requires goals != {} && Routed(free, start, discouraged, score, trail)
    requires Closed(free, start, discouraged, goals, score, closed, {}) && Heaped(goals, score, closed, heap, sequence)
    requires Least(heap, x) && x.cell in score && x.g == score[x.cell]
    ensures x.cell !in closed && Settled(free, start, discouraged, score, x.cell)
    ensures x.cell in goals ==> Cheapest(free, start, goals, discouraged, trail[x.cell])
  {
    forall q | RouteTo(free, start, x.cell, q)
      ensures score[x.cell] <= Cost(discouraged, q)
    {
      LeastBounds(free, start, discouraged, goals, score, trail, closed, heap, sequence, x, q);
    }
    if x.cell in goals {
      GoalIsNear(goals, x.cell);
      forall q | Route(free, start, q) && End(q) in goals
        ensures Cost(discouraged, trail[x.cell]) <= Cost(discouraged, q)
      {
        GoalIsNear(goals, End(q));
        LeastBounds(free, start, discouraged, goals, score, trail, closed, heap, sequence, x, q);
      }
    }
  }

  /** With an empty heap no goal is within reach below the ceiling. */
  lemma EmptyHeap(free: Cell -> bool, start: Cell, discouraged: set<Cell>, goals: set<Cell>, score: Scores,
                  trail: Trails, closed: set<Cell>, sequence: nat, q: seq<Cell>)
    requires goals != {} && Routed(free, start, discouraged, score, trail)
    requires Closed(free, start, discouraged, goals, score, closed, {}) && Heaped(goals, score, closed, {}, sequence)
    requires Route(free, start, q) && End(q) in goals
    ensures Cost(discouraged, q) >= CEILING
  {
    if Cost(discouraged, q) < CEILING {
      var k := Crossing(free, start, discouraged, goals, score, trail, closed, q);
    }
  }

  /** No score exceeds five for every cell expanded, and an expanded cell's not even that less one. */
  ghost predicate Modest(score: Scores, closed: set<Cell>) {
    forall c | c in score :: score[c] <= 5 * |closed| && (c in closed ==> score[c] <= 5 * |closed| - 5)
  }

  /** With an empty heap, and the ceiling out of sight, the expanded cells are all there is. */
  lemma {:induction false} NowhereElse(free: Cell -> bool, start: Cell, discouraged: set<Cell>, goals: set<Cell>,
                                       score: Scores, trail: Trails, closed: set<Cell>, sequence: nat, q: seq<Cell>)
    requires goals != {} && Routed(free, start, discouraged, score, trail)
    requires Closed(free, start, discouraged, goals, score, closed, {}) && Heaped(goals, score, closed, {}, sequence)
    requires Modest(score, closed) && 5 * |closed| < CEILING
    requires Route(free, start, q)
    ensures End(q) in closed
  {
    if |q| == 1 {
      assert q[0] == start && start in score;
    } else {
      var r := q[..|q| - 1];
      RoutePrefix(free, start, q, |q| - 1);
      NowhereElse(free, start, discouraged, goals, score, trail, closed, sequence, r);
      assert Hop(free, q, |q| - 1);
      var e :| Step(End(r), e) == End(q);
      assert Relaxed(free, discouraged, score, End(r), Step(End(r), e));
    }
  }

  // ----- steps of the search ----------------------------------------------------------------

  datatype Link = Link(parent: Cell, direction: Direction)

  ghost predicate CameAt(trail: Trails, came: map<Cell, Link>, closed: set<Cell>, c: Cell)
    requires c in trail
  {
    && c in came && came[c].parent in closed && came[c].parent in trail
    && Step(came[c].parent, came[c].direction) == c
    && trail[c] == trail[came[c].parent] + [c]
  }

  /** The links spell out the routes, through expanded cells. */
  ghost predicate Came(start: Cell, trail: Trails, came: map<Cell, Link>, closed: set<Cell>) {
    && start in trail && trail[start] == [start]
    && forall c {:trigger CameAt(trail, came, closed, c)} | c in trail && c != start :: CameAt(trail, came, closed, c)
  }

  /** The whole state of the search; `busy` is the cell being expanded, if any. */
  ghost predicate Exploring(free: Cell -> bool, start: Cell, discouraged: set<Cell>, goals: set<Cell>, score: Scores,
                            trail: Trails, came: map<Cell, Link>, closed: set<Cell>, heap: set<HeapEntry>, sequence: nat,
                            busy: set<Cell>)
  {
    && goals != {} && Routed(free, start, discouraged, score, trail) && Came(start, trail, came, closed)
    && Closed(free, start, discouraged, goals, score, closed, busy)
    && Heaped(goals, score, closed, heap, sequence)
  }

  lemma {:induction false} LeastExists(heap: set<HeapEntry>)
    requires heap != {}
    ensures exists x :: Least(heap, x)
    decreases |heap|
  {
    var x :| x in heap;
    var rest := heap - {x};
    assert heap == rest + {x};
    if rest == {} {
      assert Least(heap, x);
    } else {
      LeastExists(rest);
      var y :| Least(rest, y);
      assert Least(heap, if x.f < y.f || (x.f == y.f && x.sequence <= y.sequence) then x else y);
    }
  }

  lemma Starts(free: Cell -> bool, start: Cell, discouraged: set<Cell>, goals: set<Cell>)
    requires goals != {}
    ensures Exploring(free, start, discouraged, goals, map[start := 0], map[start := [start]], map[], {},
                      {HeapEntry(H(goals, start), 0, 0, start)}, 0, {})
  {
    var heap := {HeapEntry(H(goals, start), 0, 0, start)};
    assert HeapEntry(H(goals, start), 0, 0, start) in heap;
    assert (map[start := 0]).Keys == {start} == (map[start := [start]]).Keys;
  }

  /** Dropping a stale entry loses nothing. */
  lemma SkipStale(free: Cell -> bool, start: Cell, discouraged: set<Cell>, goals: set<Cell>, score: Scores,
                  trail: Trails, came: map<Cell, Link>, closed: set<Cell>, heap: set<HeapEntry>, sequence: nat, x: HeapEntry)
    requires Exploring(free, start, discouraged, goals, score, trail, came, closed, heap, sequence, {})
    requires x in heap && x.g != score[x.cell]
    ensures Exploring(free, start, discouraged, goals, score, trail, came, closed, heap - {x}, sequence, {})
  {
    forall c | c in score && c !in closed
      ensures exists y :: y in heap - {x} && y.cell == c && y.g == score[c]
    {
      var y :| y in heap && y.cell == c && y.g == score[c];
      assert y in heap - {x};
    }
  }

  lemma CloseHeaped(goals: set<Cell>, score: Scores, closed: set<Cell>, heap: set<HeapEntry>, sequence: nat, x: HeapEntry)
    requires goals != {} && Heaped(goals, score, closed, heap, sequence)
    requires x in heap && x.g == score[x.cell]
    ensures Heaped(goals, score, closed + {x.cell}, heap - {x}, sequence)
  {
    forall c | c in score && c !in closed + {x.cell}
      ensures exists y :: y in heap - {x} && y.cell == c && y.g == score[c]
    {
      var y :| y in heap && y.cell == c && y.g == score[c];
      assert y in heap - {x};
    }
  }

  lemma CameStays(start: Cell, trail: Trails, came: map<Cell, Link>, closed: set<Cell>, c: Cell)
    requires Came(start, trail, came, closed)
    ensures Came(start, trail, came, closed + {c})
  {
    forall b | b in trail && b != start
      ensures CameAt(trail, came, closed + {c}, b)
    {
      assert CameAt(trail, came, closed, b);
    }
  }

  /** A fresh entry popped from the heap is closed and becomes the busy cell. */
  lemma Close(free: Cell -> bool, start: Cell, discouraged: set<Cell>, goals: set<Cell>, score: Scores,
              trail: Trails, came: map<Cell, Link>, closed: set<Cell>, heap: set<HeapEntry>, sequence: nat, x: HeapEntry)
    requires Exploring(free, start, discouraged, goals, score, trail, came, closed, heap, sequence, {})
    requires Least(heap, x) && x.g == score[x.cell] && x.cell !in goals
    ensures x.cell !in closed
    ensures Exploring(free, start, discouraged, goals, score, trail, came, closed + {x.cell}, heap - {x}, sequence,
                      {x.cell})
  {
    PoppedSettled(free, start, discouraged, goals, score, trail, closed, heap, sequence, x);
    CloseHeaped(goals, score, closed, heap, sequence, x);
    CameStays(start, trail, came, closed, x.cell);
  }

  /** The state after a better route to `n` through `c` is recorded. */
  lemma Improve(free: Cell -> bool, start: Cell, discouraged: set<Cell>, goals: set<Cell>, score: Scores,
                trail: Trails, came: map<Cell, Link>, closed: set<Cell>, heap: set<HeapEntry>, sequence: nat, c: Cell,
                e: Direction, n: Cell, g: nat)
    requires Exploring(free, start, discouraged, goals, score, trail, came, closed, heap, sequence, {c})
    requires c in closed && c in score && n == Step(c, e) && free(n)
    requires g == score[c] + StepCost(discouraged, n) && g < CEILING && (n in score ==> g < score[n])
    ensures n !in closed && n != start
    ensures Exploring(free, start, discouraged, goals, score[n := g], trail[n := trail[c] + [n]], came[n := Link(c, e)],
                      closed, heap + {HeapEntry(g + H(goals, n), sequence + 1, g, n)}, sequence + 1, {c})
  {
    assert Adjacent(c, n);
    ScoredIsTrailed(free, start, discouraged, score, trail);
    hide Routed, Closed, Heaped, Came, H, StepCost, Adjacent, Step, RouteTo, Cost;
    ImprovesOpen(free, start, discouraged, goals, score, trail, closed, c, n);
    ImproveRouted(free, start, discouraged, score, trail, c, n);
    ImproveClosed(free, start, discouraged, goals, score, closed, c, n, g);
    ImproveHeaped(goals, score, closed, heap, sequence, n, g);
    ImproveCame(start, trail, came, closed, c, e);
  }

  /** Only an open cell can be improved: expanded cells are settled. */
  lemma ImprovesOpen(free: Cell -> bool, start: Cell, discouraged: set<Cell>, goals: set<Cell>, score: Scores,
                     trail: Trails, closed: set<Cell>, c: Cell, n: Cell)
    requires Routed(free, start, discouraged, score, trail)
    requires Closed(free, start, discouraged, goals, score, closed, {c}) && c in score && c in closed
    requires free(n) && Adjacent(c, n) && score[c] + StepCost(discouraged, n) < CEILING
    requires n in score ==> score[c] + StepCost(discouraged, n) < score[n]
    ensures n !in closed
  {
    ImproveRouted(free, start, discouraged, score, trail, c, n);
    assert n in score && n in closed ==> Settled(free, start, discouraged, score, n);
  }

  lemma ScoredIsTrailed(free: Cell -> bool, start: Cell, discouraged: set<Cell>, score: Scores, trail: Trails)
    requires Routed(free, start, discouraged, score, trail)
    ensures score.Keys == trail.Keys
  {
  }

  lemma ImproveRouted(free: Cell -> bool, start: Cell, discouraged: set<Cell>, score: Scores, trail: Trails, c: Cell,
                      n: Cell)
    requires Routed(free, start, discouraged, score, trail) && c in score && free(n) && Adjacent(c, n)
    requires score[c] + StepCost(discouraged, n) < CEILING
    ensures RouteTo(free, start, n, trail[c] + [n])
    ensures Cost(discouraged, trail[c] + [n]) == score[c] + StepCost(discouraged, n)
    ensures n != start ==>
              Routed(free, start, discouraged, score[n := score[c] + StepCost(discouraged, n)], trail[n := trail[c] + [n]])
  {
    RouteExtends(free, start, trail[c], n);
    assert (trail[c] + [n])[..|trail[c]|] == trail[c];
  }

  lemma ImproveClosed(free: Cell -> bool, start: Cell, discouraged: set<Cell>, goals: set<Cell>, score: Scores,
                      closed: set<Cell>, c: Cell, n: Cell, g: nat)
    requires Closed(free, start, discouraged, goals, score, closed, {c}) && c in closed && n !in closed
    requires n in score ==> g < score[n]
    ensures n != start && Closed(free, start, discouraged, goals, score[n := g], closed, {c})
  {
    forall b, e | b in closed && b !in {c}
      ensures Relaxed(free, discouraged, score[n := g], b, Step(b, e))
    {
      assert Relaxed(free, discouraged, score, b, Step(b, e));
    }
    forall b | b in closed
      ensures Settled(free, start, discouraged, score[n := g], b)
    {
      assert Settled(free, start, discouraged, score, b);
    }
  }

  lemma ImproveHeaped(goals: set<Cell>, score: Scores, closed: set<Cell>, heap: set<HeapEntry>, sequence: nat, n: Cell, g: nat)
    requires goals != {} && Heaped(goals, score, closed, heap, sequence) && n !in closed
    requires n in score ==> g < score[n]
    ensures Heaped(goals, score[n := g], closed, heap + {HeapEntry(g + H(goals, n), sequence + 1, g, n)}, sequence + 1)
  {
    var x := HeapEntry(g + H(goals, n), sequence + 1, g, n);
    var grown := heap + {x};
    assert x in grown;
    forall c | c in score[n := g] && c !in closed
      ensures exists y :: y in grown && y.cell == c && y.g == score[n := g][c]
    {
      if c != n {
        var y :| y in heap && y.cell == c && y.g == score[c];
        assert y in grown;
      }
    }
  }

  lemma ImproveCame(start: Cell, trail: Trails, came: map<Cell, Link>, closed: set<Cell>, c: Cell, e: Direction)
    requires Came(start, trail, came, closed) && c in closed && c in trail
    requires Step(c, e) !in closed && Step(c, e) != start
    ensures Came(start, trail[Step(c, e) := trail[c] + [Step(c, e)]], came[Step(c, e) := Link(c, e)], closed)
  {
    var n := Step(c, e);
    var trail', came' := trail[n := trail[c] + [n]], came[n := Link(c, e)];
    forall b | b in trail' && b != start
      ensures CameAt(trail', came', closed, b)
    {
      if b != n {
        assert CameAt(trail, came, closed, b);
      }
    }
  }

  /** When all four neighbours have been looked at, the busy cell is done. */
  lemma Done(free: Cell -> bool, start: Cell, discouraged: set<Cell>, goals: set<Cell>, score: Scores,
             trail: Trails, came: map<Cell, Link>, closed: set<Cell>, heap: set<HeapEntry>, sequence: nat, c: Cell)
    requires Exploring(free, start, discouraged, goals, score, trail, came, closed, heap, sequence, {c})
    requires c in score && forall e :: Relaxed(free, discouraged, score, c, Step(c, e))
    ensures Exploring(free, start, discouraged, goals, score, trail, came, closed, heap, sequence, {})
  {
  }

  // ----- the search -----------------------------------------------------------------------

  lemma Facts(free: Cell -> bool, start: Cell, discouraged: set<Cell>, goals: set<Cell>, score: Scores,
              trail: Trails, came: map<Cell, Link>, closed: set<Cell>, heap: set<HeapEntry>, sequence: nat,
              busy: set<Cell>)
    requires Exploring(free, start, discouraged, goals, score, trail, came, closed, heap, sequence, busy)
    ensures goals != {} && score.Keys == trail.Keys && closed <= score.Keys
    ensures forall x | x in heap :: x.cell in score
    ensures forall c | c in score :: c == start || free(c)
    ensures Came(start, trail, came, closed)
  {
    forall c | c in score && c != start
      ensures free(c)
    {
      assert Hop(free, trail[c], |trail[c]| - 1);
    }
  }

  /** Relaxed stays relaxed when another open cell improves. */
  lemma RelaxedStays(free: Cell -> bool, discouraged: set<Cell>, score: Scores, c: Cell, n: Cell, b: Cell, g: nat)
    requires c in score && Relaxed(free, discouraged, score, c, n) && b != c && (b in score ==> g < score[b])
    ensures Relaxed(free, discouraged, score[b := g], c, n)
  {
  }

  /** Expand one cell: relax its four neighbours in the fixed order. */
  method Expand(start: Cell, blocked: set<Cell>, discouraged: set<Cell>, goals: set<Cell>, radius: nat, current: Cell,
                score0: Scores, came0: map<Cell, Link>, heap0: set<HeapEntry>, sequence0: nat,
                ghost trail0: Trails, ghost closed: set<Cell>)
    returns (score: Scores, came: map<Cell, Link>, heap: set<HeapEntry>, sequence: nat, ghost trail: Trails)
    requires Exploring(Open(start, blocked, radius), start, discouraged, goals, score0, trail0, came0, closed, heap0,
                       sequence0, {current})
    requires current in closed && forall c | c in score0 :: score0[c] <= 5 * |closed| - 5
    ensures Exploring(Open(start, blocked, radius), start, discouraged, goals, score, trail, came, closed, heap,
                      sequence, {})
    ensures Modest(score, closed)
  {
    hide Exploring, Came;
    ghost var free := Open(start, blocked, radius);
    score, came, heap, sequence, trail := score0, came0, heap0, sequence0, trail0;
    Facts(free, start, discouraged, goals, score, trail, came, closed, heap, sequence, {current});
    var currentCost := score[current];
    for k := 0 to |DIRECTIONS|
      invariant Exploring(free, start, discouraged, goals, score, trail, came, closed, heap, sequence, {current})
      invariant current in score && score[current] == currentCost <= 5 * |closed| - 5 && Modest(score, closed)
      invariant forall m | 0 <= m < k :: Relaxed(free, discouraged, score, current, Step(current, DIRECTIONS[m]))
    {
      Facts(free, start, discouraged, goals, score, trail, came, closed, heap, sequence, {current});
      var neighbor := Step(current, DIRECTIONS[k]);
      if neighbor in blocked {
        continue;
      }
      if Chebyshev(start, neighbor) > radius {
        continue;
      }
      var stepCost := 1;
      if neighbor in discouraged {
        stepCost := stepCost + DISCOURAGED_PENALTY;
      }
      var newCost := currentCost + stepCost;
      if newCost >= if neighbor in score then score[neighbor] else CEILING {
        assert Relaxed(free, discouraged, score, current, neighbor);
        continue;
      }
      ScoresBelowCeiling(free, start, discouraged, goals, score, trail, came, closed, heap, sequence, {current}, neighbor);
      Improve(free, start, discouraged, goals, score, trail, came, closed, heap, sequence, current, DIRECTIONS[k],
              neighbor, newCost);
      forall m | 0 <= m < k
        ensures Relaxed(free, discouraged, score[neighbor := newCost], current, Step(current, DIRECTIONS[m]))
      {
        RelaxedStays(free, discouraged, score, current, Step(current, DIRECTIONS[m]), neighbor, newCost);
      }
      score := score[neighbor := newCost];
      came := came[neighbor := Link(current, DIRECTIONS[k])];
      trail := trail[neighbor := trail[current] + [neighbor]];
      sequence := sequence + 1;
      var neighborH := Heuristic(goals, neighbor);
      heap := heap + {HeapEntry(newCost + neighborH, sequence, newCost, neighbor)};
    }
    forall e
      ensures Relaxed(free, discouraged, score, current, Step(current, e))
    {
      EveryDirection();
      assert e in DIRECTIONS;
      var m :| 0 <= m < |DIRECTIONS| && DIRECTIONS[m] == e;
      assert Relaxed(free, discouraged, score, current, Step(current, DIRECTIONS[m]));
    }
    Done(free, start, discouraged, goals, score, trail, came, closed, heap, sequence, current);
  }

  lemma ScoresBelowCeiling(free: Cell -> bool, start: Cell, discouraged: set<Cell>, goals: set<Cell>, score: Scores,
                           trail: Trails, came: map<Cell, Link>, closed: set<Cell>, heap: set<HeapEntry>, sequence: nat,
                           busy: set<Cell>, c: Cell)
    requires Exploring(free, start, discouraged, goals, score, trail, came, closed, heap, sequence, busy)
    ensures c in score ==> score[c] < CEILING
  {
  }

  /** Follow the links from a goal down to the first step. */
  method FirstStep(start: Cell, goal: Cell, came: map<Cell, Link>, ghost trail: Trails, ghost closed: set<Cell>)
    returns (e: Direction)
    requires Came(start, trail, came, closed) && goal in trail && goal != start
    requires forall c | c in trail :: trail[c] != [] && End(trail[c]) == c
    ensures |trail[goal]| >= 2 && trail[goal][1] == Step(start, e)
  {
    var step := goal;
    assert CameAt(trail, came, closed, step);
    while came[step].parent != start
      invariant step in trail && step != start && CameAt(trail, came, closed, step)
      invariant trail[step] <= trail[goal]
      decreases |trail[step]|
    {
      assert CameAt(trail, came, closed, came[step].parent);
      step := came[step].parent;
    }
    e := came[step].direction;
  }

  /** A cell on whose account no cheapest route can be ruled out: it is reached at a cost that,
      with the heuristic added, does not exceed any route to a goal below the ceiling. */
  ghost predicate Promising(free: Cell -> bool, start: Cell, goals: set<Cell>, discouraged: set<Cell>, c: Cell)
    requires goals != {}
  {
    exists p :: RouteTo(free, start, c, p) && c !in goals
      && forall q | Route(free, start, q) && End(q) in goals && Cost(discouraged, q) < CEILING ::
           Cost(discouraged, p) + H(goals, c) <= Cost(discouraged, q)
  }

  /** There are this many cells to expand before a cheapest route is known. */
  ghost predicate Needed(free: Cell -> bool, start: Cell, goals: set<Cell>, discouraged: set<Cell>, n: nat)
    requires goals != {}
  {
    exists s: set<Cell> :: |s| == n && forall c | c in s :: Promising(free, start, goals, discouraged, c)
  }

  /** No search of this radius and budget records a cost near the ceiling. */
  predicate BelowCeiling(radius: nat, budget: nat) {
    5 * budget < CEILING || 5 * BoxSize(radius) < CEILING
  }

  /** A cheapest route to the target, or next to it when it is an obstacle. */
  ghost predicate CheapestTo(free: Cell -> bool, start: Cell, target: Cell, blocked: set<Cell>, discouraged: set<Cell>,
                             p: seq<Cell>)
  {
    && Route(free, start, p) && Arrives(target, blocked, End(p))
    && forall q | Route(free, start, q) && Arrives(target, blocked, End(q)) :: Cost(discouraged, p) <= Cost(discouraged, q)
  }

  /** What the first step promises: it starts a cheapest route below the ceiling, or there is none
      unless the budget ran out, and no route at all unless both radius and budget are huge.
      `expansions` counts the cells expanded, each once and each with reason. */
  ghost predicate Advises(start: Cell, target: Cell, blocked: set<Cell>, discouraged: set<Cell>, radius: nat,
                          budget: nat, r: Option<Direction>, expansions: nat)
  {
    var free, goals := Open(start, blocked, radius), Goals(target, blocked);
    && expansions <= budget && expansions <= BoxSize(radius)
    && (goals != {} ==> Needed(free, start, goals, discouraged, expansions))
    && match r
       case Some(e) => exists p ::
         && CheapestTo(free, start, target, blocked, discouraged, p) && Cost(discouraged, p) < CEILING
         && |p| >= 2 && p[1] == Step(start, e)
       case None =>
         || start == target || Arrives(target, blocked, start) || expansions == budget
         || forall q | Route(free, start, q) && Arrives(target, blocked, End(q)) ::
              !BelowCeiling(radius, budget) && Cost(discouraged, q) >= CEILING
  }

  lemma CheapestArrives(free: Cell -> bool, start: Cell, target: Cell, blocked: set<Cell>, discouraged: set<Cell>,
                        p: seq<Cell>)
    requires Cheapest(free, start, Goals(target, blocked), discouraged, p)
    ensures CheapestTo(free, start, target, blocked, discouraged, p)
  {
    GoalsArrive(target, blocked);
  }

  /** The first step of a cheapest route to the target, or next to it when it is an obstacle. */
  method AStarNextStep(start: Cell, target: Cell, blocked: set<Cell>, discouraged: set<Cell>, radius: nat, budget: nat)
    returns (r: Option<Direction>, expansions: nat)
    ensures Advises(start, target, blocked, discouraged, radius, budget, r, expansions)
  {
    hide Promising, Needed, Arrives, CheapestTo, Cheapest;
    GoalsArrive(target, blocked);
    if Goals(target, blocked) != {} {
      AllNeeded(Open(start, blocked, radius), start, Goals(target, blocked), discouraged, {});
    }
    if start == target {
      return None, 0;
    }
    var goals := Goals(target, blocked);
    if goals == {} || start in goals {
      return None, 0;
    }
    r, expansions := Search(start, blocked, discouraged, goals, radius, budget);
    if r.Some? {
      ghost var free := Open(start, blocked, radius);
      ghost var p :|
        && Cheapest(free, start, goals, discouraged, p) && Cost(discouraged, p) < CEILING
        && |p| >= 2 && p[1] == Step(start, r.value);
      CheapestArrives(free, start, target, blocked, discouraged, p);
    }
  }

  /** The search proper, for any goals that do not include the start. */
  method Search(start: Cell, blocked: set<Cell>, discouraged: set<Cell>, goals: set<Cell>, radius: nat, budget: nat)
    returns (r: Option<Direction>, expansions: nat)
    requires goals != {} && start !in goals
    ensures expansions <= budget && expansions <= BoxSize(radius)
    ensures Needed(Open(start, blocked, radius), start, goals, discouraged, expansions)
    ensures r.Some? ==> exists p ::
              && Cheapest(Open(start, blocked, radius), start, goals, discouraged, p) && Cost(discouraged, p) < CEILING
              && |p| >= 2 && p[1] == Step(start, r.value)
    ensures r.None? && expansions < budget ==>
              if BelowCeiling(radius, budget) then forall q | Route(Open(start, blocked, radius), start, q) :: End(q) !in goals
              else forall q | Route(Open(start, blocked, radius), start, q) && End(q) in goals ::
                     Cost(discouraged, q) >= CEILING
  {
    hide Exploring, Came, Cheapest, Promising, Needed;
    ghost var free := Open(start, blocked, radius);
    var startH := Heuristic(goals, start);
    var heap := {HeapEntry(startH, 0, 0, start)};
    var score: Scores, came: map<Cell, Link> := map[start := 0], map[];
    var sequence := 0;
    ghost var trail: Trails, closed: set<Cell> := map[start := [start]], {};
    expansions := 0;
    Starts(free, start, discouraged, goals);
    while heap != {} && expansions < budget
      invariant Exploring(free, start, discouraged, goals, score, trail, came, closed, heap, sequence, {})
      invariant expansions == |closed| && expansions <= budget && Modest(score, closed)
      invariant forall c | c in closed :: Promising(free, start, goals, discouraged, c)
      decreases budget - expansions, heap
    {
      LeastExists(heap);
      var x :| Least(heap, x);
      Facts(free, start, discouraged, goals, score, trail, came, closed, heap, sequence, {});
      if x.g != score[x.cell] {
        SkipStale(free, start, discouraged, goals, score, trail, came, closed, heap, sequence, x);
        heap := heap - {x};
        continue;
      }
      var current := x.cell;
      if current in goals {
        Arrived(free, start, discouraged, goals, score, trail, came, closed, heap, sequence, x);
        var e := FirstStep(start, current, came, trail, closed);
        ClosedFits(start, blocked, discouraged, goals, radius, score, trail, came, closed, heap, sequence);
        AllNeeded(free, start, goals, discouraged, closed);
        return Some(e), expansions;
      }
      PoppedPromising(free, start, discouraged, goals, score, trail, came, closed, heap, sequence, x);
      Close(free, start, discouraged, goals, score, trail, came, closed, heap, sequence, x);
      closed := closed + {current};
      expansions := expansions + 1;
      score, came, heap, sequence, trail :=
        Expand(start, blocked, discouraged, goals, radius, current, score, came, heap - {x}, sequence, trail, closed);
    }
    ClosedFits(start, blocked, discouraged, goals, radius, score, trail, came, closed, heap, sequence);
    AllNeeded(free, start, goals, discouraged, closed);
    if expansions < budget {
      Exhausted(free, start, discouraged, goals, score, trail, came, closed, heap, sequence);
      if BelowCeiling(radius, budget) {
        NoRoute(free, start, discouraged, goals, score, trail, came, closed, heap, sequence);
      }
    }
    return None, expansions;
  }

  /** A fresh entry on top of the heap is worth expanding. */
  lemma PoppedPromising(free: Cell -> bool, start: Cell, discouraged: set<Cell>, goals: set<Cell>, score: Scores,
                        trail: Trails, came: map<Cell, Link>, closed: set<Cell>, heap: set<HeapEntry>, sequence: nat,
                        x: HeapEntry)
    requires Exploring(free, start, discouraged, goals, score, trail, came, closed, heap, sequence, {})
    requires Least(heap, x) && x.cell in score && x.g == score[x.cell] && x.cell !in goals
    ensures Promising(free, start, goals, discouraged, x.cell)
  {
    var p := trail[x.cell];
    assert RouteTo(free, start, x.cell, p) && Cost(discouraged, p) == x.g < CEILING;
    forall q | Route(free, start, q) && End(q) in goals && Cost(discouraged, q) < CEILING
      ensures Cost(discouraged, p) + H(goals, x.cell) <= Cost(discouraged, q)
    {
      GoalIsNear(goals, End(q));
      LeastBounds(free, start, discouraged, goals, score, trail, closed, heap, sequence, x, q);
    }
  }

  lemma AllNeeded(free: Cell -> bool, start: Cell, goals: set<Cell>, discouraged: set<Cell>, closed: set<Cell>)
    requires goals != {} && forall c | c in closed :: Promising(free, start, goals, discouraged, c)
    ensures Needed(free, start, goals, discouraged, |closed|)
  {
  }

  /** Each expanded cell is a different cell of the box. */
  lemma ClosedFits(start: Cell, blocked: set<Cell>, discouraged: set<Cell>, goals: set<Cell>, radius: nat, score: Scores,
                   trail: Trails, came: map<Cell, Link>, closed: set<Cell>, heap: set<HeapEntry>, sequence: nat)
    requires Exploring(Open(start, blocked, radius), start, discouraged, goals, score, trail, came, closed, heap,
                       sequence, {})
    ensures |closed| <= BoxSize(radius)
  {
    hide Exploring;
    Facts(Open(start, blocked, radius), start, discouraged, goals, score, trail, came, closed, heap, sequence, {});
    Ordering.SubsetSize(closed, Box(start, radius));
  }

  lemma Arrived(free: Cell -> bool, start: Cell, discouraged: set<Cell>, goals: set<Cell>, score: Scores,
                trail: Trails, came: map<Cell, Link>, closed: set<Cell>, heap: set<HeapEntry>, sequence: nat, x: HeapEntry)
    requires Exploring(free, start, discouraged, goals, score, trail, came, closed, heap, sequence, {})
    requires Least(heap, x) && x.g == score[x.cell] && x.cell in goals
    ensures x.cell in trail && Cheapest(free, start, goals, discouraged, trail[x.cell])
    ensures Cost(discouraged, trail[x.cell]) < CEILING
    ensures forall c | c in trail :: trail[c] != [] && End(trail[c]) == c
  {
    PoppedSettled(free, start, discouraged, goals, score, trail, closed, heap, sequence, x);
  }

  lemma Exhausted(free: Cell -> bool, start: Cell, discouraged: set<Cell>, goals: set<Cell>, score: Scores,
                  trail: Trails, came: map<Cell, Link>, closed: set<Cell>, heap: set<HeapEntry>, sequence: nat)
    requires Exploring(free, start, discouraged, goals, score, trail, came, closed, heap, sequence, {}) && heap == {}
    ensures forall q | Route(free, start, q) && End(q) in goals :: Cost(discouraged, q) >= CEILING
  {
    forall q | Route(free, start, q) && End(q) in goals
      ensures Cost(discouraged, q) >= CEILING
    {
      EmptyHeap(free, start, discouraged, goals, score, trail, closed, sequence, q);
    }
  }

  lemma NoRoute(free: Cell -> bool, start: Cell, discouraged: set<Cell>, goals: set<Cell>, score: Scores,
                trail: Trails, came: map<Cell, Link>, closed: set<Cell>, heap: set<HeapEntry>, sequence: nat)
    requires Exploring(free, start, discouraged, goals, score, trail, came, closed, heap, sequence, {}) && heap == {}
    requires Modest(score, closed) && 5 * |closed| < CEILING
    ensures forall q | Route(free, start, q) :: End(q) !in goals
  {
    forall q | Route(free, start, q)
      ensures End(q) !in goals
    {
      NowhereElse(free, start, discouraged, goals, score, trail, closed, sequence, q);
    }
  }
}
