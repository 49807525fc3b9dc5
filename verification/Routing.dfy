/** The worker planner's bounded breadth-first routing: a distance field to a set of targets, and
    the first step of a route.  Unknown cells are open here; only listed obstacles block, and the
    search stays within a radius of its start. */
module Routing {
  import opened CellKeys
  import opened GridSearch
  import opened Options

  // ----- distance field -------------------------------------------------------------------

  /** The recorded distances are exact, and cover every visited target. */
  ghost predicate Recorded(free: Cell -> bool, start: Cell, targets: set<Cell>, visited: set<Cell>,
                           result: map<Cell, nat>)
  {
    && result.Keys == targets * visited
    && forall t | t in result :: exists p :: Shortest(free, start, t, p) && result[t] == |p| - 1
  }

  /** No route reaches a cell outside `known` within `n` cells. */
  ghost predicate Beyond(free: Cell -> bool, start: Cell, known: set<Cell>, n: nat) {
    forall p | Route(free, start, p) && End(p) !in known :: |p| > n
  }

  /** Visiting one more cell, by a shortest route, records it if it is a target. */
  lemma RecordOne(free: Cell -> bool, start: Cell, targets: set<Cell>, visited: set<Cell>, result: map<Cell, nat>,
                  known: set<Cell>, n: Cell, p: seq<Cell>)
    requires Recorded(free, start, targets, visited, result) && n !in visited && known <= visited
    requires RouteTo(free, start, n, p) && Beyond(free, start, known, |p| - 1)
    ensures Recorded(free, start, targets, visited + {n}, if n in targets then result[n := |p| - 1] else result)
  {
    var next := if n in targets then result[n := |p| - 1] else result;
    assert Shortest(free, start, n, p);
    forall t | t in next
      ensures exists p :: Shortest(free, start, t, p) && next[t] == |p| - 1
    {
      if t != n {
        assert t in result;
      }
    }
  }

  lemma RecordStart(free: Cell -> bool, start: Cell, targets: set<Cell>)
    ensures Recorded(free, start, targets, {start}, if start in targets then map[start := 0] else map[])
  {
    var result: map<Cell, nat> := if start in targets then map[start := 0] else map[];
    assert Shortest(free, start, start, [start]);
    assert result.Keys == targets * {start};
  }

  lemma RecordedKeys(free: Cell -> bool, start: Cell, targets: set<Cell>, visited: set<Cell>, result: map<Cell, nat>)
    requires Recorded(free, start, targets, visited, result)
    ensures result.Keys <= targets
  {
  }

  lemma RecordedAnswers(free: Cell -> bool, start: Cell, targets: set<Cell>, visited: set<Cell>, result: map<Cell, nat>)
    requires Recorded(free, start, targets, visited, result)
    ensures result.Keys == targets * visited
    ensures forall t | t in result :: exists p :: Shortest(free, start, t, p) && result[t] == |p| - 1
  {
  }

  /** A target that a sweep run dry has not visited cannot be reached. */
  lemma Unreached(start: Cell, blocked: set<Cell>, radius: nat, targets: set<Cell>, result: map<Cell, nat>,
                  trail: Trails, visited: set<Cell>, explored: nat, d: int)
    requires Sweeping(Open(start, blocked, radius), start, trail, [], visited, explored, {}, d)
    requires Recorded(Open(start, blocked, radius), start, targets, visited, result)
    ensures forall t | t in targets && t !in result :: forall p :: !RouteTo(Open(start, blocked, radius), start, t, p)
  {
    hide Sweeping;
    forall t, p | t in targets && t !in result && RouteTo(Open(start, blocked, radius), start, t, p)
      ensures false
    {
      SweepComplete(Open(start, blocked, radius), start, trail, visited, explored, d, p);
    }
  }

  /** A free neighbour has been visited. */
  ghost predicate Seen(free: Cell -> bool, visited: set<Cell>, n: Cell) {
    free(n) ==> n in visited
  }

  lemma NeighboursSeen(free: Cell -> bool, visited: set<Cell>, c: Cell)
    requires forall m | 0 <= m < |DIRECTIONS| :: Seen(free, visited, Step(c, DIRECTIONS[m]))
    ensures forall e | free(Step(c, e)) :: Step(c, e) in visited
  {
    forall e | free(Step(c, e))
      ensures Step(c, e) in visited
    {
      EveryDirection();
      assert e in DIRECTIONS;
      var m :| 0 <= m < |DIRECTIONS| && DIRECTIONS[m] == e;
      assert Seen(free, visited, Step(c, DIRECTIONS[m]));
    }
  }

  /** One more neighbour is found and, if it is a target, recorded. */
  lemma VisitOne(free: Cell -> bool, start: Cell, targets: set<Cell>, trail: Trails, queue: seq<Entry>,
                 visited: set<Cell>, result: map<Cell, nat>, explored: nat, c: Cell, depth: nat, n: Cell,
                 known: set<Cell>)
    requires Sweeping(free, start, trail, queue, visited, explored, {c}, depth) && known <= visited
    requires c in trail && depth == |trail[c]| - 1 && free(n) && Adjacent(c, n) && n !in visited
    requires Beyond(free, start, known, depth + 1) && Recorded(free, start, targets, visited, result)
    ensures c != n && c in Found(trail, c, n) && Found(trail, c, n)[c] == trail[c]
    ensures Sweeping(free, start, Found(trail, c, n), queue + [Entry(n, depth + 1)], visited + {n}, explored, {c}, depth)
    ensures Recorded(free, start, targets, visited + {n}, if n in targets then result[n := depth + 1] else result)
  {
    hide Sweeping, Beyond, Recorded, Shortest, RouteTo;
    SweepFacts(free, start, trail, queue, visited, explored, {c}, depth);
    SweepFinds(free, start, trail, queue, visited, explored, c, depth, n);
    RecordOne(free, start, targets, visited, result, known, n, Found(trail, c, n)[n]);
  }

  /** Visit the neighbours of `current`; stop as soon as every target is recorded. */
  method ExpandTargets(start: Cell, targets: set<Cell>, blocked: set<Cell>, radius: nat, current: Cell, depth: nat,
                       queue0: seq<Entry>, visited0: set<Cell>, result0: map<Cell, nat>, ghost trail0: Trails,
                       ghost explored: nat)
    returns (queue: seq<Entry>, visited: set<Cell>, result: map<Cell, nat>, ghost trail: Trails, complete: bool)
    requires Sweeping(Open(start, blocked, radius), start, trail0, queue0, visited0, explored, {current}, depth)
    requires current in trail0 && depth == |trail0[current]| - 1
    requires Beyond(Open(start, blocked, radius), start, visited0, depth + 1)
    requires Recorded(Open(start, blocked, radius), start, targets, visited0, result0)
    ensures Recorded(Open(start, blocked, radius), start, targets, visited, result)
    ensures complete ==> result.Keys == targets
    ensures !complete ==>
              Sweeping(Open(start, blocked, radius), start, trail, queue, visited, explored, {}, depth)
  {
    hide Sweeping, Beyond, Recorded, Shortest, RouteTo, Found;
    ghost var free := Open(start, blocked, radius);
    queue, visited, result, trail, complete := queue0, visited0, result0, trail0, false;
    for k := 0 to |DIRECTIONS|
      invariant Sweeping(free, start, trail, queue, visited, explored, {current}, depth)
      invariant current in trail && depth == |trail[current]| - 1 && visited0 <= visited
      invariant Recorded(free, start, targets, visited, result)
      invariant forall m | 0 <= m < k :: Seen(free, visited, Step(current, DIRECTIONS[m]))
    {
      var neighbor := Step(current, DIRECTIONS[k]);
      if Chebyshev(neighbor, start) > radius || neighbor in visited || neighbor in blocked {
        continue;
      }
      VisitOne(free, start, targets, trail, queue, visited, result, explored, current, depth, neighbor, visited0);
      visited := visited + {neighbor};
      trail := Found(trail, current, neighbor);
      if neighbor in targets {
        result := result[neighbor := depth + 1];
        RecordedKeys(free, start, targets, visited, result);
        if |result| == |targets| {
          AllFound(targets, result.Keys);
          complete := true;
          return;
        }
      }
      queue := queue + [Entry(neighbor, depth + 1)];
    }
    NeighboursSeen(free, visited, current);
    SweepDone(free, start, trail, queue, visited, explored, current, depth);
  }

  /** What a distance field promises: distances are exact, and a target without one is out of
      reach, unless the budget ran out and more cells than that are no farther than the target. */
  ghost predicate DistanceField(start: Cell, targets: set<Cell>, blocked: set<Cell>, radius: nat, budget: nat,
                                result: map<Cell, nat>, explored: nat)
  {
    && result.Keys <= targets && explored <= budget
    && (forall t | t in result ::
          exists p :: Shortest(Open(start, blocked, radius), start, t, p) && result[t] == |p| - 1)
    && (forall t | t in targets && t !in result :: Missed(Open(start, blocked, radius), start, t, budget, explored))
  }

  ghost predicate Missed(free: Cell -> bool, start: Cell, t: Cell, budget: nat, explored: nat) {
    || (forall p :: !RouteTo(free, start, t, p))
    || (explored == budget && Crowded(free, start, t, budget))
  }

  lemma FieldComplete(start: Cell, targets: set<Cell>, blocked: set<Cell>, radius: nat, budget: nat,
                      visited: set<Cell>, result: map<Cell, nat>, explored: nat)
    requires Recorded(Open(start, blocked, radius), start, targets, visited, result)
    requires result.Keys == targets && explored <= budget
    ensures DistanceField(start, targets, blocked, radius, budget, result, explored)
  {
  }

  lemma FieldPartial(start: Cell, targets: set<Cell>, blocked: set<Cell>, radius: nat, budget: nat, trail: Trails,
                     queue: seq<Entry>, visited: set<Cell>, result: map<Cell, nat>, explored: nat, d: int)
    requires Recorded(Open(start, blocked, radius), start, targets, visited, result)
    requires Sweeping(Open(start, blocked, radius), start, trail, queue, visited, explored, {}, d)
    requires explored <= budget && (queue == [] || explored == budget)
    ensures DistanceField(start, targets, blocked, radius, budget, result, explored)
  {
    hide Sweeping, Crowded;
    var free := Open(start, blocked, radius);
    if queue == [] {
      Unreached(start, blocked, radius, targets, result, trail, visited, explored, d);
    } else {
      forall t | t in targets && t !in result
        ensures Crowded(free, start, t, budget)
      {
        SweepCrowded(free, start, trail, queue, visited, explored, d, t, budget);
      }
    }
  }

  /** Distances from `start` to the targets reached; `explored` counts the cells expanded. */
  method ShortestPathDistances(start: Cell, targets: set<Cell>, blocked: set<Cell>, radius: nat, budget: nat)
    returns (result: map<Cell, nat>, explored: nat)
    ensures DistanceField(start, targets, blocked, radius, budget, result, explored)
  {
    result, explored := map[], 0;
    if targets == {} {
      return;
    }
    hide Sweeping, Beyond, Recorded, Shortest, RouteTo, DistanceField;
    ghost var free := Open(start, blocked, radius);
    var queue, visited := [Entry(start, 0)], {start};
    ghost var trail: Trails, d := map[start := [start]], 0;
    SweepStarts(free, start);
    RecordStart(free, start, targets);
    RecordedAnswers(free, start, targets, visited, if start in targets then map[start := 0] else map[]);
    if start in targets {
      result := result[start := 0];
      if |result| == |targets| {
        AllFound(targets, result.Keys);
        FieldComplete(start, targets, blocked, radius, budget, visited, result, explored);
        return;
      }
    }
    while queue != [] && explored < budget
      invariant explored <= budget
      invariant Sweeping(free, start, trail, queue, visited, explored, {}, d)
      invariant Recorded(free, start, targets, visited, result)
      decreases budget - explored
    {
      SweepHead(free, start, trail, queue, visited, explored, d);
      var current, depth := queue[0].cell, queue[0].depth;
      queue := queue[1..];
      explored := explored + 1;
      d := depth;
      FarIsBeyond(free, start, visited, depth + 1);
      var complete;
      queue, visited, result, trail, complete :=
        ExpandTargets(start, targets, blocked, radius, current, depth, queue, visited, result, trail, explored);
      if complete {
        FieldComplete(start, targets, blocked, radius, budget, visited, result, explored);
        return;
      }
    }
    FieldPartial(start, targets, blocked, radius, budget, trail, queue, visited, result, explored, d);
  }

  lemma FarIsBeyond(free: Cell -> bool, start: Cell, known: set<Cell>, n: nat)
    requires forall p | Route(free, start, p) && End(p) !in known :: |p| > n
    ensures Beyond(free, start, known, n)
  {
  }

  lemma AllFound(targets: set<Cell>, found: set<Cell>)
    requires found <= targets && |found| == |targets|
    ensures found == targets
  {
    assert targets == found + (targets - found);
  }

  /** With a budget for the whole box, the field tells exactly which targets can be reached. */
  lemma BoxBudgetDecides(start: Cell, targets: set<Cell>, blocked: set<Cell>, radius: nat, budget: nat,
                         result: map<Cell, nat>, explored: nat, t: Cell)
    requires DistanceField(start, targets, blocked, radius, budget, result, explored)
    requires budget >= BoxSize(radius) && t in targets
    ensures t in result <==> exists p :: RouteTo(Open(start, blocked, radius), start, t, p)
  {
    hide Crowded, BoxSize;
    BoxNotCrowded(Open(start, blocked, radius), start, t, radius, budget);
  }

  // ----- first step of a route ------------------------------------------------------------

  /** What the first step promises: it starts a shortest route.  There is none when the target is
      the start or out of reach, or when more cells than the budget are no farther than it. */
  ghost predicate StepToward(start: Cell, target: Cell, blocked: set<Cell>, radius: nat, budget: nat, explored: nat,
                             r: Option<Direction>)
  {
    var free := Open(start, blocked, radius);
    match r
    case Some(e) => exists p :: Shortest(free, start, target, p) && |p| >= 2 && p[1] == Step(start, e)
    case None => start == target || Missed(free, start, target, budget, explored)
  }

  /** The search state: a sweep whose visited cells are the keys of the parent links. */
  ghost predicate Tracing(free: Cell -> bool, start: Cell, trail: Trails, entries: seq<Entry>, queue: seq<Cell>,
                          previous: Parents, explored: nat, busy: set<Cell>, d: int)
  {
    && Sweeping(free, start, trail, entries, previous.Keys, explored, busy, d)
    && Linked(previous, trail, start) && queue == Cells(entries)
  }

  lemma TraceFinds(free: Cell -> bool, start: Cell, trail: Trails, entries: seq<Entry>, queue: seq<Cell>,
                   previous: Parents, explored: nat, c: Cell, depth: nat, n: Cell)
    requires Tracing(free, start, trail, entries, queue, previous, explored, {c}, depth)
    requires c in trail && depth == |trail[c]| - 1 && free(n) && Adjacent(c, n) && n !in previous
    ensures Tracing(free, start, Found(trail, c, n), entries + [Entry(n, depth + 1)], queue + [n],
                    previous[n := Some(c)], explored, {c}, depth)
    ensures RouteTo(free, start, n, Found(trail, c, n)[n])
  {
    SweepFinds(free, start, trail, entries, previous.Keys, explored, c, depth, n);
    SweepFacts(free, start, trail, entries, previous.Keys, explored, {c}, depth);
    LinkDiscovered(previous, trail, start, c, n);
    assert previous[n := Some(c)].Keys == previous.Keys + {n};
    assert Cells(entries + [Entry(n, depth + 1)]) == Cells(entries) + [n];
  }

  lemma TraceHead(free: Cell -> bool, start: Cell, trail: Trails, entries: seq<Entry>, queue: seq<Cell>,
                  previous: Parents, explored: nat, d: int)
    requires Tracing(free, start, trail, entries, queue, previous, explored, {}, d) && queue != []
    ensures entries != [] && queue[0] in trail && entries[0].depth == |trail[queue[0]]| - 1
    ensures Tracing(free, start, trail, entries[1..], queue[1..], previous, explored + 1, {queue[0]}, entries[0].depth)
    ensures Beyond(free, start, previous.Keys, entries[0].depth + 1)
  {
    SweepHead(free, start, trail, entries, previous.Keys, explored, d);
    assert Cells(entries[1..]) == Cells(entries)[1..];
  }

  lemma TraceStarts(free: Cell -> bool, start: Cell)
    ensures Tracing(free, start, map[start := [start]], [Entry(start, 0)], [start], map[start := None], 0, {}, 0)
  {
    var previous: Parents, trail: Trails := map[start := None], map[start := [start]];
    SweepStarts(free, start);
    assert previous.Keys == {start} && LinkedAt(previous, trail, start, start);
    assert Cells([Entry(start, 0)]) == [start];
  }

  lemma TraceFacts(free: Cell -> bool, start: Cell, trail: Trails, entries: seq<Entry>, queue: seq<Cell>,
                   previous: Parents, explored: nat, busy: set<Cell>, d: int)
    requires Tracing(free, start, trail, entries, queue, previous, explored, busy, d)
    ensures Sweeping(free, start, trail, entries, previous.Keys, explored, busy, d) && queue == Cells(entries)
    ensures Linked(previous, trail, start) && Trailed(free, start, trail) && start in previous
    ensures previous.Keys == trail.Keys
  {
  }

  lemma TraceDone(free: Cell -> bool, start: Cell, trail: Trails, entries: seq<Entry>, queue: seq<Cell>,
                  previous: Parents, explored: nat, c: Cell, depth: nat)
    requires Tracing(free, start, trail, entries, queue, previous, explored, {c}, depth)
    requires c in trail && depth == |trail[c]| - 1
    requires forall m | 0 <= m < |DIRECTIONS| :: Seen(free, previous.Keys, Step(c, DIRECTIONS[m]))
    ensures Tracing(free, start, trail, entries, queue, previous, explored, {}, depth)
  {
    hide Sweeping;
    NeighboursSeen(free, previous.Keys, c);
    SweepDone(free, start, trail, entries, previous.Keys, explored, c, depth);
  }

  /** Visit the neighbours of `current`; stop at the target. */
  method ExpandToward(start: Cell, target: Cell, blocked: set<Cell>, radius: nat, current: Cell, queue0: seq<Cell>,
                      previous0: Parents, ghost trail0: Trails, ghost entries0: seq<Entry>, ghost explored: nat,
                      ghost depth: nat)
    returns (found: bool, queue: seq<Cell>, previous: Parents, ghost trail: Trails, ghost entries: seq<Entry>)
    requires Tracing(Open(start, blocked, radius), start, trail0, entries0, queue0, previous0, explored, {current}, depth)
    requires current in trail0 && depth == |trail0[current]| - 1 && target !in previous0
    requires Beyond(Open(start, blocked, radius), start, previous0.Keys, depth + 1)
    ensures found ==>
              && target in trail && Shortest(Open(start, blocked, radius), start, target, trail[target])
              && Linked(previous, trail, start) && Trailed(Open(start, blocked, radius), start, trail)
    ensures !found ==>
              && Tracing(Open(start, blocked, radius), start, trail, entries, queue, previous, explored, {}, depth)
              && target !in previous
  {
    hide Tracing;
    ghost var free := Open(start, blocked, radius);
    found, queue, previous, trail, entries := false, queue0, previous0, trail0, entries0;
    for k := 0 to |DIRECTIONS|
      invariant Tracing(free, start, trail, entries, queue, previous, explored, {current}, depth)
      invariant current in trail && depth == |trail[current]| - 1
      invariant previous0.Keys <= previous.Keys && target !in previous
      invariant forall m | 0 <= m < k :: Seen(free, previous.Keys, Step(current, DIRECTIONS[m]))
    {
      var neighbor := Step(current, DIRECTIONS[k]);
      if Chebyshev(neighbor, start) > radius || neighbor in previous || neighbor in blocked {
        continue;
      }
      TraceFacts(free, start, trail, entries, queue, previous, explored, {current}, depth);
      TraceFinds(free, start, trail, entries, queue, previous, explored, current, depth, neighbor);
      previous := previous[neighbor := Some(current)];
      trail := Found(trail, current, neighbor);
      entries := entries + [Entry(neighbor, depth + 1)];
      if neighbor == target {
        TraceFacts(free, start, trail, entries, queue + [neighbor], previous, explored, {current}, depth);
        found := true;
        return;
      }
      queue := queue + [neighbor];
    }
    TraceDone(free, start, trail, entries, queue, previous, explored, current, depth);
  }

  /** Follow the parent links down to the cell after the start. */
  method FirstStep(start: Cell, target: Cell, previous: Parents, ghost free: Cell -> bool, ghost trail: Trails)
    returns (e: Direction)
    requires Linked(previous, trail, start) && Trailed(free, start, trail) && target in previous && target != start
    ensures target in trail && |trail[target]| >= 2 && trail[target][1] == Step(start, e)
  {
    var step := target;
    ParentOf(previous, free, start, trail, target);
    while previous[step] != Some(start)
      invariant step in previous && step != start && step in trail
      invariant 2 <= |trail[step]| && trail[step] <= trail[target]
      decreases |trail[step]|
    {
      ParentOf(previous, free, start, trail, step);
      step := previous[step].value;
      ParentOf(previous, free, start, trail, step);
    }
    ParentOf(previous, free, start, trail, step);
    assert Chained(trail, start, start) && Hop(free, trail[step], 1);
    assert trail[step][1] == End(trail[step]) == step;
    e := DirectionTo(start, step);
  }

  function DirectionTo(a: Cell, b: Cell): (e: Direction)
    requires Adjacent(a, b)
    ensures Step(a, e) == b
  {
    if b.x == a.x + 1 then East else if b.y == a.y + 1 then South else if b.x == a.x - 1 then West else North
  }

  method NextStepToward(start: Cell, target: Cell, blocked: set<Cell>, radius: nat, budget: nat)
    returns (r: Option<Direction>, explored: nat)
    ensures StepToward(start, target, blocked, radius, budget, explored, r) && explored <= budget
  {
    explored := 0;
    if start == target {
      return None, 0;
    }
    ghost var free := Open(start, blocked, radius);
    if target in blocked {
      NoWayIn(start, target, blocked, radius);
      return None, 0;
    }
    hide Tracing, Sweeping, Linked, Trailed, Shortest, RouteTo, Beyond, BoxSize, Open, Hop;
    var previous: Parents := map[start := None];
    var queue := [start];
    ghost var trail: Trails, entries, d := map[start := [start]], [Entry(start, 0)], 0;
    TraceStarts(free, start);
    while queue != [] && explored < budget
      invariant explored <= budget && target !in previous
      invariant Tracing(free, start, trail, entries, queue, previous, explored, {}, d)
      decreases budget - explored
    {
      TraceHead(free, start, trail, entries, queue, previous, explored, d);
      var current := queue[0];
      queue := queue[1..];
      d, entries := entries[0].depth, entries[1..];
      explored := explored + 1;
      var found;
      found, queue, previous, trail, entries :=
        ExpandToward(start, target, blocked, radius, current, queue, previous, trail, entries, explored, d);
      if found {
        LinkedKeys(previous, trail, start, target);
        var e := FirstStep(start, target, previous, free, trail);
        r := Some(e);
        return;
      }
    }
    r := None;
    NoneConclusive(start, target, blocked, radius, budget, trail, entries, queue, previous, explored, d);
  }

  /** A search that stopped within its budget has seen everything. */
  lemma NoneConclusive(start: Cell, target: Cell, blocked: set<Cell>, radius: nat, budget: nat, trail: Trails,
                       entries: seq<Entry>, queue: seq<Cell>, previous: Parents, explored: nat, d: int)
    requires Tracing(Open(start, blocked, radius), start, trail, entries, queue, previous, explored, {}, d)
    requires target !in previous && explored <= budget && (queue == [] || explored >= budget)
    ensures StepToward(start, target, blocked, radius, budget, explored, None)
  {
    hide Sweeping, Linked, Trailed, Shortest, RouteTo, Beyond, BoxSize, Open, Hop, Crowded;
    var free := Open(start, blocked, radius);
    if queue == [] {
      assert entries == [];
      NeverTraced(free, start, target, trail, entries, previous.Keys, explored, d);
    } else {
      SweepCrowded(free, start, trail, entries, previous.Keys, explored, d, target, budget);
    }
  }

  lemma LinkedKeys(previous: Parents, trail: Trails, start: Cell, c: Cell)
    requires Linked(previous, trail, start) && c in trail
    ensures c in previous
  {
  }

  lemma NoWayIn(start: Cell, target: Cell, blocked: set<Cell>, radius: nat)
    requires start != target && target in blocked
    ensures forall p :: !RouteTo(Open(start, blocked, radius), start, target, p)
  {
    forall p | RouteTo(Open(start, blocked, radius), start, target, p)
      ensures false
    {
      assert Hop(Open(start, blocked, radius), p, |p| - 1);
    }
  }

  lemma NeverTraced(free: Cell -> bool, start: Cell, target: Cell, trail: Trails, entries: seq<Entry>,
                    visited: set<Cell>, explored: nat, d: int)
    requires Sweeping(free, start, trail, entries, visited, explored, {}, d) && entries == [] && target !in visited
    ensures forall p :: !RouteTo(free, start, target, p)
  {
    hide Sweeping;
    forall p | RouteTo(free, start, target, p)
      ensures false
    {
      SweepComplete(free, start, trail, visited, explored, d, p);
    }
  }
}
