/** The worker planner: forced tasks first, then one optimal assignment of the remaining workers
    to the available resource cells, then the claims carried to the next tick. */
module WorkerAssignment {
  import opened CellKeys
  import opened WorkerMatrix
  import Ordering
  import Hungarian = MinCostAssignment
  import opened Options

  datatype TaskKind = HarvestCurrent | GoResource | Deposit | Explore | PickupBeacon | ReturnForHeal | Wait

  datatype Task = Task(kind: TaskKind, target: Option<Cell>, key: Option<string>)

  datatype Assignment = Assignment(unitId: string, task: Task)

  datatype Worker = Worker(id: string, position: Cell, health: nat, cargo: nat)

  datatype CellInfo = CellInfo(position: Cell, visible: bool)

  datatype Snapshot = Snapshot(
    tick: nat,
    workers: seq<Worker>,
    cells: map<string, CellInfo>,
    enemyCells: set<string>,
    core: Option<Cell>,
    groundBeacon: Option<Cell>,   // position of an uncarried beacon on the ground
    resourceSpace: nat)           // room left in the core

  datatype Claim = Claim(
    unitId: string,
    key: string,
    claimTick: nat,
    lastProgressTick: nat,
    progressDistance: nat,
    lastPosition: Cell)

  datatype Config = Config(
    claimTtl: nat,
    preemptPenalty: real,
    valueFloor: Option<real>,     // None for minus infinity
    maxDistance: Option<real>,    // None for infinity
    surveyCap: int,
    surveyFloor: int,
    deadMineOverdue: int)

  /** Everything one planning step reads.  `score` is the route and value model of a pair. */
  datatype Inputs = Inputs(
    snapshot: Snapshot,
    previous: seq<Assignment>,
    config: Config,
    surveyBurst: bool,
    claims: map<string, Claim>,
    blocked: set<string>,
    refill: map<string, int>,
    exploration: map<string, Cell>,
    score: (string, string) -> real)

  const MEMORY_MAX_DIRECT_DISTANCE: int := 40

  // ----- forced tasks ---------------------------------------------------------------------

  function ForcedTask(w: Worker, s: Snapshot): Option<Task> {
    if w.cargo == 0 && s.groundBeacon == Some(w.position) then
      Some(Task(PickupBeacon, s.groundBeacon, Some(Format(w.position))))
    else if w.cargo > 0 && s.core.Some? then
      Some(Task(Deposit, s.core, None))
    else if w.cargo == 0 && Format(w.position) in s.cells && s.cells[Format(w.position)].visible then
      Some(Task(HarvestCurrent, Some(w.position), Some(Format(w.position))))
    else if w.health <= 1 && s.core.Some? && Manhattan(w.position, s.core.value) > 0 then
      Some(Task(ReturnForHeal, s.core, None))
    else None
  }

  function ForcedPlan(ws: seq<Worker>, s: Snapshot): seq<Assignment> {
    if ws == [] then []
    else
      var rest, w := ForcedPlan(ws[..|ws| - 1], s), ws[|ws| - 1];
      if ForcedTask(w, s).Some? then rest + [Assignment(w.id, ForcedTask(w, s).value)] else rest
  }

  function ForcedCells(ws: seq<Worker>, s: Snapshot): set<string> {
    set w | w in ws && ForcedTask(w, s).Some? && ForcedTask(w, s).value.key.Some? :: ForcedTask(w, s).value.key.value
  }

  function Unforced(ws: seq<Worker>, s: Snapshot): seq<Worker> {
    if ws == [] then []
    else
      var rest, w := Unforced(ws[..|ws| - 1], s), ws[|ws| - 1];
      if ForcedTask(w, s).Some? then rest else rest + [w]
  }

  // ----- pools ----------------------------------------------------------------------------

  function ById(): (Worker, Worker) -> bool {
    (a: Worker, b: Worker) => Ordering.LexLeq(a.id, b.id)
  }

  function Pool(i: Inputs): seq<Worker> {
    Ordering.Sort(Unforced(i.snapshot.workers, i.snapshot), ById())
  }

  predicate IsAvailable(i: Inputs, key: string) {
    && key in i.snapshot.cells
    && key !in ForcedCells(i.snapshot.workers, i.snapshot)
    && key !in i.blocked
    && (i.snapshot.cells[key].visible || forall w | w in i.snapshot.workers :: Format(w.position) != key)
  }

  /** The matrix columns: the available cells in key order. */
  ghost predicate AvailableCells(i: Inputs, keys: seq<string>) {
    && Ordering.Sorted(keys, Ordering.LexLeq)
    && Ordering.Distinct(keys)
    && (forall j | 0 <= j < |keys| :: IsAvailable(i, keys[j]))
    && (forall key | IsAvailable(i, key) :: key in keys)
  }

  /** How many workers are wanted for surveying. */
  function Required(i: Inputs): int {
    if i.surveyBurst && i.config.surveyFloor > i.config.surveyCap then i.config.surveyFloor else i.config.surveyCap
  }

  /** Workers reserved for surveying before the matrix, as a prefix of the pool. */
  function SurveyCount(i: Inputs, pool: seq<Worker>, keys: seq<string>): (n: nat)
    ensures n <= |pool|
  {
    if !i.surveyBurst || Required(i) <= 0 || pool == [] then 0
    else if Required(i) < |pool| then Required(i)
    else if keys != [] then |pool| - 1
    else |pool|
  }

  predicate DistinctIds(ws: seq<Worker>) {
    forall a, b | 0 <= a < b < |ws| :: ws[a].id != ws[b].id
  }

  // ----- claims held over from earlier ticks -----------------------------------------------

  function FindWorker(ws: seq<Worker>, id: string): (w: Option<Worker>)
    ensures w.Some? ==> w.value in ws && w.value.id == id
    ensures w.None? ==> forall x | x in ws :: x.id != id
  {
    if ws == [] then None
    else if ws[|ws| - 1].id == id then Some(ws[|ws| - 1])
    else FindWorker(ws[..|ws| - 1], id)
  }

  /** The key a worker was last sent to, by its latest GO_RESOURCE assignment. */
  function PreviousTarget(previous: seq<Assignment>, id: string): Option<string> {
    if previous == [] then None
    else
      var last := previous[|previous| - 1];
      var key := if last.task.key.Some? then last.task.key
                 else if last.task.target.Some? then Some(Format(last.task.target.value)) else None;
      if last.unitId == id && last.task.kind == GoResource && key.Some? then key
      else PreviousTarget(previous[..|previous| - 1], id)
  }

  function Within(limit: Option<real>, d: nat): bool {
    limit.None? || d as real <= limit.value
  }

  /** Whether the claim on `key` survives pruning and so reserves the cell. */
  predicate Holds(i: Inputs, key: string) {
    && key in i.claims
    && var claim, s := i.claims[key], i.snapshot;
       var w := FindWorker(s.workers, claim.unitId);
    && w.Some? && ForcedTask(w.value, s).None?
    && PreviousTarget(i.previous, claim.unitId) == Some(key)
    && key in s.cells && key !in s.enemyCells
    && s.tick >= claim.lastProgressTick
    && s.tick - claim.lastProgressTick < i.config.claimTtl
    && Within(i.config.maxDistance, Manhattan(w.value.position, s.cells[key].position))
    && (s.cells[key].visible || w.value.position != s.cells[key].position)
  }

  /** The latest target of every worker, collected in one pass. */
  method PreviousTargets(previous: seq<Assignment>) returns (targets: map<string, string>)
    ensures forall id :: (id in targets) == PreviousTarget(previous, id).Some?
    ensures forall id | id in targets :: PreviousTarget(previous, id) == Some(targets[id])
  {
    targets := map[];
    for k := 0 to |previous|
      invariant forall id :: (id in targets) == PreviousTarget(previous[..k], id).Some?
      invariant forall id | id in targets :: PreviousTarget(previous[..k], id) == Some(targets[id])
    {
      var a := previous[k];
      assert previous[..k + 1][..k] == previous[..k];
      if a.task.kind == GoResource {
        if a.task.key.Some? {
          targets := targets[a.unitId := a.task.key.value];
        } else if a.task.target.Some? {
          targets := targets[a.unitId := Format(a.task.target.value)];
        }
      }
    }
    assert previous[..|previous|] == previous;
  }

  /** Release the claims whose facts no longer hold. */
  method PruneClaims(i: Inputs, forced: set<string>) returns (pruned: map<string, Claim>)
    requires forall w | w in i.snapshot.workers :: w.id in forced <==> ForcedTask(w, i.snapshot).Some?
    ensures forall key :: key in pruned <==> Holds(i, key)
    ensures forall key | key in pruned :: key in i.claims && pruned[key] == i.claims[key]
  {
    hide ForcedTask, PreviousTarget, Format, DistinctIds, FindWorker, Manhattan;
    var targets := PreviousTargets(i.previous);
    pruned := map[];
    var rest := i.claims.Keys;
    while rest != {}
      invariant rest <= i.claims.Keys
      invariant forall key :: key in pruned <==> key !in rest && Holds(i, key)
      invariant forall key | key in pruned :: key in i.claims && pruned[key] == i.claims[key]
      decreases rest
    {
      var key :| key in rest;
      rest := rest - {key};
      var kept := KeepClaim(i, forced, targets, key);
      if kept {
        pruned := pruned[key := i.claims[key]];
      }
    }
  }

  method KeepClaim(i: Inputs, forced: set<string>, targets: map<string, string>, key: string) returns (kept: bool)
    requires key in i.claims
    requires forall w | w in i.snapshot.workers :: w.id in forced <==> ForcedTask(w, i.snapshot).Some?
    requires forall id :: (id in targets) == PreviousTarget(i.previous, id).Some?
    requires forall id | id in targets :: PreviousTarget(i.previous, id) == Some(targets[id])
    ensures kept <==> Holds(i, key)
  {
    hide ForcedTask, PreviousTarget, Format, Manhattan;
    var claim, s := i.claims[key], i.snapshot;
    var worker := FindWorker(s.workers, claim.unitId);
    if worker.None? || claim.unitId in forced {
      return false;
    }
    if claim.unitId !in targets || targets[claim.unitId] != key {
      return false;
    }
    if key !in s.cells || key in s.enemyCells {
      return false;
    }
    var cell := s.cells[key];
    if s.tick < claim.lastProgressTick || s.tick - claim.lastProgressTick >= i.config.claimTtl {
      return false;
    }
    if i.config.maxDistance.Some? && Manhattan(worker.value.position, cell.position) as real > i.config.maxDistance.value {
      return false;
    }
    // An invisible cell under the claimant holds no mine.
    if !cell.visible && worker.value.position == cell.position {
      return false;
    }
    return true;
  }

  // ----- the matrix -----------------------------------------------------------------------

  function Ids(ws: seq<Worker>): (ids: seq<string>)
    ensures |ids| == |ws| && forall k | 0 <= k < |ws| :: ids[k] == ws[k].id
  {
    Ordering.Image(ws, WorkerId)
  }

  function WorkerId(w: Worker): string { w.id }

  function NetValue(i: Inputs, w: Worker, key: string): Option<real> {
    if key !in i.snapshot.cells then None
    else
      var cell := i.snapshot.cells[key];
      if !cell.visible && Manhattan(w.position, cell.position) > MEMORY_MAX_DIRECT_DISTANCE then None
      else if key in i.snapshot.enemyCells then None
      else Some(i.score(w.id, key))
  }

  predicate Collectable(i: Inputs, net: real, w: Worker, cell: CellInfo) {
    var key := Format(cell.position);
    && (cell.visible || i.config.valueFloor.None? || net >= i.config.valueFloor.value)
    && (cell.visible || key !in i.refill || i.refill[key] >= -i.config.deadMineOverdue)
    && Within(i.config.maxDistance, Manhattan(w.position, cell.position))
  }

  function StandingOf(i: Inputs, pool: seq<Worker>, w: Worker, key: string): Standing {
    var net := NetValue(i, w, key);
    var reserved := Holds(i, key) && i.claims[key].unitId in Ids(pool);
    Standing(net,
             reserved && i.claims[key].unitId != w.id,
             reserved && i.claims[key].unitId == w.id,
             net.Some? && Collectable(i, net.value, w, i.snapshot.cells[key]))
  }

  function StandingTable(i: Inputs, pool: seq<Worker>, keys: seq<string>): (t: Standings)
    ensures Table(t, |pool|, |keys|)
    ensures forall r, j | 0 <= r < |pool| && 0 <= j < |keys| :: t[r][j] == StandingOf(i, pool, pool[r], keys[j])
  {
    seq(|pool|, r requires 0 <= r < |pool| =>
      seq(|keys|, j requires 0 <= j < |keys| => StandingOf(i, pool, pool[r], keys[j])))
  }

  /** What the matrix settles on: one column per worker, and on a grid an optimal choice. */
  ghost predicate Settled(i: Inputs, pool: seq<Worker>, keys: seq<string>, columns: seq<int>) {
    && |columns| == |pool|
    && (forall r | 0 <= r < |pool| :: 0 <= columns[r] < |keys| + |pool|)
    && Hungarian.Injective(columns)
    && (pool != [] && OnAGrid(i, pool, keys) ==>
          var costs := CostMatrix(StandingTable(i, pool, keys), i.config.preemptPenalty);
          Hungarian.Rectangular(costs) && Hungarian.Optimal(costs, columns))
  }

  ghost predicate OnAGrid(i: Inputs, pool: seq<Worker>, keys: seq<string>) {
    exists q: int :: GridTable(StandingTable(i, pool, keys), i.config.preemptPenalty, q)
  }

  /** `reservedFor` names the pool worker whose surviving claim holds a cell. */
  ghost predicate Reservations(i: Inputs, pool: seq<Worker>, reservedFor: map<string, string>) {
    && (forall key :: key in reservedFor <==> Holds(i, key) && i.claims[key].unitId in Ids(pool))
    && forall key | key in reservedFor :: key in i.claims && reservedFor[key] == i.claims[key].unitId
  }

  /** One row of the cost matrix, cell by cell. */
  method MatrixRow(i: Inputs, pool: seq<Worker>, keys: seq<string>, r: nat, reservedFor: map<string, string>,
                   wait: real, forbidden: real)
    returns (row: seq<real>)
    requires r < |pool| && (forall j | 0 <= j < |keys| :: keys[j] in i.snapshot.cells) && Reservations(i, pool, reservedFor)
    ensures |row| == |keys| + |pool|
    ensures forall j | 0 <= j < |keys| ::
              row[j] == Entry(StandingOf(i, pool, pool[r], keys[j]), i.config.preemptPenalty, forbidden)
    ensures forall j | |keys| <= j < |row| :: row[j] == wait
  {
    hide Holds, NetValue, Collectable, Ids, StandingOf, Entry;
    row := [];
    for j := 0 to |keys|
      invariant |row| == j
      invariant forall k | 0 <= k < j ::
                  row[k] == Entry(StandingOf(i, pool, pool[r], keys[k]), i.config.preemptPenalty, forbidden)
    {
      var cost := MatrixEntry(i, pool, keys[j], pool[r], reservedFor, forbidden);
      row := row + [cost];
    }
    row := row + seq(|pool|, _ => wait);
  }

  /** The cost of one pair. */
  method MatrixEntry(i: Inputs, pool: seq<Worker>, key: string, worker: Worker, reservedFor: map<string, string>,
                     forbidden: real)
    returns (cost: real)
    requires key in i.snapshot.cells && Reservations(i, pool, reservedFor)
    ensures cost == Entry(StandingOf(i, pool, worker, key), i.config.preemptPenalty, forbidden)
  {
    hide Holds, NetValue, Collectable, Ids;
    var net := NetValue(i, worker, key);
    if net.None? {
      return forbidden;
    }
    var reserved := key in reservedFor;
    if reserved && worker.id != reservedFor[key] {
      return if i.config.preemptPenalty > 0.0 then -(net.value - i.config.preemptPenalty) else forbidden;
    }
    var collectable := Collectable(i, net.value, worker, i.snapshot.cells[key]);
    if !collectable {
      return forbidden;
    }
    var leaseBonus := if reserved then 20.0 else 0.0;
    return -(net.value + leaseBonus);
  }

  /** The cost matrix, row by row. */
  method BuildMatrix(i: Inputs, pool: seq<Worker>, keys: seq<string>, pruned: map<string, Claim>)
    returns (costs: Hungarian.Matrix)
    requires forall j | 0 <= j < |keys| :: keys[j] in i.snapshot.cells
    requires forall key :: key in pruned <==> Holds(i, key)
    requires forall key | key in pruned :: key in i.claims && pruned[key] == i.claims[key]
    ensures costs == CostMatrix(StandingTable(i, pool, keys), i.config.preemptPenalty)
  {
    hide Holds, StandingOf, Entry, WaitCost;
    var reservedFor := map key | key in pruned && pruned[key].unitId in Ids(pool) :: pruned[key].unitId;
    var t := StandingTable(i, pool, keys);
    var wait := WaitCost(t);
    var forbidden := wait + 1000000.0;
    costs := [];
    for r := 0 to |pool|
      invariant costs == CostMatrix(t, i.config.preemptPenalty)[..r]
    {
      var row := MatrixRow(i, pool, keys, r, reservedFor, wait, forbidden);
      assert row == CostMatrix(t, i.config.preemptPenalty)[r];
      costs := costs + [row];
    }
  }

  method SettleMatrix(i: Inputs, pool: seq<Worker>, keys: seq<string>, pruned: map<string, Claim>)
    returns (columns: seq<int>)
    requires pool != [] && forall j | 0 <= j < |keys| :: keys[j] in i.snapshot.cells
    requires forall key :: key in pruned <==> Holds(i, key)
    requires forall key | key in pruned :: key in i.claims && pruned[key] == i.claims[key]
    ensures Settled(i, pool, keys, columns)
  {
    ghost var t := StandingTable(i, pool, keys);
    var costs := BuildMatrix(i, pool, keys, pruned);
    CostMatrixShape(t, i.config.preemptPenalty, |pool|, |keys|);
    var outcome := Hungarian.MinimumCostAssignment(costs);
    columns := outcome.value;
    if OnAGrid(i, pool, keys) {
      var q :| GridTable(t, i.config.preemptPenalty, q);
      CostMatrixSeparated(t, i.config.preemptPenalty, q);
    }
  }

  // ----- the plan -------------------------------------------------------------------------

  function ExploreTask(i: Inputs, id: string): Task {
    Task(Explore, if id in i.exploration then Some(i.exploration[id]) else None, None)
  }

  function SurveyPlan(i: Inputs, ws: seq<Worker>): seq<Assignment> {
    seq(|ws|, k requires 0 <= k < |ws| => Assignment(ws[k].id, ExploreTask(i, ws[k].id)))
  }

  /** How many of the first `r` workers got a WAIT column. */
  function Waiting(columns: seq<int>, k: int, r: nat): nat
    requires r <= |columns|
  {
    if r == 0 then 0 else Waiting(columns, k, r - 1) + if columns[r - 1] >= k then 1 else 0
  }

  function MatrixTask(i: Inputs, pool: seq<Worker>, keys: seq<string>, columns: seq<int>, r: nat): Task
    requires r < |pool| == |columns| && 0 <= columns[r]
    requires forall j | 0 <= j < |keys| :: keys[j] in i.snapshot.cells
  {
    if columns[r] < |keys| then
      Task(GoResource, Some(i.snapshot.cells[keys[columns[r]]].position), Some(keys[columns[r]]))
    else if !i.surveyBurst && Waiting(columns, |keys|, r) < Required(i) then ExploreTask(i, pool[r].id)
    else Task(Wait, None, None)
  }

  ghost predicate Fits(i: Inputs, pool: seq<Worker>, keys: seq<string>, columns: seq<int>) {
    && |columns| == |pool| && (forall r | 0 <= r < |pool| :: 0 <= columns[r])
    && forall j | 0 <= j < |keys| :: keys[j] in i.snapshot.cells
  }

  function MatrixPlan(i: Inputs, pool: seq<Worker>, keys: seq<string>, columns: seq<int>): (plan: seq<Assignment>)
    requires Fits(i, pool, keys, columns)
    ensures |plan| == |pool|
  {
    seq(|pool|, r requires 0 <= r < |pool| => Assignment(pool[r].id, MatrixTask(i, pool, keys, columns, r)))
  }

  // ----- claims for the next tick ----------------------------------------------------------

  predicate Claims(a: Assignment) {
    a.task.kind == GoResource && a.task.key.Some?
  }

  function Renewal(a: Assignment, w: Worker, tick: nat, previous: map<string, Claim>): (claim: Claim)
    requires Claims(a)
    ensures claim.unitId == a.unitId && claim.key == a.task.key.value
  {
    var key := a.task.key.value;
    var distance := if a.task.target.Some? then Some(Manhattan(w.position, a.task.target.value)) else None;
    if key in previous && previous[key].unitId == a.unitId then
      var old_ := previous[key];
      if distance.Some? && distance.value < old_.progressDistance then
        Claim(a.unitId, key, old_.claimTick, tick, distance.value, w.position)
      else
        Claim(a.unitId, key, old_.claimTick, old_.lastProgressTick, old_.progressDistance, w.position)
    else
      Claim(a.unitId, key, tick, tick, if distance.Some? then distance.value else 0, w.position)
  }

  function NextClaims(plan: seq<Assignment>, ws: seq<Worker>, tick: nat, previous: map<string, Claim>):
    (next: map<string, Claim>)
  {
    if plan == [] then map[]
    else
      var rest, a := NextClaims(plan[..|plan| - 1], ws, tick, previous), plan[|plan| - 1];
      if Claims(a) && FindWorker(ws, a.unitId).Some? then
        rest[a.task.key.value := Renewal(a, FindWorker(ws, a.unitId).value, tick, previous)]
      else rest
  }

  method UpdateClaims(plan: seq<Assignment>, ws: seq<Worker>, tick: nat, previous: map<string, Claim>)
    returns (next: map<string, Claim>)
    ensures next == NextClaims(plan, ws, tick, previous)
  {
    next := map[];
    for k := 0 to |plan|
      invariant next == NextClaims(plan[..k], ws, tick, previous)
    {
      var a := plan[k];
      assert plan[..k + 1][..k] == plan[..k];
      if Claims(a) {
        var w := FindWorker(ws, a.unitId);
        if w.Some? {
          next := next[a.task.key.value := Renewal(a, w.value, tick, previous)];
        }
      }
    }
    assert plan[..|plan|] == plan;
  }

  // ----- one planning step ------------------------------------------------------------------

  function ByUnit(): (Assignment, Assignment) -> bool {
    (a: Assignment, b: Assignment) => Ordering.LexLeq(a.unitId, b.unitId)
  }

  /** The assignments of one step, in the order the planner makes them. */
  function Decisions(i: Inputs, keys: seq<string>, columns: seq<int>): seq<Assignment>
    requires Fits(i, MatrixPool(i, keys), keys, columns)
  {
    ForcedPlan(i.snapshot.workers, i.snapshot)
    + SurveyPlan(i, Pool(i)[..SurveyCount(i, Pool(i), keys)])
    + MatrixPlan(i, MatrixPool(i, keys), keys, columns)
  }

  method CollectForced(i: Inputs) returns (plan: seq<Assignment>, claimed: set<string>, unassigned: seq<Worker>)
    ensures plan == ForcedPlan(i.snapshot.workers, i.snapshot)
    ensures claimed == ForcedCells(i.snapshot.workers, i.snapshot)
    ensures unassigned == Unforced(i.snapshot.workers, i.snapshot)
  {
    var ws := i.snapshot.workers;
    plan, claimed, unassigned := [], {}, [];
    for k := 0 to |ws|
      invariant plan == ForcedPlan(ws[..k], i.snapshot)
      invariant claimed == ForcedCells(ws[..k], i.snapshot)
      invariant unassigned == Unforced(ws[..k], i.snapshot)
    {
      assert ws[..k + 1][..k] == ws[..k] && ws[..k + 1] == ws[..k] + [ws[k]];
      var forced := ForcedTask(ws[k], i.snapshot);
      if forced.Some? {
        plan := plan + [Assignment(ws[k].id, forced.value)];
        if forced.value.key.Some? {
          claimed := claimed + {forced.value.key.value};
        }
      } else {
        unassigned := unassigned + [ws[k]];
      }
    }
    assert ws[..|ws|] == ws;
  }

  method CollectCells(i: Inputs, claimed: set<string>) returns (keys: seq<string>)
    requires claimed == ForcedCells(i.snapshot.workers, i.snapshot)
    ensures AvailableCells(i, keys)
  {
    var found: seq<string> := [];
    var rest := i.snapshot.cells.Keys;
    while rest != {}
      invariant rest <= i.snapshot.cells.Keys
      invariant forall key :: key in found <==> key !in rest && IsAvailable(i, key)
      invariant Ordering.Distinct(found)
      decreases rest
    {
      var key :| key in rest;
      rest := rest - {key};
      if key !in claimed && key !in i.blocked
         && (i.snapshot.cells[key].visible || forall w | w in i.snapshot.workers :: Format(w.position) != key) {
        found := found + [key];
      }
    }
    keys := Ordering.Sort(found, Ordering.LexLeq);
    SortedKeys(found);
  }

  lemma LexOrdered()
    ensures Ordering.Ordered(Ordering.LexLeq)
  {
    forall a, b
      ensures Ordering.LexLeq(a, b) || Ordering.LexLeq(b, a)
    {
      Ordering.LexTotal(a, b);
    }
    forall a, b, c | Ordering.LexLeq(a, b) && Ordering.LexLeq(b, c)
      ensures Ordering.LexLeq(a, c)
    {
      Ordering.LexTransitive(a, b, c);
    }
  }

  lemma SortedKeys(found: seq<string>)
    requires Ordering.Distinct(found)
    ensures var keys := Ordering.Sort(found, Ordering.LexLeq);
            && Ordering.Sorted(keys, Ordering.LexLeq)
            && Ordering.Distinct(keys)
            && (forall key :: key in keys <==> key in found)
  {
    var keys := Ordering.Sort(found, Ordering.LexLeq);
    LexOrdered();
    Ordering.SortSorted(found, Ordering.LexLeq);
    Ordering.SameMembers(found, keys);
    Ordering.Repeats(found, keys);
  }

  /** The workers the matrix is built for. */
  function MatrixPool(i: Inputs, keys: seq<string>): seq<Worker> {
    Pool(i)[SurveyCount(i, Pool(i), keys)..]
  }

  /** Set the pre-reserved surveyors aside, by membership of their id. */
  method SetSurveyorsAside(i: Inputs, pool: seq<Worker>, n: nat) returns (plan: seq<Assignment>, rest: seq<Worker>)
    requires n <= |pool| && DistinctIds(pool)
    ensures plan == SurveyPlan(i, pool[..n]) && rest == pool[n..]
  {
    var surveyors := set k | 0 <= k < n :: pool[k].id;
    plan, rest := [], [];
    for k := 0 to |pool|
      invariant plan == SurveyPlan(i, pool[..if k < n then k else n])
      invariant rest == if k < n then [] else pool[n..k]
    {
      assert pool[k].id in surveyors <==> k < n;
      if pool[k].id in surveyors {
        plan := plan + [Assignment(pool[k].id, ExploreTask(i, pool[k].id))];
      } else {
        rest := rest + [pool[k]];
      }
    }
  }

  /** One order for every row: its cell, or exploring for the first of the others, or waiting. */
  method PlanMatrix(i: Inputs, pool: seq<Worker>, keys: seq<string>, columns: seq<int>) returns (plan: seq<Assignment>)
    requires Fits(i, pool, keys, columns) && DistinctIds(pool)
    ensures plan == MatrixPlan(i, pool, keys, columns)
  {
    hide DistinctIds, ExploreTask, Dummies;
    var dummies := WithoutTarget(pool, |keys|, columns);
    var leftover := if i.surveyBurst || i.config.surveyCap <= 0 then {}
                    else set k | 0 <= k < |dummies| && k < i.config.surveyCap :: dummies[k].id;
    plan := [];
    for r := 0 to |pool|
      invariant plan == MatrixPlan(i, pool, keys, columns)[..r]
    {
      var task;
      if columns[r] < |keys| {
        var key := keys[columns[r]];
        task := Task(GoResource, Some(i.snapshot.cells[key].position), Some(key));
      } else {
        LeftoverIds(pool, |keys|, columns, dummies, i.config.surveyCap, r);
        task := if pool[r].id in leftover then ExploreTask(i, pool[r].id) else Task(Wait, None, None);
      }
      assert task == MatrixTask(i, pool, keys, columns, r);
      hide MatrixTask;
      plan := plan + [Assignment(pool[r].id, task)];
    }
  }

  /** Decide the remaining workers, if there are any. */
  method DecideMatrix(i: Inputs, pool: seq<Worker>, keys: seq<string>, pruned: map<string, Claim>)
    returns (plan: seq<Assignment>, columns: seq<int>)
    requires AvailableCells(i, keys) && DistinctIds(pool)
    requires forall key :: key in pruned <==> Holds(i, key)
    requires forall key | key in pruned :: key in i.claims && pruned[key] == i.claims[key]
    ensures Settled(i, pool, keys, columns) && Fits(i, pool, keys, columns)
    ensures plan == MatrixPlan(i, pool, keys, columns)
  {
    columns := [];
    if pool != [] {
      columns := SettleMatrix(i, pool, keys, pruned);
    }
    plan := PlanMatrix(i, pool, keys, columns);
  }

  /** `dummies` are the workers with a WAIT column, in the order of the pool. */
  ghost predicate Dummies(pool: seq<Worker>, k: nat, columns: seq<int>, dummies: seq<Worker>, n: nat)
    requires n <= |pool| == |columns|
  {
    && |dummies| == Waiting(columns, k, n)
    && forall r | 0 <= r < n && columns[r] >= k :: Waiting(columns, k, r) < |dummies| && dummies[Waiting(columns, k, r)] == pool[r]
  }

  /** The workers that reached no real task. */
  method WithoutTarget(pool: seq<Worker>, k: nat, columns: seq<int>) returns (dummies: seq<Worker>)
    requires |pool| == |columns|
    ensures Dummies(pool, k, columns, dummies, |pool|)
    ensures forall d | d in dummies :: d in pool
  {
    dummies := [];
    for r := 0 to |pool|
      invariant Dummies(pool, k, columns, dummies, r)
      invariant forall d | d in dummies :: d in pool
    {
      if columns[r] >= k {
        dummies := dummies + [pool[r]];
      }
    }
  }

  lemma {:induction false} WaitingGrows(columns: seq<int>, k: int, q: nat, r: nat)
    requires q <= r <= |columns|
    ensures Waiting(columns, k, q) <= Waiting(columns, k, r)
    ensures q < r && columns[q] >= k ==> Waiting(columns, k, q) < Waiting(columns, k, r)
  {
    if q < r {
      WaitingGrows(columns, k, q, r - 1);
    }
  }

  lemma {:induction false} WaitingRow(columns: seq<int>, k: int, n: nat, m: nat) returns (r: nat)
    requires n <= |columns| && m < Waiting(columns, k, n)
    ensures r < n && columns[r] >= k && Waiting(columns, k, r) == m
  {
    if m < Waiting(columns, k, n - 1) {
      r := WaitingRow(columns, k, n - 1, m);
    } else {
      r := n - 1;
    }
  }

  /** A waiting worker is among the first `cap` dummies exactly if fewer than that wait before it. */
  lemma LeftoverIds(pool: seq<Worker>, k: nat, columns: seq<int>, dummies: seq<Worker>, cap: int, r: nat)
    requires |pool| == |columns| && Dummies(pool, k, columns, dummies, |pool|) && DistinctIds(pool)
    requires r < |pool| && columns[r] >= k
    ensures (exists m :: 0 <= m < |dummies| && m < cap && dummies[m].id == pool[r].id) <==> Waiting(columns, k, r) < cap
  {
    if m :| 0 <= m < |dummies| && m < cap && dummies[m].id == pool[r].id {
      var q := WaitingRow(columns, k, |pool|, m);
      assert q == r;
    }
  }

  /** The ids in the forced plan are those of the workers with a forced task. */
  lemma ForcedIds(ws: seq<Worker>, s: Snapshot)
    requires DistinctIds(ws)
    ensures forall w | w in ws :: w.id in (set a | a in ForcedPlan(ws, s) :: a.unitId) <==> ForcedTask(w, s).Some?
  {
    hide ForcedTask, ForcedPlan;
    ForcedMembers(ws, s);
    forall w | w in ws
      ensures w.id in (set a | a in ForcedPlan(ws, s) :: a.unitId) <==> ForcedTask(w, s).Some?
    {
      if ForcedTask(w, s).Some? {
        assert Assignment(w.id, ForcedTask(w, s).value) in ForcedPlan(ws, s);
      }
    }
  }

  /** One planning step: the plan in unit order, and the claims for the next tick. */
  method AssignWorkerTasks(i: Inputs)
    returns (plan: seq<Assignment>, next: map<string, Claim>, keys: seq<string>, columns: seq<int>)
    requires DistinctIds(i.snapshot.workers)
    ensures AvailableCells(i, keys) && Settled(i, MatrixPool(i, keys), keys, columns)
    ensures plan == Ordering.Sort(Decisions(i, keys, columns), ByUnit())
    ensures next == NextClaims(Decisions(i, keys, columns), i.snapshot.workers, i.snapshot.tick, i.claims)
  {
    var decided, claimed, unassigned := CollectForced(i);
    ForcedIds(i.snapshot.workers, i.snapshot);
    var pruned := PruneClaims(i, set a | a in decided :: a.unitId);
    var available := CollectCells(i, claimed);
    keys := available;
    var pool := Ordering.Sort(unassigned, ById());
    PoolDistinct(i);
    var n := SurveyCount(i, pool, available);
    var surveys, rest := SetSurveyorsAside(i, pool, n);
    decided := decided + surveys;
    var matrix, chosen := DecideMatrix(i, rest, available, pruned);
    columns := chosen;
    decided := decided + matrix;
    next := UpdateClaims(decided, i.snapshot.workers, i.snapshot.tick, i.claims);
    plan := Ordering.Sort(decided, ByUnit());
  }

  // ----- what one step guarantees ------------------------------------------------------------

  lemma {:induction false} UnforcedMembers(ws: seq<Worker>, s: Snapshot)
    ensures forall w :: w in Unforced(ws, s) <==> w in ws && ForcedTask(w, s).None?
    ensures DistinctIds(ws) ==> DistinctIds(Unforced(ws, s))
  {
    if ws != [] {
      UnforcedMembers(ws[..|ws| - 1], s);
      var rest := Unforced(ws[..|ws| - 1], s);
      forall k | 0 <= k < |rest|
        ensures DistinctIds(ws) ==> rest[k].id != ws[|ws| - 1].id
      {
        assert rest[k] in ws[..|ws| - 1];
      }
    }
  }

  function UnitIds(plan: seq<Assignment>): (ids: seq<string>)
    ensures |ids| == |plan| && forall k | 0 <= k < |plan| :: ids[k] == plan[k].unitId
  {
    seq(|plan|, k requires 0 <= k < |plan| => plan[k].unitId)
  }

  lemma SortKeepsIds(ws: seq<Worker>)
    ensures multiset(Ids(Ordering.Sort(ws, ById()))) == multiset(Ids(ws))
  {
    Ordering.ImageRearranged(Ordering.Sort(ws, ById()), ws, WorkerId);
  }

  lemma PoolDistinct(i: Inputs)
    requires DistinctIds(i.snapshot.workers)
    ensures DistinctIds(Pool(i))
    ensures forall w :: w in Pool(i) <==> w in i.snapshot.workers && ForcedTask(w, i.snapshot).None?
  {
    var u := Unforced(i.snapshot.workers, i.snapshot);
    UnforcedMembers(i.snapshot.workers, i.snapshot);
    SortKeepsIds(u);
    Ordering.Repeats(Ids(u), Ids(Pool(i)));
    Ordering.SameMembers(u, Pool(i));
    forall a, b | 0 <= a < b < |Pool(i)|
      ensures Pool(i)[a].id != Pool(i)[b].id
    {
      assert Ids(Pool(i))[a] != Ids(Pool(i))[b];
    }
  }

  lemma {:induction false} ForcedKinds(ws: seq<Worker>, s: Snapshot)
    ensures forall a | a in ForcedPlan(ws, s) :: a.task.kind != GoResource
  {
    if ws != [] {
      ForcedKinds(ws[..|ws| - 1], s);
    }
  }

  lemma OneMoreWorker(ws: seq<Worker>, w: Worker)
    ensures multiset(Ids(ws + [w])) == multiset(Ids(ws)) + multiset{w.id}
  {
    assert Ids(ws + [w]) == Ids(ws) + [w.id];
  }

  lemma OneMoreOrder(plan: seq<Assignment>, a: Assignment)
    ensures multiset(UnitIds(plan + [a])) == multiset(UnitIds(plan)) + multiset{a.unitId}
  {
    assert UnitIds(plan + [a]) == UnitIds(plan) + [a.unitId];
  }

  lemma {:induction false} ForcedSplit(ws: seq<Worker>, s: Snapshot)
    ensures multiset(UnitIds(ForcedPlan(ws, s))) + multiset(Ids(Unforced(ws, s))) == multiset(Ids(ws))
  {
    hide Ids, UnitIds, ForcedTask;
    if ws == [] {
      assert |Ids(ws)| == 0 && |UnitIds(ForcedPlan(ws, s))| == 0 && |Ids(Unforced(ws, s))| == 0;
    } else {
      var front, w := ws[..|ws| - 1], ws[|ws| - 1];
      ForcedSplit(front, s);
      assert ws == front + [w];
      OneMoreWorker(front, w);
      if ForcedTask(w, s).Some? {
        OneMoreOrder(ForcedPlan(front, s), Assignment(w.id, ForcedTask(w, s).value));
      } else {
        OneMoreWorker(Unforced(front, s), w);
      }
    }
  }

  lemma UnitIdsAppend(a: seq<Assignment>, b: seq<Assignment>)
    ensures UnitIds(a + b) == UnitIds(a) + UnitIds(b)
  {
  }

  /** Surveyors and matrix rows together are the pool. */
  lemma PoolDecided(i: Inputs, keys: seq<string>, columns: seq<int>)
    requires Fits(i, MatrixPool(i, keys), keys, columns)
    ensures var n := SurveyCount(i, Pool(i), keys);
      UnitIds(SurveyPlan(i, Pool(i)[..n]) + MatrixPlan(i, MatrixPool(i, keys), keys, columns)) == Ids(Pool(i))
  {
  }

  /** Every worker receives exactly one assignment. */
  lemma EveryWorkerOnce(i: Inputs, keys: seq<string>, columns: seq<int>)
    requires Fits(i, MatrixPool(i, keys), keys, columns)
    ensures multiset(UnitIds(Decisions(i, keys, columns))) == multiset(Ids(i.snapshot.workers))
  {
    hide Ordering.Sort, Unforced, ForcedPlan, Fits, SurveyPlan, MatrixPlan, SurveyCount, Ids, UnitIds;
    var f := ForcedPlan(i.snapshot.workers, i.snapshot);
    var s := SurveyPlan(i, Pool(i)[..SurveyCount(i, Pool(i), keys)]);
    var m := MatrixPlan(i, MatrixPool(i, keys), keys, columns);
    PoolDecided(i, keys, columns);
    UnitIdsAppend(f, s + m);
    assert Decisions(i, keys, columns) == f + (s + m);
    ForcedSplit(i.snapshot.workers, i.snapshot);
    SortKeepsIds(Unforced(i.snapshot.workers, i.snapshot));
  }

  /** The harvest orders of a step are the matrix rows that got a real column. */
  lemma HarvestOrders(i: Inputs, keys: seq<string>, columns: seq<int>, a: Assignment) returns (r: nat)
    requires AvailableCells(i, keys) && Settled(i, MatrixPool(i, keys), keys, columns)
    requires a in Decisions(i, keys, columns) && a.task.kind == GoResource
    ensures r < |columns| && columns[r] < |keys| && a.unitId == MatrixPool(i, keys)[r].id
    ensures a.task.key == Some(keys[columns[r]])
    ensures a.task.target == Some(i.snapshot.cells[keys[columns[r]]].position)
  {
    hide Ordering.Sort, Ordering.Sorted, Unforced, ForcedPlan, SurveyCount, OnAGrid, StandingTable, CostMatrix;
    ForcedKinds(i.snapshot.workers, i.snapshot);
    var m := MatrixPlan(i, MatrixPool(i, keys), keys, columns);
    assert a in m;
    r :| 0 <= r < |m| && m[r] == a;
  }

  lemma RowIsHarvest(i: Inputs, keys: seq<string>, columns: seq<int>, r: nat)
    requires AvailableCells(i, keys) && Settled(i, MatrixPool(i, keys), keys, columns)
    requires r < |columns| && columns[r] < |keys|
    ensures exists a :: a in Decisions(i, keys, columns) && a.task.kind == GoResource
                        && a.unitId == MatrixPool(i, keys)[r].id && a.task.key == Some(keys[columns[r]])
  {
    var m := MatrixPlan(i, MatrixPool(i, keys), keys, columns);
    assert m[r] in m;
    assert m[r] in Decisions(i, keys, columns);
  }

  /** No two workers are sent to one cell, and no worker to a cell that is claimed by a forced
      task, blocked, unknown, or out of sight below a worker. */
  lemma HarvestCellsDistinct(i: Inputs, keys: seq<string>, columns: seq<int>, a: Assignment, b: Assignment)
    requires AvailableCells(i, keys) && Settled(i, MatrixPool(i, keys), keys, columns)
    requires a in Decisions(i, keys, columns) && b in Decisions(i, keys, columns)
    requires a.task.kind == GoResource && b.task.kind == GoResource
    ensures a.task.key.Some? && IsAvailable(i, a.task.key.value)
    ensures a.task.key == b.task.key ==> a == b
  {
    var r := HarvestOrders(i, keys, columns, a);
    var s := HarvestOrders(i, keys, columns, b);
    if a.task.key == b.task.key {
      assert columns[r] == columns[s];
      assert r == s;
    }
  }

  predicate PairForbidden(i: Inputs, pool: seq<Worker>, w: Worker, key: string) {
    Forbidden(StandingOf(i, pool, w, key), i.config.preemptPenalty)
  }

  /** What forbids a known cell to a worker: an enemy on it, being out of sight more than 40 steps
      away, a claim of another worker that may not be preempted, or else being worth too little,
      predicted empty, or too far. */
  lemma PairForbiddenExactly(i: Inputs, pool: seq<Worker>, w: Worker, key: string)
    requires key in i.snapshot.cells
    ensures var cell := i.snapshot.cells[key];
      var distance := Manhattan(w.position, cell.position);
      var held := Holds(i, key) && i.claims[key].unitId != w.id && i.claims[key].unitId in Ids(pool);
      PairForbidden(i, pool, w, key) <==>
        || key in i.snapshot.enemyCells
        || (!cell.visible && distance > 40)
        || (held && i.config.preemptPenalty <= 0.0)
        || (!held && i.config.maxDistance.Some? && distance as real > i.config.maxDistance.value)
        || (!held && !cell.visible && i.config.valueFloor.Some? && i.score(w.id, key) < i.config.valueFloor.value)
        || (!held && !cell.visible && Format(cell.position) in i.refill
              && i.refill[Format(cell.position)] + i.config.deadMineOverdue < 0)
  {
    hide Holds, Format, Manhattan, Ids;
  }

  /** How many of the pool are reserved for surveying: only in a survey burst, as many as wanted, but
      not the last worker when there is something to harvest. */
  lemma SurveyCountExactly(i: Inputs, pool: seq<Worker>, keys: seq<string>)
    ensures var n, floor, cap := SurveyCount(i, pool, keys), i.config.surveyFloor, i.config.surveyCap;
      && (n > 0 ==> i.surveyBurst && pool != [])
      && (i.surveyBurst ==> n <= |pool| && (n <= floor || n <= cap || n == 0))
      && (i.surveyBurst && keys != [] && pool != [] ==> n < |pool|)
      && (i.surveyBurst && n < floor ==> n == |pool| || (keys != [] && n + 1 >= |pool|))
      && (i.surveyBurst && n < cap ==> n == |pool| || (keys != [] && n + 1 >= |pool|))
  {
  }

  /** The orders that are not forced: a harvest names an available cell and its place, exploring
      carries the worker's exploration target if it has one, waiting carries nothing. */
  lemma OpenOrders(i: Inputs, keys: seq<string>, columns: seq<int>, a: Assignment)
    requires AvailableCells(i, keys) && Settled(i, MatrixPool(i, keys), keys, columns)
    requires a in Decisions(i, keys, columns)
    ensures a.task.kind == GoResource ==>
              && a.task.key.Some? && a.task.key.value in i.snapshot.cells
              && a.task.target == Some(i.snapshot.cells[a.task.key.value].position)
              && a.task.key.value !in i.blocked
              && (!i.snapshot.cells[a.task.key.value].visible ==>
                    forall w | w in i.snapshot.workers :: Format(w.position) != a.task.key.value)
    ensures a.task.kind == Explore ==>
              && a.task.key.None? && (a.task.target.Some? <==> a.unitId in i.exploration)
              && (a.unitId in i.exploration ==> a.task.target == Some(i.exploration[a.unitId]))
    ensures a.task.kind == Wait ==> a.task.key.None? && a.task.target.None?
  {
    hide Format, Pool, SurveyCount, OnAGrid, StandingTable, CostMatrix;
    if a.task.kind == GoResource {
      HarvestCellsDistinct(i, keys, columns, a, a);
      var r := HarvestOrders(i, keys, columns, a);
    } else {
      OpenKinds(i, i.snapshot.workers, i.snapshot, a);
    }
  }

  lemma {:induction false} OpenKinds(i: Inputs, ws: seq<Worker>, s: Snapshot, a: Assignment)
    ensures a in ForcedPlan(ws, s) ==> a.task.kind != Explore && a.task.kind != Wait
  {
    hide Format;
    if ws != [] {
      OpenKinds(i, ws[..|ws| - 1], s, a);
    }
  }

  /** No worker is ever sent to a cell that is forbidden to it. */
  lemma NeverSentToForbidden(i: Inputs, keys: seq<string>, columns: seq<int>, a: Assignment)
    requires AvailableCells(i, keys) && Settled(i, MatrixPool(i, keys), keys, columns)
    requires OnAGrid(i, MatrixPool(i, keys), keys)
    requires a in Decisions(i, keys, columns) && a.task.kind == GoResource
    ensures a.task.key.Some?
    ensures exists w :: w in MatrixPool(i, keys) && w.id == a.unitId
                        && !PairForbidden(i, MatrixPool(i, keys), w, a.task.key.value)
  {
    var pool := MatrixPool(i, keys);
    var r := HarvestOrders(i, keys, columns, a);
    var t := StandingTable(i, pool, keys);
    CostMatrixShape(t, i.config.preemptPenalty, |pool|, |keys|);
    NeverForbidden(t, i.config.preemptPenalty, |pool|, |keys|, columns, r);
    assert pool[r] in pool;
  }

  /** A worker left without a cell finds every cell nobody is sent to forbidden. */
  lemma NoNeedlessWaiting(i: Inputs, keys: seq<string>, columns: seq<int>, w: Worker, key: string)
    requires AvailableCells(i, keys) && Settled(i, MatrixPool(i, keys), keys, columns)
    requires OnAGrid(i, MatrixPool(i, keys), keys) && i.config.preemptPenalty < SENTINEL_GAP
    requires w in MatrixPool(i, keys) && key in keys
    requires forall a | a in Decisions(i, keys, columns) && a.task.kind == GoResource ::
               a.unitId != w.id && a.task.key != Some(key)
    ensures PairForbidden(i, MatrixPool(i, keys), w, key)
  {
    var pool := MatrixPool(i, keys);
    var r :| 0 <= r < |pool| && pool[r] == w;
    var j :| 0 <= j < |keys| && keys[j] == key;
    if columns[r] < |keys| {
      RowIsHarvest(i, keys, columns, r);
      assert false;
    }
    if j in columns {
      var s :| 0 <= s < |columns| && columns[s] == j;
      RowIsHarvest(i, keys, columns, s);
      assert false;
    }
    var t := StandingTable(i, pool, keys);
    CostMatrixShape(t, i.config.preemptPenalty, |pool|, |keys|);
    NoNeedlessWait(t, i.config.preemptPenalty, |pool|, |keys|, columns, r, j);
  }

  /** With the default penalty of zero a reserved cell goes to its claimant or to nobody. */
  lemma ReservationExcludes(i: Inputs, keys: seq<string>, columns: seq<int>, a: Assignment)
    requires DistinctIds(i.snapshot.workers)
    requires AvailableCells(i, keys) && Settled(i, MatrixPool(i, keys), keys, columns)
    requires OnAGrid(i, MatrixPool(i, keys), keys) && i.config.preemptPenalty == 0.0
    requires a in Decisions(i, keys, columns) && Claims(a)
    requires Holds(i, a.task.key.value) && i.claims[a.task.key.value].unitId in Ids(MatrixPool(i, keys))
    ensures a.unitId == i.claims[a.task.key.value].unitId
  {
    NeverSentToForbidden(i, keys, columns, a);
  }

  // ----- claims ---------------------------------------------------------------------------

  lemma {:induction false} NextClaimsKeys(plan: seq<Assignment>, ws: seq<Worker>, tick: nat, previous: map<string, Claim>)
    requires forall a | a in plan && Claims(a) :: FindWorker(ws, a.unitId).Some?
    requires forall a, b | 0 <= a < b < |plan| && Claims(plan[a]) && Claims(plan[b]) ::
               plan[a].task.key != plan[b].task.key
    ensures var next := NextClaims(plan, ws, tick, previous);
      && (forall a | a in plan && Claims(a) ::
            && a.task.key.value in next
            && next[a.task.key.value] == Renewal(a, FindWorker(ws, a.unitId).value, tick, previous))
      && (forall key | key in next :: exists a :: a in plan && Claims(a) && a.task.key.value == key)
  {
    if plan != [] {
      var front, last := plan[..|plan| - 1], plan[|plan| - 1];
      NextClaimsKeys(front, ws, tick, previous);
      assert plan == front + [last];
      forall key | key in NextClaims(plan, ws, tick, previous)
        ensures exists a :: a in plan && Claims(a) && a.task.key.value == key
      {
        if Claims(last) && last.task.key.value == key {
          assert last in plan;
        } else {
          assert key in NextClaims(front, ws, tick, previous);
          var a :| a in front && Claims(a) && a.task.key.value == key;
          assert a in plan;
        }
      }
    }
  }

  lemma KeysDiffer(i: Inputs, keys: seq<string>, columns: seq<int>, k: nat, l: nat)
    requires DistinctIds(i.snapshot.workers)
    requires AvailableCells(i, keys) && Settled(i, MatrixPool(i, keys), keys, columns)
    requires var plan := Decisions(i, keys, columns); k < l < |plan| && Claims(plan[k]) && Claims(plan[l])
    ensures var plan := Decisions(i, keys, columns); plan[k].task.key != plan[l].task.key
  {
    var plan := Decisions(i, keys, columns);
    HarvestCellsDistinct(i, keys, columns, plan[k], plan[l]);
    EveryWorkerOnce(i, keys, columns);
    Ordering.Repeats(UnitIds(plan), Ids(i.snapshot.workers));
    assert UnitIds(plan)[k] != UnitIds(plan)[l];
  }

  /** The claims of a step are exactly the renewals of its harvest orders. */
  lemma StepClaims(i: Inputs, keys: seq<string>, columns: seq<int>)
    requires DistinctIds(i.snapshot.workers)
    requires AvailableCells(i, keys) && Settled(i, MatrixPool(i, keys), keys, columns)
    ensures var plan := Decisions(i, keys, columns);
      var next := NextClaims(plan, i.snapshot.workers, i.snapshot.tick, i.claims);
      && (forall a | a in plan && a.task.kind == GoResource ::
            && Claims(a) && FindWorker(i.snapshot.workers, a.unitId).Some? && a.task.key.value in next
            && next[a.task.key.value]
               == Renewal(a, FindWorker(i.snapshot.workers, a.unitId).value, i.snapshot.tick, i.claims))
      && (forall key | key in next :: exists a :: a in plan && Claims(a) && a.task.key.value == key)
  {
    var plan := Decisions(i, keys, columns);
    forall a | a in plan && a.task.kind == GoResource
      ensures Claims(a) && FindWorker(i.snapshot.workers, a.unitId).Some?
    {
      var r := HarvestOrders(i, keys, columns, a);
      PoolDistinct(i);
      assert MatrixPool(i, keys)[r] in Pool(i);
    }
    forall k, l | 0 <= k < l < |plan| && Claims(plan[k]) && Claims(plan[l])
      ensures plan[k].task.key != plan[l].task.key
    {
      KeysDiffer(i, keys, columns, k, l);
    }
    NextClaimsKeys(plan, i.snapshot.workers, i.snapshot.tick, i.claims);
  }

  /** The claims of a step are in one-to-one correspondence with its harvest orders. */
  lemma ClaimsMatchHarvests(i: Inputs, keys: seq<string>, columns: seq<int>)
    requires DistinctIds(i.snapshot.workers)
    requires AvailableCells(i, keys) && Settled(i, MatrixPool(i, keys), keys, columns)
    ensures var plan := Decisions(i, keys, columns);
      var next := NextClaims(plan, i.snapshot.workers, i.snapshot.tick, i.claims);
      && (forall a | a in plan && a.task.kind == GoResource ::
            a.task.key.Some? && a.task.key.value in next && next[a.task.key.value].unitId == a.unitId)
      && (forall key | key in next ::
            next[key].key == key && exists a :: a in plan && a.task.kind == GoResource && a.task.key == Some(key))
  {
    hide Decisions, NextClaims, AvailableCells, Settled, DistinctIds, FindWorker;
    StepClaims(i, keys, columns);
  }

  /** A claim carried on keeps the least distance its worker was ever seen at, and its progress
      tick moves exactly when that distance drops; a new claim starts with both fresh. */
  lemma ClaimProgress(i: Inputs, keys: seq<string>, columns: seq<int>, key: string)
    requires DistinctIds(i.snapshot.workers)
    requires AvailableCells(i, keys) && Settled(i, MatrixPool(i, keys), keys, columns)
    requires key in NextClaims(Decisions(i, keys, columns), i.snapshot.workers, i.snapshot.tick, i.claims)
    ensures key in i.snapshot.cells
    ensures var claim := NextClaims(Decisions(i, keys, columns), i.snapshot.workers, i.snapshot.tick, i.claims)[key];
      var w := FindWorker(i.snapshot.workers, claim.unitId);
      && w.Some? && claim.key == key && claim.lastPosition == w.value.position
      && var distance := Manhattan(w.value.position, i.snapshot.cells[key].position);
         if key in i.claims && i.claims[key].unitId == claim.unitId then
           var old_ := i.claims[key];
           && claim.claimTick == old_.claimTick
           && claim.progressDistance == (if distance < old_.progressDistance then distance else old_.progressDistance)
           && claim.lastProgressTick
              == (if claim.progressDistance < old_.progressDistance then i.snapshot.tick else old_.lastProgressTick)
         else claim.claimTick == claim.lastProgressTick == i.snapshot.tick && claim.progressDistance == distance
  {
    hide NextClaims, DistinctIds, FindWorker, Manhattan, Decisions, MatrixPool;
    StepClaims(i, keys, columns);
    var plan := Decisions(i, keys, columns);
    var a :| a in plan && Claims(a) && a.task.key.value == key;
    var r := HarvestOrders(i, keys, columns, a);
  }

  // ----- which worker gets which forced order --------------------------------------------------

  /** On an uncarried beacon, with free hands. */
  predicate PicksUp(w: Worker, s: Snapshot) {
    w.cargo == 0 && s.groundBeacon.Some? && s.groundBeacon.value == w.position
  }

  /** On a visible resource, with free hands and no beacon to pick up. */
  predicate HarvestsHere(w: Worker, s: Snapshot) {
    var here := Format(w.position);
    w.cargo == 0 && !PicksUp(w, s) && here in s.cells && s.cells[here].visible
  }

  predicate Delivers(w: Worker, s: Snapshot) {
    w.cargo != 0 && s.core.Some?
  }

  /** With nothing better to do, nearly dead, and a core elsewhere. */
  predicate RetreatsToHeal(w: Worker, s: Snapshot) {
    !PicksUp(w, s) && !Delivers(w, s) && !HarvestsHere(w, s) && w.health < 2 && s.core.Some? && s.core.value != w.position
  }

  lemma ManhattanZero(a: Cell, b: Cell)
    ensures Manhattan(a, b) == 0 <==> a == b
  {
  }

  lemma UnforcedOrder(i: Inputs, keys: seq<string>, columns: seq<int>, w: Worker, a: Assignment)
    requires DistinctIds(i.snapshot.workers) && Fits(i, MatrixPool(i, keys), keys, columns)
    requires w in i.snapshot.workers && a in Decisions(i, keys, columns) && a.unitId == w.id
    requires ForcedTask(w, i.snapshot).None?
    ensures a.task.kind == GoResource || a.task.kind == Explore || a.task.kind == Wait
  {
    hide Ordering.Sort, Unforced, SurveyCount, Format, ForcedTask, ForcedPlan;
    ForcedMembers(i.snapshot.workers, i.snapshot);
    assert a !in ForcedPlan(i.snapshot.workers, i.snapshot);
  }

  lemma ForcedOrder(i: Inputs, keys: seq<string>, columns: seq<int>, w: Worker, a: Assignment)
    requires DistinctIds(i.snapshot.workers) && Fits(i, MatrixPool(i, keys), keys, columns)
    requires w in i.snapshot.workers && a in Decisions(i, keys, columns) && a.unitId == w.id
    requires ForcedTask(w, i.snapshot).Some?
    ensures a.task == ForcedTask(w, i.snapshot).value
  {
    hide Ordering.Sort, Unforced, SurveyCount, Format, ForcedTask, ForcedPlan;
    ForcedMembers(i.snapshot.workers, i.snapshot);
    OneOrderEach(i, keys, columns, a, Assignment(w.id, ForcedTask(w, i.snapshot).value));
  }

  /** Who picks up the beacon, harvests on the spot, delivers or retreats, and with which order. */
  lemma ForcedOrdersExactly(i: Inputs, keys: seq<string>, columns: seq<int>, w: Worker, a: Assignment)
    requires DistinctIds(i.snapshot.workers) && Fits(i, MatrixPool(i, keys), keys, columns)
    requires w in i.snapshot.workers && a in Decisions(i, keys, columns) && a.unitId == w.id
    ensures var s, task := i.snapshot, a.task;
      && (task.kind == PickupBeacon <==> PicksUp(w, s)) && (task.kind == HarvestCurrent <==> HarvestsHere(w, s))
      && (task.kind == Deposit <==> Delivers(w, s)) && (task.kind == ReturnForHeal <==> RetreatsToHeal(w, s))
      && (task.kind == PickupBeacon || task.kind == HarvestCurrent ==>
            task.target == Some(w.position) && task.key == Some(Format(w.position)))
      && (task.kind == Deposit || task.kind == ReturnForHeal ==> task.target == s.core && task.key.None?)
  {
    hide Decisions, Format, DistinctIds, Fits, Manhattan;
    if i.snapshot.core.Some? {
      ManhattanZero(w.position, i.snapshot.core.value);
    }
    if ForcedTask(w, i.snapshot).Some? {
      ForcedOrder(i, keys, columns, w, a);
    } else {
      UnforcedOrder(i, keys, columns, w, a);
    }
  }

  // ----- two promises the code does not keep -------------------------------------------------

  /** What the program itself calls a worker that can deposit. */
  predicate CanDeposit(w: Worker, s: Snapshot) {
    w.cargo > 0 && s.core.Some? && s.resourceSpace > 0
  }

  /** Every deposit ordered is one that can be carried out. */
  ghost predicate DepositsFit(i: Inputs, plan: seq<Assignment>) {
    forall a, w | a in plan && a.task.kind == Deposit && w in i.snapshot.workers && w.id == a.unitId ::
      CanDeposit(w, i.snapshot)
  }

  lemma {:induction false} ForcedMembers(ws: seq<Worker>, s: Snapshot)
    ensures forall w | w in ws && ForcedTask(w, s).Some? :: Assignment(w.id, ForcedTask(w, s).value) in ForcedPlan(ws, s)
    ensures forall a | a in ForcedPlan(ws, s) ::
              exists w :: w in ws && w.id == a.unitId && ForcedTask(w, s) == Some(a.task)
  {
    hide ForcedTask;
    if ws != [] {
      ForcedMembers(ws[..|ws| - 1], s);
      assert ws == ws[..|ws| - 1] + [ws[|ws| - 1]];
    }
  }

  /** All deposits fit exactly if there is room, or no core, or nothing to deposit. */
  lemma DepositsFitExactly(i: Inputs, keys: seq<string>, columns: seq<int>)
    requires DistinctIds(i.snapshot.workers)
    requires Fits(i, MatrixPool(i, keys), keys, columns)
    ensures DepositsFit(i, Decisions(i, keys, columns))
        <==> i.snapshot.resourceSpace > 0 || i.snapshot.core.None? || forall w | w in i.snapshot.workers :: w.cargo == 0
  {
    hide Ordering.Sort, Unforced, SurveyCount, Format;
    var ws, s := i.snapshot.workers, i.snapshot;
    var forced := ForcedPlan(ws, s);
    ForcedMembers(ws, s);
    forall a | a in Decisions(i, keys, columns) && a.task.kind == Deposit
      ensures a in forced
    {
    }
    forall a, w | a in forced && a.task.kind == Deposit && w in ws && w.id == a.unitId
      ensures w.cargo > 0 && s.core.Some?
    {
      var x :| x in ws && x.id == a.unitId && ForcedTask(x, s) == Some(a.task);
      assert x == w;
    }
    forall w | w in ws && w.cargo > 0 && s.core.Some?
      ensures Assignment(w.id, Task(Deposit, s.core, None)) in Decisions(i, keys, columns)
    {
      assert ForcedTask(w, s) == Some(Task(Deposit, s.core, None));
    }
  }

  /** Without cells the pool explores up to the number of surveyors wanted; the rest waits. */
  lemma WithoutCells(i: Inputs, columns: seq<int>, k: nat)
    requires Fits(i, MatrixPool(i, []), [], columns) && k < |Pool(i)|
    ensures var plan := SurveyPlan(i, Pool(i)[..SurveyCount(i, Pool(i), [])]) + MatrixPlan(i, MatrixPool(i, []), [], columns);
      && |plan| == |Pool(i)|
      && plan[k]
         == Assignment(Pool(i)[k].id, if k < Required(i) then ExploreTask(i, Pool(i)[k].id) else Task(Wait, None, None))
  {
    hide Pool;
    var n := SurveyCount(i, Pool(i), []);
    if k >= n {
      RowWithoutCells(i, Pool(i)[n..], columns, k - n);
    }
  }

  lemma RowWithoutCells(i: Inputs, pool: seq<Worker>, columns: seq<int>, r: nat)
    requires Fits(i, pool, [], columns) && r < |pool|
    ensures MatrixPlan(i, pool, [], columns)[r]
         == Assignment(pool[r].id, if !i.surveyBurst && r < Required(i) then ExploreTask(i, pool[r].id)
                                   else Task(Wait, None, None))
  {
    AllWaiting(columns, r);
  }

  lemma {:induction false} AllWaiting(columns: seq<int>, r: nat)
    requires r <= |columns| && forall k | 0 <= k < |columns| :: 0 <= columns[k]
    ensures Waiting(columns, 0, r) == r
  {
    if r > 0 {
      AllWaiting(columns, r - 1);
    }
  }

  /** Every worker without a forced task is sent exploring. */
  ghost predicate PoolExplores(i: Inputs, plan: seq<Assignment>) {
    forall w | w in Pool(i) :: exists a :: a in plan && a.unitId == w.id && a.task.kind == Explore
  }

  lemma OneOrderEach(i: Inputs, keys: seq<string>, columns: seq<int>, a: Assignment, b: Assignment)
    requires DistinctIds(i.snapshot.workers) && Fits(i, MatrixPool(i, keys), keys, columns)
    requires a in Decisions(i, keys, columns) && b in Decisions(i, keys, columns) && a.unitId == b.unitId
    ensures a == b
  {
    hide Decisions, MatrixPool, Fits;
    var plan := Decisions(i, keys, columns);
    EveryWorkerOnce(i, keys, columns);
    Ordering.Repeats(UnitIds(plan), Ids(i.snapshot.workers));
    var k :| 0 <= k < |plan| && plan[k] == a;
    var l :| 0 <= l < |plan| && plan[l] == b;
    assert UnitIds(plan)[k] == UnitIds(plan)[l];
  }

  /** Without cells every idle worker explores exactly if no more of them are idle than surveyors
      are wanted. */
  lemma PoolExploresExactly(i: Inputs, columns: seq<int>)
    requires DistinctIds(i.snapshot.workers) && Fits(i, MatrixPool(i, []), [], columns)
    ensures PoolExplores(i, Decisions(i, [], columns)) <==> Pool(i) == [] || |Pool(i)| <= Required(i)
  {
    hide Decisions, Pool, MatrixPool, Required, SurveyCount, DistinctIds, Fits;
    var plan := Decisions(i, [], columns);
    forall k | 0 <= k < |Pool(i)|
      ensures Assignment(Pool(i)[k].id, if k < Required(i) then ExploreTask(i, Pool(i)[k].id) else Task(Wait, None, None))
              in plan
    {
      PoolOrder(i, columns, k);
    }
    if Pool(i) != [] && |Pool(i)| > Required(i) {
      var last := Pool(i)[|Pool(i)| - 1];
      assert last in Pool(i);
      forall a | a in plan && a.unitId == last.id
        ensures a.task.kind != Explore
      {
        OneOrderEach(i, [], columns, a, Assignment(last.id, Task(Wait, None, None)));
      }
    } else {
      forall w | w in Pool(i)
        ensures exists a :: a in plan && a.unitId == w.id && a.task.kind == Explore
      {
        assert Assignment(w.id, ExploreTask(i, w.id)) in plan;
      }
    }
  }

  lemma PoolOrder(i: Inputs, columns: seq<int>, k: nat)
    requires Fits(i, MatrixPool(i, []), [], columns) && k < |Pool(i)|
    ensures Assignment(Pool(i)[k].id, if k < Required(i) then ExploreTask(i, Pool(i)[k].id) else Task(Wait, None, None))
            in Decisions(i, [], columns)
  {
    hide Pool, SurveyPlan, MatrixPlan, SurveyCount, ExploreTask, Required, ForcedPlan;
    WithoutCells(i, columns, k);
    var tail := SurveyPlan(i, Pool(i)[..SurveyCount(i, Pool(i), [])]) + MatrixPlan(i, MatrixPool(i, []), [], columns);
    assert tail[k] in tail;
    assert Decisions(i, [], columns) == ForcedPlan(i.snapshot.workers, i.snapshot) + tail;
  }

  /** One worker, no known cell, the default configuration. */
  function LoneWorker(cargo: nat): Inputs {
    var worker := Worker("w", Cell(0, 0), 3, cargo);
    Inputs(Snapshot(1, [worker], map[], {}, Some(Cell(5, 0)), None, 0), [], Config(10, 0.0, None, None, 0, 0, 0), false,
           map[], {}, map[], map[], (id, key) => 0.0)
  }

  lemma NoKeys(i: Inputs, keys: seq<string>)
    requires i.snapshot.cells == map[] && AvailableCells(i, keys)
    ensures keys == []
  {
    assert keys != [] ==> IsAvailable(i, keys[0]);
  }

  /** A step for one worker, at a place where no cell is known and nobody is wanted for surveying. */
  lemma Alone(i: Inputs, keys: seq<string>, columns: seq<int>)
    requires |i.snapshot.workers| == 1 && i.snapshot.cells == map[] && Required(i) <= 0
    requires AvailableCells(i, keys) && Fits(i, MatrixPool(i, keys), keys, columns)
    ensures var w := i.snapshot.workers[0];
      Decisions(i, keys, columns)
        == [Assignment(w.id, if ForcedTask(w, i.snapshot).Some? then ForcedTask(w, i.snapshot).value
                             else Task(Wait, None, None))]
  {
    hide ForcedTask;
    var ws, s := i.snapshot.workers, i.snapshot;
    NoKeys(i, keys);
    assert Unforced(ws[..0], s) == [] && ForcedPlan(ws[..0], s) == [];
    if ForcedTask(ws[0], s).Some? {
      assert Pool(i) == [];
    } else {
      assert Pool(i) == [ws[0]];
      WithoutCells(i, columns, 0);
    }
  }

  lemma LoneDecision(cargo: nat, keys: seq<string>, columns: seq<int>)
    requires AvailableCells(LoneWorker(cargo), keys)
    requires Fits(LoneWorker(cargo), MatrixPool(LoneWorker(cargo), keys), keys, columns)
    ensures Decisions(LoneWorker(cargo), keys, columns)
         == [Assignment("w", if cargo == 0 then Task(Wait, None, None) else Task(Deposit, Some(Cell(5, 0)), None))]
  {
    hide AvailableCells, Fits, Decisions, MatrixPool;
    Alone(LoneWorker(cargo), keys, columns);
  }

  lemma SettledFits(i: Inputs, keys: seq<string>, columns: seq<int>)
    requires AvailableCells(i, keys) && Settled(i, MatrixPool(i, keys), keys, columns)
    ensures Fits(i, MatrixPool(i, keys), keys, columns)
  {
  }

  lemma LoneFacts(cargo: nat)
    ensures var s := LoneWorker(cargo).snapshot; DistinctIds(s.workers) && s.cells == map[] && s.resourceSpace == 0
    ensures forall a: Assignment :: Ordering.Sort([a], ByUnit()) == [a]
  {
  }

  /** With the default configuration a worker that knows of no cell waits, and a loaded one is sent
      to deposit into a core without room. */
  method LoneWorkerPlan(cargo: nat) returns (plan: seq<Assignment>)
    ensures LoneWorker(cargo).snapshot.cells == map[] && LoneWorker(cargo).snapshot.resourceSpace == 0
    ensures plan
         == [Assignment("w", if cargo == 0 then Task(Wait, None, None) else Task(Deposit, Some(Cell(5, 0)), None))]
  {
    hide *;
    LoneFacts(cargo);
    var next, keys, columns;
    plan, next, keys, columns := AssignWorkerTasks(LoneWorker(cargo));
    SettledFits(LoneWorker(cargo), keys, columns);
    LoneDecision(cargo, keys, columns);
  }
}
