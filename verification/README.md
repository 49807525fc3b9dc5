# Arena Hero agent: a verified model of its deterministic core

The Arena Hero agent plays a grid game for several tenants at once. What it decides has to be
reproducible, so its core is deterministic code without I/O: an optimal assignment of workers to
resource cells, searches over a partly known grid, line of sight, the pricing of units, an alliance
task market, a canonical encoding behind every digest, and the small protocols that keep decisions
and director commands consistent across crashes and restarts. This project models that core in Dafny
and proves what it is relied on for.

How the modules fit together:

- `MinCostAssignment` is the potential/slack Hungarian solver on its own arrays. `WorkerMatrix` is the
  matrix with its WAIT and FORBIDDEN sentinels, `WorkerAssignment` the planner around both, and
  `ClaimLease` what its claims amount to over many ticks.
- `GridSearch` holds what a breadth-first search knows about routes. `Navigation` and `Routing` are
  the program's four breadth-first searches, `AStar` its best-first search, and `LineOfSight` the
  supercover walk with its closed form.
- `TenantState`, `DecisionJournal` and `DecisionArbiter` are the reducer, the journal with its
  recovery loop, and the arbiters themselves: a state machine in which every await of `acquire` and
  `commit` is a point where other arbiters run, leases expire or a process crashes. An arbiter never
  takes a lease from its holder; the other users of the writer lease, the command line
  (`src/arena_hero_agent/cli/main.py:899-912`) and the migration
  (`src/arena_hero_agent/migration/enactment.py:118-149`), may replace an expired holder.
- `CommandApplier` is the same kind of machine for director commands; `CommandDrain` is the applier
  as it is written, over a mutable ledger, proved to be a run of that machine.
- `TickLoop` is the tick loop over an adversarial stream, `TaskMarket` the alliance task market,
  `Pricing` the rounded exponential prices.
- `Canonical` with `JsonText` and `CellKeys` is the canonical encoding and the strict cell keys, with
  readers of JSON, base64 and canonical nodes that get every value back from its text; `Ordering` (sorting by a key) and `Options` are shared helpers.

Loops and in-place updates of the program are methods here, each tied to a specification whose
meaning is proved separately; expressions are functions. The two protocols whose point is
interleaving are state machines, because a sequential method would prove too little.

Where the code and its own comments disagree, the model follows the code:

- The slack comparisons tolerate 2^-52. Of two slacks closer than that the scan keeps the first,
  even if the second is less. The solver is optimal on every matrix of multiples of 1/q exactly if
  q < 2^52, which covers all integers and all fixed-point scales: `MinCostAssignment.MinimumCostAssignment`
  proves it below, and `MinCostAssignment.NearTie` fails it for every q from there on.
- The planner's comment promises that without resource cells every idle worker explores. The branch
  that would do so cannot be reached. Every idle worker explores exactly if no more are idle than
  `survey_cap`, or in a survey burst the greater of `survey_floor` and `survey_cap`
  (`WorkerAssignment.PoolExploresExactly`); with the default configuration a lone worker waits
  (`WorkerAssignment.LoneWorkerPlan`).
- The module comment on forced tasks promises a deposit only when the core has room; the code does
  not look at the room. Every deposit ordered can be carried out exactly if there is room, or no
  core, or no worker with cargo (`WorkerAssignment.DepositsFitExactly`); the same lone worker, loaded,
  is sent to a full core.
- A submit timeout is described as keeping the tick loop from hanging. It does not cover the
  submission of a fallback decision: with the timeout set the loop hangs exactly on a fresh turn
  that overran its budget and whose fallback is never answered (`TickLoop.StallsOnlyInFallback`,
  `TickLoop.HangsDespiteTimeout`).
- Recovery is not free of failures: it reads the journal and then loads the snapshot, and an arbiter
  overtaken in between reports a snapshot ahead of the journal although both are sound
  (`DecisionArbiter.OvertakenRecovery`). That is the only failure, and
  `DecisionArbiter.RecoveryFailsOnlyWhenOvertaken` says exactly when it occurs.
- A ticket always finds a restored snapshot in runs in which no lease is replaced
  (`DecisionArbiter.UndisturbedArbiter`). Where leases are replaced, it does while its own is held
  (`DecisionArbiter.AcquireRestoresSnapshot`), and need not afterwards (`DecisionArbiter.StaleTicket`).

## Model

| member | source | states |
|---|---|---|
| MinCostAssignment.MinimumCostAssignment | src/arena_hero_agent/planning/min_cost_assignment.py:32-102 | rejects exactly the non-rectangular or too narrow matrices, otherwise never reports an incomplete assignment, gives pairwise distinct columns, and, for costs on a grid coarser than 2^-52, no other injective choice of columns costs less |
| MinCostAssignment.AddRow | src/arena_hero_agent/planning/min_cost_assignment.py:59-93 | one round keeps all earlier rows matched, matches one more, and keeps the potentials feasible, tight on matched pairs and zero on free columns |
| MinCostAssignment.ScanColumns | src/arena_hero_agent/planning/min_cost_assignment.py:66-78 | exactly which open slacks and predecessors the scan renews, and which column it settles on; no open slack is lower by more than the tolerance |
| MinCostAssignment.FirstLeast | src/arena_hero_agent/planning/min_cost_assignment.py:66-78 | on a grid the scan settles on the lowest column index among those of least slack |
| MinCostAssignment.NearTie | src/arena_hero_agent/planning/min_cost_assignment.py:73-78 | for every q from 2^52 on the matrix 1/q, 0 has costs that are multiples of 1/q, and the solver answers its first column, which is not optimal |
| MinCostAssignment.OneRowExactly | src/arena_hero_agent/planning/min_cost_assignment.py:66-78 | on rows of multiples of 1/q the column settled on is always a least one exactly if q < 2^52 |
| MinCostAssignment.ShiftPotentials | src/arena_hero_agent/planning/min_cost_assignment.py:79-84 | the in-place shift moves rows and columns of the tree and the open slacks by the same amount and touches nothing else |
| MinCostAssignment.GrowTree | src/arena_hero_agent/planning/min_cost_assignment.py:62-87 | the alternating tree reaches a free column, along predecessors that lead back to column 0 in strictly decreasing order |
| MinCostAssignment.Augment | src/arena_hero_agent/planning/min_cost_assignment.py:88-93 | flipping along the predecessors ends at column 0 with the matching extended by the new row and the potentials still certifying it |
| MinCostAssignment.FreeColumn | src/arena_hero_agent/planning/min_cost_assignment.py:69-78 | with rows <= columns some column outside the tree is always left, so the scan never returns infinity |
| MinCostAssignment.DualCertificate | src/arena_hero_agent/planning/min_cost_assignment.py:52-84 | feasible potentials, tight on the assignment, non-positive on columns and zero on free ones, certify optimality against every injective choice |
| MinCostAssignment.ShiftDual | src/arena_hero_agent/planning/min_cost_assignment.py:79-84 | the shift keeps every reduced cost non-negative and every matched one zero |
| MinCostAssignment.GridApart | src/arena_hero_agent/planning/min_cost_assignment.py:28-29 | on a grid coarser than 2^-52 the tolerant comparison is the exact one, both ways |
| WorkerMatrix.NeverForbidden | src/arena_hero_agent/planning/worker_assignment.py:569-623 | an optimal solution of the matrix never gives a worker a pair the matrix marks forbidden |
| WorkerMatrix.NoNeedlessWait | src/arena_hero_agent/planning/worker_assignment.py:569-625 | with a preempt penalty below the sentinel gap, a worker waits only if every cell left over is forbidden to it |
| WorkerMatrix.PenaltyBoundSharp | src/arena_hero_agent/planning/worker_assignment.py:571-599 | for every penalty from the gap on, an optimal solution may leave a worker waiting next to a free cell it is not forbidden to take |
| WorkerMatrix.NoBetterFreeColumn | src/arena_hero_agent/planning/worker_assignment.py:617-625 | in an optimal assignment no row would be cheaper on a column nobody uses |
| WorkerMatrix.CostMatrixSeparated | src/arena_hero_agent/planning/worker_assignment.py:569-615 | net values and penalty on a grid of step 1/q give matrix costs on that grid, so the solver is exact on them |
| WorkerAssignment.AssignWorkerTasks | src/arena_hero_agent/planning/worker_assignment.py:418-677 | the plan is the forced tasks, the reserved surveyors and an optimal matrix solution over exactly the available cells, in unit order, with the claims of its harvest orders |
| WorkerAssignment.ForcedOrdersExactly | src/arena_hero_agent/planning/task.py:103-143 | a worker picks up the beacon, harvests on the spot, delivers or retreats to heal exactly under the stated conditions, in that priority, each with its exact target and key |
| WorkerAssignment.OpenOrders | src/arena_hero_agent/planning/worker_assignment.py:485-654 | every other order: a harvest names an available cell and its place, exploring carries the worker's exploration target if it has one, waiting carries nothing |
| WorkerAssignment.PairForbiddenExactly | src/arena_hero_agent/planning/worker_assignment.py:569-611 | what forbids a known cell to a worker: an enemy, too far out of sight, a claim that may not be preempted, or else too little value, a predicted dead mine, too far |
| WorkerAssignment.SurveyCountExactly | src/arena_hero_agent/planning/worker_assignment.py:495-524 | in a survey burst as many workers are reserved as wanted, but not the last one when there is something to harvest; otherwise none |
| WorkerAssignment.PruneClaims | src/arena_hero_agent/planning/worker_assignment.py:784-835 | the loop keeps exactly the claims whose facts still hold |
| WorkerAssignment.PlanMatrix | src/arena_hero_agent/planning/worker_assignment.py:617-654 | harvest orders for the rows with a cell; of the others the first, up to the cap, explore and the rest waits |
| WorkerAssignment.ClaimProgress | src/arena_hero_agent/planning/worker_assignment.py:838-880 | a claim carried on keeps its first tick and the least distance its worker was seen at, and its progress tick moves exactly when that distance drops; a new claim starts with both fresh |
| WorkerAssignment.EveryWorkerOnce | src/arena_hero_agent/planning/worker_assignment.py:460-673 | the assignments name every worker exactly as often as it is listed |
| WorkerAssignment.HarvestCellsDistinct | src/arena_hero_agent/planning/worker_assignment.py:485-647 | cells of harvest orders are pairwise distinct, known, not blocked and not claimed by a forced task |
| WorkerAssignment.NeverSentToForbidden | src/arena_hero_agent/planning/worker_assignment.py:578-623 | a worker sent to a cell has a finite net value there and either the cell is collectable for it or it may preempt the claim |
| WorkerAssignment.NoNeedlessWaiting | src/arena_hero_agent/planning/worker_assignment.py:574-654 | a worker of the matrix that gets no cell had none: every available cell is taken or forbidden to it |
| WorkerAssignment.ReservationExcludes | src/arena_hero_agent/planning/worker_assignment.py:522-599 | without a preempt penalty a cell held by a claim goes to no other worker |
| WorkerAssignment.ClaimsMatchHarvests | src/arena_hero_agent/planning/worker_assignment.py:667-880 | next claims and harvest orders correspond one to one |
| WorkerAssignment.PoolExploresExactly | src/arena_hero_agent/planning/worker_assignment.py:495-664 | without available cells every worker of the pool explores exactly if the pool is no larger than the number of surveyors wanted |
| WorkerAssignment.WithoutCells | src/arena_hero_agent/planning/worker_assignment.py:495-654 | without available cells the pool explores in id order up to the number of surveyors wanted, and the rest waits |
| WorkerAssignment.DepositsFitExactly | src/arena_hero_agent/planning/task.py:83-124 | every deposit ordered meets the condition for depositing exactly if there is room, or no core, or nothing to deposit |
| WorkerAssignment.LoneWorkerPlan | src/arena_hero_agent/planning/task.py:122-124 | one worker, no known cell, a full core, the default configuration: without cargo it waits, with cargo it is sent to deposit |
| ClaimLease.LeaseBound | src/arena_hero_agent/planning/worker_assignment.py:797-880 | over any run of planning steps at increasing ticks, each fed the claims of the one before, a cell to which one worker is sent at every step is reserved at no more than (initial distance + 1) * (ttl - 1) of them |
| ClaimLease.LeaseInvariant | src/arena_hero_agent/planning/worker_assignment.py:838-880 | after every such step the ticks reserved so far fit into one window of ttl - 1 per unit of progress plus the current one |
| ClaimLease.ClaimStep | src/arena_hero_agent/planning/worker_assignment.py:810-880 | from one step to the next a pursued claim either comes closer and restarts its clock or changes neither, and survives pruning only before its time is up |
| Navigation.ShortestPath | src/arena_hero_agent/domain/navigation.py:207-272 | a path is a repeat-free walk over cells in range and bounds, not blocked, and known to be open unless unknown cells are allowed, and shortest among those inside the radius; unreachable means there is no such walk anywhere; a limit is blamed only if the target is outside the radius, more cells than the budget are no farther than the target, or no path stays inside and the search could go on outside |
| Navigation.DirectionsOrdered | src/arena_hero_agent/domain/navigation.py:183-193 | directions are tried once each: those that lead closer first, the longer axis before the shorter, the others in the order east, south, west, north |
| Navigation.AllowedIsLegal | src/arena_hero_agent/domain/navigation.py:139-153 | the cells a limited search may use are the legal ones within the radius of the start in both coordinates |
| Navigation.Unwind | src/arena_hero_agent/domain/navigation.py:258-265 | following the parent links and reversing gives the route by which the target was found |
| Navigation.FoundEverything | src/arena_hero_agent/domain/navigation.py:247-272 | if nothing was cut off by the radius, a search run dry has seen every cell any enterable route reaches |
| Navigation.BoxBudgetDecides | src/arena_hero_agent/domain/navigation.py:230-271 | with a budget for the whole box a limit is blamed only when no route stays within it |
| Navigation.ReachableCells | src/arena_hero_agent/domain/navigation.py:320-355 | exactly the cells to which a walk over legal cells leads, within the distance if one is given; refused as blocked only from a start that is not legal |
| GridSearch.NoShorterRoute | src/arena_hero_agent/domain/navigation.py:237-266 | at every moment of a breadth-first search no route beats the one found, and undiscovered cells are farther than the queue |
| GridSearch.BoxNotCrowded | src/arena_hero_agent/planning/worker_assignment.py:202-212 | a box holds too few cells to exhaust a budget of its size before any target inside it |
| Routing.ShortestPathDistances | src/arena_hero_agent/planning/worker_assignment.py:178-221 | every reported distance is exact; a missing target is out of reach, or the budget is spent and more cells than that are no farther |
| Routing.NextStepToward | src/arena_hero_agent/planning/worker_assignment.py:232-293 | the step starts a shortest route; no step means start is target, no route, or a spent budget with more cells than that no farther |
| Routing.BoxBudgetDecides | src/arena_hero_agent/planning/worker_assignment.py:202-221 | with a budget for the whole box the field names exactly the reachable targets |
| AStar.AStarNextStep | src/arena_hero_agent/strategies/astar_pathfinder.py:117-197 | the step starts a cheapest route to the target, or to an open cell next to it when it is an obstacle; none before the budget is spent means no route to any such cell, unless budget and box both exceed 429 million cells, and then none below the ceiling; each cell is expanded at most once and only if it could lie on a cheapest route |
| AStar.GoalsArrive | src/arena_hero_agent/strategies/astar_pathfinder.py:126-133 | the goals are the target, or for a target on an obstacle exactly its open neighbours |
| AStar.CostCounts | src/arena_hero_agent/strategies/astar_pathfinder.py:180-184 | a route costs its length and four more for every discouraged cell after its start |
| AStar.NowhereElse | src/arena_hero_agent/strategies/astar_pathfinder.py:157-195 | when the heap runs dry with the ceiling out of sight, every route from the start stays within the expanded cells |
| AStar.Consistent | src/arena_hero_agent/strategies/astar_pathfinder.py:138-139 | the distance to the nearest goal changes along a step by no more than the step costs |
| AStar.Crossing | src/arena_hero_agent/strategies/astar_pathfinder.py:157-195 | every route to an unexpanded cell passes an open cell scored no worse than the route |
| AStar.PoppedSettled | src/arena_hero_agent/strategies/astar_pathfinder.py:157-167 | a fresh entry taken from the heap carries the least cost of its cell, and a popped goal a cheapest route |
| AStar.PoppedPromising | src/arena_hero_agent/strategies/astar_pathfinder.py:157-169 | an expanded cell never costs, heuristic included, more than any route to a goal |
| LineOfSight.SupercoverLineBlocked | src/arena_hero_agent/domain/navigation.py:390-437 | the walk answers true exactly when an obstacle of the bounding rectangle other than the endpoints lies at offset (i, j) with 2 times the absolute value of i*ny - j*nx below nx + ny, or equal to it for sight |
| LineOfSight.VisionLineBlocked | src/arena_hero_agent/domain/navigation.py:358-370 | sight is blocked exactly by the closed form with equality |
| LineOfSight.ShotLineBlocked | src/arena_hero_agent/domain/navigation.py:373-387 | a shot is blocked exactly by the strict closed form |
| LineOfSight.BlockedSymmetric | src/arena_hero_agent/domain/navigation.py:358-437 | sight and shots are symmetric in origin and target |
| LineOfSight.ShotImpliesVision | src/arena_hero_agent/domain/navigation.py:378-384 | what stops a shot stops sight, and what stops only sight sits exactly at a corner |
| TenantState.ReduceAdvances | src/arena_hero_agent/domain/state.py:248-269 | an accepted turn keeps the owner, never lowers the tick, counts one decision and records it, and yields a constructible state |
| TenantState.ReduceSettles | src/arena_hero_agent/domain/economy.py:286-322 | an accepted turn at a later tick takes over the observed figures, its deltas make up the difference to the state before, and resources and room add up to the capacity; at the same tick the economy is unchanged |
| TenantState.ReduceAccepts | src/arena_hero_agent/domain/state.py:138-269 | exactly when a turn and its decision are accepted |
| TenantState.RefusalNamesCause | src/arena_hero_agent/domain/state.py:121-246 | each refusal has the cause it names, ownership and rules first |
| TenantState.CapacityKnown | src/arena_hero_agent/domain/economy.py:88-93 | the core holds five for each unit and never less than ten |
| TenantState.ObserveIdempotent | src/arena_hero_agent/domain/state.py:164-219 | observing a turn twice is observing it once |
| TenantState.NoImmediateRepeat | src/arena_hero_agent/domain/state.py:221-246 | the last decision cannot be committed again, whatever turn comes with it |
| DecisionJournal.RecoverTenant | src/arena_hero_agent/application/decision.py:329-385 | the one-pass loop computes the replay, with the first error found; success means a valid journal and its replay |
| DecisionJournal.ReplayAccepts | src/arena_hero_agent/application/decision.py:340-362 | the replay succeeds exactly on gap-free chains of distinct decisions that agree with the reducer |
| DecisionJournal.RecoversExactly | src/arena_hero_agent/application/decision.py:340-385 | recovery succeeds exactly on a valid journal with no snapshot, or one that is the tenant's own, carries its own digest, is not ahead and does not contradict the replay; each refusal names the first of these that fails |
| DecisionJournal.RecoveryOutcome | src/arena_hero_agent/application/decision.py:340-385 | for a journal prefix read earlier, recovery gives that prefix's replay unless the snapshot has moved past it |
| DecisionJournal.JournalAdvances | src/arena_hero_agent/application/decision.py:340-362 | along a valid journal the owner stays, ticks never fall and the decision count is the number of entries |
| DecisionJournal.DeltasTelescope | src/arena_hero_agent/domain/economy.py:294-322 | along a valid journal the recorded resource and population deltas of the rising ticks add up to the difference between last and first state |
| DecisionArbiter.StepInv | src/arena_hero_agent/application/decision.py:170-316 | every step of every arbiter, every acquisition, replacement, renewal or release by another user of the lease, lease expiry and crash keeps the invariant |
| DecisionArbiter.JournalAlwaysValid | src/arena_hero_agent/application/decision.py:170-401 | in every run the journal is a gap-free chain of distinct decisions equal to its replay and the snapshot is missing or the replay of a prefix |
| DecisionArbiter.HistoryOnlyGrows | src/arena_hero_agent/application/decision.py:292-305 | entries are only appended and the snapshot never goes back |
| DecisionArbiter.RecoveryFailsOnlyWhenOvertaken | src/arena_hero_agent/application/decision.py:329-385 | recovery fails in a run exactly if the snapshot has passed the prefix read, and never otherwise |
| DecisionArbiter.OvertakenRecovery | src/arena_hero_agent/application/decision.py:340-374 | a run, for any acceptable turn, in which recovery fails although journal and snapshot are sound |
| DecisionArbiter.UndisturbedArbiter | src/arena_hero_agent/application/decision.py:184-295 | in every run without a replaced lease, at most one arbiter is between its writer lease and its end; its ticket finds the snapshot equal to the full replay and works on that revision, and neither of its later recoveries fails |
| DecisionArbiter.KeepsLease | src/arena_hero_agent/adapters/runtime/leases.py:168-208 | in every run without a replaced lease an arbiter holds its writer lease until its end, expired or not |
| DecisionArbiter.AcquireRestoresSnapshot | src/arena_hero_agent/application/decision.py:221-232 | in any run a returned ticket whose lease has not been replaced finds the snapshot equal to the full replay and works on that revision |
| DecisionArbiter.StaleTicket | src/arena_hero_agent/application/decision.py:221-232 | a run in which a ticket is returned after its expired lease was replaced by another user, and the snapshot is behind the journal |
| DecisionArbiter.CommittedStays | src/arena_hero_agent/application/decision.py:298-315 | a decision reported as committed stays in the journal whatever happens later |
| DecisionArbiter.ActiveWriterSucceeds | src/arena_hero_agent/application/decision.py:292-309 | an active writer is never refused by journal or snapshot store |
| DecisionArbiter.LeaseLasts | src/arena_hero_agent/adapters/runtime/leases.py:213-283 | a writer lease granted to an arbiter, or renewed by its commit, is active for exactly its duration from then on |
| DecisionArbiter.LeaseProtected | src/arena_hero_agent/adapters/runtime/leases.py:168-208 | no step of another arbiter or another user ends an active writer lease |
| DecisionArbiter.StoresFailClosed | src/arena_hero_agent/adapters/runtime/state.py:27-130 | when the journal takes an entry and the store a swap or a restore: only from the active writer of that generation, only in sequence, and never over a newer snapshot |
| DecisionArbiter.TicketIsGood | src/arena_hero_agent/application/decision.py:183-233 | a returned ticket is for a decision not journaled before and a turn its state accepts, and a commit under its lease is turned away at the last check only for a repeated last decision or an exhausted count |
| DecisionArbiter.RefusalReleases | src/arena_hero_agent/application/decision.py:186-235 | a refused lease, a refused renewal and a closed ticket end the arbiter and change nothing but free its own writer lease |
| TickLoop.Run | src/arena_hero_agent/application/tick_loop.py:392-621 | the counters and outcomes are those of the events consumed: one outcome for each tick above all before, gaps counted as jumps above one, submissions counted, reconnects bounded, and a stop reason that the last event explains |
| TickLoop.OutcomesIncrease | src/arena_hero_agent/application/tick_loop.py:449-606 | outcome ticks strictly increase across reconnects and replays |
| TickLoop.DeliveredIsAccounted | src/arena_hero_agent/application/tick_loop.py:449-460 | every delivered observation is an outcome, a duplicate, out of order, or the one that stopped the loop |
| TickLoop.OutcomesWellFormed | src/arena_hero_agent/application/tick_loop.py:211-248 | every recorded outcome satisfies the rules of the result record |
| TickLoop.OutcomesTell | src/arena_hero_agent/application/tick_loop.py:462-606 | of every turn is recorded whether it was decided in time, whether anything was submitted for it, and whether that was accepted or rejected, with its error |
| TickLoop.LastTickIsLastOutcome | src/arena_hero_agent/application/tick_loop.py:465-606 | the loop resumes after its last outcome exactly unless it stopped on a tick that ran out of time with nothing submitted |
| TickLoop.StallsExactly | src/arena_hero_agent/application/tick_loop.py:462-573 | the loop hangs exactly on a fresh turn, not turned away for its gap, whose submission or fallback is waited for without a timeout and never answered |
| TickLoop.StallsOnlyInFallback | src/arena_hero_agent/application/tick_loop.py:494-573 | with a submit timeout the loop hangs exactly on a fresh turn that overran its budget and whose fallback is never answered |
| TickLoop.HangsDespiteTimeout | src/arena_hero_agent/application/tick_loop.py:494-500 | a run of the loop, with a submit timeout, that hangs on its first turn |
| TaskMarket.AssignTasks | src/arena_hero_agent/alliance/task_market.py:147-210 | the loop over remaining capacities computes the allocation specified by loads, reasons and errors included |
| TaskMarket.TasksPartitioned | src/arena_hero_agent/alliance/task_market.py:189-210 | every task is in exactly one of the two lists, assigned to one tenant, and nothing else is listed |
| TaskMarket.ServedGreedily | src/arena_hero_agent/alliance/task_market.py:191-206 | a task is rejected exactly if no candidate has room next to its earlier tasks, and otherwise goes to the first candidate with room in tenant order |
| TaskMarket.ServedByUrgency | src/arena_hero_agent/alliance/task_market.py:181-186 | tasks are served by falling priority, then by rising deadline with none last, then by id |
| TaskMarket.CapacityKept | src/arena_hero_agent/alliance/task_market.py:187-206 | no tenant is given more weight than its capacity |
| TaskMarket.OrderForgotten | src/arena_hero_agent/alliance/task_market.py:165-186 | rearranging tasks or tenants gives the same result |
| TaskMarket.ReasonIsWhy | src/arena_hero_agent/alliance/task_market.py:223-236 | the reason computed from remaining capacities depends only on the task and on who is on the market |
| TaskMarket.ClashExactly | src/arena_hero_agent/alliance/task_market.py:120-136 | the result record refuses exactly if two tasks share an id |
| CommandApplier.StepKeeps | src/arena_hero_agent/alliance/applier.py:57-166 | every step of every applier, every publication and every crash keeps the invariant |
| CommandApplier.GateExactly | src/arena_hero_agent/alliance/commands.py:337-358 | which commands pass the gate, and with which disposition each other one is turned away |
| CommandApplier.PendingExactly | src/arena_hero_agent/alliance/applier.py:69-71 | pending are the tenant's commands whose id and idempotency key are not marked yet, in the order of publication |
| CommandApplier.AppliedOnceAndRightly | src/arena_hero_agent/alliance/applier.py:87-133 | over any interleaving of drains and restarts no command id or idempotency key of a tenant is applied twice, and only for its tenant and generation, not from an agent, before its expiry |
| CommandApplier.EveryHandlingAudited | src/arena_hero_agent/alliance/applier.py:82-166 | the results of a drain are its audit events, one each, in order, with the returned disposition; no command is announced as applied twice or without a marker |
| CommandApplier.AppliedIsAudited | src/arena_hero_agent/alliance/applier.py:123-133 | without crashes every marker has its applied event or an applier about to write it |
| CommandDrain.TenantCommandApplier.Handle | src/arena_hero_agent/alliance/applier.py:87-146 | handling a command as written is a run of the machine, and its outcome is fixed by the gate, the two clock readings, the markers and the lease: a command that passes, is unmarked and not expired is applied, with one marker and one event |
| CommandDrain.TenantCommandApplier.Drain | src/arena_hero_agent/alliance/applier.py:57-85 | a drain handles every pending command in order, or gives up when the lease is unavailable or lost, and keeps the invariant |
| CommandDrain.CommandLedger.MarkApplied | src/arena_hero_agent/adapters/runtime/command_bus.py:249-293 | a marker is added once, only under an active lease |
| Canonical.EqualTextMeansEqualValue | src/arena_hero_agent/domain/canonical.py:24-88 | two values have the same canonical text exactly when they denote the same, up to the order of maps and sets and the kind of sequence or set |
| Canonical.TextReadsBack | src/arena_hero_agent/domain/canonical.py:24-88 | reading the canonical text of a value, first as JSON and then kind by kind, gives back what the value denotes |
| Canonical.NodeReadsBack | src/arena_hero_agent/domain/canonical.py:33-73 | the canonical node carries the kind the program writes and everything the value denotes |
| Canonical.RaisesExactly | src/arena_hero_agent/domain/canonical.py:46-73 | the encoder raises exactly on floats, clock values, unsupported values, non-string keys and sets with two members of one meaning |
| Canonical.MembersFaithful | src/arena_hero_agent/domain/canonical.py:64-70 | sorting members by their text gives equal lists exactly for equal sets |
| Canonical.EntriesFaithful | src/arena_hero_agent/domain/canonical.py:50-63 | sorting entries by name gives equal lists exactly for equal mappings |
| Canonical.Base64Injective | src/arena_hero_agent/domain/canonical.py:43-45 | unpadded URL-safe base64 determines its bytes |
| Canonical.Base64ReadsBack | src/arena_hero_agent/domain/canonical.py:43-45 | decoding with the URL-safe alphabet of RFC 4648 gives the bytes back |
| JsonText.EncodeInjective | src/arena_hero_agent/domain/canonical.py:76-82 | the compact JSON text determines its node |
| JsonText.ReadsBack | src/arena_hero_agent/domain/canonical.py:76-82 | a reader of JSON strings with their escapes, booleans and arrays gets the node back from its text, whatever follows |
| JsonText.EncodePrefix | src/arena_hero_agent/domain/canonical.py:76-82 | node texts form a prefix code |
| CellKeys.FormatThenParse | src/arena_hero_agent/domain/value_objects.py:217-237 | parsing a formatted coordinate gives it back |
| CellKeys.ParseThenFormat | src/arena_hero_agent/domain/value_objects.py:223-237 | every accepted key is the formatting of what it parses to |
| CellKeys.DecimalInjective | src/arena_hero_agent/domain/canonical.py:39-40 | decimal text determines its integer |
| Pricing.MaximumSafeExponent | src/arena_hero_agent/domain/economy.py:67-79 | the search ends, and prices are in range exactly up to the exponent found |
| Pricing.MaximumSafePriceExponent | src/arena_hero_agent/domain/economy.py:82-84 | beyond the common bound, and only there, some role's price is out of range |
| Pricing.UnitPrice | src/arena_hero_agent/domain/economy.py:96-111 | a price is the nearest integer to base * 1.3^e, ties upwards, between 1 and 2^53 - 1; it is refused exactly if the population or some role's price is out of range |
| Pricing.RoundedIsNearest | src/arena_hero_agent/domain/economy.py:108-110 | a value is the rounded price exactly if it lies within one half of base * 1.3^e |
| Pricing.PriceMonotone | src/arena_hero_agent/domain/economy.py:61-64 | prices never fall as the population grows |
| Pricing.ExponentRises | src/arena_hero_agent/domain/economy.py:61-64 | the exponent rises at a population of 20 and at every fifth one after it |
| Pricing.KnownPrices | src/arena_hero_agent/domain/economy.py:25-31 | the prices of all roles at the populations of the known answers |

## Left out

- MinCostAssignment.MinimumCostAssignment: optimality is for costs on a grid coarser than 2^-52, and over exact real numbers; floating-point rounding, and the finiteness check on floats, are not modelled.
- WorkerAssignment.AssignWorkerTasks: the net value of a pair is a parameter apart from its hard exclusions; scores, confidence decay and routed distances inside it are floating-point. Claims come as a map by cell and unit ids are distinct, as the snapshot guarantees.
- WorkerAssignment.NeverSentToForbidden: for net values on a grid coarser than the solver's tolerance, where the solution is optimal.
- WorkerAssignment.NoNeedlessWaiting: the same, and for penalties below the sentinel gap.
- WorkerAssignment.ReservationExcludes: the same, for the default penalty of zero.
- AStar.AStarNextStep: with a budget and a box of more than 429 million cells, routes at or above the cost 0x7FFFFFFF count as absent, as they do in the code. The heap is a set from which the least entry by estimate and sequence is taken.
- Routing.ShortestPathDistances: obstacles are sets of cells; decoding them from strings is not modelled, there and in A*.
- Navigation.ShortestPath: the order in which directions are tried is stated, but not which of several shortest paths it selects; the same goes for the steps of the other searches.
- Canonical.EqualTextMeansEqualValue: text is a sequence of Unicode scalar values; the UTF-8 encoding, lone surrogates and SHA-256 are not modelled, so digests are arbitrary functions of the state elsewhere.
- Canonical.RaisesExactly: strings with lone surrogates, on which the UTF-8 encoding raises, are outside the text type.
- DecisionArbiter.JournalAlwaysValid: writer lease, journal and snapshot store behave as the in-memory adapters do, each call in one step; the decision lease is granted or refused at will; committing one ticket twice at the same time and task cancellation are not modelled.
- CommandApplier.AppliedOnceAndRightly: marking a command is one atomic step, as the ledger port promises; the writing of audit events never fails, and the body of a command plays no part.
- CommandDrain.TenantCommandApplier.Handle: no other writer acts in between, so the re-check after the second clock reading never fires there; interference is covered by the machine.
- CommandDrain.TenantCommandApplier.Drain: the same.
- TickLoop.Run: decisions, clock readings and submissions are inputs; telemetry callbacks, backoff delays, latencies and exceptions of the decider are not modelled.
- Pricing.UnitPrice: the rules version is fixed.
- TenantState.ReduceAdvances: the contents of a world projection are only compared, never inspected.
- Idempotence of merging shared sightings is not claimed: drifting cores can be split on a second pass.
- Threat fields, advice texts, exploration target heuristics, configuration loading, files, network, user interface: plumbing, or repetitions of the searches above.
