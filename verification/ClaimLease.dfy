/** How long one worker's claim can keep a cell reserved.  Over a run of planning steps, each given
    the claims the step before left, a claim reserves its cell while its last progress is younger
    than the time to live, and only a smaller distance to the cell counts as progress. */
module ClaimLease {
  import opened WorkerAssignment

  /** One planning step with its available cells and the columns its workers got. */
  datatype Turn = Turn(inputs: Inputs, keys: seq<string>, columns: seq<int>)

  ghost predicate Planned(turn: Turn) {
    && DistinctIds(turn.inputs.snapshot.workers)
    && AvailableCells(turn.inputs, turn.keys)
    && Settled(turn.inputs, MatrixPool(turn.inputs, turn.keys), turn.keys, turn.columns)
  }

  function Tick(turn: Turn): nat { turn.inputs.snapshot.tick }

  /** The claims a step leaves to the next one. */
  ghost function Left(turn: Turn): map<string, Claim>
    requires Planned(turn)
  {
    NextClaims(Decisions(turn.inputs, turn.keys, turn.columns), turn.inputs.snapshot.workers, Tick(turn),
               turn.inputs.claims)
  }

  /** Steps at increasing ticks, each starting from the claims of the one before. */
  ghost predicate PlannerRun(run: seq<Turn>, ttl: nat) {
    && (forall k | 0 <= k < |run| :: Planned(run[k]) && run[k].inputs.config.claimTtl == ttl)
    && (forall k | 0 < k < |run| :: Tick(run[k - 1]) < Tick(run[k]) && run[k].inputs.claims == Left(run[k - 1]))
  }

  /** Every step of the run sends worker `id` to the cell. */
  ghost predicate Pursued(run: seq<Turn>, ttl: nat, id: string, key: string)
    requires PlannerRun(run, ttl)
  {
    forall k | 0 <= k < |run| :: key in Left(run[k]) && Left(run[k])[key].unitId == id
  }

  /** The steps, after the first, at which the claim on the cell survives pruning. */
  function ReservedTicks(run: seq<Turn>, key: string): nat {
    if |run| <= 1 then 0
    else ReservedTicks(run[..|run| - 1], key) + if Holds(run[|run| - 1].inputs, key) then 1 else 0
  }

  /** `done` reserved ticks after `gained` steps of progress, `age` ticks into the current window. */
  ghost predicate WithinWindows(done: nat, gained: nat, age: nat, ttl: nat)
    requires ttl > 0
  {
    done <= gained * (ttl - 1) + if age < ttl then age else ttl - 1
  }

  lemma WindowsStep(done: nat, gained: nat, age: nat, ttl: nat, age': nat, gained': nat, now: nat)
    requires ttl > 0 && WithinWindows(done, gained, age, ttl) && age < age'
    requires now <= done + if age' < ttl then 1 else 0
    ensures WithinWindows(now, gained, age', ttl)
    ensures gained < gained' ==> WithinWindows(now, gained', 0, ttl)
  {
    if gained < gained' {
      Windows(gained + 1, gained', ttl - 1);
      assert (gained + 1) * (ttl - 1) == gained * (ttl - 1) + (ttl - 1);
    }
  }

  lemma Windows(a: nat, b: nat, w: nat)
    requires a <= b
    ensures a * w <= b * w
  {
    assert (b - a) * w >= 0;
  }

  /** A shorter run is a run, pursued as well. */
  lemma Shorter(run: seq<Turn>, ttl: nat, id: string, key: string)
    requires |run| > 1 && PlannerRun(run, ttl) && Pursued(run, ttl, id, key)
    ensures PlannerRun(run[..|run| - 1], ttl) && Pursued(run[..|run| - 1], ttl, id, key)
  {
    hide Planned, Left;
  }

  /** One more step: either the distance drops and the clock restarts, or nothing moves.  A step
      that finds the cell reserved comes before the claim's time is up. */
  lemma ClaimStep(before: Turn, turn: Turn, id: string, key: string)
    requires Planned(before) && Planned(turn) && turn.inputs.claims == Left(before)
    requires key in Left(before) && Left(before)[key].unitId == id
    requires key in Left(turn) && Left(turn)[key].unitId == id
    ensures var old_, claim := Left(before)[key], Left(turn)[key];
      if claim.progressDistance < old_.progressDistance then claim.lastProgressTick == Tick(turn)
      else claim.progressDistance == old_.progressDistance && claim.lastProgressTick == old_.lastProgressTick
    ensures Holds(turn.inputs, key) ==>
              0 <= Tick(turn) - Left(before)[key].lastProgressTick < turn.inputs.config.claimTtl
  {
    ClaimProgress(turn.inputs, turn.keys, turn.columns, key);
  }

  /** As long as a claim is pursued its distance never grows, and the ticks reserved so far fit
      into one window per unit of progress and the age of the current one. */
  lemma {:induction false} LeaseInvariant(run: seq<Turn>, ttl: nat, id: string, key: string)
    requires run != [] && ttl > 0 && PlannerRun(run, ttl) && Pursued(run, ttl, id, key)
    requires Left(run[0])[key].lastProgressTick <= Tick(run[0])
    ensures var first, claim, now := Left(run[0])[key], Left(run[|run| - 1])[key], Tick(run[|run| - 1]);
      && claim.lastProgressTick <= now && claim.progressDistance <= first.progressDistance
      && WithinWindows(ReservedTicks(run, key), first.progressDistance - claim.progressDistance,
                       now - claim.lastProgressTick, ttl)
  {
    hide Planned, Left, WithinWindows, Holds;
    if |run| == 1 {
      NoneReserved(ttl, Tick(run[0]) - Left(run[0])[key].lastProgressTick);
    } else {
      var front, last := run[..|run| - 1], run[|run| - 1];
      Shorter(run, ttl, id, key);
      LeaseInvariant(front, ttl, id, key);
      var before := front[|front| - 1];
      assert before == run[|run| - 2];
      ClaimStep(before, last, id, key);
      var start, now := Left(run[0])[key].progressDistance, Tick(last);
      WindowsStep(ReservedTicks(front, key), start - Left(before)[key].progressDistance,
                  Tick(before) - Left(before)[key].lastProgressTick, ttl,
                  now - Left(before)[key].lastProgressTick, start - Left(last)[key].progressDistance,
                  ReservedTicks(run, key));
    }
  }

  lemma NoneReserved(ttl: nat, age: nat)
    requires ttl > 0
    ensures WithinWindows(0, 0, age, ttl)
  {
  }

  /** A claim pursued without interruption keeps its cell reserved at fewer than `ttl` ticks per
      unit of the distance it starts from, plus one such window. */
  lemma LeaseBound(run: seq<Turn>, ttl: nat, id: string, key: string)
    requires run != [] && PlannerRun(run, ttl) && Pursued(run, ttl, id, key)
    requires Left(run[0])[key].lastProgressTick <= Tick(run[0])
    ensures ReservedTicks(run, key)
            <= (Left(run[0])[key].progressDistance + 1) * (if ttl == 0 then 0 else ttl - 1)
  {
    hide Planned, Left, ReservedTicks;
    if ttl == 0 {
      NeverReserved(run, key);
    } else {
      LeaseInvariant(run, ttl, id, key);
      var start, claim := Left(run[0])[key].progressDistance, Left(run[|run| - 1])[key];
      Windows(start - claim.progressDistance, start, ttl - 1);
      OneMoreWindow(start, ttl - 1);
    }
  }

  lemma OneMoreWindow(n: int, window: int)
    ensures n * window + window == (n + 1) * window
  {
  }

  lemma {:induction false} NeverReserved(run: seq<Turn>, key: string)
    requires forall k | 0 <= k < |run| :: run[k].inputs.config.claimTtl == 0
    ensures ReservedTicks(run, key) == 0
  {
    hide Holds;
    if |run| > 1 {
      NeverReserved(run[..|run| - 1], key);
      NotHeld(run[|run| - 1].inputs, key);
    }
  }

  lemma NotHeld(i: Inputs, key: string)
    requires i.config.claimTtl == 0
    ensures !Holds(i, key)
  {
  }
}
