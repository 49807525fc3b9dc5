/** The tenant state and its reducers: one observation of world and economy, then one decision.
    Digests are SHA-256 in the program; here they are any functions. */
module TenantState {
  import opened Options

  datatype Result<+T> = Ok(value: T) | Err(error: Failure)

  datatype Failure =
    | NotOwner | OutdatedRules | TickMismatch | RulesMismatch | WorldRegresses | WorldConflicts
    | SeedChanged | EconomyRulesChanged | EconomyRegresses | EconomyConflicts | DuplicateDecision | CountOverflow

  const MAX_SAFE_INTEGER: nat := 0x1f_ffff_ffff_ffff
  const CURRENT_RULES: nat := 14

  /** A world projection.  `content` stands for everything that is only compared. */
  datatype Projection = Projection(tick: nat, rules: nat, population: nat, content: string)

  datatype EconomyInput = EconomyInput(seed: nat, tick: nat, rules: nat, resources: nat, population: nat)

  datatype Economy = Economy(
    seed: nat, tick: nat, rules: nat, resources: nat, population: nat, capacity: nat, space: int,
    resourceDelta: int, populationDelta: int, inputDigest: string)

  datatype Turn = Turn(tick: nat, world: Projection, economy: EconomyInput)

  datatype State = State(
    tenant: string, world: Projection, economy: Economy, decisionCount: nat, lastDecision: Option<string>)

  datatype Hashes = Hashes(ofState: State -> string, ofInput: EconomyInput -> string)

  const CAPACITY_PER_UNIT: nat := 5
  const MINIMUM_CAPACITY: nat := 10

  /** What the core can hold. */
  function Capacity(population: nat): nat {
    if MINIMUM_CAPACITY > population * CAPACITY_PER_UNIT then MINIMUM_CAPACITY else population * CAPACITY_PER_UNIT
  }

  /** What constructing an economic observation checks, prices aside. */
  predicate ValidInput(e: EconomyInput) {
    e.population <= MAX_SAFE_INTEGER / CAPACITY_PER_UNIT && e.resources <= Capacity(e.population)
  }

  /** What constructing an economy checks, prices aside. */
  predicate ValidEconomy(e: Economy) {
    e.capacity == Capacity(e.population) && e.resources <= e.capacity && e.space == e.capacity - e.resources
  }

  /** What constructing a turn checks. */
  predicate ValidTurn(t: Turn) {
    && t.tick <= MAX_SAFE_INTEGER && t.world.tick == t.tick && t.economy.tick == t.tick
    && t.economy.rules == t.world.rules && t.economy.population == t.world.population && ValidInput(t.economy)
  }

  /** What constructing a state checks. */
  predicate ValidState(s: State) {
    && s.economy.tick == s.world.tick && s.economy.rules == s.world.rules
    && s.economy.population == s.world.population && s.decisionCount <= MAX_SAFE_INTEGER && ValidEconomy(s.economy)
  }

  function RequireOwner(s: State, actor: string): Result<State> {
    if actor != s.tenant then Err(NotOwner) else Ok(s)
  }

  /** Fold one authoritative economic observation. */
  function Advance(h: Hashes, e: Economy, source: EconomyInput): Result<Economy> {
    if source.seed != e.seed then Err(SeedChanged)
    else if source.rules != e.rules then Err(EconomyRulesChanged)
    else if source.tick < e.tick then Err(EconomyRegresses)
    else if source.tick == e.tick then
      if h.ofInput(source) == e.inputDigest then Ok(e) else Err(EconomyConflicts)
    else
      Ok(Economy(e.seed, source.tick, e.rules, source.resources, source.population,
                 Capacity(source.population), Capacity(source.population) - source.resources,
                 source.resources - e.resources, source.population - e.population, h.ofInput(source)))
  }

  /** Fold newer world and economy observations together, or neither. */
  function Observe(h: Hashes, s: State, world: Projection, economy: EconomyInput): Result<State> {
    if world.rules != CURRENT_RULES then Err(OutdatedRules)
    else if economy.tick != world.tick then Err(TickMismatch)
    else if economy.rules != world.rules then Err(RulesMismatch)
    else if world.tick < s.world.tick then Err(WorldRegresses)
    else if world.tick == s.world.tick && world != s.world then Err(WorldConflicts)
    else
      var next := Advance(h, s.economy, economy);
      if next.Err? then Err(next.error)
      else if world == s.world && next.value == s.economy then Ok(s)
      else Ok(s.(world := world, economy := next.value))
  }

  function ObserveTurn(h: Hashes, s: State, turn: Turn, actor: string): Result<State> {
    if RequireOwner(s, actor).Err? then RequireOwner(s, actor)
    else Observe(h, s, turn.world, turn.economy)
  }

  function RecordDecision(s: State, id: string): Result<State> {
    if s.lastDecision == Some(id) then Err(DuplicateDecision)
    else if s.decisionCount + 1 > MAX_SAFE_INTEGER then Err(CountOverflow)
    else Ok(s.(decisionCount := s.decisionCount + 1, lastDecision := Some(id)))
  }

  /** One round input and one decision as a single step. */
  function ReduceTurn(h: Hashes, s: State, turn: Turn, id: string, actor: string): Result<State> {
    var observed := ObserveTurn(h, s, turn, actor);
    if observed.Err? then observed else RecordDecision(observed.value, id)
  }

  /** An accepted turn advances the state: same owner, no earlier tick, one more decision; and the
      result is again a state the program could construct. */
  lemma ReduceAdvances(h: Hashes, s: State, turn: Turn, id: string, actor: string)
    requires ValidState(s) && ValidTurn(turn) && ReduceTurn(h, s, turn, id, actor).Ok?
    ensures var next := ReduceTurn(h, s, turn, id, actor).value;
      && ValidState(next) && next.tenant == s.tenant == actor
      && next.decisionCount == s.decisionCount + 1 && next.lastDecision == Some(id) && s.lastDecision != Some(id)
      && next.world.tick == turn.tick >= s.world.tick && next.economy.seed == s.economy.seed
      && next.world == turn.world
  {
  }

  /** The capacity is the greater of 10 and five for each unit. */
  lemma CapacityKnown(population: nat)
    ensures Capacity(population) == if population < 2 then 10 else 5 * population
  {
  }

  /** What an accepted turn does to the economy: at a later tick it holds the observed figures, the
      deltas make up the difference, and the room left is what capacity leaves over; at the same
      tick nothing changes. */
  lemma ReduceSettles(h: Hashes, s: State, turn: Turn, id: string, actor: string)
    requires ValidState(s) && ValidTurn(turn) && ReduceTurn(h, s, turn, id, actor).Ok?
    ensures var before, after, seen := s.economy, ReduceTurn(h, s, turn, id, actor).value.economy, turn.economy;
      if turn.tick > s.world.tick then
        && after.tick == turn.tick && after.seed == seen.seed && after.rules == seen.rules
        && after.resources == seen.resources && after.population == seen.population
        && after.inputDigest == h.ofInput(seen)
        && before.resources + after.resourceDelta == after.resources
        && before.population + after.populationDelta == after.population
        && after.resources + after.space == after.capacity
        && after.capacity >= 10 && after.capacity >= 5 * seen.population
        && (after.capacity == 10 || after.capacity == 5 * seen.population)
      else turn.tick == s.world.tick && after == before && turn.world == s.world
  {
  }

  /** A turn is accepted exactly from the owner, under the current rules and the state's seed, at no
      earlier tick, at the same tick only with the same observation, and with a decision other than
      the last. */
  lemma ReduceAccepts(h: Hashes, s: State, turn: Turn, id: string, actor: string)
    requires ValidState(s) && ValidTurn(turn)
    ensures ReduceTurn(h, s, turn, id, actor).Ok? <==>
      && actor == s.tenant && turn.world.rules == 14 && s.world.rules == 14 && turn.economy.seed == s.economy.seed
      && turn.tick >= s.world.tick
      && (turn.tick == s.world.tick ==> turn.world == s.world && h.ofInput(turn.economy) == s.economy.inputDigest)
      && s.lastDecision != Some(id) && s.decisionCount < 0x1f_ffff_ffff_ffff
  {
  }

  /** A refused turn is refused for the first of these causes that applies. */
  lemma RefusalNamesCause(h: Hashes, s: State, turn: Turn, id: string, actor: string)
    requires ValidState(s) && ValidTurn(turn) && ReduceTurn(h, s, turn, id, actor).Err?
    ensures var error := ReduceTurn(h, s, turn, id, actor).error;
      && (error == NotOwner <==> actor != s.tenant)
      && (actor == s.tenant ==> (error == OutdatedRules <==> turn.world.rules != 14))
      && (error == WorldRegresses ==> turn.tick < s.world.tick)
      && (error == WorldConflicts ==> turn.tick == s.world.tick && turn.world != s.world)
      && (error == SeedChanged ==> turn.economy.seed != s.economy.seed)
      && (error == EconomyRulesChanged ==> turn.economy.rules != s.economy.rules)
      && (error == EconomyConflicts ==> turn.tick == s.world.tick && h.ofInput(turn.economy) != s.economy.inputDigest)
      && (error == DuplicateDecision ==> s.lastDecision == Some(id))
      && (error == CountOverflow ==> s.decisionCount == 0x1f_ffff_ffff_ffff)
      && error != TickMismatch && error != RulesMismatch && error != EconomyRegresses
  {
  }

  /** Observing the same turn twice is observing it once. */
  lemma ObserveIdempotent(h: Hashes, s: State, turn: Turn, actor: string)
    requires ValidState(s) && ValidTurn(turn) && ObserveTurn(h, s, turn, actor).Ok?
    ensures var once := ObserveTurn(h, s, turn, actor).value; ObserveTurn(h, once, turn, actor) == Ok(once)
  {
  }

  /** A decision cannot be committed twice in a row, whatever turn comes with it. */
  lemma NoImmediateRepeat(h: Hashes, s: State, turn: Turn, again: Turn, id: string, actor: string)
    requires ReduceTurn(h, s, turn, id, actor).Ok?
    ensures ReduceTurn(h, ReduceTurn(h, s, turn, id, actor).value, again, id, actor).Err?
  {
  }
}
