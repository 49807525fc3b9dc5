/** The single-tenant tick loop over an adversarial stream: duplicates, regressions, gaps, failures
    and replays after a reconnect.  A run is described by the events it consumed; the loop is
    compared with the rising ticks among them, the ones above every tick delivered before. */
module TickLoop {
  import opened Options

  // How a submission ends.  A hung one never answers.
  datatype Submission = Accepted | Rejected(error: string) | Hung

  /** An observed turn, with what the clock and the injected boundaries will answer for it. */
  datatype Turn = Turn(tick: int, elapsed: nat, submission: Submission, fallback: Submission)

  /** One thing the stream does: deliver a turn, end, or fail. */
  datatype Event = Delivered(turn: Turn) | Ended | Failed

  datatype DeadlineOutcome = Candidate | SoftDeadline | SelectionTimeout

  datatype SubmitResult = SubmitAccepted | SubmitRejected | NotSubmitted

  datatype TickResult = TickResult(tick: int, deadline: DeadlineOutcome, submit: SubmitResult, error: Option<string>)

  datatype Config = Config(
    budget: nat,
    maxReconnects: nat,
    continueOnGap: bool,
    continueOnSelectionTimeout: bool,
    continueOnStreamEnded: bool,
    submitTimeout: bool,     // whether a submit timeout is configured
    stopOnRejection: bool,
    hasFallback: bool)       // whether the decider offers a safety fallback

  datatype Stop =
    | StreamEnded | StoppedSoftDeadline | StoppedSelectionTimeout | StoppedGap | SubmitFailure
    | ReconnectLimit   // raised as an error
    | Stalled          // waiting for a submission that never answers
    | Waiting          // waiting for the next event of the stream

  datatype RunResult = RunResult(
    lastTick: int,
    ticksProcessed: nat,
    duplicateTicks: nat,
    outOfOrderTicks: nat,
    gapTicks: nat,
    reconnectCount: nat,
    stop: Stop,
    outcomes: seq<TickResult>)

  // ----- the run as data -------------------------------------------------------------------

  function Turns(events: seq<Event>): seq<Turn> {
    if events == [] then []
    else
      var rest, e := Turns(events[..|events| - 1]), events[|events| - 1];
      if e.Delivered? then rest + [e.turn] else rest
  }

  /** The highest tick delivered, counting from tick 0. */
  function Highest(turns: seq<Turn>): (h: int)
    ensures h >= 0
  {
    if turns == [] then 0
    else
      var h, t := Highest(turns[..|turns| - 1]), turns[|turns| - 1].tick;
      if t > h then t else h
  }

  /** The turns above everything delivered before them. */
  function Rising(turns: seq<Turn>): seq<Turn> {
    if turns == [] then []
    else
      var front, e := turns[..|turns| - 1], turns[|turns| - 1];
      if e.tick > Highest(front) then Rising(front) + [e] else Rising(front)
  }

  /** How many turns repeat the highest tick before them, or fall below it. */
  function Repeats(turns: seq<Turn>): nat
  {
    if turns == [] then 0
    else
      var front, e := turns[..|turns| - 1], turns[|turns| - 1];
      Repeats(front) + if e.tick == Highest(front) then 1 else 0
  }

  function Regressions(turns: seq<Turn>): nat
  {
    if turns == [] then 0
    else
      var front, e := turns[..|turns| - 1], turns[|turns| - 1];
      Regressions(front) + if e.tick < Highest(front) then 1 else 0
  }

  /** Steps of more than one between consecutive ticks, counting from tick 0. */
  function Jumps(ticks: seq<int>): nat {
    if ticks == [] then 0
    else
      var before := if |ticks| == 1 then 0 else ticks[|ticks| - 2];
      Jumps(ticks[..|ticks| - 1]) + if ticks[|ticks| - 1] > before + 1 then 1 else 0
  }

  function Ticks(turns: seq<Turn>): (ticks: seq<int>)
    ensures |ticks| == |turns| && forall k | 0 <= k < |turns| :: ticks[k] == turns[k].tick
  {
    seq(|turns|, k requires 0 <= k < |turns| => turns[k].tick)
  }

  function Submitted(outcomes: seq<TickResult>): nat {
    if outcomes == [] then 0
    else
      Submitted(outcomes[..|outcomes| - 1])
      + if outcomes[|outcomes| - 1].submit == NotSubmitted then 0 else 1
  }

  function Breaks(events: seq<Event>): nat {
    if events == [] then 0
    else Breaks(events[..|events| - 1]) + if events[|events| - 1].Delivered? then 0 else 1
  }

  // ----- one turn -------------------------------------------------------------------------

  /** The submission the loop waits for on a turn, if it gets that far. */
  function Awaited(cfg: Config, e: Turn): Option<Submission>
  {
    if cfg.budget == 0 then None
    else if e.elapsed >= cfg.budget then
      if cfg.hasFallback then Some(e.fallback) else None
    else if e.submission.Hung? && cfg.submitTimeout then Some(Rejected("submit timed out"))
    else Some(e.submission)
  }

  /** The outcome recorded for a turn whose submission answers. */
  function OutcomeOf(cfg: Config, e: Turn): TickResult
    requires Awaited(cfg, e) != Some(Hung)
  {
    var deadline := if cfg.budget == 0 then SoftDeadline else if e.elapsed >= cfg.budget then SelectionTimeout else Candidate;
    match Awaited(cfg, e)
    case None => TickResult(e.tick, deadline, NotSubmitted, None)
    case Some(Accepted) => TickResult(e.tick, deadline, SubmitAccepted, None)
    case Some(Rejected(error)) => TickResult(e.tick, deadline, SubmitRejected, Some(error))
  }

  /** The rules a recorded outcome must satisfy. */
  predicate WellFormed(o: TickResult) {
    && o.tick >= 1
    && (o.deadline == Candidate ==> o.submit != NotSubmitted)
    && (o.deadline == SoftDeadline ==> o.submit == NotSubmitted)
    && (o.submit != SubmitRejected ==> o.error.None?)
  }

  /** Whether the loop goes on after a turn. */
  function StopAfter(cfg: Config, e: Turn): Option<Stop>
  {
    if cfg.budget == 0 then Some(StoppedSoftDeadline)
    else if Awaited(cfg, e) == Some(Hung) then Some(Stalled)
    else if Awaited(cfg, e).Some? && Awaited(cfg, e).value.Rejected? && cfg.stopOnRejection then Some(SubmitFailure)
    else if e.elapsed >= cfg.budget && !cfg.continueOnSelectionTimeout then Some(StoppedSelectionTimeout)
    else None
  }

  // ----- what a run promises ----------------------------------------------------------------

  /** Whether the last turn was turned away after its gap was counted, without an outcome. */
  predicate Unrecorded(stop: Stop) {
    stop == StoppedGap || stop == Stalled
  }

  /** The recorded outcomes are those of the rising turns, in order. */
  ghost predicate Records(cfg: Config, rising: seq<Turn>, outcomes: seq<TickResult>) {
    && |outcomes| == |rising|
    && forall k | 0 <= k < |rising| ::
         Awaited(cfg, rising[k]) != Some(Hung) && outcomes[k] == OutcomeOf(cfg, rising[k])
  }

  function Recorded(rising: seq<Turn>, stop: Stop): seq<Turn> {
    if Unrecorded(stop) && rising != [] then rising[..|rising| - 1] else rising
  }

  /** The tick reached by the turns recorded before the last. */
  function TickBefore(rising: seq<Turn>): int
  {
    if |rising| <= 1 then 0 else rising[|rising| - 2].tick
  }

  /** Why the run stopped, and that it did not stop earlier. */
  ghost predicate Explained(cfg: Config, events: seq<Event>, rising: seq<Turn>, r: RunResult)
  {
    var turnedAway := Unrecorded(r.stop);
    && (forall k | 0 <= k < |rising| - 1 :: StopAfter(cfg, rising[k]).None?)
    && (!cfg.continueOnGap && r.stop != StoppedGap ==> r.gapTicks == 0)
    && match r.stop
       case StreamEnded =>
         && events != [] && events[|events| - 1].Ended?
         && !(cfg.continueOnStreamEnded && r.reconnectCount < cfg.maxReconnects)
       case ReconnectLimit => events != [] && events[|events| - 1].Failed? && r.reconnectCount == cfg.maxReconnects
       case Waiting => rising != [] ==> StopAfter(cfg, rising[|rising| - 1]).None?
       case StoppedGap =>
         !cfg.continueOnGap && rising != [] && rising[|rising| - 1].tick > TickBefore(rising) + 1
       case _ => rising != [] && events != [] && events[|events| - 1] == Delivered(rising[|rising| - 1])
                 && StopAfter(cfg, rising[|rising| - 1]) == Some(r.stop)
  }

  /** The tick the loop resumes from: the last recorded one, unless that one ran out of time. */
  ghost predicate Resumes(cfg: Config, recorded: seq<Turn>, r: RunResult)
  {
    r.lastTick ==
      if recorded == [] then 0
      else if r.stop == StoppedSoftDeadline || (r.stop == StoppedSelectionTimeout && !cfg.hasFallback) then
        TickBefore(recorded)
      else recorded[|recorded| - 1].tick
  }

  /** The last event delivers a turn above all before it. */
  predicate Fresh(events: seq<Event>) {
    && events != [] && events[|events| - 1].Delivered?
    && events[|events| - 1].turn.tick > Highest(Turns(events[..|events| - 1]))
  }

  /** The result of a run that consumed exactly `events`. */
  ghost predicate Describes(cfg: Config, events: seq<Event>, r: RunResult) {
    var turns := Turns(events);
    var rising := Rising(turns);
    && (r.stop !in {StreamEnded, ReconnectLimit, Waiting} ==> Fresh(events))
    && (Unrecorded(r.stop) ==> rising != [] && rising[|rising| - 1] == turns[|turns| - 1])
    && Records(cfg, Recorded(rising, r.stop), r.outcomes)
    && r.duplicateTicks == Repeats(turns) && r.outOfOrderTicks == Regressions(turns)
    && r.ticksProcessed == Submitted(r.outcomes)
    && r.gapTicks == Jumps(Ticks(rising))
    && Explained(cfg, events, rising, r) && Resumes(cfg, Recorded(rising, r.stop), r)
    && r.reconnectCount <= cfg.maxReconnects
    && Breaks(events) == r.reconnectCount + if r.stop == StreamEnded || r.stop == ReconnectLimit then 1 else 0
  }

  /** The loop's own variables after a prefix of the stream, while it is still running. */
  ghost predicate Running(cfg: Config, events: seq<Event>, r: RunResult) {
    && r.stop == Waiting && Describes(cfg, events, r)
    && r.lastTick == Highest(Turns(events))
  }

  function Quiet(): RunResult {
    RunResult(0, 0, 0, 0, 0, 0, Waiting, [])
  }

  lemma {:induction false} RisingEnds(turns: seq<Turn>)
    ensures if Rising(turns) == [] then Highest(turns) == 0
            else Rising(turns)[|Rising(turns)| - 1].tick == Highest(turns)
    ensures forall k | 0 <= k < |Rising(turns)| :: Rising(turns)[k].tick >= 1
  {
    if turns != [] {
      RisingEnds(turns[..|turns| - 1]);
    }
  }

  /** A break in the stream that the loop survives. */
  lemma StepBreak(cfg: Config, events: seq<Event>, r: RunResult, e: Event)
    requires Running(cfg, events, r) && !e.Delivered? && r.reconnectCount < cfg.maxReconnects
    ensures Running(cfg, events + [e], r.(reconnectCount := r.reconnectCount + 1))
  {
    TurnsAppend(events, e);
    hide Records, Turns, Breaks, Rising, Highest, Repeats, Regressions, Jumps, Ticks, Submitted, Fresh,
         StopAfter, TickBefore;
  }

  lemma TurnsAppend(events: seq<Event>, e: Event)
    ensures Turns(events + [e]) == if e.Delivered? then Turns(events) + [e.turn] else Turns(events)
    ensures Breaks(events + [e]) == Breaks(events) + if e.Delivered? then 0 else 1
  {
    assert (events + [e])[..|events|] == events;
  }

  lemma FreshAppend(events: seq<Event>, e: Turn)
    ensures Fresh(events + [Delivered(e)]) <==> e.tick > Highest(Turns(events))
  {
    assert (events + [Delivered(e)])[..|events|] == events;
  }

  lemma TurnAppend(turns: seq<Turn>, e: Turn)
    ensures Highest(turns + [e]) == if e.tick > Highest(turns) then e.tick else Highest(turns)
    ensures Rising(turns + [e]) == if e.tick > Highest(turns) then Rising(turns) + [e] else Rising(turns)
    ensures Repeats(turns + [e]) == Repeats(turns) + if e.tick == Highest(turns) then 1 else 0
    ensures Regressions(turns + [e]) == Regressions(turns) + if e.tick < Highest(turns) then 1 else 0
  {
    assert (turns + [e])[..|turns|] == turns;
  }

  lemma JumpAppend(rising: seq<Turn>, e: Turn)
    ensures var before := if rising == [] then 0 else rising[|rising| - 1].tick;
            Jumps(Ticks(rising + [e])) == Jumps(Ticks(rising)) + if e.tick > before + 1 then 1 else 0
  {
    assert Ticks(rising + [e])[..|rising|] == Ticks(rising);
  }

  lemma SubmittedAppend(outcomes: seq<TickResult>, o: TickResult)
    ensures Submitted(outcomes + [o]) == Submitted(outcomes) + if o.submit == NotSubmitted then 0 else 1
  {
    assert (outcomes + [o])[..|outcomes|] == outcomes;
  }

  /** A turn that is not above the ticks delivered before is only counted. */
  lemma StepStale(cfg: Config, events: seq<Event>, r: RunResult, e: Turn)
    requires Running(cfg, events, r) && e.tick <= r.lastTick
    ensures Running(cfg, events + [Delivered(e)],
              if e.tick == r.lastTick then r.(duplicateTicks := r.duplicateTicks + 1)
              else r.(outOfOrderTicks := r.outOfOrderTicks + 1))
  {
    hide Records, Turns, Rising, Highest, Repeats, Regressions, Jumps, Submitted, Breaks, StopAfter;
    TurnsAppend(events, Delivered(e));
    TurnAppend(Turns(events), e);
  }

  /** The variables of the loop after a fresh turn with an outcome. */
  function AfterTurn(cfg: Config, r: RunResult, e: Turn): RunResult
    requires Awaited(cfg, e) != Some(Hung)
  {
    var o, stop := OutcomeOf(cfg, e), StopAfter(cfg, e);
    var held := stop == Some(StoppedSoftDeadline) || (stop == Some(StoppedSelectionTimeout) && !cfg.hasFallback);
    RunResult(if held then r.lastTick else e.tick,
              r.ticksProcessed + if o.submit == NotSubmitted then 0 else 1,
              r.duplicateTicks, r.outOfOrderTicks, r.gapTicks + if e.tick > r.lastTick + 1 then 1 else 0,
              r.reconnectCount, if stop.Some? then stop.value else Waiting, r.outcomes + [o])
  }

  lemma RecordsAppend(cfg: Config, rising: seq<Turn>, outcomes: seq<TickResult>, e: Turn)
    requires Records(cfg, rising, outcomes) && Awaited(cfg, e) != Some(Hung)
    ensures Records(cfg, rising + [e], outcomes + [OutcomeOf(cfg, e)])
  {
  }

  /** What holds of the stops so far also holds with one more turn, if the loop was running. */
  lemma ExplainedAppend(cfg: Config, events: seq<Event>, rising: seq<Turn>, r: RunResult, e: Turn, next: RunResult)
    requires r.stop == Waiting && Explained(cfg, events, rising, r)
    requires r.lastTick == if rising == [] then 0 else rising[|rising| - 1].tick
    requires next.reconnectCount == r.reconnectCount
    requires next.gapTicks == r.gapTicks + if e.tick > r.lastTick + 1 then 1 else 0
    requires if next.stop == StoppedGap then e.tick > r.lastTick + 1 && !cfg.continueOnGap
             else (e.tick > r.lastTick + 1 ==> cfg.continueOnGap)
                  && next.stop == if StopAfter(cfg, e).Some? then StopAfter(cfg, e).value else Waiting
    ensures Explained(cfg, events + [Delivered(e)], rising + [e], next)
  {
    var longer := rising + [e];
    assert forall k | 0 <= k < |rising| :: longer[k] == rising[k];
    assert longer[|longer| - 1] == e && TickBefore(longer) == r.lastTick;
  }

  lemma StopKinds(cfg: Config, e: Turn)
    requires Awaited(cfg, e) != Some(Hung)
    ensures var stop := StopAfter(cfg, e);
      stop in {None, Some(StoppedSoftDeadline), Some(SubmitFailure), Some(StoppedSelectionTimeout)}
  {
  }

  /** A fresh turn with an outcome: the loop goes on or stops as `StopAfter` says. */
  lemma StepTurn(cfg: Config, events: seq<Event>, r: RunResult, e: Turn)
    requires Running(cfg, events, r) && e.tick > r.lastTick
    requires Awaited(cfg, e) != Some(Hung) && (e.tick > r.lastTick + 1 ==> cfg.continueOnGap)
    ensures Describes(cfg, events + [Delivered(e)], AfterTurn(cfg, r, e))
    ensures StopAfter(cfg, e).None? ==> Running(cfg, events + [Delivered(e)], AfterTurn(cfg, r, e))
  {
    hide Records, Explained, Turns, Rising, Highest, Repeats, Regressions, Jumps, Submitted, Breaks, OutcomeOf, StopAfter;
    StopKinds(cfg, e);
    hide Fresh;
    var turns, next := Turns(events), AfterTurn(cfg, r, e);
    FreshAppend(events, e);
    TurnsAppend(events, Delivered(e));
    TurnAppend(turns, e);
    RisingEnds(turns);
    JumpAppend(Rising(turns), e);
    SubmittedAppend(r.outcomes, OutcomeOf(cfg, e));
    RecordsAppend(cfg, Rising(turns), r.outcomes, e);
    ExplainedAppend(cfg, events, Rising(turns), r, e, next);
    assert TickBefore(Rising(turns) + [e]) == r.lastTick;
  }

  /** A fresh turn turned away without an outcome. */
  lemma StepTurnedAway(cfg: Config, events: seq<Event>, r: RunResult, e: Turn, stop: Stop)
    requires Running(cfg, events, r) && e.tick > r.lastTick
    requires if stop == StoppedGap then e.tick > r.lastTick + 1 && !cfg.continueOnGap
             else stop == Stalled && StopAfter(cfg, e) == Some(Stalled) && (e.tick > r.lastTick + 1 ==> cfg.continueOnGap)
    ensures Describes(cfg, events + [Delivered(e)],
              r.(gapTicks := r.gapTicks + if e.tick > r.lastTick + 1 then 1 else 0, stop := stop))
  {
    hide Records, Explained, Turns, Rising, Highest, Repeats, Regressions, Jumps, Ticks, Submitted, Breaks, StopAfter,
         TickBefore, Awaited, OutcomeOf;
    var turns := Turns(events);
    var next := r.(gapTicks := r.gapTicks + if e.tick > r.lastTick + 1 then 1 else 0, stop := stop);
    hide Fresh;
    FreshAppend(events, e);
    TurnsAppend(events, Delivered(e));
    TurnAppend(turns, e);
    RisingEnds(turns);
    JumpAppend(Rising(turns), e);
    ExplainedAppend(cfg, events, Rising(turns), r, e, next);
    assert (Rising(turns) + [e])[..|Rising(turns)|] == Rising(turns);
  }

  /** The stream ends or fails for good. */
  lemma StepLastBreak(cfg: Config, events: seq<Event>, r: RunResult, e: Event)
    requires Running(cfg, events, r) && !e.Delivered?
    requires e.Failed? ==> r.reconnectCount == cfg.maxReconnects
    requires e.Ended? ==> !(cfg.continueOnStreamEnded && r.reconnectCount < cfg.maxReconnects)
    ensures Describes(cfg, events + [e], r.(stop := if e.Failed? then ReconnectLimit else StreamEnded))
  {
    hide Records, Turns, Rising, Highest, Repeats, Regressions, Jumps, Ticks, Submitted, Breaks, StopAfter;
    TurnsAppend(events, e);
  }

  lemma Begins(cfg: Config)
    ensures Running(cfg, [], Quiet())
  {
  }

  // ----- the loop -------------------------------------------------------------------------

  /** Run the loop over a stream; `consumed` events were taken before it stopped. */
  method Run(cfg: Config, script: seq<Event>) returns (r: RunResult, consumed: nat)
    ensures consumed <= |script| && Describes(cfg, script[..consumed], r)
    ensures r.stop == Waiting ==> consumed == |script|
  {
    hide Describes, Running;
    var lastTick, ticksProcessed, duplicateTicks, outOfOrderTicks, gapTicks, reconnectCount := 0, 0, 0, 0, 0, 0;
    var outcomes: seq<TickResult> := [];
    consumed := 0;
    Begins(cfg);
    while consumed < |script|
      invariant consumed <= |script|
      invariant Running(cfg, script[..consumed],
                        RunResult(lastTick, ticksProcessed, duplicateTicks, outOfOrderTicks, gapTicks, reconnectCount,
                                  Waiting, outcomes))
      decreases |script| - consumed
    {
      ghost var before := script[..consumed];
      ghost var now := RunResult(lastTick, ticksProcessed, duplicateTicks, outOfOrderTicks, gapTicks, reconnectCount,
                                 Waiting, outcomes);
      var e := script[consumed];
      consumed := consumed + 1;
      assert script[..consumed] == before + [e];
      Bounds(cfg, before, now);
      match e
      case Ended =>
        if cfg.continueOnStreamEnded && reconnectCount < cfg.maxReconnects {
          StepBreak(cfg, before, now, e);
          reconnectCount := reconnectCount + 1;
          continue;
        }
        StepLastBreak(cfg, before, now, e);
        return RunResult(lastTick, ticksProcessed, duplicateTicks, outOfOrderTicks, gapTicks, reconnectCount,
                         StreamEnded, outcomes), consumed;
      case Failed =>
        if reconnectCount >= cfg.maxReconnects {
          StepLastBreak(cfg, before, now, e);
          return RunResult(lastTick, ticksProcessed, duplicateTicks, outOfOrderTicks, gapTicks, reconnectCount,
                           ReconnectLimit, outcomes), consumed;
        }
        StepBreak(cfg, before, now, e);
        reconnectCount := reconnectCount + 1;
      case Delivered(turn) =>
        var tick := turn.tick;
        if tick < lastTick {
          StepStale(cfg, before, now, turn);
          outOfOrderTicks := outOfOrderTicks + 1;
          continue;
        }
        if tick == lastTick {
          StepStale(cfg, before, now, turn);
          duplicateTicks := duplicateTicks + 1;
          continue;
        }
        if tick > lastTick + 1 {
          gapTicks := gapTicks + 1;
          if !cfg.continueOnGap {
            StepTurnedAway(cfg, before, now, turn, StoppedGap);
            return RunResult(lastTick, ticksProcessed, duplicateTicks, outOfOrderTicks, gapTicks, reconnectCount,
                             StoppedGap, outcomes), consumed;
          }
        }
        var stop, outcome := HandleTurn(cfg, turn);
        if outcome.None? {
          StepTurnedAway(cfg, before, now, turn, Stalled);
          return RunResult(lastTick, ticksProcessed, duplicateTicks, outOfOrderTicks, gapTicks, reconnectCount,
                           Stalled, outcomes), consumed;
        }
        StepTurn(cfg, before, now, turn);
        outcomes := outcomes + [outcome.value];
        if outcome.value.submit != NotSubmitted {
          ticksProcessed := ticksProcessed + 1;
        }
        // A tick that ran out of time with nothing submitted does not count as observed.
        if stop != Some(StoppedSoftDeadline) && !(stop == Some(StoppedSelectionTimeout) && !cfg.hasFallback) {
          lastTick := tick;
        }
        if stop.Some? {
          return RunResult(lastTick, ticksProcessed, duplicateTicks, outOfOrderTicks, gapTicks, reconnectCount,
                           stop.value, outcomes), consumed;
        }
    }
    assert script[..consumed] == script;
    RunningDescribes(cfg, script, RunResult(lastTick, ticksProcessed, duplicateTicks, outOfOrderTicks, gapTicks,
                                            reconnectCount, Waiting, outcomes));
    return RunResult(lastTick, ticksProcessed, duplicateTicks, outOfOrderTicks, gapTicks, reconnectCount, Waiting,
                     outcomes), consumed;
  }

  lemma Bounds(cfg: Config, events: seq<Event>, r: RunResult)
    requires Running(cfg, events, r)
    ensures r.reconnectCount <= cfg.maxReconnects && r.stop == Waiting
  {
  }

  lemma RunningDescribes(cfg: Config, events: seq<Event>, r: RunResult)
    requires Running(cfg, events, r)
    ensures Describes(cfg, events, r)
  {
  }

  /** Decide and submit one fresh turn within the deadline budget.  No outcome means that the
      submission never answers. */
  method HandleTurn(cfg: Config, e: Turn) returns (stop: Option<Stop>, outcome: Option<TickResult>)
    ensures stop == StopAfter(cfg, e)
    ensures if Awaited(cfg, e) == Some(Hung) then outcome.None? else outcome == Some(OutcomeOf(cfg, e))
  {
    if cfg.budget == 0 {
      return Some(StoppedSoftDeadline), Some(TickResult(e.tick, SoftDeadline, NotSubmitted, None));
    }
    var remaining := if e.elapsed >= cfg.budget then 0 else cfg.budget - e.elapsed;
    if remaining == 0 {
      if cfg.hasFallback {
        match e.fallback
        case Hung => return Some(Stalled), None;
        case Accepted => outcome := Some(TickResult(e.tick, SelectionTimeout, SubmitAccepted, None));
        case Rejected(error) =>
          outcome := Some(TickResult(e.tick, SelectionTimeout, SubmitRejected, Some(error)));
          if cfg.stopOnRejection {
            return Some(SubmitFailure), outcome;
          }
      } else {
        outcome := Some(TickResult(e.tick, SelectionTimeout, NotSubmitted, None));
      }
      if !cfg.continueOnSelectionTimeout {
        return Some(StoppedSelectionTimeout), outcome;
      }
      return None, outcome;
    }
    var answer := e.submission;
    if answer.Hung? {
      if !cfg.submitTimeout {
        return Some(Stalled), None;
      }
      answer := Rejected("submit timed out");
    }
    if answer.Rejected? {
      outcome := Some(TickResult(e.tick, Candidate, SubmitRejected, Some(answer.error)));
      return if cfg.stopOnRejection then Some(SubmitFailure) else None, outcome;
    }
    return None, Some(TickResult(e.tick, Candidate, SubmitAccepted, None));
  }

  // ----- consequences ---------------------------------------------------------------------

  lemma {:induction false} RisingIncreases(turns: seq<Turn>)
    ensures forall k, l | 0 <= k < l < |Rising(turns)| :: Rising(turns)[k].tick < Rising(turns)[l].tick
  {
    if turns != [] {
      RisingIncreases(turns[..|turns| - 1]);
      RisingEnds(turns[..|turns| - 1]);
    }
  }

  /** Every delivered turn is fresh, a repeat, or a regression. */
  lemma {:induction false} TurnsPartition(turns: seq<Turn>)
    ensures |turns| == |Rising(turns)| + Repeats(turns) + Regressions(turns)
  {
    if turns != [] {
      TurnsPartition(turns[..|turns| - 1]);
    }
  }

  lemma RecordedTicks(cfg: Config, events: seq<Event>, r: RunResult, k: nat)
    requires Describes(cfg, events, r) && k < |r.outcomes|
    ensures var rising := Rising(Turns(events));
      && k < |rising| && Awaited(cfg, rising[k]) != Some(Hung)
      && r.outcomes[k].tick == rising[k].tick && r.outcomes[k] == OutcomeOf(cfg, rising[k])
  {
  }

  /** Outcome ticks strictly increase, whatever the stream replays: no tick is submitted twice. */
  lemma OutcomesIncrease(cfg: Config, events: seq<Event>, r: RunResult)
    requires Describes(cfg, events, r)
    ensures forall k, l | 0 <= k < l < |r.outcomes| :: r.outcomes[k].tick < r.outcomes[l].tick
  {
    hide Describes;
    RisingIncreases(Turns(events));
    forall k, l | 0 <= k < l < |r.outcomes|
      ensures r.outcomes[k].tick < r.outcomes[l].tick
    {
      RecordedTicks(cfg, events, r, k);
      RecordedTicks(cfg, events, r, l);
    }
  }

  /** What is recorded of each turn: whether it was decided in time, whether anything was submitted
      for it, and how that ended.  A decided tick submits the decision, a late one the fallback. */
  lemma OutcomesTell(cfg: Config, events: seq<Event>, r: RunResult, k: nat)
    requires Describes(cfg, events, r) && k < |r.outcomes|
    ensures k < |Rising(Turns(events))|
    ensures var t, o := Rising(Turns(events))[k], r.outcomes[k];
      var late := t.elapsed >= cfg.budget;
      var answer := if late then t.fallback else t.submission;
      var nothing := cfg.budget == 0 || (late && !cfg.hasFallback);
      && o.tick == t.tick
      && (o.deadline == SoftDeadline <==> cfg.budget == 0)
      && (o.deadline == SelectionTimeout <==> cfg.budget > 0 && late)
      && (o.submit == NotSubmitted <==> nothing)
      && (o.submit == SubmitAccepted <==> !nothing && answer == Accepted)
      && (o.submit == SubmitRejected <==> !nothing && (answer.Rejected? || answer.Hung?))
      && (!nothing && answer.Hung? ==> !late && cfg.submitTimeout)
      && (o.error.Some? <==> o.submit == SubmitRejected)
      && (o.submit == SubmitRejected ==>
            o.error.value == if answer.Rejected? then answer.error else "submit timed out")
  {
    RecordedTicks(cfg, events, r, k);
  }

  /** Every delivered turn is accounted for exactly once. */
  lemma DeliveredIsAccounted(cfg: Config, events: seq<Event>, r: RunResult)
    requires Describes(cfg, events, r)
    ensures |Turns(events)| == |r.outcomes| + r.duplicateTicks + r.outOfOrderTicks + if Unrecorded(r.stop) then 1 else 0
  {
    TurnsPartition(Turns(events));
  }

  /** Recorded outcomes satisfy their rules, so recording one never fails. */
  lemma OutcomesWellFormed(cfg: Config, events: seq<Event>, r: RunResult)
    requires Describes(cfg, events, r)
    ensures forall o | o in r.outcomes :: WellFormed(o)
  {
    hide Describes, OutcomeOf, WellFormed;
    RisingEnds(Turns(events));
    forall k | 0 <= k < |r.outcomes|
      ensures WellFormed(r.outcomes[k])
    {
      RecordedTicks(cfg, events, r, k);
      OutcomeWellFormed(cfg, Rising(Turns(events))[k]);
    }
  }

  lemma OutcomeWellFormed(cfg: Config, t: Turn)
    requires t.tick >= 1 && Awaited(cfg, t) != Some(Hung)
    ensures WellFormed(OutcomeOf(cfg, t))
  {
  }

  /** The loop resumes after the last outcome, except when it stopped on a tick that ran out of
      time with nothing submitted. */
  lemma LastTickIsLastOutcome(cfg: Config, events: seq<Event>, r: RunResult)
    requires Describes(cfg, events, r)
    ensures var last := if r.outcomes == [] then 0 else r.outcomes[|r.outcomes| - 1].tick;
      r.lastTick == last <==>
        !(r.stop == StoppedSoftDeadline || (r.stop == StoppedSelectionTimeout && !cfg.hasFallback))
  {
    var recorded := Recorded(Rising(Turns(events)), r.stop);
    RisingIncreases(Turns(events));
    RisingEnds(Turns(events));
    if recorded != [] {
      RecordedTicks(cfg, events, r, |recorded| - 1);
      assert Rising(Turns(events))[|recorded| - 1].tick >= 1;
    }
  }

  /** The submission of this turn is waited for and never answers. */
  predicate NeverAnswers(cfg: Config, e: Turn) {
    && cfg.budget > 0
    && if e.elapsed >= cfg.budget then cfg.hasFallback && e.fallback.Hung?
       else !cfg.submitTimeout && e.submission.Hung?
  }

  /** The last event is a fresh turn that the loop does not turn away for its gap. */
  predicate Taken(cfg: Config, events: seq<Event>) {
    && Fresh(events)
    && (events[|events| - 1].turn.tick > Highest(Turns(events[..|events| - 1])) + 1 ==> cfg.continueOnGap)
  }

  lemma FreshRises(events: seq<Event>)
    requires Fresh(events)
    ensures var rising, h := Rising(Turns(events)), Highest(Turns(events[..|events| - 1]));
      && rising != [] && rising[|rising| - 1] == events[|events| - 1].turn && TickBefore(rising) == h
      && (rising[|rising| - 1].tick > h + 1 ==> Jumps(Ticks(rising)) > 0)
  {
    var front, last := events[..|events| - 1], events[|events| - 1];
    hide Turns, Rising, Highest, Jumps, Ticks, TickBefore, Breaks, Repeats, Regressions;
    assert events == front + [last];
    TurnsAppend(front, last);
    TurnAppend(Turns(front), last.turn);
    RisingEnds(Turns(front));
    JumpAppend(Rising(Turns(front)), last.turn);
    BeforeLast(Rising(Turns(front)), last.turn);
  }

  lemma BeforeLast(rising: seq<Turn>, e: Turn)
    ensures TickBefore(rising + [e]) == if rising == [] then 0 else rising[|rising| - 1].tick
  {
  }

  lemma StallsOn(cfg: Config, e: Turn)
    ensures StopAfter(cfg, e) == Some(Stalled) <==> NeverAnswers(cfg, e)
    ensures StopAfter(cfg, e) != Some(StoppedGap) && StopAfter(cfg, e) != Some(Waiting)
  {
  }

  /** A run hangs exactly on a fresh turn whose submission never answers. */
  lemma StallsExactly(cfg: Config, events: seq<Event>, r: RunResult)
    requires Describes(cfg, events, r)
    ensures r.stop == Stalled <==> Taken(cfg, events) && NeverAnswers(cfg, events[|events| - 1].turn)
  {
    hide Records, Repeats, Regressions, Jumps, Submitted, Breaks, Turns, Rising, Highest, Ticks, TickBefore, Resumes,
         Recorded, NeverAnswers, StopAfter;
    if Fresh(events) {
      FreshRises(events);
      StallsOn(cfg, events[|events| - 1].turn);
    }
  }

  /** A configured submit timeout keeps the loop from waiting for ever on a decided tick; only the
      fallback of a tick that overran its budget is submitted without that guard. */
  lemma StallsOnlyInFallback(cfg: Config, events: seq<Event>, r: RunResult)
    requires Describes(cfg, events, r) && cfg.submitTimeout
    ensures r.stop == Stalled
       <==> Taken(cfg, events) && var t := events[|events| - 1].turn;
            cfg.hasFallback && t.elapsed >= cfg.budget > 0 && t.fallback.Hung?
  {
    hide Describes, Taken;
    StallsExactly(cfg, events, r);
  }

  /** A loop with a submit timeout that hangs on its first turn. */
  method HangsDespiteTimeout() returns (r: RunResult)
    ensures r.stop == Stalled
  {
    var cfg := Config(1, 0, false, false, false, true, false, true);
    var script := [Delivered(Turn(1, 1, Accepted, Hung))];
    var consumed;
    r, consumed := Run(cfg, script);
    HangsAt(cfg, script[0].turn);
    hide Describes, Taken, NeverAnswers;
    if consumed == 0 {
      WaitsAtFirst(cfg, r);
    } else {
      assert script[..consumed] == [Delivered(script[0].turn)];
      StallsExactly(cfg, script[..consumed], r);
    }
  }

  lemma WaitsAtFirst(cfg: Config, r: RunResult)
    requires Describes(cfg, [], r)
    ensures r.stop == Waiting
  {
  }

  lemma HangsAt(cfg: Config, e: Turn)
    requires e.tick == 1 && NeverAnswers(cfg, e)
    ensures Taken(cfg, [Delivered(e)])
  {
    assert [Delivered(e)][..0] == [];
  }
}
