/** The applier as it is written: a drain that walks the pending commands and, for each, reads the
    clock, checks the ledger, marks the command and writes the audit trail.  Left alone it is a run
    of the interleaving machine, so what holds over every run holds of it. */
module CommandDrain {
  import opened CommandApplier
  import opened Options

  /** What marking a command comes to. */
  datatype Marking = Marked | AlreadyApplied | Refused

  /** Durable markers and audit trail, and the director's commands. */
  class CommandLedger {
    var published: seq<Command>
    var applied: seq<Entry>
    var audit: seq<Event>

    constructor (commands: seq<Command>)
      ensures published == commands && applied == [] && audit == []
    {
      published, applied, audit := commands, [], [];
    }

    method HasApplied(tenant: string, c: Command) returns (found: bool)
      ensures found <==> IsApplied(applied, tenant, c)
    {
      found := false;
      for i := 0 to |applied|
        invariant !found && forall j | 0 <= j < i :: !Matches(applied[j], tenant, c)
      {
        if Matches(applied[i], tenant, c) {
          return true;
        }
      }
    }

    /** Refused without an active lease; otherwise the marker is added unless it is there already. */
    method MarkApplied(context: Context, c: Command, tick: nat, active: bool) returns (marking: Marking)
      modifies this`applied
      ensures marking == if !active then Refused else if IsApplied(old(applied), context.tenant, c) then AlreadyApplied else Marked
      ensures applied == old(applied)
                + if marking.Marked? then [Entry(context.tenant, c.id, c.key, context.generation, tick)] else []
    {
      if !active {
        return Refused;
      }
      var found := HasApplied(context.tenant, c);
      if found {
        return AlreadyApplied;
      }
      applied := applied + [Entry(context.tenant, c.id, c.key, context.generation, tick)];
      return Marked;
    }

    method Record(context: Context, c: Command, verdict: Verdict, tick: nat)
      modifies this`audit
      ensures audit == old(audit) + [Event(0, context.tenant, c.id, verdict, context.generation, tick)]
    {
      audit := audit + [Event(0, context.tenant, c.id, verdict, context.generation, tick)];
    }

    /** The ledger with a single applier, as a world of the machine. */
    ghost function View(p: Applier): World
      reads this
    {
      World(published, applied, audit, [p])
    }
  }

  lemma AfterAppend(w: World, actions: seq<Action>, action: Action)
    ensures After(w, actions + [action]) == Step(After(w, actions), action)
  {
    assert (actions + [action])[..|actions|] == actions;
  }

  lemma {:induction false} AfterConcat(w: World, first: seq<Action>, second: seq<Action>)
    ensures After(w, first + second) == After(After(w, first), second)
  {
    if second == [] {
      assert first + second == first;
    } else {
      var n := |second| - 1;
      AfterConcat(w, first, second[..n]);
      assert first + second == (first + second[..n]) + [second[n]];
      AfterAppend(w, first + second[..n], second[n]);
    }
  }

  /** `steps` advances of the only applier. */
  ghost predicate Advances(steps: seq<Action>) {
    forall i | 0 <= i < |steps| :: steps[i].Advance? && steps[i].a == 0
  }

  lemma AfterNothing(w: World)
    ensures After(w, []) == w
  {
  }

  /** One more step of the only applier, before it records. */
  lemma Advanced(w: World, steps: seq<Action>, now: World, tick: nat, active: bool) returns (more: seq<Action>)
    requires After(w, steps) == now && |now.appliers| == 1 && Advances(steps)
    requires var p := now.appliers[0]; p.Draining? && |p.results| < |p.pending| && !p.phase.Recording?
    ensures Advances(more)
    ensures var p := now.appliers[0];
            var effect := Act(now.applied, p.context, p.pending[|p.results|], p.phase, tick, active);
            After(w, more) == World(now.published, if effect.marks == [] then now.applied else now.applied + effect.marks,
                                    now.audit, [if effect.next.Some? then p.(phase := effect.next.value) else Idle])
  {
    more := steps + [Advance(0, tick, active)];
    AfterAppend(w, steps, Advance(0, tick, active));
    hide Act, After;
    assert now.applied + [] == now.applied;
    var p := After(w, more).appliers[0];
    assert After(w, more).appliers == [p];
  }

  /** The step that records. */
  lemma Recorded(w: World, steps: seq<Action>, now: World, tick: nat, active: bool) returns (more: seq<Action>)
    requires After(w, steps) == now && |now.appliers| == 1 && Advances(steps)
    requires var p := now.appliers[0]; p.Draining? && |p.results| < |p.pending| && p.phase.Recording?
    ensures Advances(more)
    ensures var p := now.appliers[0];
            var at := if p.phase.at.Some? then p.phase.at.value else tick;
            After(w, more) == World(now.published, now.applied,
                now.audit + [Event(0, p.context.tenant, p.pending[|p.results|].id, p.phase.verdict, p.context.generation, at)],
                [NextCommand(p, p.phase.verdict)])
  {
    more := steps + [Advance(0, tick, active)];
    AfterAppend(w, steps, Advance(0, tick, active));
    hide After;
    var p := After(w, more).appliers[0];
    assert After(w, more).appliers == [p];
  }

  class TenantCommandApplier {
    const ledger: CommandLedger
    const clock: nat -> nat
    var readings: nat

    constructor (ledger: CommandLedger, clock: nat -> nat)
      ensures this.ledger == ledger && this.clock == clock
    {
      this.ledger, this.clock, readings := ledger, clock, 0;
    }

    method Now() returns (tick: nat)
      modifies this`readings
      ensures tick == clock(old(readings)) && readings == old(readings) + 1
    {
      tick := clock(readings);
      readings := readings + 1;
    }

    /** The audit event of a command found applied already. */
    method RecordDuplicate(context: Context, c: Command) returns (tick: nat)
      modifies this`readings, ledger`audit
      ensures ledger.audit == old(ledger.audit) + [Event(0, context.tenant, c.id, DUPLICATE, context.generation, tick)]
    {
      tick := Now();
      ledger.Record(context, c, DUPLICATE, tick);
    }

    /** The authoritative checks on a command that has passed the gate, and its marker. */
    method Apply(c: Command, context: Context, active: bool, ghost p: Applier, ghost w: World, ghost before: seq<Action>)
      returns (verdict: Option<Verdict>, ghost steps: seq<Action>)
      requires p.Draining? && p.phase == Validating && p.context == context
      requires |p.results| < |p.pending| && p.pending[|p.results|] == c
      requires Advances(before) && After(w, before) == ledger.View(p.(phase := Checking))
      modifies this`readings, ledger`applied, ledger`audit
      ensures Advances(steps)
      ensures After(w, steps) == ledger.View(if verdict.Some? then NextCommand(p, verdict.value) else Idle)
      ensures var marked := AlreadyMarked(old(ledger.applied), context.tenant, c);
        verdict == if marked then Some(DUPLICATE)
                   else if clock(old(readings)) >= c.expiresAt then Some(EXPIRED)
                   else if active then Some(APPLIED) else None
      ensures ledger.applied == old(ledger.applied)
                + if verdict == Some(APPLIED)
                  then [Entry(context.tenant, c.id, c.key, context.generation, clock(old(readings)))] else []
      ensures |ledger.audit| == |old(ledger.audit)| + if verdict.Some? then 1 else 0
    {
      AppliedExactly(ledger.applied, context.tenant, c);
      hide IsApplied, AlreadyMarked, After, Step, AdvanceApplier;
      var found := ledger.HasApplied(context.tenant, c);
      steps := Advanced(w, before, ledger.View(p.(phase := Checking)), 0, active);
      if found {
        ghost var recording := ledger.View(p.(phase := Recording(DUPLICATE, None)));
        var tick := RecordDuplicate(context, c);
        steps := Recorded(w, steps, recording, tick, active);
        return Some(DUPLICATE), steps;
      }
      var latest := Now();
      steps := Advanced(w, steps, ledger.View(p.(phase := Refreshing)), latest, active);
      if latest >= c.expiresAt {
        steps := Recorded(w, steps, ledger.View(p.(phase := Recording(EXPIRED, Some(latest)))), latest, active);
        ledger.Record(context, c, EXPIRED, latest);
        return Some(EXPIRED), steps;
      }
      found := ledger.HasApplied(context.tenant, c);
      steps := Advanced(w, steps, ledger.View(p.(phase := Rechecking(latest))), latest, active);
      if found {
        assert false;   // no other writer here; the machine has this branch
      }
      steps := Advanced(w, steps, ledger.View(p.(phase := Marking(latest))), latest, active);
      var marking := ledger.MarkApplied(context, c, latest, active);
      if marking.Refused? {
        return None, steps;
      }
      if marking.AlreadyApplied? {
        assert false;
      }
      steps := Recorded(w, steps, ledger.View(p.(phase := Recording(APPLIED, Some(latest)))), latest, active);
      ledger.Record(context, c, APPLIED, latest);
      return Some(APPLIED), steps;
    }

    /** Handling one command is a run of the machine; none when the marker is refused, and then the
        drain gives up.  What it comes to is decided by the gate, the markers, the two clock readings
        and the lease. */
    method Handle(c: Command, context: Context, active: bool, ghost p: Applier)
      returns (verdict: Option<Verdict>, ghost steps: seq<Action>)
      requires p.Draining? && p.phase == Validating && p.context == context
      requires |p.results| < |p.pending| && p.pending[|p.results|] == c
      modifies this`readings, ledger`applied, ledger`audit
      ensures Advances(steps)
      ensures After(old(ledger.View(p)), steps)
              == ledger.View(if verdict.Some? then NextCommand(p, verdict.value) else Idle)
      ensures var passes := Admitted(c, context) && clock(old(readings)) < c.expiresAt;
        var marked := AlreadyMarked(old(ledger.applied), context.tenant, c);
        verdict == if !passes then Some(Validate(c, context, clock(old(readings))))
                   else if marked then Some(DUPLICATE)
                   else if clock(old(readings) + 1) >= c.expiresAt then Some(EXPIRED)
                   else if active then Some(APPLIED) else None
      ensures ledger.applied == old(ledger.applied)
                + if verdict == Some(APPLIED)
                  then [Entry(context.tenant, c.id, c.key, context.generation, clock(old(readings) + 1))] else []
      ensures |ledger.audit| == |old(ledger.audit)| + if verdict.Some? then 1 else 0
    {
      GateExactly(c, context, clock(readings));
      hide IsApplied, AlreadyMarked, Validate, After, Step, AdvanceApplier;
      ghost var w := ledger.View(p);
      AfterNothing(w);
      var observed := Now();
      var checked := Validate(c, context, observed);
      steps := Advanced(w, [], ledger.View(p), observed, active);
      if checked.disposition != Accepted {
        steps := Recorded(w, steps, ledger.View(p.(phase := Recording(checked, Some(observed)))), observed, active);
        ledger.Record(context, c, checked, observed);
        return Some(checked), steps;
      }
      verdict, steps := Apply(c, context, active, p, w, steps);
    }

    /** Process every pending command under one writer lease; none when the lease is unavailable or
        lost on the way. */
    method Drain(context: Context, granted: bool, active: nat -> bool)
      returns (results: Option<seq<Verdict>>, ghost steps: seq<Action>)
      modifies this`readings, ledger`applied, ledger`audit
      ensures After(old(ledger.View(Idle)), steps)
              == ledger.View(if results.Some?
                             then Drained(context, old(Pending(ledger.published, ledger.applied, context.tenant)),
                                          results.value, |old(ledger.audit)|)
                             else Idle)
      ensures old(Inv(ledger.View(Idle))) ==> Inv(ledger.View(Idle))
    {
      hide Advances, Inv;
      ghost var w := ledger.View(Idle);
      ghost var began := |ledger.audit|;
      var pending := Pending(ledger.published, ledger.applied, context.tenant);
      steps := [Begin(0, context, granted)];
      assert After(w, []) == w;
      AfterAppend(w, [], steps[0]);
      if pending == [] {
        KeptAcross(w, steps);
        return Some([]), steps;
      }
      if !granted {
        KeptAcross(w, steps);
        return None, steps;
      }
      var done: seq<Verdict> := [];
      for k := 0 to |pending|
        invariant ledger.published == old(ledger.published) && |done| == k
        invariant After(w, steps) == ledger.View(Progress(context, pending, done, began))
      {
        var verdict, more := Handle(pending[k], context, active(k), Progress(context, pending, done, began));
        AfterConcat(w, steps, more);
        steps := steps + more;
        if verdict.None? {
          KeptAcross(w, steps);
          return None, steps;
        }
        done := done + [verdict.value];
      }
      KeptAcross(w, steps);
      return Some(done), steps;
    }
  }

  /** A run keeps the invariant, and so does starting over after it. */
  lemma KeptAcross(w: World, steps: seq<Action>)
    requires |w.appliers| == 1
    ensures |After(w, steps).appliers| == 1
    ensures Inv(w) ==> Inv(After(w, steps).(appliers := [Idle]))
  {
    hide Inv;
    HistoryGrows(w, steps);
    if Inv(w) {
      RunKeeps(w, steps);
      CrashKeeps(After(w, steps), 0);
      assert After(w, steps).appliers[0 := Idle] == [Idle];
    }
  }

  ghost function Progress(context: Context, pending: seq<Command>, done: seq<Verdict>, began: nat): Applier {
    if |done| < |pending| then Draining(context, pending, done, Validating, began)
    else Drained(context, pending, done, began)
  }
}
