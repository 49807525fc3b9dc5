/** Tenant-side application of director commands, as a state machine.  Any number of appliers drain
    the same durable ledger; between two of their steps anything may happen: other appliers step,
    the director publishes, a process crashes and starts over.  Reading the clock, checking the
    ledger, marking a command and writing the audit trail are separate steps. */
module CommandApplier {
  import opened Options

  datatype Issuer = Human | Director | Agent
  datatype Disposition = Accepted | Applied | Rejected | Expired | Duplicate | Unauthorized
  datatype Command = Command(version: int, id: string, tenant: string, issuer: Issuer, issuedAt: nat, expiresAt: nat,
                             expectedGeneration: nat, key: string)
  datatype Context = Context(tenant: string, generation: nat)
  datatype Verdict = Verdict(disposition: Disposition, reason: Option<string>)

  /** One applied marker and one audit event; `writer` names the applier that wrote the event. */
  datatype Entry = Entry(tenant: string, command: string, key: string, generation: nat, tick: nat)
  datatype Event = Event(writer: nat, tenant: string, command: string, verdict: Verdict, generation: nat, tick: nat)

  /** What an applier does next with the command at hand. */
  datatype Phase =
    | Validating
    | Checking
    | Refreshing
    | Rechecking(now: nat)
    | Marking(now: nat)
    | Recording(verdict: Verdict, at: Option<nat>)   // none: the clock is read when the event is written

  datatype Applier =
    | Idle
    | Draining(context: Context, pending: seq<Command>, results: seq<Verdict>, phase: Phase, began: nat)
    | Drained(context: Context, pending: seq<Command>, results: seq<Verdict>, began: nat)

  datatype World = World(published: seq<Command>, applied: seq<Entry>, audit: seq<Event>, appliers: seq<Applier>)

  datatype Action =
    | Publish(command: Command)
    | Begin(a: nat, context: Context, granted: bool)
    | Advance(a: nat, now: nat, active: bool)
    | Crash(a: nat)

  const SCHEMA_VERSION := 1

  // ----- the gate ----------------------------------------------------------------------------

  function Validate(c: Command, context: Context, now: nat): Verdict {
    if c.version != SCHEMA_VERSION then Verdict(Rejected, Some("unsupported command schema version"))
    else if c.tenant != context.tenant then Verdict(Rejected, Some("command targets another tenant"))
    else if c.issuer == Agent then
      Verdict(Unauthorized, Some("agent issuers are not authorized for director commands"))
    else if now >= c.expiresAt then Verdict(Expired, Some("command has expired"))
    else if c.expectedGeneration != context.generation then
      Verdict(Rejected, Some("command expected generation is stale"))
    else Verdict(Accepted, None)
  }

  /** When the gate lets a command pass, and with which disposition it turns one away. */
  lemma GateExactly(c: Command, context: Context, now: nat)
    ensures var d, ours := Validate(c, context, now).disposition, c.version == 1 && c.tenant == context.tenant;
      && (d == Accepted <==>
            ours && c.issuer != Agent && now < c.expiresAt && c.expectedGeneration == context.generation)
      && (d == Unauthorized <==> ours && c.issuer == Agent)
      && (d == Expired <==> ours && c.issuer != Agent && c.expiresAt <= now)
      && (d == Rejected <==>
            !ours || (c.issuer != Agent && now < c.expiresAt && c.expectedGeneration != context.generation))
    ensures Validate(c, context, now).reason.None? <==> Validate(c, context, now).disposition == Accepted
  {
  }

  const EXPIRED := Verdict(Expired, Some("command has expired"))
  const DUPLICATE := Verdict(Duplicate, Some("command was already applied"))
  const APPLIED := Verdict(Applied, None)

  predicate Matches(e: Entry, tenant: string, c: Command) {
    e.tenant == tenant && (e.command == c.id || e.key == c.key)
  }

  predicate IsApplied(applied: seq<Entry>, tenant: string, c: Command) {
    exists i | 0 <= i < |applied| :: Matches(applied[i], tenant, c)
  }

  /** Commands of the tenant not yet applied, in the order of publication. */
  function Pending(published: seq<Command>, applied: seq<Entry>, tenant: string): (r: seq<Command>)
    ensures forall i | 0 <= i < |r| :: r[i] in published && r[i].tenant == tenant && !IsApplied(applied, tenant, r[i])
  {
    if published == [] then []
    else
      var rest := Pending(published[1..], applied, tenant);
      if published[0].tenant == tenant && !IsApplied(applied, tenant, published[0]) then [published[0]] + rest else rest
  }

  /** A marker of this tenant carries the command's id or its idempotency key. */
  ghost predicate AlreadyMarked(applied: seq<Entry>, tenant: string, c: Command) {
    exists e | e in applied :: e.tenant == tenant && (e.command == c.id || e.key == c.key)
  }

  lemma AppliedExactly(applied: seq<Entry>, tenant: string, c: Command)
    ensures IsApplied(applied, tenant, c) <==> AlreadyMarked(applied, tenant, c)
  {
    if AlreadyMarked(applied, tenant, c) {
      var e :| e in applied && e.tenant == tenant && (e.command == c.id || e.key == c.key);
      var i :| 0 <= i < |applied| && applied[i] == e;
      assert Matches(applied[i], tenant, c);
    }
  }

  /** Pending are the tenant's commands without a marker, in the order of publication. */
  lemma {:induction false} PendingExactly(published: seq<Command>, applied: seq<Entry>, tenant: string, last: Command)
    ensures Pending([], applied, tenant) == []
    ensures Pending(published + [last], applied, tenant)
         == Pending(published, applied, tenant)
            + if last.tenant == tenant && !AlreadyMarked(applied, tenant, last) then [last] else []
  {
    AppliedExactly(applied, tenant, last);
    hide IsApplied, AlreadyMarked;
    if published == [] {
      assert [last][1..] == [];
    } else {
      PendingExactly(published[1..], applied, tenant, last);
      assert (published + [last])[1..] == published[1..] + [last];
    }
  }

  // ----- steps -------------------------------------------------------------------------------

  /** One step of a draining applier on the command at hand: markers and events it adds, and its
      next phase, none when it gives up. */
  datatype Effect = Effect(marks: seq<Entry>, next: Option<Phase>)

  function Act(applied: seq<Entry>, context: Context, c: Command, phase: Phase, now: nat, active: bool): Effect
    requires !phase.Recording?
  {
    match phase
    case Validating =>
      var verdict := Validate(c, context, now);
      Effect([], Some(if verdict.disposition != Accepted then Recording(verdict, Some(now)) else Checking))
    case Checking =>
      Effect([], Some(if IsApplied(applied, context.tenant, c) then Recording(DUPLICATE, None) else Refreshing))
    case Refreshing =>
      Effect([], Some(if now >= c.expiresAt then Recording(EXPIRED, Some(now)) else Rechecking(now)))
    case Rechecking(now) =>
      Effect([], Some(if IsApplied(applied, context.tenant, c) then Recording(DUPLICATE, None) else Marking(now)))
    case Marking(now) =>
      if !active then Effect([], None)
      else if IsApplied(applied, context.tenant, c) then Effect([], Some(Recording(DUPLICATE, None)))
      else Effect([Entry(context.tenant, c.id, c.key, context.generation, now)], Some(Recording(APPLIED, Some(now))))
  }

  function NextCommand(p: Applier, verdict: Verdict): Applier
    requires p.Draining?
  {
    var results := p.results + [verdict];
    if |results| < |p.pending| then p.(results := results, phase := Validating)
    else Drained(p.context, p.pending, results, p.began)
  }

  function Step(w: World, action: Action): World {
    match action
    case Publish(c) => w.(published := w.published + [c])
    case Begin(a, context, granted) =>
      if a >= |w.appliers| || w.appliers[a].Draining? then w
      else
        var pending := Pending(w.published, w.applied, context.tenant);
        if pending == [] then w.(appliers := w.appliers[a := Drained(context, [], [], |w.audit|)])
        else if !granted then w.(appliers := w.appliers[a := Idle])
        else w.(appliers := w.appliers[a := Draining(context, pending, [], Validating, |w.audit|)])
    case Advance(a, now, active) =>
      if a >= |w.appliers| || !w.appliers[a].Draining? then w else AdvanceApplier(w, a, now, active)
    case Crash(a) =>
      if a >= |w.appliers| then w else w.(appliers := w.appliers[a := Idle])
  }

  function AdvanceApplier(w: World, a: nat, now: nat, active: bool): World
    requires a < |w.appliers| && w.appliers[a].Draining?
  {
    var p := w.appliers[a];
    if |p.results| >= |p.pending| then w
    else
      var c := p.pending[|p.results|];
      if p.phase.Recording? then
        var at := if p.phase.at.Some? then p.phase.at.value else now;
        w.(audit := w.audit + [Event(a, p.context.tenant, c.id, p.phase.verdict, p.context.generation, at)],
           appliers := w.appliers[a := NextCommand(p, p.phase.verdict)])
      else
        var effect := Act(w.applied, p.context, c, p.phase, now, active);
        w.(applied := w.applied + effect.marks,
           appliers := w.appliers[a := if effect.next.Some? then p.(phase := effect.next.value) else Idle])
  }

  function After(w: World, actions: seq<Action>): World {
    if actions == [] then w else Step(After(w, actions[..|actions| - 1]), actions[|actions| - 1])
  }

  function Start(published: seq<Command>, n: nat): World {
    World(published, [], [], seq(n, _ => Idle))
  }

  // ----- what every step keeps -----------------------------------------------------------------

  /** The command passed the gate for this tenant and generation, its expiry aside. */
  ghost predicate Admitted(c: Command, context: Context) {
    && c.version == SCHEMA_VERSION && c.tenant == context.tenant && c.issuer != Agent
    && c.expectedGeneration == context.generation
  }

  /** A marker stands for this published command: right tenant and generation, an authorised
      issuer, and a tick strictly before the expiry. */
  ghost predicate Rightful(e: Entry, c: Command) {
    Admitted(c, Context(e.tenant, e.generation)) && e.command == c.id && e.key == c.key && e.tick < c.expiresAt
  }

  ghost predicate HasRight(published: seq<Command>, e: Entry) {
    exists c :: c in published && Rightful(e, c)
  }

  ghost predicate AllRightful(w: World) {
    forall i | 0 <= i < |w.applied| :: HasRight(w.published, w.applied[i])
  }

  /** Within a tenant neither a command id nor an idempotency key is marked twice. */
  ghost predicate MarkedOnce(applied: seq<Entry>) {
    forall i, j | 0 <= i < j < |applied| && applied[i].tenant == applied[j].tenant ::
      applied[i].command != applied[j].command && applied[i].key != applied[j].key
  }

  ghost predicate Marked(applied: seq<Entry>, tenant: string, id: string) {
    exists i | 0 <= i < |applied| :: applied[i].tenant == tenant && applied[i].command == id
  }

  ghost predicate Announces(e: Event, tenant: string, id: string) {
    e.tenant == tenant && e.command == id && e.verdict.disposition == Applied
  }

  ghost predicate Announced(audit: seq<Event>, tenant: string, id: string) {
    exists i | 0 <= i < |audit| :: Announces(audit[i], tenant, id)
  }

  /** Applied events stand for markers, at most one event for each. */
  ghost predicate AuditTrue(w: World) {
    && (forall i | 0 <= i < |w.audit| && w.audit[i].verdict.disposition == Applied ::
          Marked(w.applied, w.audit[i].tenant, w.audit[i].command))
    && (forall i, j | 0 <= i < j < |w.audit| && w.audit[i].verdict.disposition == Applied ::
          !Announces(w.audit[j], w.audit[i].tenant, w.audit[i].command))
  }

  /** The applier is about to announce a command it has marked. */
  ghost predicate Announcing(p: Applier, tenant: string, id: string) {
    && p.Draining? && p.phase.Recording? && p.phase.verdict.disposition == Applied
    && p.context.tenant == tenant && |p.results| < |p.pending| && p.pending[|p.results|].id == id
  }

  ghost predicate OneAnnouncer(w: World) {
    forall a, b, tenant, id | 0 <= a < b < |w.appliers| && Announcing(w.appliers[a], tenant, id) ::
      !Announcing(w.appliers[b], tenant, id)
  }

  function Mine(events: seq<Event>, a: nat): seq<Event> {
    if events == [] then []
    else Mine(events[..|events| - 1], a) + if events[|events| - 1].writer == a then [events[|events| - 1]] else []
  }

  /** The events are one for each result, in order, with the result's disposition and reason. */
  ghost predicate Reports(events: seq<Event>, context: Context, pending: seq<Command>, results: seq<Verdict>) {
    && |events| == |results| <= |pending|
    && forall i | 0 <= i < |results| ::
         events[i].command == pending[i].id && events[i].tenant == context.tenant && events[i].verdict == results[i]
         && events[i].generation == context.generation
  }

  ghost predicate PhaseInv(w: World, context: Context, c: Command, phase: Phase) {
    match phase
    case Validating => true
    case Checking => Admitted(c, context)
    case Refreshing => Admitted(c, context)
    case Rechecking(now) => Admitted(c, context) && now < c.expiresAt
    case Marking(now) => Admitted(c, context) && now < c.expiresAt
    case Recording(verdict, _) =>
      verdict.disposition != Accepted
      && (verdict.disposition == Applied ==>
            Marked(w.applied, context.tenant, c.id) && !Announced(w.audit, context.tenant, c.id))
  }

  ghost predicate ApplierInv(w: World, a: nat)
    requires a < |w.appliers|
  {
    match w.appliers[a]
    case Idle => true
    case Drained(context, pending, results, began) =>
      |results| == |pending| && began <= |w.audit| && Reports(Mine(w.audit[began..], a), context, pending, results)
    case Draining(context, pending, results, phase, began) =>
      && |results| < |pending| && began <= |w.audit| && Reports(Mine(w.audit[began..], a), context, pending, results)
      && (forall i | 0 <= i < |pending| :: pending[i] in w.published)
      && PhaseInv(w, context, pending[|results|], phase)
  }

  ghost predicate Inv(w: World) {
    && AllRightful(w) && MarkedOnce(w.applied) && AuditTrue(w) && OneAnnouncer(w)
    && forall a | 0 <= a < |w.appliers| :: ApplierInv(w, a)
  }

  // ----- steps keep the invariant ----------------------------------------------------------------

  lemma MineAppend(events: seq<Event>, e: Event, a: nat)
    ensures Mine(events + [e], a) == if e.writer == a then Mine(events, a) + [e] else Mine(events, a)
  {
    assert (events + [e])[..|events|] == events;
  }

  lemma AnnouncedAppend(audit: seq<Event>, e: Event, tenant: string, id: string)
    ensures Announced(audit + [e], tenant, id) <==> Announced(audit, tenant, id) || Announces(e, tenant, id)
  {
    hide Announces;
    var u := audit + [e];
    assert u[|audit|] == e && forall i | 0 <= i < |audit| :: u[i] == audit[i];
  }

  lemma MarkedAppend(applied: seq<Entry>, e: Entry, tenant: string, id: string)
    ensures Marked(applied + [e], tenant, id) <==> Marked(applied, tenant, id) || (e.tenant == tenant && e.command == id)
  {
    var u := applied + [e];
    assert u[|applied|] == e && forall i | 0 <= i < |applied| :: u[i] == applied[i];
  }

  /** What one applier or the director can do to the rest of the world: publish, mark, or write an
      event of its own that announces nothing another applier is about to announce. */
  ghost predicate Grows(w: World, u: World, a: nat, b: nat, news: Option<Event>)
    requires b < |w.appliers|
  {
    && (forall c | c in w.published :: c in u.published)
    && (forall t, id | Marked(w.applied, t, id) :: Marked(u.applied, t, id))
    && u.audit == w.audit + (if news.Some? then [news.value] else [])
    && (news.Some? ==> news.value.writer == a)
    && (news.Some? ==> forall t, id | Announces(news.value, t, id) :: !Announcing(w.appliers[b], t, id))
  }

  /** Another applier's invariant survives. */
  lemma OthersKeep(w: World, u: World, a: nat, b: nat, news: Option<Event>)
    requires b < |w.appliers| == |u.appliers| && b != a && u.appliers[b] == w.appliers[b]
    requires ApplierInv(w, b) && Grows(w, u, a, b, news)
    ensures ApplierInv(u, b)
  {
    hide Marked, Admitted, Reports, Announced, Announces, Mine;
    if !w.appliers[b].Idle? {
      var began := w.appliers[b].began;
      if news.Some? {
        assert u.audit[began..] == w.audit[began..] + [news.value];
        MineAppend(w.audit[began..], news.value, b);
      } else {
        assert u.audit == w.audit;
      }
      if w.appliers[b].Draining? {
        var t, id := w.appliers[b].context.tenant, w.appliers[b].pending[|w.appliers[b].results|].id;
        if news.Some? {
          AnnouncedAppend(w.audit, news.value, t, id);
          assert Announces(news.value, t, id) ==> !Announcing(w.appliers[b], t, id);
        }
      }
    }
  }

  lemma StillRight(published: seq<Command>, c: Command, e: Entry)
    requires HasRight(published, e)
    ensures HasRight(published + [c], e)
  {
    hide Rightful;
    var d :| d in published && Rightful(e, d);
    assert d in published + [c];
  }

  lemma PublishKeeps(w: World, c: Command)
    requires Inv(w)
    ensures Inv(Step(w, Publish(c)))
  {
    hide Reports, Mine, Admitted, HasRight, Marked, Announced, Announcing, ApplierInv;
    var u := Step(w, Publish(c));
    forall i | 0 <= i < |u.applied|
      ensures HasRight(u.published, u.applied[i])
    {
      StillRight(w.published, c, w.applied[i]);
    }
    forall a | 0 <= a < |u.appliers|
      ensures ApplierInv(u, a)
    {
      OthersKeep(w, u, a + 1, a, None);
    }
  }

  /** An applier that starts over or begins to drain. */
  lemma FreshKeeps(w: World, a: nat, p: Applier)
    requires Inv(w) && a < |w.appliers| && (p.Draining? ==> p.phase == Validating)
    requires ApplierInv(w.(appliers := w.appliers[a := p]), a)
    ensures Inv(w.(appliers := w.appliers[a := p]))
  {
    hide Reports, Mine, Admitted, HasRight, Marked, Announced, ApplierInv;
    var u := w.(appliers := w.appliers[a := p]);
    forall b | 0 <= b < |u.appliers|
      ensures ApplierInv(u, b)
    {
      if b != a {
        OthersKeep(w, u, a, b, None);
      }
    }
  }

  lemma BeginKeeps(w: World, a: nat, context: Context, granted: bool)
    requires Inv(w)
    ensures Inv(Step(w, Begin(a, context, granted)))
  {
    hide Inv;
    if a < |w.appliers| && !w.appliers[a].Draining? {
      var pending := Pending(w.published, w.applied, context.tenant);
      assert w.audit[|w.audit|..] == [];
      var p := if pending == [] then Drained(context, [], [], |w.audit|)
        else if !granted then Idle
        else Draining(context, pending, [], Validating, |w.audit|);
      FreshKeeps(w, a, p);
    }
  }

  lemma CrashKeeps(w: World, a: nat)
    requires Inv(w)
    ensures Inv(Step(w, Crash(a)))
  {
    hide Inv;
    if a < |w.appliers| {
      FreshKeeps(w, a, Idle);
    }
  }

  // ----- one step of one applier ------------------------------------------------------------------

  /** A step that neither marks nor reports. */
  lemma QuietKeeps(w: World, a: nat, phase: Phase)
    requires Inv(w) && a < |w.appliers| && w.appliers[a].Draining? && |w.appliers[a].results| < |w.appliers[a].pending|
    requires PhaseInv(w, w.appliers[a].context, w.appliers[a].pending[|w.appliers[a].results|], phase)
    requires phase.Recording? ==> phase.verdict.disposition != Applied
    ensures Inv(w.(appliers := w.appliers[a := w.appliers[a].(phase := phase)]))
  {
    hide Reports, Mine, Admitted, HasRight, Marked, Announced;
    var u := w.(appliers := w.appliers[a := w.appliers[a].(phase := phase)]);
    forall b | 0 <= b < |u.appliers|
      ensures ApplierInv(u, b)
    {
      if b != a {
        OthersKeep(w, u, a, b, None);
      } else {
        assert ApplierInv(w, a);
      }
    }
  }

  lemma NotMarkedYet(w: World, context: Context, c: Command)
    requires Inv(w) && !IsApplied(w.applied, context.tenant, c)
    ensures !Marked(w.applied, context.tenant, c.id) && !Announced(w.audit, context.tenant, c.id)
    ensures forall b | 0 <= b < |w.appliers| :: !Announcing(w.appliers[b], context.tenant, c.id)
  {
    hide Reports, Mine, Admitted, HasRight;
    forall b | 0 <= b < |w.appliers|
      ensures !Announcing(w.appliers[b], context.tenant, c.id)
    {
      assert ApplierInv(w, b);
    }
  }

  lemma MarkedOnceMore(applied: seq<Entry>, e: Entry, c: Command)
    requires MarkedOnce(applied) && e.command == c.id && e.key == c.key && !IsApplied(applied, e.tenant, c)
    ensures MarkedOnce(applied + [e])
  {
    forall i | 0 <= i < |applied| && applied[i].tenant == e.tenant
      ensures applied[i].command != e.command && applied[i].key != e.key
    {
      assert !Matches(applied[i], e.tenant, c);
    }
  }

  /** The step that marks the command at hand. */
  lemma MarkKeeps(w: World, a: nat, now: nat)
    requires Inv(w) && a < |w.appliers| && w.appliers[a].Draining? && w.appliers[a].phase == Marking(now)
    requires |w.appliers[a].results| < |w.appliers[a].pending|
    requires !IsApplied(w.applied, w.appliers[a].context.tenant, w.appliers[a].pending[|w.appliers[a].results|])
    ensures Inv(AdvanceApplier(w, a, now, true))
  {
    hide Reports, Mine, MarkedOnce, Marked, Announced, IsApplied;
    var p := w.appliers[a];
    var context, c := p.context, p.pending[|p.results|];
    var e := Entry(context.tenant, c.id, c.key, context.generation, now);
    var u := AdvanceApplier(w, a, now, true);
    assert ApplierInv(w, a);
    NotMarkedYet(w, context, c);
    MarkedOnceMore(w.applied, e, c);
    forall t, id
      ensures Marked(u.applied, t, id) <==> Marked(w.applied, t, id) || (e.tenant == t && e.command == id)
    {
      MarkedAppend(w.applied, e, t, id);
    }
    assert AllRightful(u) by {
      hide HasRight;
      assert Rightful(e, c) && c in w.published;
      RightNow(w.published, e, c);
    }
    forall b | 0 <= b < |u.appliers|
      ensures ApplierInv(u, b)
    {
      if b != a {
        OthersKeep(w, u, a, b, None);
      }
    }
  }

  lemma RightNow(published: seq<Command>, e: Entry, c: Command)
    requires c in published && Rightful(e, c)
    ensures HasRight(published, e)
  {
  }

  /** The step that writes the audit event and turns to the next command. */
  lemma RecordKeeps(w: World, a: nat, now: nat, active: bool)
    requires Inv(w) && a < |w.appliers| && w.appliers[a].Draining? && w.appliers[a].phase.Recording?
    requires |w.appliers[a].results| < |w.appliers[a].pending|
    ensures Inv(AdvanceApplier(w, a, now, active))
  {
    hide Mine, MarkedOnce, Marked, HasRight, Admitted, Announced;
    var p := w.appliers[a];
    var t, id := p.context.tenant, p.pending[|p.results|].id;
    var u := AdvanceApplier(w, a, now, active);
    var e := u.audit[|w.audit|];
    assert ApplierInv(w, a);
    assert p.phase.verdict.disposition == Applied ==> Announcing(p, t, id);
    forall b | 0 <= b < |u.appliers|
      ensures ApplierInv(u, b)
    {
      if b != a {
        hide Reports;
        OthersKeep(w, u, a, b, Some(e));
      } else {
        OwnReport(w, u, a, e);
      }
    }
    if p.phase.verdict.disposition == Applied {
      EarlierSilent(w.audit, t, id);
    }
    assert u.audit == w.audit + [e];
    AuditGrows(w, u, e);
  }

  lemma OwnReport(w: World, u: World, a: nat, e: Event)
    requires a < |w.appliers| == |u.appliers| && w.appliers[a].Draining? && ApplierInv(w, a)
    requires u.audit == w.audit + [e] && u.published == w.published
    requires var p := w.appliers[a];
      && u.appliers[a] == NextCommand(p, e.verdict) && e.writer == a && e.tenant == p.context.tenant
      && e.command == p.pending[|p.results|].id && e.generation == p.context.generation
    ensures ApplierInv(u, a)
  {
    hide Mine, Marked, Announced, Admitted;
    var p := w.appliers[a];
    assert u.audit[p.began..] == w.audit[p.began..] + [e];
    MineAppend(w.audit[p.began..], e, a);
  }

  lemma EarlierSilent(audit: seq<Event>, t: string, id: string)
    requires !Announced(audit, t, id)
    ensures forall i | 0 <= i < |audit| :: !Announces(audit[i], t, id)
  {
  }

  lemma AuditGrows(w: World, u: World, e: Event)
    requires AuditTrue(w) && u.audit == w.audit + [e] && u.applied == w.applied
    requires e.verdict.disposition == Applied ==>
               Marked(w.applied, e.tenant, e.command)
               && forall i | 0 <= i < |w.audit| :: !Announces(w.audit[i], e.tenant, e.command)
    ensures AuditTrue(u)
  {
    hide Marked;
    forall i | 0 <= i < |w.audit| && w.audit[i].verdict.disposition == Applied
      ensures !Announces(e, w.audit[i].tenant, w.audit[i].command)
    {
      assert Announces(w.audit[i], w.audit[i].tenant, w.audit[i].command);
    }
  }

  /** The steps that only look. */
  lemma LookKeeps(w: World, a: nat, now: nat, active: bool)
    requires Inv(w) && a < |w.appliers| && w.appliers[a].Draining? && !w.appliers[a].phase.Recording?
    requires |w.appliers[a].results| < |w.appliers[a].pending|
    requires !w.appliers[a].phase.Marking? || !active
             || IsApplied(w.applied, w.appliers[a].context.tenant, w.appliers[a].pending[|w.appliers[a].results|])
    ensures Inv(AdvanceApplier(w, a, now, active))
  {
    var p := w.appliers[a];
    var effect := Act(w.applied, p.context, p.pending[|p.results|], p.phase, now, active);
    var u := AdvanceApplier(w, a, now, active);
    assert ApplierInv(w, a);
    hide Inv, Marked, Announced, Reports, Mine;
    assert w.applied + [] == w.applied;
    if effect.next.Some? {
      QuietKeeps(w, a, effect.next.value);
    } else {
      FreshKeeps(w, a, Idle);
    }
  }

  lemma StepKeeps(w: World, action: Action)
    requires Inv(w)
    ensures Inv(Step(w, action))
  {
    match action
    case Publish(c) => PublishKeeps(w, c);
    case Begin(a, context, granted) => BeginKeeps(w, a, context, granted);
    case Crash(a) => CrashKeeps(w, a);
    case Advance(a, now, active) =>
      if a < |w.appliers| && w.appliers[a].Draining? {
        var p := w.appliers[a];
        assert ApplierInv(w, a);
        var c := p.pending[|p.results|];
        hide Inv;
        if p.phase.Recording? {
          RecordKeeps(w, a, now, active);
        } else if p.phase.Marking? && active && !IsApplied(w.applied, p.context.tenant, c) {
          MarkKeeps(w, a, p.phase.now);
        } else {
          LookKeeps(w, a, now, active);
        }
      }
  }

  // ----- what holds over every run -------------------------------------------------------------------

  lemma {:induction false} RunKeeps(w: World, actions: seq<Action>)
    requires Inv(w)
    ensures Inv(After(w, actions))
  {
    hide Inv, Step;
    if actions != [] {
      RunKeeps(w, actions[..|actions| - 1]);
      StepKeeps(After(w, actions[..|actions| - 1]), actions[|actions| - 1]);
    }
  }

  lemma StartInv(published: seq<Command>, n: nat)
    ensures Inv(Start(published, n))
  {
  }

  /** Whatever the interleaving and however often processes crash: within a tenant no command and no
      idempotency key is applied twice, and every marker stands for a published command of that
      tenant and generation, not issued by an agent, at a tick before its expiry. */
  lemma AppliedOnceAndRightly(published: seq<Command>, n: nat, actions: seq<Action>)
    ensures MarkedOnce(After(Start(published, n), actions).applied)
    ensures AllRightful(After(Start(published, n), actions))
  {
    hide *;
    StartInv(published, n);
    RunKeeps(Start(published, n), actions);
    InvGives(After(Start(published, n), actions));
  }

  lemma InvGives(w: World)
    requires Inv(w)
    ensures MarkedOnce(w.applied) && AllRightful(w) && AuditTrue(w)
    ensures forall a | 0 <= a < |w.appliers| :: ApplierInv(w, a)
  {
  }

  /** A drain's results are its audit events since it began: one for each command handled, in order,
      with the disposition and reason returned.  An applied event always has its marker, and no
      command is announced as applied twice. */
  lemma EveryHandlingAudited(published: seq<Command>, n: nat, actions: seq<Action>, a: nat)
    requires a < |After(Start(published, n), actions).appliers|
    ensures var w := After(Start(published, n), actions); var p := w.appliers[a];
            && AuditTrue(w)
            && (p.Drained? ==> |p.results| == |p.pending|)
            && (!p.Idle? ==> p.began <= |w.audit| && Reports(Mine(w.audit[p.began..], a), p.context, p.pending, p.results))
  {
    hide After, Start, Inv, Reports, Mine, AuditTrue;
    StartInv(published, n);
    RunKeeps(Start(published, n), actions);
    InvGives(After(Start(published, n), actions));
    assert ApplierInv(After(Start(published, n), actions), a);
  }

  /** Markers and audit events are only ever added. */
  lemma {:induction false} HistoryGrows(w: World, actions: seq<Action>)
    ensures w.applied <= After(w, actions).applied && w.audit <= After(w, actions).audit
    ensures |After(w, actions).appliers| == |w.appliers|
  {
    if actions != [] {
      HistoryGrows(w, actions[..|actions| - 1]);
    }
  }

  /** Every marker has been announced in the audit or is about to be. */
  ghost predicate NothingSilent(w: World) {
    forall i | 0 <= i < |w.applied| ::
      Announced(w.audit, w.applied[i].tenant, w.applied[i].command)
      || SomeAnnouncing(w.appliers, w.applied[i].tenant, w.applied[i].command)
  }

  ghost predicate SomeAnnouncing(appliers: seq<Applier>, tenant: string, id: string) {
    exists a | 0 <= a < |appliers| :: Announcing(appliers[a], tenant, id)
  }

  lemma AnnouncingKept(w: World, action: Action, tenant: string, id: string)
    requires !action.Crash? && (Announced(w.audit, tenant, id) || SomeAnnouncing(w.appliers, tenant, id))
    ensures Announced(Step(w, action).audit, tenant, id) || SomeAnnouncing(Step(w, action).appliers, tenant, id)
  {
    hide Act, Pending;
    var u := Step(w, action);
    if Announced(w.audit, tenant, id) {
      var i :| 0 <= i < |w.audit| && Announces(w.audit[i], tenant, id);
      assert u.audit[i] == w.audit[i];
    } else {
      var a :| 0 <= a < |w.appliers| && Announcing(w.appliers[a], tenant, id);
      if action.Advance? && action.a == a {
        assert Announces(u.audit[|w.audit|], tenant, id);
      } else {
        assert Announcing(u.appliers[a], tenant, id);
      }
    }
  }

  lemma SilentStep(w: World, action: Action)
    requires NothingSilent(w) && !action.Crash?
    ensures NothingSilent(Step(w, action))
  {
    hide Announced, SomeAnnouncing, Pending;
    var u := Step(w, action);
    forall i | 0 <= i < |u.applied|
      ensures Announced(u.audit, u.applied[i].tenant, u.applied[i].command)
              || SomeAnnouncing(u.appliers, u.applied[i].tenant, u.applied[i].command)
    {
      if i < |w.applied| {
        AnnouncingKept(w, action, w.applied[i].tenant, w.applied[i].command);
      } else {
        SomeoneAnnounces(u.appliers, action.a, u.applied[i].tenant, u.applied[i].command);
      }
    }
  }

  lemma SomeoneAnnounces(appliers: seq<Applier>, a: nat, tenant: string, id: string)
    requires a < |appliers| && Announcing(appliers[a], tenant, id)
    ensures SomeAnnouncing(appliers, tenant, id)
  {
  }

  /** As long as no process crashes, every applied command has its applied event, or its applier is
      about to write it. */
  lemma {:induction false} AppliedIsAudited(published: seq<Command>, n: nat, actions: seq<Action>)
    requires forall i | 0 <= i < |actions| :: !actions[i].Crash?
    ensures NothingSilent(After(Start(published, n), actions))
  {
    hide Step, Announced, SomeAnnouncing;
    if actions != [] {
      AppliedIsAudited(published, n, actions[..|actions| - 1]);
      SilentStep(After(Start(published, n), actions[..|actions| - 1]), actions[|actions| - 1]);
    }
  }
}
