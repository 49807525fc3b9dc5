/** Decision arbitration as a state machine.  Several arbiters work on one tenant; every await of
    `acquire` and `commit` is a point where others may run, time may pass, or the arbiter may crash
    and leave its lease behind.  Journal, snapshot store and writer lease behave as the in-memory
    adapters do; the decision lease is granted or refused at will.  An arbiter never takes a lease
    from its holder.  Other users of the same lease may: the command line and the migration acquire
    it, renew it, release it, and replace an expired holder whose fence they name. */
module DecisionArbiter {
  import opened TenantState
  import opened DecisionJournal
  import opened Options

  /** How long a lease is granted for. */
  type Span = n: int | 0 < n witness 1

  datatype Lease = Lease(fence: nat, generation: nat, expires: nat)

  datatype Reason =
    | Recovery(error: RecoveryError) | Duplicate | TurnRefused | LeaseUnavailable | Stale | AppendRefused
    | CommitConflict | Closed

  /** Where an arbiter is, with the local variables it still needs. */
  datatype Stage =
    | ReadFirst                                        // acquire: about to read the journal
    | LoadFirst(read: seq<Entry>)                      // about to load the snapshot
    | AskWriter(at: Revision)
    | AskDecision(at: Revision)
    | ReadAgain(at: Revision)
    | LoadAgain(at: Revision, read: seq<Entry>)
    | EnsureSnapshot(at: Revision)                     // about to load the snapshot once more
    | Restore(at: Revision)
    | Ticket(at: Revision)                             // acquire has returned a ticket
    | ReadToCommit(at: Revision)                       // commit: leases renewed
    | LoadToCommit(at: Revision, read: seq<Entry>)
    | Append(at: Revision, entry: Entry)
    | StoreState(at: Revision, entry: Entry)           // journaled, snapshot not yet swapped
    | Committed(entry: Entry)
    | Failed(why: Reason)

  /** One call of `acquire`, and the ticket it may lead to.  Fence 0 means no writer lease yet. */
  datatype Task = Task(turn: Turn, id: string, fence: nat, stage: Stage)

  /** `others` are the fences ever issued to lease users that are no arbiters. */
  datatype World = World(
    now: nat,
    nextFence: nat,
    holder: Option<Lease>,
    others: set<nat>,
    journal: seq<Entry>,
    snapshot: Option<Stored>,
    tasks: map<nat, Task>)

  /** What may happen next.  `Run` takes a task to its next await; `grant` answers for the leases
      and `duration` is the time a lease is given.  The last four are what other users of the
      writer lease do. */
  datatype Action =
    | Pass(time: nat)
    | Begin(task: nat, turn: Turn, id: string)
    | Run(task: nat, grant: bool, duration: Span)
    | Commit(task: nat, grant: bool, duration: Span)
    | Close(task: nat)
    | Crash(task: nat)
    | Acquire(generation: nat, duration: Span)
    | Replace(fence: nat, generation: nat, duration: Span)
    | Renew(fence: nat, duration: Span)
    | Leave(fence: nat)

  // ----- leases ---------------------------------------------------------------------------

  /** The fence is the current one, whether or not its time is up. */
  predicate Holds(w: World, fence: nat) {
    w.holder.Some? && w.holder.value.fence == fence
  }

  predicate Active(w: World, fence: nat) {
    Holds(w, fence) && w.now < w.holder.value.expires
  }

  function Release(w: World, fence: nat): World {
    if Holds(w, fence) then w.(holder := None) else w
  }

  /** A new lease under the next fence. */
  function Issue(w: World, generation: nat, duration: Span): World {
    w.(holder := Some(Lease(w.nextFence, generation, w.now + duration)), nextFence := w.nextFence + 1)
  }

  /** A new lease for a user that is no arbiter. */
  function IssueOther(w: World, generation: nat, duration: Span): World {
    Issue(w, generation, duration).(others := w.others + {w.nextFence})
  }

  function Prolong(w: World, duration: Span): World
    requires w.holder.Some?
  {
    w.(holder := Some(w.holder.value.(expires := w.now + duration)))
  }

  function Put(w: World, i: nat, t: Task): World {
    w.(tasks := w.tasks[i := t])
  }

  function To(w: World, i: nat, t: Task, stage: Stage): World {
    Put(w, i, t.(stage := stage))
  }

  /** Give up and release whatever lease is held. */
  function Fail(w: World, i: nat, t: Task, why: Reason): World {
    To(Release(w, t.fence), i, t, Failed(why))
  }

  // ----- steps ----------------------------------------------------------------------------

  predicate SameRevision(a: Revision, b: Revision) {
    a.generation == b.generation && a.digest == b.digest && a.state == b.state
  }

  function NextEntry(s: Setting, at: Revision, turn: Turn, id: string, next: State): Entry {
    Entry(s.initial.tenant, at.generation, at.generation + 1, at.digest, s.hashes.ofState(next), turn, id, next)
  }

  /** The journal appends one entry for the active writer of its generation. */
  predicate AppendAccepts(w: World, fence: nat, at: Revision, entry: Entry) {
    var last := if w.journal == [] then at.generation else w.journal[|w.journal| - 1].generation;
    && Active(w, fence) && w.holder.value.generation == at.generation
    && entry.previousGeneration == last
    && forall k | 0 <= k < |w.journal| :: w.journal[k].id != entry.id
  }

  /** The store swaps the snapshot for the active writer if it is still at that generation. */
  predicate SwapAccepts(w: World, fence: nat, at: Revision) {
    && Active(w, fence) && w.holder.value.generation == at.generation
    && if w.snapshot.Some? then w.snapshot.value.generation == at.generation else at.generation == 0
  }

  /** The store fills a missing snapshot or replaces an older one for the active writer. */
  function RestoreSnapshot(w: World, fence: nat, at: Revision): (bool, World) {
    if !Active(w, fence) || w.holder.value.generation != at.generation then (false, w)
    else if w.snapshot.Some? && w.snapshot.value.generation > at.generation then (false, w)
    else if w.snapshot.Some? && w.snapshot.value.generation == at.generation then
      (w.snapshot.value == AsStored(at), w)
    else (true, w.(snapshot := Some(AsStored(at))))
  }

  /** The stores fail closed: only the active writer of the revision's generation gets through, the
      journal takes only what follows its last entry under a new id, a swap replaces only the
      snapshot of the generation before, and a restore never replaces a newer or a different one. */
  lemma StoresFailClosed(w: World, fence: nat, at: Revision, entry: Entry)
    ensures var writer := Holds(w, fence) && w.now < w.holder.value.expires && w.holder.value.generation == at.generation;
      var (restored, u) := RestoreSnapshot(w, fence, at);
      && (AppendAccepts(w, fence, at, entry) <==>
            && writer && (forall e | e in w.journal :: e.id != entry.id)
            && (w.journal == [] ==> entry.previousGeneration == at.generation)
            && (w.journal != [] ==> entry.previousGeneration == w.journal[|w.journal| - 1].generation))
      && (SwapAccepts(w, fence, at) <==>
            && writer && (w.snapshot.None? ==> at.generation == 0)
            && (w.snapshot.Some? ==> w.snapshot.value.generation == at.generation))
      && (restored <==>
            && writer
            && (w.snapshot.Some? ==> w.snapshot.value == AsStored(at) || w.snapshot.value.generation < at.generation))
      && u == if restored then w.(snapshot := Some(AsStored(at))) else w
  {
    if forall e | e in w.journal :: e.id != entry.id {
      assert forall k | 0 <= k < |w.journal| :: w.journal[k].id != entry.id;
    }
  }

  function AfterFirstLoad(s: Setting, w: World, i: nat, t: Task, read: seq<Entry>): World {
    match Recover(s, read, w.snapshot)
    case Broken(error) => Fail(w, i, t, Recovery(error))
    case Recovered(at) =>
      if t.id in at.seen then Fail(w, i, t, Duplicate)
      else if ObserveTurn(s.hashes, at.state, t.turn, s.initial.tenant).Err? then Fail(w, i, t, TurnRefused)
      else To(w, i, t, AskWriter(at))
  }

  function AfterWriter(w: World, i: nat, t: Task, at: Revision, grant: bool, duration: Span): World {
    if grant && w.holder.None? then
      Put(Issue(w, at.generation, duration), i, t.(fence := w.nextFence, stage := AskDecision(at)))
    else Fail(w, i, t, LeaseUnavailable)
  }

  function AfterSecondLoad(s: Setting, w: World, i: nat, t: Task, at: Revision, read: seq<Entry>): World {
    match Recover(s, read, w.snapshot)
    case Broken(error) => Fail(w, i, t, Recovery(error))
    case Recovered(current) =>
      if !SameRevision(at, current) then Fail(w, i, t, Stale)
      else if t.id in current.seen then Fail(w, i, t, Duplicate)
      else To(w, i, t, EnsureSnapshot(at))
  }

  function AfterEnsure(w: World, i: nat, t: Task, at: Revision): World {
    if w.snapshot.Some? && w.snapshot.value.generation == at.generation then
      if w.snapshot.value == AsStored(at) then To(w, i, t, Ticket(at)) else Fail(w, i, t, Stale)
    else To(w, i, t, Restore(at))
  }

  function AfterRestore(w: World, i: nat, t: Task, at: Revision): World {
    var (ok, next) := RestoreSnapshot(w, t.fence, at);
    if ok then To(next, i, t, Ticket(at)) else Fail(next, i, t, Stale)
  }

  function AfterCommitLoad(s: Setting, w: World, i: nat, t: Task, at: Revision, read: seq<Entry>): World {
    match Recover(s, read, w.snapshot)
    case Broken(error) => Fail(w, i, t, Recovery(error))
    case Recovered(current) =>
      if !SameRevision(current, at) then Fail(w, i, t, Stale)
      else if t.id in current.seen then Fail(w, i, t, Duplicate)
      else
        match ReduceTurn(s.hashes, at.state, t.turn, t.id, s.initial.tenant)
        case Err(error) => Fail(w, i, t, if error == DuplicateDecision then Duplicate else TurnRefused)
        case Ok(next) => To(w, i, t, Append(at, NextEntry(s, at, t.turn, t.id, next)))
  }

  function AfterAppend(w: World, i: nat, t: Task, at: Revision, entry: Entry): World {
    if AppendAccepts(w, t.fence, at, entry) then
      To(w.(journal := w.journal + [entry]), i, t, StoreState(at, entry))
    else Fail(w, i, t, AppendRefused)
  }

  function AfterStore(w: World, i: nat, t: Task, at: Revision, entry: Entry): World {
    if SwapAccepts(w, t.fence, at) then
      To(Release(w.(snapshot := Some(Stored(entry.generation, entry.digest, entry.state))), t.fence), i, t, Committed(entry))
    else Fail(w, i, t, CommitConflict)
  }

  function RunTask(s: Setting, w: World, i: nat, grant: bool, duration: Span): World
    requires i in w.tasks
  {
    var t := w.tasks[i];
    match t.stage
    case ReadFirst => To(w, i, t, LoadFirst(w.journal))
    case LoadFirst(read) => AfterFirstLoad(s, w, i, t, read)
    case AskWriter(at) => AfterWriter(w, i, t, at, grant, duration)
    case AskDecision(at) => if grant then To(w, i, t, ReadAgain(at)) else Fail(w, i, t, LeaseUnavailable)
    case ReadAgain(at) => To(w, i, t, LoadAgain(at, w.journal))
    case LoadAgain(at, read) => AfterSecondLoad(s, w, i, t, at, read)
    case EnsureSnapshot(at) => AfterEnsure(w, i, t, at)
    case Restore(at) => AfterRestore(w, i, t, at)
    case ReadToCommit(at) => To(w, i, t, LoadToCommit(at, w.journal))
    case LoadToCommit(at, read) => AfterCommitLoad(s, w, i, t, at, read)
    case Append(at, entry) => AfterAppend(w, i, t, at, entry)
    case StoreState(at, entry) => AfterStore(w, i, t, at, entry)
    case _ => w
  }

  /** The first await of `commit`: both leases must be current and renewable. */
  function StartCommit(w: World, i: nat, grant: bool, duration: Span): World
    requires i in w.tasks
  {
    var t := w.tasks[i];
    if !t.stage.Ticket? then w
    else if grant && Active(w, t.fence) then
      To(Prolong(w, duration), i, t, ReadToCommit(t.stage.at))
    else Fail(w, i, t, Stale)
  }

  function Step(s: Setting, w: World, a: Action): World {
    match a
    case Pass(time) => w.(now := w.now + time)
    case Begin(i, turn, id) => if i in w.tasks then w else Put(w, i, Task(turn, id, 0, ReadFirst))
    case Run(i, grant, duration) => if i in w.tasks then RunTask(s, w, i, grant, duration) else w
    case Commit(i, grant, duration) => if i in w.tasks then StartCommit(w, i, grant, duration) else w
    case Close(i) =>
      if i in w.tasks && w.tasks[i].stage.Ticket? then Fail(w, i, w.tasks[i], Closed) else w
    case Crash(i) => w.(tasks := w.tasks - {i})
    case Acquire(generation, duration) => if w.holder.None? then IssueOther(w, generation, duration) else w
    case Replace(fence, generation, duration) =>
      if Holds(w, fence) && w.now >= w.holder.value.expires then IssueOther(w, generation, duration) else w
    case Renew(fence, duration) => if fence in w.others && Active(w, fence) then Prolong(w, duration) else w
    case Leave(fence) => if fence in w.others then Release(w, fence) else w
  }

  function Start(): World {
    World(0, 1, None, {}, [], None, map[])
  }

  /** The world after a whole run. */
  function After(s: Setting, run: seq<Action>): World {
    if run == [] then Start() else Step(s, After(s, run[..|run| - 1]), run[|run| - 1])
  }

  // ----- the invariant ----------------------------------------------------------------------

  /** `at` is the replay of some prefix of the journal. */
  ghost predicate Past(s: Setting, w: World, at: Revision) {
    && s.first <= at.generation <= s.first + |w.journal|
    && at == RevisionAt(s, w.journal, at.generation - s.first)
  }

  /** The replay of the whole journal. */
  ghost predicate Newest(s: Setting, w: World, at: Revision) {
    Past(s, w, at) && at.generation == s.first + |w.journal|
  }

  ghost predicate Snapshotted(w: World, at: Revision) {
    w.snapshot == Some(AsStored(at))
  }

  /** What an arbiter knows at each stage.  Clauses under `mine` hold as long as nobody has taken
      over its writer lease. */
  ghost predicate StageOk(s: Setting, w: World, t: Task) {
    var mine := Holds(w, t.fence);
    match t.stage
    case ReadFirst => t.fence == 0
    case LoadFirst(read) => t.fence == 0 && read <= w.journal
    case AskWriter(at) => t.fence == 0 && Past(s, w, at)
    case AskDecision(at) => Past(s, w, at)
    case ReadAgain(at) => Past(s, w, at)
    case LoadAgain(at, read) => Past(s, w, at) && read <= w.journal && (mine ==> read == w.journal)
    case EnsureSnapshot(at) => Past(s, w, at) && (mine ==> Newest(s, w, at))
    case Restore(at) => Past(s, w, at) && (mine ==> Newest(s, w, at))
    case Ticket(at) => Past(s, w, at) && (mine ==> Newest(s, w, at) && Snapshotted(w, at))
    case ReadToCommit(at) => Past(s, w, at) && (mine ==> Newest(s, w, at) && Snapshotted(w, at))
    case LoadToCommit(at, read) =>
      Past(s, w, at) && read <= w.journal && (mine ==> Newest(s, w, at) && Snapshotted(w, at) && read == w.journal)
    case Append(at, entry) =>
      && Past(s, w, at) && (mine ==> Newest(s, w, at) && Snapshotted(w, at)) && t.id !in at.seen
      && ReduceTurn(s.hashes, at.state, t.turn, t.id, s.initial.tenant).Ok?
      && entry == NextEntry(s, at, t.turn, t.id, ReduceTurn(s.hashes, at.state, t.turn, t.id, s.initial.tenant).value)
    case StoreState(at, entry) =>
      && Past(s, w, at) && at.generation < s.first + |w.journal| && w.journal[at.generation - s.first] == entry
      && (mine ==> at.generation + 1 == s.first + |w.journal| && Snapshotted(w, at))
    case Committed(entry) => entry in w.journal && !mine
    case Failed(_) => !mine
  }

  /** A held lease is for the generation the arbiter works on. */
  ghost predicate LeaseOk(w: World, t: Task) {
    && t.fence < w.nextFence
    && (Holds(w, t.fence) ==>
          match t.stage
          case ReadFirst => false
          case LoadFirst(_) => false
          case AskWriter(_) => false
          case Committed(_) => false
          case Failed(_) => false
          case _ => w.holder.value.generation == t.stage.at.generation)
  }

  /** The decision is new to the revision the arbiter works on, and the turn can be observed there. */
  ghost predicate Ready(s: Setting, t: Task, at: Revision) {
    t.id !in at.seen && ObserveTurn(s.hashes, at.state, t.turn, s.initial.tenant).Ok?
  }

  /** An arbiter past its first recovery is ready. */
  ghost predicate ReadyOk(s: Setting, t: Task) {
    match t.stage
    case ReadFirst => true
    case LoadFirst(_) => true
    case Committed(_) => true
    case Failed(_) => true
    case _ => Ready(s, t, t.stage.at)
  }

  ghost predicate TaskOk(s: Setting, w: World, t: Task) {
    StageOk(s, w, t) && LeaseOk(w, t) && ReadyOk(s, t)
  }

  /** No two arbiters, and no arbiter and another user, were ever given the same fence. */
  ghost predicate FencesDiffer(w: World) {
    && (forall i, k | i in w.tasks && k in w.tasks && i != k && w.tasks[i].fence > 0 ::
          w.tasks[i].fence != w.tasks[k].fence)
    && (forall f | f in w.others :: 0 < f < w.nextFence)
    && (forall i | i in w.tasks :: w.tasks[i].fence !in w.others)
  }

  ghost predicate Inv(s: Setting, w: World) {
    && w.nextFence > 0 && (w.holder.Some? ==> 0 < w.holder.value.fence < w.nextFence)
    && ValidJournal(s, w.journal) && OnChain(s, w.journal, w.snapshot)
    && FencesDiffer(w)
    && forall i {:trigger TaskOk(s, w, w.tasks[i])} | i in w.tasks :: TaskOk(s, w, w.tasks[i])
  }

  // ----- preservation -----------------------------------------------------------------------

  /** The journal only grew, and whoever still holds a lease other than fence `g` saw nothing change. */
  ghost predicate Evolves(w: World, w': World, g: nat) {
    && w.journal <= w'.journal && w.nextFence <= w'.nextFence
    && forall f: nat | f != g && f < w.nextFence && Holds(w', f) ::
         Holds(w, f) && w.holder.value.generation == w'.holder.value.generation
         && w.journal == w'.journal && w.snapshot == w'.snapshot
  }

  lemma PastStays(s: Setting, w: World, w': World, at: Revision)
    requires Past(s, w, at) && w.journal <= w'.journal
    ensures Past(s, w', at)
  {
    PrefixRevision(s, w.journal, w'.journal, at.generation - s.first);
  }

  /** A task that did not act is still in order. */
  lemma BystanderOk(s: Setting, w: World, w': World, t: Task, g: nat)
    requires TaskOk(s, w, t) && Evolves(w, w', g) && t.fence != g
    ensures TaskOk(s, w', t)
  {
    match t.stage
    case ReadFirst =>
    case LoadFirst(read) =>
    case Committed(entry) =>
    case Failed(_) =>
    case _ => PastStays(s, w, w', t.stage.at);
  }

  /** A step of one task keeps the invariant if it leaves the task in order and moves nothing
      under the other lease holders. */
  lemma StepKeeps(s: Setting, w: World, w': World, i: nat, t: Task)
    requires Inv(s, w) && i in w.tasks && w'.tasks == w.tasks[i := t] && w'.others == w.others
    requires (t.fence == w.tasks[i].fence && Evolves(w, w', t.fence))
             || (t.fence == w.nextFence < w'.nextFence && Evolves(w, w', w.nextFence))
    requires w'.nextFence > 0 && (w'.holder.Some? ==> 0 < w'.holder.value.fence < w'.nextFence)
    requires ValidJournal(s, w'.journal) && OnChain(s, w'.journal, w'.snapshot) && TaskOk(s, w', t)
    ensures Inv(s, w')
  {
    hide ValidJournal, OnChain, StageOk;
    forall k | k in w'.tasks
      ensures TaskOk(s, w', w'.tasks[k])
    {
      if k != i {
        assert TaskOk(s, w, w.tasks[k]);
        if w.tasks[k].fence == 0 {
          IdleOk(s, w, w', w.tasks[k], t.fence);
        } else {
          BystanderOk(s, w, w', w.tasks[k], t.fence);
        }
      }
    }
    assert FencesDiffer(w') by {
      forall k | k in w.tasks
        ensures w.tasks[k].fence < w.nextFence
      {
        assert TaskOk(s, w, w.tasks[k]);
      }
    }
  }

  /** A task without a lease does not mind what others do. */
  lemma IdleOk(s: Setting, w: World, w': World, t: Task, g: nat)
    requires TaskOk(s, w, t) && t.fence == 0 && Evolves(w, w', g) && w'.nextFence > 0
    requires w'.holder.Some? ==> w'.holder.value.fence > 0
    ensures TaskOk(s, w', t)
  {
    match t.stage
    case ReadFirst =>
    case LoadFirst(read) =>
    case Committed(entry) =>
    case Failed(_) =>
    case _ => PastStays(s, w, w', t.stage.at);
  }

  /** Giving up keeps the invariant. */
  lemma FailKeeps(s: Setting, w: World, i: nat, why: Reason)
    requires Inv(s, w) && i in w.tasks
    ensures Inv(s, Fail(w, i, w.tasks[i], why))
  {
    hide ValidJournal, OnChain;
    assert TaskOk(s, w, w.tasks[i]);
    StepKeeps(s, w, Fail(w, i, w.tasks[i], why), i, w.tasks[i].(stage := Failed(why)));
  }

  /** Moving to a stage that changes nothing but the task keeps the invariant. */
  lemma MoveKeeps(s: Setting, w: World, i: nat, stage: Stage)
    requires Inv(s, w) && i in w.tasks && TaskOk(s, w, w.tasks[i].(stage := stage))
    ensures Inv(s, To(w, i, w.tasks[i], stage))
  {
    hide ValidJournal, OnChain, StageOk;
    var w', t := To(w, i, w.tasks[i], stage), w.tasks[i].(stage := stage);
    SameForTask(s, w, w', t);
    StepKeeps(s, w, w', i, t);
  }

  /** What is true of a task does not depend on the other tasks. */
  lemma SameForTask(s: Setting, w: World, w': World, t: Task)
    requires TaskOk(s, w, t)
    requires w'.journal == w.journal && w'.snapshot == w.snapshot && w'.holder == w.holder && w'.nextFence == w.nextFence
    ensures TaskOk(s, w', t)
  {
  }

  /** Recovery under the invariant: it yields the revision of the prefix that was read, unless the
      snapshot loaded afterwards is already past that prefix. */
  lemma RecoverInv(s: Setting, w: World, read: seq<Entry>)
    requires Inv(s, w) && read <= w.journal
    ensures Recover(s, read, w.snapshot)
         == if w.snapshot.Some? && w.snapshot.value.generation > s.first + |read| then Broken(SnapshotAhead)
            else Recovered(RevisionAt(s, w.journal, |read|))
  {
    hide TaskOk;
    forall k | 0 <= k <= |w.journal|
      ensures StateAt(s, w.journal, k).tenant == s.initial.tenant
    {
      OwnerStays(s, w.journal, k);
    }
    RecoveryOutcome(s, read, w.journal, w.snapshot);
  }

  lemma FirstLoadKeeps(s: Setting, w: World, i: nat, read: seq<Entry>)
    requires Inv(s, w) && i in w.tasks && w.tasks[i].stage == LoadFirst(read)
    ensures Inv(s, AfterFirstLoad(s, w, i, w.tasks[i], read))
  {
    hide Recover;
    var t := w.tasks[i];
    assert TaskOk(s, w, t);
    RecoverInv(s, w, read);
    match Recover(s, read, w.snapshot)
    case Broken(error) => FailKeeps(s, w, i, Recovery(error));
    case Recovered(at) =>
      FailKeeps(s, w, i, Duplicate);
      FailKeeps(s, w, i, TurnRefused);
      if Ready(s, t, at) {
        MoveKeeps(s, w, i, AskWriter(at));
      }
  }

  lemma WriterKeeps(s: Setting, w: World, i: nat, at: Revision, grant: bool, duration: Span)
    requires Inv(s, w) && i in w.tasks && w.tasks[i].stage == AskWriter(at)
    ensures Inv(s, AfterWriter(w, i, w.tasks[i], at, grant, duration))
  {
    hide ValidJournal, OnChain;
    var t, w' := w.tasks[i], AfterWriter(w, i, w.tasks[i], at, grant, duration);
    assert TaskOk(s, w, t);
    if w'.nextFence == w.nextFence {
      FailKeeps(s, w, i, LeaseUnavailable);
    } else {
      StepKeeps(s, w, w', i, t.(fence := w.nextFence, stage := AskDecision(at)));
    }
  }

  lemma SecondLoadKeeps(s: Setting, w: World, i: nat, at: Revision, read: seq<Entry>)
    requires Inv(s, w) && i in w.tasks && w.tasks[i].stage == LoadAgain(at, read)
    ensures Inv(s, AfterSecondLoad(s, w, i, w.tasks[i], at, read))
  {
    hide Recover;
    var t := w.tasks[i];
    assert TaskOk(s, w, t);
    RecoverInv(s, w, read);
    match Recover(s, read, w.snapshot)
    case Broken(error) => FailKeeps(s, w, i, Recovery(error));
    case Recovered(current) =>
      FailKeeps(s, w, i, Stale);
      FailKeeps(s, w, i, Duplicate);
      if SameRevision(at, current) {
        MoveKeeps(s, w, i, EnsureSnapshot(at));
      }
  }

  lemma EnsureKeeps(s: Setting, w: World, i: nat, at: Revision)
    requires Inv(s, w) && i in w.tasks && w.tasks[i].stage == EnsureSnapshot(at)
    ensures Inv(s, AfterEnsure(w, i, w.tasks[i], at))
  {
    assert TaskOk(s, w, w.tasks[i]);
    FailKeeps(s, w, i, Stale);
    MoveKeeps(s, w, i, Restore(at));
    if w.snapshot == Some(AsStored(at)) {
      MoveKeeps(s, w, i, Ticket(at));
    }
  }

  lemma RestoreKeeps(s: Setting, w: World, i: nat, at: Revision)
    requires Inv(s, w) && i in w.tasks && w.tasks[i].stage == Restore(at)
    ensures Inv(s, AfterRestore(w, i, w.tasks[i], at))
  {
    hide ValidJournal;
    var t := w.tasks[i];
    assert TaskOk(s, w, t);
    var (ok, next) := RestoreSnapshot(w, t.fence, at);
    if !ok {
      FailKeeps(s, w, i, Stale);
    } else {
      StepKeeps(s, w, To(next, i, t, Ticket(at)), i, t.(stage := Ticket(at)));
    }
  }

  lemma StartCommitKeeps(s: Setting, w: World, i: nat, grant: bool, duration: Span)
    requires Inv(s, w) && i in w.tasks
    ensures Inv(s, StartCommit(w, i, grant, duration))
  {
    hide ValidJournal, OnChain;
    var t, w' := w.tasks[i], StartCommit(w, i, grant, duration);
    assert TaskOk(s, w, t);
    FailKeeps(s, w, i, Stale);
    if t.stage.Ticket? && grant && Active(w, t.fence) {
      StepKeeps(s, w, w', i, t.(stage := ReadToCommit(t.stage.at)));
    }
  }

  lemma CommitLoadKeeps(s: Setting, w: World, i: nat, at: Revision, read: seq<Entry>)
    requires Inv(s, w) && i in w.tasks && w.tasks[i].stage == LoadToCommit(at, read)
    ensures Inv(s, AfterCommitLoad(s, w, i, w.tasks[i], at, read))
  {
    hide Recover, ReduceTurn;
    var t := w.tasks[i];
    assert TaskOk(s, w, t);
    RecoverInv(s, w, read);
    match Recover(s, read, w.snapshot)
    case Broken(error) => FailKeeps(s, w, i, Recovery(error));
    case Recovered(current) =>
      FailKeeps(s, w, i, Stale);
      FailKeeps(s, w, i, Duplicate);
      FailKeeps(s, w, i, TurnRefused);
      if SameRevision(current, at) && t.id !in current.seen {
        match ReduceTurn(s.hashes, at.state, t.turn, t.id, s.initial.tenant)
        case Err(_) =>
        case Ok(next) => MoveKeeps(s, w, i, Append(at, NextEntry(s, at, t.turn, t.id, next)));
      }
  }

  /** Appending an accepted entry continues the journal. */
  lemma AppendContinues(s: Setting, w: World, t: Task, at: Revision, entry: Entry)
    requires ValidJournal(s, w.journal) && t.stage == Append(at, entry) && StageOk(s, w, t)
    requires at.generation == s.first + |w.journal|
    ensures ValidJournal(s, w.journal + [entry])
  {
    var longer := w.journal + [entry];
    PrefixRevision(s, w.journal, longer, |w.journal|);
    assert Continues(s, longer, |w.journal|);
    ExtendValid(s, w.journal, entry);
  }

  lemma ChainStays(s: Setting, journal: seq<Entry>, longer: seq<Entry>, stored: Option<Stored>)
    requires journal <= longer && OnChain(s, journal, stored)
    ensures OnChain(s, longer, stored)
  {
    if stored.Some? {
      PrefixRevision(s, journal, longer, stored.value.generation - s.first);
    }
  }

  /** A writer that is active never has its entry refused: the journal's own checks repeat what
      the lease already guarantees. */
  lemma ActiveAppends(s: Setting, w: World, i: nat, at: Revision, entry: Entry)
    requires Inv(s, w) && i in w.tasks && w.tasks[i].stage == Append(at, entry)
    ensures AppendAccepts(w, w.tasks[i].fence, at, entry) <==> Active(w, w.tasks[i].fence)
  {
    assert TaskOk(s, w, w.tasks[i]);
    if Active(w, w.tasks[i].fence) {
      if w.journal != [] {
        assert Continues(s, w.journal, |w.journal| - 1);
      }
      forall k | 0 <= k < |w.journal|
        ensures w.journal[k].id != entry.id
      {
        assert w.journal[k].id in at.seen;
      }
    }
  }

  lemma AppendKeeps(s: Setting, w: World, i: nat, at: Revision, entry: Entry)
    requires Inv(s, w) && i in w.tasks && w.tasks[i].stage == Append(at, entry)
    ensures Inv(s, AfterAppend(w, i, w.tasks[i], at, entry))
  {
    hide ReduceTurn;
    var t, w' := w.tasks[i], AfterAppend(w, i, w.tasks[i], at, entry);
    assert TaskOk(s, w, t);
    ActiveAppends(s, w, i, at, entry);
    if Active(w, t.fence) {
      AppendContinues(s, w, t, at, entry);
      ChainStays(s, w.journal, w'.journal, w.snapshot);
      PastStays(s, w, w', at);
      AppendStepKeeps(s, w, w', i, at, entry);
    } else {
      FailKeeps(s, w, i, AppendRefused);
    }
  }

  lemma AppendStepKeeps(s: Setting, w: World, w': World, i: nat, at: Revision, entry: Entry)
    requires Inv(s, w) && i in w.tasks && w.tasks[i].stage == Append(at, entry) && Holds(w, w.tasks[i].fence)
    requires w' == To(w.(journal := w.journal + [entry]), i, w.tasks[i], StoreState(at, entry))
    requires ValidJournal(s, w'.journal) && OnChain(s, w'.journal, w.snapshot) && Past(s, w', at)
    ensures Inv(s, w')
  {
    hide ValidJournal, OnChain, Past, ReduceTurn;
    var t := w.tasks[i];
    assert TaskOk(s, w, t);
    assert at.generation == s.first + |w.journal| by {
      NewestLength(s, w, at);
    }
    StepKeeps(s, w, w', i, t.(stage := StoreState(at, entry)));
  }

  lemma NewestLength(s: Setting, w: World, at: Revision)
    requires Newest(s, w, at)
    ensures at.generation == s.first + |w.journal|
  {
  }

  /** An active writer's swap is never refused: a conflict means that the lease was lost after the
      append. */
  lemma ActiveSwaps(s: Setting, w: World, i: nat, at: Revision, entry: Entry)
    requires Inv(s, w) && i in w.tasks && w.tasks[i].stage == StoreState(at, entry)
    ensures SwapAccepts(w, w.tasks[i].fence, at) <==> Active(w, w.tasks[i].fence)
  {
    assert TaskOk(s, w, w.tasks[i]);
  }

  lemma StoreKeeps(s: Setting, w: World, i: nat, at: Revision, entry: Entry)
    requires Inv(s, w) && i in w.tasks && w.tasks[i].stage == StoreState(at, entry)
    ensures Inv(s, AfterStore(w, i, w.tasks[i], at, entry))
  {
    hide ReduceTurn;
    var t, w' := w.tasks[i], AfterStore(w, i, w.tasks[i], at, entry);
    assert TaskOk(s, w, t);
    if SwapAccepts(w, t.fence, at) {
      var k := at.generation - s.first;
      assert Continues(s, w.journal, k);
      assert w'.snapshot.value == AsStored(RevisionAt(s, w.journal, k + 1));
      StoreStepKeeps(s, w, w', i, at, entry);
    } else {
      FailKeeps(s, w, i, CommitConflict);
    }
  }

  lemma StoreStepKeeps(s: Setting, w: World, w': World, i: nat, at: Revision, entry: Entry)
    requires Inv(s, w) && i in w.tasks && w.tasks[i].stage == StoreState(at, entry) && Holds(w, w.tasks[i].fence)
    requires entry in w.journal && OnChain(s, w.journal, w'.snapshot)
    requires w' == To(w.(snapshot := w'.snapshot, holder := None), i, w.tasks[i], Committed(entry))
    ensures Inv(s, w')
  {
    hide ValidJournal, OnChain, Past, ReduceTurn;
    assert TaskOk(s, w, w.tasks[i]);
    StepKeeps(s, w, w', i, w.tasks[i].(stage := Committed(entry)));
  }

  lemma ReadKeeps(s: Setting, w: World, i: nat)
    requires Inv(s, w) && i in w.tasks
    ensures var t := w.tasks[i];
      match t.stage
      case ReadFirst => Inv(s, To(w, i, t, LoadFirst(w.journal)))
      case AskDecision(at) => Inv(s, To(w, i, t, ReadAgain(at)))
      case ReadAgain(at) => Inv(s, To(w, i, t, LoadAgain(at, w.journal)))
      case ReadToCommit(at) => Inv(s, To(w, i, t, LoadToCommit(at, w.journal)))
      case _ => true
  {
    hide Inv;
    InvTask(s, w, i);
    match w.tasks[i].stage
    case ReadFirst => MoveKeeps(s, w, i, LoadFirst(w.journal));
    case AskDecision(at) => MoveKeeps(s, w, i, ReadAgain(at));
    case ReadAgain(at) => MoveKeeps(s, w, i, LoadAgain(at, w.journal));
    case ReadToCommit(at) => MoveKeeps(s, w, i, LoadToCommit(at, w.journal));
    case _ =>
  }

  lemma InvTask(s: Setting, w: World, i: nat)
    requires Inv(s, w) && i in w.tasks
    ensures TaskOk(s, w, w.tasks[i])
  {
  }

  lemma RunKeeps(s: Setting, w: World, i: nat, grant: bool, duration: Span)
    requires Inv(s, w) && i in w.tasks
    ensures Inv(s, RunTask(s, w, i, grant, duration))
  {
    hide Inv, AfterFirstLoad, AfterWriter, AfterSecondLoad, AfterEnsure, AfterRestore, AfterCommitLoad, AfterAppend,
         AfterStore, Fail, To;
    ReadKeeps(s, w, i);
    match w.tasks[i].stage
    case LoadFirst(read) => FirstLoadKeeps(s, w, i, read);
    case AskWriter(at) => WriterKeeps(s, w, i, at, grant, duration);
    case AskDecision(at) => FailKeeps(s, w, i, LeaseUnavailable);
    case LoadAgain(at, read) => SecondLoadKeeps(s, w, i, at, read);
    case EnsureSnapshot(at) => EnsureKeeps(s, w, i, at);
    case Restore(at) => RestoreKeeps(s, w, i, at);
    case LoadToCommit(at, read) => CommitLoadKeeps(s, w, i, at, read);
    case Append(at, entry) => AppendKeeps(s, w, i, at, entry);
    case StoreState(at, entry) => StoreKeeps(s, w, i, at, entry);
    case _ =>
  }

  /** What happens outside the arbiters leaves their leases apart and moves nothing under them. */
  lemma OutsideFences(s: Setting, w: World, a: Action)
    requires Inv(s, w) && !a.Run? && !a.Commit? && !a.Close?
    ensures FencesDiffer(Step(s, w, a)) && Evolves(w, Step(s, w, a), w.nextFence)
  {
    hide ValidJournal, OnChain, TaskOk;
    forall i | i in w.tasks
      ensures w.tasks[i].fence < w.nextFence
    {
      FenceIssued(s, w, w.tasks[i]);
    }
  }

  /** What happens outside the arbiters keeps the invariant. */
  lemma OutsideKeeps(s: Setting, w: World, a: Action)
    requires Inv(s, w) && !a.Run? && !a.Commit? && !a.Close?
    ensures Inv(s, Step(s, w, a))
  {
    OutsideFences(s, w, a);
    hide ValidJournal, OnChain, TaskOk, Evolves, FencesDiffer;
    var w' := Step(s, w, a);
    forall i | i in w'.tasks
      ensures TaskOk(s, w', w'.tasks[i])
    {
      if i in w.tasks {
        FenceIssued(s, w, w.tasks[i]);
        BystanderOk(s, w, w', w.tasks[i], w.nextFence);
      } else {
        FirstStage(s, w', w'.tasks[i]);
      }
    }
  }

  lemma FenceIssued(s: Setting, w: World, t: Task)
    requires TaskOk(s, w, t)
    ensures t.fence < w.nextFence
  {
  }

  lemma FirstStage(s: Setting, w: World, t: Task)
    requires t.fence == 0 && t.stage == ReadFirst && w.nextFence > 0
    requires w.holder.Some? ==> w.holder.value.fence > 0
    ensures TaskOk(s, w, t)
  {
  }

  /** Every step keeps the invariant. */
  lemma StepInv(s: Setting, w: World, a: Action)
    requires Inv(s, w)
    ensures Inv(s, Step(s, w, a))
  {
    hide Inv;
    match a
    case Run(i, grant, duration) =>
      if i in w.tasks {
        RunKeeps(s, w, i, grant, duration);
      }
    case Commit(i, grant, duration) =>
      if i in w.tasks {
        StartCommitKeeps(s, w, i, grant, duration);
      }
    case Close(i) =>
      if i in w.tasks {
        FailKeeps(s, w, i, Closed);
      }
    case _ => OutsideKeeps(s, w, a);
  }

  lemma {:induction false} RunInv(s: Setting, run: seq<Action>)
    ensures Inv(s, After(s, run))
  {
    hide Inv, Step;
    if run == [] {
      StartInv(s);
    } else {
      RunInv(s, run[..|run| - 1]);
      StepInv(s, After(s, run[..|run| - 1]), run[|run| - 1]);
    }
  }

  lemma StartInv(s: Setting)
    ensures Inv(s, Start())
  {
  }

  // ----- main results -------------------------------------------------------------------------

  /** In every run the journal is a gap-free chain of distinct decisions equal to its replay, and
      the snapshot is missing or the replay at some point of it. */
  lemma JournalAlwaysValid(s: Setting, run: seq<Action>)
    ensures ValidJournal(s, After(s, run).journal)
    ensures OnChain(s, After(s, run).journal, After(s, run).snapshot)
    ensures forall i, k | 0 <= i < k < |After(s, run).journal| ::
              After(s, run).journal[i].id != After(s, run).journal[k].id
  {
    RunInv(s, run);
    DecisionsDistinct(s, After(s, run).journal);
  }

  function SnapshotGeneration(w: World): int {
    if w.snapshot.Some? then w.snapshot.value.generation else -1
  }

  /** Loading and checking changes neither journal nor snapshot. */
  lemma LoadsChangeNothing(s: Setting, w: World, i: nat, t: Task, at: Revision, read: seq<Entry>)
    ensures var u := AfterFirstLoad(s, w, i, t, read); u.journal == w.journal && u.snapshot == w.snapshot
    ensures var u := AfterSecondLoad(s, w, i, t, at, read); u.journal == w.journal && u.snapshot == w.snapshot
    ensures var u := AfterCommitLoad(s, w, i, t, at, read); u.journal == w.journal && u.snapshot == w.snapshot
  {
    hide Recover, ReduceTurn, SameRevision, ObserveTurn, NextEntry;
  }

  lemma StepGrows(s: Setting, w: World, a: Action)
    requires Inv(s, w)
    ensures w.journal <= Step(s, w, a).journal
    ensures SnapshotGeneration(w) <= SnapshotGeneration(Step(s, w, a))
  {
    hide OnChain, AfterFirstLoad, AfterSecondLoad, AfterCommitLoad;
    if a.Run? && a.task in w.tasks {
      var t := w.tasks[a.task];
      match t.stage
      case LoadFirst(read) => LoadsChangeNothing(s, w, a.task, t, RevisionAt(s, [], 0), read);
      case LoadAgain(at, read) => LoadsChangeNothing(s, w, a.task, t, at, read);
      case LoadToCommit(at, read) => LoadsChangeNothing(s, w, a.task, t, at, read);
      case _ =>
    }
    if a.Run? && a.task in w.tasks {
      assert TaskOk(s, w, w.tasks[a.task]);
      if w.tasks[a.task].stage.StoreState? {
        assert Continues(s, w.journal, w.tasks[a.task].stage.at.generation - s.first);
      }
    }
  }

  /** Entries are only ever appended and the snapshot never goes back. */
  lemma {:induction false} HistoryOnlyGrows(s: Setting, run: seq<Action>, more: seq<Action>)
    ensures After(s, run).journal <= After(s, run + more).journal
    ensures SnapshotGeneration(After(s, run)) <= SnapshotGeneration(After(s, run + more))
  {
    hide Inv, Step, SnapshotGeneration;
    if more == [] {
      assert run + more == run;
    } else {
      var front, last := more[..|more| - 1], more[|more| - 1];
      assert (run + more)[..|run + more| - 1] == run + front;
      HistoryOnlyGrows(s, run, front);
      RunInv(s, run + front);
      StepGrows(s, After(s, run + front), last);
    }
  }

  /** The journal prefix a task has read and not yet checked against the snapshot. */
  function PendingRead(stage: Stage): Option<seq<Entry>> {
    match stage
    case LoadFirst(read) => Some(read)
    case LoadAgain(_, read) => Some(read)
    case LoadToCommit(_, read) => Some(read)
    case _ => None
  }

  /** Recovery fails in a run exactly when another arbiter moved the snapshot past the journal
      prefix between the two reads; no other recovery error ever occurs. */
  lemma {:induction false} RecoveryFailsOnlyWhenOvertaken(s: Setting, run: seq<Action>, i: nat)
    requires var w := After(s, run); i in w.tasks && PendingRead(w.tasks[i].stage).Some?
    ensures var w := After(s, run);
      var read := PendingRead(w.tasks[i].stage).value;
      && read <= w.journal
      && (Recover(s, read, w.snapshot).Broken? <==> SnapshotGeneration(w) > s.first + |read|)
      && (Recover(s, read, w.snapshot).Broken? ==> Recover(s, read, w.snapshot) == Broken(SnapshotAhead))
      && (read == w.journal ==> Recover(s, read, w.snapshot).Recovered?)
  {
    hide Recover;
    RunInv(s, run);
    var w := After(s, run);
    InvTask(s, w, i);
    RecoverInv(s, w, PendingRead(w.tasks[i].stage).value);
  }

  /** A successful `acquire` leaves the snapshot equal to the replay of the whole journal, as long
      as the writer lease it returns has not been taken over. */
  lemma {:induction false} AcquireRestoresSnapshot(s: Setting, run: seq<Action>, i: nat)
    requires var w := After(s, run); i in w.tasks && w.tasks[i].stage.Ticket? && Holds(w, w.tasks[i].fence)
    ensures var w := After(s, run);
      && w.snapshot == Some(AsStored(RevisionAt(s, w.journal, |w.journal|)))
      && w.tasks[i].stage.at == RevisionAt(s, w.journal, |w.journal|)
  {
    RunInv(s, run);
    InvTask(s, After(s, run), i);
  }

  /** No lease is replaced in this run. */
  ghost predicate Undisturbed(run: seq<Action>) {
    forall k | 0 <= k < |run| :: !run[k].Replace?
  }

  /** Between the grant of its writer lease and its end. */
  predicate AtWork(stage: Stage) {
    !stage.ReadFirst? && !stage.LoadFirst? && !stage.AskWriter? && !stage.Committed? && !stage.Failed?
  }

  ghost predicate AllHold(w: World) {
    forall i | i in w.tasks && AtWork(w.tasks[i].stage) :: Holds(w, w.tasks[i].fence)
  }

  /** A task's step concerns its own lease only: it keeps it, is issued one that nobody held, or
      ends. */
  ghost predicate OwnLease(w: World, w': World, i: nat) {
    && i in w.tasks && i in w'.tasks && w'.tasks == w.tasks[i := w'.tasks[i]]
    && (AtWork(w'.tasks[i].stage) ==>
          if AtWork(w.tasks[i].stage) then w'.tasks[i].fence == w.tasks[i].fence
          else w.holder.None? && Holds(w', w'.tasks[i].fence))
    && (forall f :: Holds(w, f) && !Holds(w', f) ==> f == w.tasks[i].fence && !AtWork(w'.tasks[i].stage))
    && w'.now == w.now && (w.holder.Some? && w.holder.value.fence != w.tasks[i].fence ==> w'.holder == w.holder)
  }

  /** `u` differs from `w` in nothing that concerns leases or tasks. */
  ghost predicate SameLeases(w: World, u: World) {
    u.holder == w.holder && u.tasks == w.tasks && u.now == w.now
  }

  lemma MovesOwn(w: World, u: World, i: nat)
    requires i in w.tasks && SameLeases(w, u)
    ensures OwnLease(w, w, i)
    ensures forall why :: OwnLease(w, Fail(u, i, w.tasks[i], why), i)
    ensures forall stage | AtWork(stage) ==> AtWork(w.tasks[i].stage) :: OwnLease(w, To(u, i, w.tasks[i], stage), i)
  {
  }

  lemma SameWrites(w: World, fence: nat)
    ensures SameLeases(w, w)
    ensures forall at :: SameLeases(w, RestoreSnapshot(w, fence, at).1)
    ensures forall journal :: SameLeases(w, w.(journal := journal))
  {
  }

  lemma StoreOwn(w: World, i: nat, at: Revision, entry: Entry)
    requires i in w.tasks
    ensures OwnLease(w, AfterStore(w, i, w.tasks[i], at, entry), i)
  {
    MovesOwn(w, w, i);
  }

  lemma WriterOwn(w: World, i: nat, at: Revision, grant: bool, duration: Span)
    requires i in w.tasks && w.tasks[i].stage.AskWriter?
    ensures OwnLease(w, AfterWriter(w, i, w.tasks[i], at, grant, duration), i)
  {
    MovesOwn(w, w, i);
  }

  lemma CommitOwn(w: World, i: nat, grant: bool, duration: Span)
    requires i in w.tasks
    ensures OwnLease(w, StartCommit(w, i, grant, duration), i)
    ensures OwnLease(w, Fail(w, i, w.tasks[i], Closed), i)
  {
    MovesOwn(w, w, i);
  }

  lemma RunOwnLease(s: Setting, w: World, i: nat, grant: bool, duration: Span)
    requires i in w.tasks
    ensures OwnLease(w, RunTask(s, w, i, grant, duration), i)
  {
    hide OwnLease, SameLeases, To, Fail, AfterWriter, AfterStore, RestoreSnapshot, Recover, ReduceTurn, ObserveTurn,
         SameRevision, NextEntry, AppendAccepts, AsStored;
    SameWrites(w, w.tasks[i].fence);
    MovesOwn(w, w, i);
    match w.tasks[i].stage
    case AskWriter(at) => WriterOwn(w, i, at, grant, duration);
    case StoreState(at, entry) => StoreOwn(w, i, at, entry);
    case Restore(at) => MovesOwn(w, RestoreSnapshot(w, w.tasks[i].fence, at).1, i);
    case Append(at, entry) => MovesOwn(w, w.(journal := w.journal + [entry]), i);
    case _ =>
  }

  lemma OwnLeaseHolds(w: World, w': World, i: nat)
    requires AllHold(w) && FencesDiffer(w) && (w.holder.Some? ==> w.holder.value.fence > 0) && OwnLease(w, w', i)
    ensures AllHold(w')
  {
  }

  lemma StepHolds(s: Setting, w: World, a: Action)
    requires Inv(s, w) && AllHold(w) && !a.Replace?
    ensures AllHold(Step(s, w, a))
  {
    hide ValidJournal, OnChain, TaskOk, RunTask, StartCommit, Fail, OwnLease;
    match a
    case Run(i, grant, duration) =>
      if i in w.tasks {
        RunOwnLease(s, w, i, grant, duration);
        OwnLeaseHolds(w, Step(s, w, a), i);
      }
    case Commit(i, grant, duration) =>
      if i in w.tasks {
        CommitOwn(w, i, grant, duration);
        OwnLeaseHolds(w, Step(s, w, a), i);
      }
    case Close(i) =>
      if i in w.tasks && w.tasks[i].stage.Ticket? {
        CommitOwn(w, i, true, 1);
        OwnLeaseHolds(w, Step(s, w, a), i);
      }
    case _ =>
  }

  /** Nobody but its holder and the clock ends an active writer lease. */
  lemma LeaseProtected(s: Setting, w: World, i: nat, a: Action)
    requires Inv(s, w) && i in w.tasks && w.tasks[i].fence > 0 && Active(w, w.tasks[i].fence)
    requires !a.Pass? && (a.Run? || a.Commit? || a.Close? ==> a.task != i)
    ensures Active(Step(s, w, a), w.tasks[i].fence)
  {
    hide ValidJournal, OnChain, TaskOk, RunTask, StartCommit, Fail;
    match a
    case Run(k, grant, duration) =>
      if k in w.tasks {
        RunOwnLease(s, w, k, grant, duration);
      }
    case Commit(k, grant, duration) =>
      if k in w.tasks {
        CommitOwn(w, k, grant, duration);
      }
    case Close(k) =>
      if k in w.tasks && w.tasks[k].stage.Ticket? {
        CommitOwn(w, k, true, 1);
      }
    case _ =>
  }

  /** Unless leases are replaced, an arbiter holds its writer lease until its end, expired or not. */
  lemma {:induction false} KeepsLease(s: Setting, run: seq<Action>)
    requires Undisturbed(run)
    ensures AllHold(After(s, run))
  {
    hide Step, AllHold;
    if run == [] {
      NobodyWorks(s);
    } else {
      var front := run[..|run| - 1];
      RunInv(s, front);
      KeepsLease(s, front);
      StepHolds(s, After(s, front), run[|run| - 1]);
    }
  }

  lemma NobodyWorks(s: Setting)
    ensures AllHold(Start())
  {
  }

  /** Where no lease is ever replaced, at most one arbiter at a time is at work, its ticket always
      finds the snapshot equal to the replay of the whole journal, and nothing that happens between
      its second reading of the journal and its commit makes recovery fail. */
  lemma {:induction false} UndisturbedArbiter(s: Setting, run: seq<Action>, i: nat)
    requires Undisturbed(run)
    requires var w := After(s, run); i in w.tasks && AtWork(w.tasks[i].stage)
    ensures var w := After(s, run); forall k | k in w.tasks && AtWork(w.tasks[k].stage) :: k == i
    ensures var w := After(s, run);
      var full := RevisionAt(s, w.journal, |w.journal|);
      match w.tasks[i].stage
      case Ticket(at) => at == full && w.snapshot == Some(AsStored(full))
      case ReadToCommit(at) => at == full && w.snapshot == Some(AsStored(full))
      case LoadAgain(at, read) => Recover(s, read, w.snapshot) == Recovered(full)
      case LoadToCommit(at, read) => at == full && Recover(s, read, w.snapshot) == Recovered(full)
      case _ => true
  {
    hide Recover, ReduceTurn;
    var w := After(s, run);
    RunInv(s, run);
    KeepsLease(s, run);
    forall k | k in w.tasks && AtWork(w.tasks[k].stage)
      ensures k == i
    {
      InvTask(s, w, k);
      InvTask(s, w, i);
    }
    InvTask(s, w, i);
    RecoverInv(s, w, w.journal);
  }

  /** A returned ticket is for a decision never journaled before and a turn its state accepts; with
      the newest revision at its last check, a commit turns it away only if the decision is the
      initial state's own last one or the count is exhausted. */
  lemma {:induction false} TicketIsGood(s: Setting, run: seq<Action>, i: nat)
    requires var w := After(s, run); i in w.tasks && (w.tasks[i].stage.Ticket? || w.tasks[i].stage.LoadToCommit?)
    ensures var w := After(s, run); var t := w.tasks[i];
      && t.id !in t.stage.at.seen
      && ObserveTurn(s.hashes, t.stage.at.state, t.turn, s.initial.tenant).Ok?
      && (t.stage.LoadToCommit? && Holds(w, t.fence) ==>
            var u := AfterCommitLoad(s, w, i, t, t.stage.at, t.stage.read);
            u.tasks[i].stage.Append? <==>
              t.stage.at.state.lastDecision != Some(t.id) && t.stage.at.state.decisionCount < 0x1f_ffff_ffff_ffff)
      && (t.stage.LoadToCommit? && Holds(w, t.fence) ==>
            var u := AfterCommitLoad(s, w, i, t, t.stage.at, t.stage.read);
            u.tasks[i].stage == Failed(Duplicate) <==> t.stage.at.state.lastDecision == Some(t.id))
  {
    var w := After(s, run);
    RunInv(s, run);
    InvTask(s, w, i);
    var t := w.tasks[i];
    if t.stage.LoadToCommit? && Holds(w, t.fence) {
      hide Recover, ObserveTurn, Inv;
      RecoverInv(s, w, t.stage.read);
      ReduceRecords(s.hashes, t.stage.at.state, t.turn, t.id, s.initial.tenant);
    }
  }

  lemma ReduceRecords(h: Hashes, state: State, turn: Turn, id: string, actor: string)
    requires ObserveTurn(h, state, turn, actor).Ok?
    ensures ReduceTurn(h, state, turn, id, actor).Ok?
       <==> state.lastDecision != Some(id) && state.decisionCount < 0x1f_ffff_ffff_ffff
    ensures ReduceTurn(h, state, turn, id, actor) == Err(DuplicateDecision) <==> state.lastDecision == Some(id)
  {
  }

  /** A refused lease ends `acquire`, a refused renewal `commit`, and a closed ticket is given up; in
      each case nothing changes but that the arbiter's own writer lease, if any, is free again. */
  lemma RefusalReleases(s: Setting, run: seq<Action>, i: nat, duration: Span)
    requires i in After(s, run).tasks
    ensures var w := After(s, run); var t := w.tasks[i];
      var refused, closed := Step(s, w, Run(i, false, duration)), Step(s, w, Close(i));
      && (t.stage.AskWriter? || t.stage.AskDecision? ==>
            refused == (if Holds(w, t.fence) then w.(holder := None) else w).(tasks := refused.tasks)
            && refused.tasks == w.tasks[i := t.(stage := Failed(LeaseUnavailable))])
      && (t.stage.AskWriter? && w.holder.Some? ==> Step(s, w, Run(i, true, duration)) == refused)
      && (t.stage.Ticket? ==>
            closed == (if Holds(w, t.fence) then w.(holder := None) else w).(tasks := closed.tasks)
            && closed.tasks == w.tasks[i := t.(stage := Failed(Closed))]
            && Step(s, w, Commit(i, false, duration)) == closed.(tasks := w.tasks[i := t.(stage := Failed(Stale))]))
  {
    hide After;
  }

  /** A lease issued or renewed is active for exactly its duration from then on. */
  lemma LeaseLasts(s: Setting, w: World, i: nat, at: Revision, duration: Span, time: nat)
    requires i in w.tasks
    ensures w.tasks[i].stage == AskWriter(at) && w.holder.None? ==>
              var u := Step(s, Step(s, w, Run(i, true, duration)), Pass(time));
              i in u.tasks && u.tasks[i].stage == AskDecision(at) && (Active(u, u.tasks[i].fence) <==> time < duration)
    ensures w.tasks[i].stage == Ticket(at) && Active(w, w.tasks[i].fence) ==>
              var u := Step(s, Step(s, w, Commit(i, true, duration)), Pass(time));
              i in u.tasks && u.tasks[i].stage == ReadToCommit(at) && (Active(u, u.tasks[i].fence) <==> time < duration)
  {
  }

  /** A committed decision stays in the journal, whatever happens later. */
  lemma CommittedStays(s: Setting, run: seq<Action>, more: seq<Action>, i: nat)
    requires i in After(s, run).tasks && After(s, run).tasks[i].stage.Committed?
    ensures After(s, run).tasks[i].stage.entry in After(s, run + more).journal
  {
    RunInv(s, run);
    InvTask(s, After(s, run), i);
    HistoryOnlyGrows(s, run, more);
  }

  /** An active writer is never refused by journal or store. */
  lemma ActiveWriterSucceeds(s: Setting, run: seq<Action>, i: nat)
    requires var w := After(s, run); i in w.tasks && Active(w, w.tasks[i].fence)
    ensures var w := After(s, run); var t := w.tasks[i];
      match t.stage
      case Append(at, entry) => AfterAppend(w, i, t, at, entry).journal == w.journal + [entry]
      case StoreState(at, entry) => AfterStore(w, i, t, at, entry).tasks[i].stage == Committed(entry)
      case _ => true
  {
    hide Inv;
    RunInv(s, run);
    var w := After(s, run);
    match w.tasks[i].stage
    case Append(at, entry) => ActiveAppends(s, w, i, at, entry);
    case StoreState(at, entry) => ActiveSwaps(s, w, i, at, entry);
    case _ =>
  }

  // ----- what lost leases can still do --------------------------------------------------------

  lemma Extend(s: Setting, run: seq<Action>, a: Action) returns (longer: seq<Action>)
    ensures longer == run + [a] && After(s, longer) == Step(s, After(s, run), a)
  {
    longer := run + [a];
    assert longer[..|longer| - 1] == run;
  }

  lemma RecoverInitial(s: Setting, stored: Option<Stored>)
    requires stored.Some? ==> stored.value == AsStored(RevisionAt(s, [], 0))
    ensures Recover(s, [], stored) == Recovered(RevisionAt(s, [], 0))
    ensures RevisionAt(s, [], 0).seen == {} && RevisionAt(s, [], 0).generation == s.first
  {
  }

  /** The first recovery of an arbiter on an empty journal. */
  lemma ReachesWriter(s: Setting, run: seq<Action>, i: nat, turn: Turn, id: string)
    returns (longer: seq<Action>)
    requires var w := After(s, run); i !in w.tasks && w.journal == [] && w.snapshot.None?
    requires ReduceTurn(s.hashes, s.initial, turn, id, s.initial.tenant).Ok?
    ensures var w := After(s, run);
      After(s, longer) == Put(w, i, Task(turn, id, 0, AskWriter(RevisionAt(s, [], 0))))
  {
    hide Recover, ReduceTurn, ObserveTurn, After;
    var w := After(s, run);
    RecoverInitial(s, None);
    AcceptedIsObserved(s, turn, id);
    longer := Extend(s, run, Begin(i, turn, id));
    assert After(s, longer) == Put(w, i, Task(turn, id, 0, ReadFirst));
    longer := Extend(s, longer, Run(i, true, 1));
    assert After(s, longer) == Put(w, i, Task(turn, id, 0, LoadFirst([])));
    longer := Extend(s, longer, Run(i, true, 1));
  }

  /** An arbiter on an empty journal takes the writer lease. */
  lemma ReachesLease(s: Setting, run: seq<Action>, i: nat, turn: Turn, id: string, duration: Span)
    returns (longer: seq<Action>)
    requires var w := After(s, run); i !in w.tasks && w.journal == [] && w.snapshot.None? && w.holder.None?
    requires ReduceTurn(s.hashes, s.initial, turn, id, s.initial.tenant).Ok?
    ensures var w := After(s, run);
      After(s, longer) == Put(Issue(w, s.first, duration), i, Task(turn, id, w.nextFence, AskDecision(RevisionAt(s, [], 0))))
  {
    hide Recover, ReduceTurn, ObserveTurn, After;
    RecoverInitial(s, None);
    longer := ReachesWriter(s, run, i, turn, id);
    longer := Extend(s, longer, Run(i, true, duration));
  }

  /** An arbiter on an empty journal, alone since it began, gets as far as its last check. */
  lemma ReachesLastCheck(s: Setting, run: seq<Action>, i: nat, turn: Turn, id: string, duration: Span)
    returns (longer: seq<Action>)
    requires var w := After(s, run); i !in w.tasks && w.journal == [] && w.snapshot.None? && w.holder.None?
    requires ReduceTurn(s.hashes, s.initial, turn, id, s.initial.tenant).Ok?
    ensures var w := After(s, run);
      After(s, longer)
        == Put(Issue(w, s.first, duration), i, Task(turn, id, w.nextFence, EnsureSnapshot(RevisionAt(s, [], 0))))
  {
    hide Recover, ReduceTurn, ObserveTurn, After;
    var w, at := After(s, run), RevisionAt(s, [], 0);
    RecoverInitial(s, None);
    longer := ReachesLease(s, run, i, turn, id, duration);
    var leased := Issue(w, s.first, duration);
    longer := Extend(s, longer, Run(i, true, 1));
    assert After(s, longer) == Put(leased, i, Task(turn, id, w.nextFence, ReadAgain(at)));
    longer := Extend(s, longer, Run(i, true, 1));
    assert After(s, longer) == Put(leased, i, Task(turn, id, w.nextFence, LoadAgain(at, [])));
    longer := Extend(s, longer, Run(i, true, 1));
  }

  lemma AcceptedIsObserved(s: Setting, turn: Turn, id: string)
    requires ReduceTurn(s.hashes, s.initial, turn, id, s.initial.tenant).Ok?
    ensures ObserveTurn(s.hashes, s.initial, turn, s.initial.tenant).Ok?
  {
  }

  /** From its last check, an active arbiter gets its ticket and starts to commit. */
  lemma ReachesCommit(s: Setting, run: seq<Action>, i: nat) returns (longer: seq<Action>)
    requires var w := After(s, run);
      && i in w.tasks && w.tasks[i].stage == EnsureSnapshot(RevisionAt(s, [], 0)) && Active(w, w.tasks[i].fence)
      && w.holder.value.generation == s.first && w.journal == [] && w.snapshot.None?
    ensures var w, at := After(s, run), RevisionAt(s, [], 0);
      After(s, longer) == To(Prolong(w, 1).(snapshot := Some(AsStored(at))),
                             i, w.tasks[i], LoadToCommit(at, []))
  {
    hide Recover, After;
    var w, at := After(s, run), RevisionAt(s, [], 0);
    var t := w.tasks[i];
    longer := Extend(s, run, Run(i, true, 1));
    assert After(s, longer) == To(w, i, t, Restore(at));
    longer := Extend(s, longer, Run(i, true, 1));
    assert After(s, longer) == To(w.(snapshot := Some(AsStored(at))), i, t, Ticket(at));
    longer := Extend(s, longer, Commit(i, true, 1));
    longer := Extend(s, longer, Run(i, true, 1));
  }

  /** From its last check, an active arbiter goes on to append its entry; the snapshot is then
      still the initial state. */
  lemma ReachesAppend(s: Setting, run: seq<Action>, i: nat, turn: Turn, id: string)
    returns (longer: seq<Action>, entry: Entry)
    requires var w := After(s, run);
      && i in w.tasks && w.tasks[i].stage == EnsureSnapshot(RevisionAt(s, [], 0))
      && w.tasks[i].turn == turn && w.tasks[i].id == id && Active(w, w.tasks[i].fence)
      && w.holder.value.generation == s.first && w.journal == [] && w.snapshot.None?
    requires ReduceTurn(s.hashes, s.initial, turn, id, s.initial.tenant).Ok?
    ensures entry.generation == s.first + 1
    ensures var w, at := After(s, run), RevisionAt(s, [], 0);
      After(s, longer) == To(Prolong(w, 1).(snapshot := Some(AsStored(at)),
                                journal := [entry]),
                             i, w.tasks[i], StoreState(at, entry))
  {
    hide Recover, ReduceTurn, After;
    var w, at := After(s, run), RevisionAt(s, [], 0);
    RecoverInitial(s, Some(AsStored(at)));
    entry := NextEntry(s, at, turn, id, ReduceTurn(s.hashes, s.initial, turn, id, s.initial.tenant).value);
    longer := ReachesCommit(s, run, i);
    var ready := Prolong(w, 1).(snapshot := Some(AsStored(at)));
    longer := Extend(s, longer, Run(i, true, 1));
    assert After(s, longer) == To(ready, i, w.tasks[i], Append(at, entry));
    longer := Extend(s, longer, Run(i, true, 1));
  }

  /** While an arbiter is at its last check, its lease expires, another user replaces it and
      leaves. */
  lemma LosesLease(s: Setting, turn: Turn, id: string) returns (run: seq<Action>)
    requires ReduceTurn(s.hashes, s.initial, turn, id, s.initial.tenant).Ok?
    ensures After(s, run)
         == World(1, 3, None, {2}, [], None, map[1 := Task(turn, id, 1, EnsureSnapshot(RevisionAt(s, [], 0)))])
  {
    AfterNothing(s);
    hide ReduceTurn, Recover, After;
    var at := RevisionAt(s, [], 0);
    var tasks := map[1 := Task(turn, id, 1, EnsureSnapshot(at))];
    run := ReachesLastCheck(s, [], 1, turn, id, 1);
    assert After(s, run) == World(0, 2, Some(Lease(1, s.first, 1)), {}, [], None, tasks);
    run := Extend(s, run, Pass(1));
    run := Extend(s, run, Replace(1, s.first, 1));
    assert After(s, run) == World(1, 3, Some(Lease(2, s.first, 2)), {2}, [], None, tasks);
    run := Extend(s, run, Leave(2));
  }

  /** Where leases are replaced, a successful `acquire` promises less: if it lost its lease between
      the second recovery and the last check, the ticket is returned although the journal has moved
      on and the snapshot is behind it. */
  lemma StaleTicket(s: Setting, turn: Turn, id: string) returns (run: seq<Action>)
    requires ReduceTurn(s.hashes, s.initial, turn, id, s.initial.tenant).Ok?
    ensures var w := After(s, run);
      && 1 in w.tasks && w.tasks[1].stage.Ticket? && !Holds(w, w.tasks[1].fence)
      && w.snapshot != Some(AsStored(RevisionAt(s, w.journal, |w.journal|)))
  {
    hide ReduceTurn;
    run := LosesLease(s, turn, id);
    run := ReachesLastCheck(s, run, 2, turn, id, 1);
    var entry;
    run, entry := ReachesAppend(s, run, 2, turn, id);
    run := Extend(s, run, Run(1, true, 1));
  }

  /** One arbiter has read the empty journal when another commits. */
  lemma CommitsInBetween(s: Setting, turn: Turn, id: string) returns (run: seq<Action>)
    requires ReduceTurn(s.hashes, s.initial, turn, id, s.initial.tenant).Ok?
    ensures var w := After(s, run);
      && 1 in w.tasks && w.tasks[1].stage == LoadFirst([])
      && w.snapshot.Some? && w.snapshot.value.generation == s.first + 1
  {
    AfterNothing(s);
    hide ReduceTurn, Recover, After;
    run := Extend(s, [], Begin(1, turn, id));
    run := Extend(s, run, Run(1, true, 1));
    assert After(s, run) == Put(Start(), 1, Task(turn, id, 0, LoadFirst([])));
    run := ReachesLastCheck(s, run, 2, turn, id, 1);
    var entry;
    run, entry := ReachesAppend(s, run, 2, turn, id);
    run := Extend(s, run, Run(2, true, 1));
  }

  lemma AfterNothing(s: Setting)
    ensures After(s, []) == Start()
  {
  }

  /** Reading journal and snapshot one after the other, an arbiter may be overtaken: its recovery
      then reports a snapshot ahead of the journal although both are sound. */
  lemma OvertakenRecovery(s: Setting, turn: Turn, id: string) returns (run: seq<Action>)
    requires ReduceTurn(s.hashes, s.initial, turn, id, s.initial.tenant).Ok?
    ensures var w := After(s, run);
      1 in w.tasks && w.tasks[1].stage == Failed(Recovery(SnapshotAhead))
  {
    hide ReduceTurn, Recover, After, Inv;
    run := CommitsInBetween(s, turn, id);
    RunInv(s, run);
    RecoverInv(s, After(s, run), []);
    run := Extend(s, run, Run(1, true, 1));
  }
}
