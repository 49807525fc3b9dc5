/** The decision journal, the state snapshot, and recovery from both. */
module DecisionJournal {
  import opened TenantState
  import opened Options

  /** What all arbiters of a tenant agree on. */
  datatype Setting = Setting(hashes: Hashes, initial: State, first: nat)

  datatype Entry = Entry(
    tenant: string, previousGeneration: nat, generation: nat, previousDigest: string, digest: string,
    turn: Turn, id: string, state: State)

  datatype Stored = Stored(generation: nat, digest: string, state: State)

  datatype Revision = Revision(generation: nat, digest: string, state: State, seen: set<string>)

  datatype RecoveryError =
    | CrossedTenant | NotContiguous | DigestBroken | DuplicateId | ReplayFailed | ReplayDiffers
    | StoredCrossedTenant | StoredDigestBroken | SnapshotAhead | SnapshotConflicts

  datatype Recovery = Recovered(revision: Revision) | Broken(error: RecoveryError)

  // ----- what a journal means ---------------------------------------------------------------

  /** The state after the first `k` entries. */
  function StateAt(s: Setting, journal: seq<Entry>, k: nat): State
    requires k <= |journal|
  {
    if k == 0 then s.initial else journal[k - 1].state
  }

  function IdsOf(journal: seq<Entry>, k: nat): set<string>
    requires k <= |journal|
  {
    set i | 0 <= i < k :: journal[i].id
  }

  function RevisionAt(s: Setting, journal: seq<Entry>, k: nat): Revision
    requires k <= |journal|
  {
    var state := StateAt(s, journal, k);
    Revision(s.first + k, s.hashes.ofState(state), state, IdsOf(journal, k))
  }

  /** Entry `k` continues the journal before it by one deterministic reducer step. */
  ghost predicate Continues(s: Setting, journal: seq<Entry>, k: nat)
    requires k < |journal|
  {
    var e, before := journal[k], StateAt(s, journal, k);
    && e.tenant == s.initial.tenant
    && e.previousGeneration == s.first + k && e.generation == s.first + k + 1
    && e.previousDigest == s.hashes.ofState(before)
    && e.id !in IdsOf(journal, k)
    && ReduceTurn(s.hashes, before, e.turn, e.id, s.initial.tenant) == Ok(e.state)
    && e.digest == s.hashes.ofState(e.state)
  }

  /** A gap-free generation chain with distinct decisions, equal to the reducer's replay. */
  ghost predicate ValidJournal(s: Setting, journal: seq<Entry>) {
    forall k {:trigger Continues(s, journal, k)} | 0 <= k < |journal| :: Continues(s, journal, k)
  }

  lemma PrefixRevision(s: Setting, journal: seq<Entry>, longer: seq<Entry>, k: nat)
    requires journal <= longer && k <= |journal|
    ensures RevisionAt(s, journal, k) == RevisionAt(s, longer, k)
  {
    assert IdsOf(journal, k) == IdsOf(longer, k);
  }

  lemma PrefixValid(s: Setting, journal: seq<Entry>, longer: seq<Entry>)
    requires journal <= longer && ValidJournal(s, longer)
    ensures ValidJournal(s, journal)
  {
    forall k | 0 <= k < |journal|
      ensures Continues(s, journal, k)
    {
      assert Continues(s, longer, k);
      PrefixRevision(s, journal, longer, k);
    }
  }

  lemma ExtendValid(s: Setting, journal: seq<Entry>, e: Entry)
    requires ValidJournal(s, journal) && Continues(s, journal + [e], |journal|)
    ensures ValidJournal(s, journal + [e])
  {
    forall k | 0 <= k < |journal + [e]|
      ensures Continues(s, journal + [e], k)
    {
      if k < |journal| {
        assert Continues(s, journal, k);
        PrefixRevision(s, journal, journal + [e], k);
      }
    }
  }

  /** No decision is recorded twice. */
  lemma DecisionsDistinct(s: Setting, journal: seq<Entry>)
    requires ValidJournal(s, journal)
    ensures forall i, k | 0 <= i < k < |journal| :: journal[i].id != journal[k].id
  {
    forall i, k | 0 <= i < k < |journal|
      ensures journal[i].id != journal[k].id
    {
      assert Continues(s, journal, k) && journal[i].id in IdsOf(journal, k);
    }
  }

  /** Along a valid journal the owner stays, ticks never fall and decisions are counted. */
  lemma {:induction false} JournalAdvances(s: Setting, journal: seq<Entry>, k: nat)
    requires ValidJournal(s, journal) && k <= |journal|
    requires ValidState(s.initial) && forall i | 0 <= i < |journal| :: ValidTurn(journal[i].turn)
    ensures var state := StateAt(s, journal, k);
      && ValidState(state) && state.tenant == s.initial.tenant
      && state.decisionCount == s.initial.decisionCount + k
      && (forall i | 0 <= i <= k :: StateAt(s, journal, i).world.tick <= state.world.tick)
      && (k > 0 ==> state.lastDecision == Some(journal[k - 1].id))
  {
    if k > 0 {
      JournalAdvances(s, journal, k - 1);
      assert Continues(s, journal, k - 1);
      ReduceAdvances(s.hashes, StateAt(s, journal, k - 1), journal[k - 1].turn, journal[k - 1].id, s.initial.tenant);
    }
  }

  /** Resources gained over the first `k` entries, read off the recorded deltas: those of the entries
      that brought a new tick. */
  function Gained(s: Setting, journal: seq<Entry>, k: nat): int
    requires k <= |journal|
  {
    if k == 0 then 0
    else
      var before, after := StateAt(s, journal, k - 1), StateAt(s, journal, k);
      Gained(s, journal, k - 1) + if after.world.tick > before.world.tick then after.economy.resourceDelta else 0
  }

  function Grown(s: Setting, journal: seq<Entry>, k: nat): int
    requires k <= |journal|
  {
    if k == 0 then 0
    else
      var before, after := StateAt(s, journal, k - 1), StateAt(s, journal, k);
      Grown(s, journal, k - 1) + if after.world.tick > before.world.tick then after.economy.populationDelta else 0
  }

  /** Along a valid journal the recorded deltas add up to the difference between last and first. */
  lemma {:induction false} DeltasTelescope(s: Setting, journal: seq<Entry>, k: nat)
    requires ValidJournal(s, journal) && k <= |journal|
    requires ValidState(s.initial) && forall i | 0 <= i < |journal| :: ValidTurn(journal[i].turn)
    ensures s.initial.economy.resources + Gained(s, journal, k) == StateAt(s, journal, k).economy.resources
    ensures s.initial.economy.population + Grown(s, journal, k) == StateAt(s, journal, k).economy.population
  {
    if k > 0 {
      DeltasTelescope(s, journal, k - 1);
      JournalAdvances(s, journal, k - 1);
      assert Continues(s, journal, k - 1);
      var before, e := StateAt(s, journal, k - 1), journal[k - 1];
      ReduceAdvances(s.hashes, before, e.turn, e.id, s.initial.tenant);
      ReduceSettles(s.hashes, before, e.turn, e.id, s.initial.tenant);
      hide ReduceTurn, ValidTurn, ValidJournal;
    }
  }

  // ----- recovery -------------------------------------------------------------------------

  /** Check one entry against the revision replayed so far. */
  function Replay(s: Setting, before: Revision, e: Entry): Recovery {
    var tenant := s.initial.tenant;
    if e.tenant != tenant then Broken(CrossedTenant)
    else if e.previousGeneration != before.generation || e.generation != before.generation + 1 then Broken(NotContiguous)
    else if e.previousDigest != before.digest then Broken(DigestBroken)
    else if e.id in before.seen then Broken(DuplicateId)
    else
      var replayed := ReduceTurn(s.hashes, before.state, e.turn, e.id, tenant);
      if replayed.Err? then Broken(ReplayFailed)
      else if replayed.value != e.state || s.hashes.ofState(replayed.value) != e.digest then Broken(ReplayDiffers)
      else Recovered(Revision(e.generation, s.hashes.ofState(replayed.value), replayed.value, before.seen + {e.id}))
  }

  function ReplayAll(s: Setting, journal: seq<Entry>): Recovery {
    if journal == [] then Recovered(RevisionAt(s, [], 0))
    else
      var before := ReplayAll(s, journal[..|journal| - 1]);
      if before.Broken? then before else Replay(s, before.revision, journal[|journal| - 1])
  }

  /** Check the stored snapshot against the replayed revision. */
  function CheckStored(s: Setting, at: Revision, stored: Option<Stored>): Recovery {
    if stored.None? then Recovered(at)
    else
      var snap := stored.value;
      if snap.state.tenant != s.initial.tenant then Broken(StoredCrossedTenant)
      else if s.hashes.ofState(snap.state) != snap.digest then Broken(StoredDigestBroken)
      else if snap.generation > at.generation then Broken(SnapshotAhead)
      else if snap.generation == at.generation && (snap.digest != at.digest || snap.state != at.state) then
        Broken(SnapshotConflicts)
      else Recovered(at)
  }

  function Recover(s: Setting, journal: seq<Entry>, stored: Option<Stored>): Recovery {
    var replayed := ReplayAll(s, journal);
    if replayed.Broken? then replayed else CheckStored(s, replayed.revision, stored)
  }

  /** Replay accepts exactly the valid journals, and ends in their last revision. */
  lemma {:induction false} ReplayAccepts(s: Setting, journal: seq<Entry>)
    ensures ReplayAll(s, journal).Recovered? <==> ValidJournal(s, journal)
    ensures ReplayAll(s, journal).Recovered? ==> ReplayAll(s, journal).revision == RevisionAt(s, journal, |journal|)
  {
    if journal == [] {
      assert IdsOf(journal, 0) == IdsOf([], 0);
    } else {
      var front, n := journal[..|journal| - 1], |journal| - 1;
      ReplayAccepts(s, front);
      PrefixRevision(s, front, journal, n);
      assert journal == front + [journal[n]];
      assert IdsOf(journal, n + 1) == IdsOf(journal, n) + {journal[n].id};
      if ValidJournal(s, journal) {
        PrefixValid(s, front, journal);
        assert Continues(s, journal, n);
      }
      if ReplayAll(s, journal).Recovered? {
        ExtendValid(s, front, journal[n]);
      }
    }
  }

  /** Recovery succeeds exactly on a valid journal whose snapshot, if there is one, is the tenant's own,
      carries its own digest, is not ahead, and at the same generation agrees with the replay; a
      refused snapshot is refused for the first of these it fails. */
  lemma RecoversExactly(s: Setting, journal: seq<Entry>, stored: Option<Stored>)
    ensures var last := RevisionAt(s, journal, |journal|);
      Recover(s, journal, stored).Recovered? <==>
        && ValidJournal(s, journal)
        && (stored.Some? ==>
              && stored.value.state.tenant == s.initial.tenant
              && stored.value.digest == s.hashes.ofState(stored.value.state)
              && stored.value.generation <= last.generation
              && (stored.value.generation == last.generation ==>
                    stored.value.digest == last.digest && stored.value.state == last.state))
    ensures ValidJournal(s, journal) && stored.Some? ==>
      var r, snap := Recover(s, journal, stored), stored.value;
      var foreign, forged := snap.state.tenant != s.initial.tenant, snap.digest != s.hashes.ofState(snap.state);
      && (r == Broken(StoredCrossedTenant) <==> foreign)
      && (r == Broken(StoredDigestBroken) <==> !foreign && forged)
      && (r == Broken(SnapshotAhead) <==> !foreign && !forged && snap.generation > s.first + |journal|)
  {
    hide ValidJournal, ReplayAll;
    ReplayAccepts(s, journal);
  }

  /** Recovery in the program's own form: one pass over the journal, then the snapshot. */
  method RecoverTenant(s: Setting, journal: seq<Entry>, stored: Option<Stored>) returns (r: Recovery)
    ensures r == Recover(s, journal, stored)
    ensures r.Recovered? ==> ValidJournal(s, journal) && r.revision == RevisionAt(s, journal, |journal|)
  {
    hide ReduceTurn;
    var generation, state, seen := s.first, s.initial, {};
    var digest := s.hashes.ofState(state);
    var tenant := s.initial.tenant;
    ghost var all := Recover(s, journal, stored);
    for k := 0 to |journal|
      invariant ReplayAll(s, journal[..k]) == Recovered(Revision(generation, digest, state, seen))
    {
      assert journal[..k + 1][..k] == journal[..k];
      var e := journal[k];
      if e.tenant != tenant {
        BrokenStays(s, journal, k + 1);
        return Broken(CrossedTenant);
      }
      if e.previousGeneration != generation || e.generation != generation + 1 {
        BrokenStays(s, journal, k + 1);
        return Broken(NotContiguous);
      }
      if e.previousDigest != digest {
        BrokenStays(s, journal, k + 1);
        return Broken(DigestBroken);
      }
      if e.id in seen {
        BrokenStays(s, journal, k + 1);
        return Broken(DuplicateId);
      }
      var replayed := ReduceTurn(s.hashes, state, e.turn, e.id, tenant);
      if replayed.Err? {
        BrokenStays(s, journal, k + 1);
        return Broken(ReplayFailed);
      }
      if replayed.value != e.state || s.hashes.ofState(replayed.value) != e.digest {
        BrokenStays(s, journal, k + 1);
        return Broken(ReplayDiffers);
      }
      generation, state := e.generation, replayed.value;
      digest, seen := s.hashes.ofState(replayed.value), seen + {e.id};
    }
    assert journal[..|journal|] == journal;
    ReplayAccepts(s, journal);
    return CheckStored(s, Revision(generation, digest, state, seen), stored);
  }

  /** An error found early is the error of the whole recovery. */
  lemma {:induction false} BrokenStays(s: Setting, journal: seq<Entry>, k: nat)
    requires k <= |journal| && ReplayAll(s, journal[..k]).Broken?
    ensures ReplayAll(s, journal) == ReplayAll(s, journal[..k])
  {
    if k < |journal| {
      assert journal[..|journal| - 1][..k] == journal[..k];
      BrokenStays(s, journal[..|journal| - 1], k);
    } else {
      assert journal[..k] == journal;
    }
  }

  /** The snapshot is missing or equals the replay at some point of the journal. */
  ghost predicate OnChain(s: Setting, journal: seq<Entry>, stored: Option<Stored>) {
    stored.Some? ==>
      && s.first <= stored.value.generation <= s.first + |journal|
      && stored.value == AsStored(RevisionAt(s, journal, stored.value.generation - s.first))
  }

  function AsStored(at: Revision): Stored {
    Stored(at.generation, at.digest, at.state)
  }

  /** What recovery can say about a journal prefix read earlier and a snapshot loaded later: the
      only possible failure is a snapshot that has moved past the prefix. */
  lemma RecoveryOutcome(s: Setting, read: seq<Entry>, journal: seq<Entry>, stored: Option<Stored>)
    requires ValidJournal(s, journal) && read <= journal && OnChain(s, journal, stored)
    requires forall k | 0 <= k <= |journal| :: StateAt(s, journal, k).tenant == s.initial.tenant
    ensures Recover(s, read, stored)
         == if stored.Some? && stored.value.generation > s.first + |read| then Broken(SnapshotAhead)
            else Recovered(RevisionAt(s, journal, |read|))
  {
    PrefixValid(s, read, journal);
    ReplayAccepts(s, read);
    PrefixRevision(s, read, journal, |read|);
  }

  lemma {:induction false} OwnerStays(s: Setting, journal: seq<Entry>, k: nat)
    requires ValidJournal(s, journal) && k <= |journal|
    ensures StateAt(s, journal, k).tenant == s.initial.tenant
  {
    if k > 0 {
      OwnerStays(s, journal, k - 1);
      assert Continues(s, journal, k - 1);
    }
  }
}
