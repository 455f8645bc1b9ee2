/** When each command takes effect and what it then does, in terms of the records, actions and events alone. */
module LedgerLaws {
  import opened Collections
  import opened Options
  import opened Ledger

  // --- apply ---

  /** The limit in force: at least one. */
  function AtLeastOne(maxHourly: int): int {
    if maxHourly >= 1 then maxHourly else 1
  }

  /** The applied auto-updates of a scope since a time. */
  function Recent(actions: seq<Action>, scope: Scope, from: int): set<nat> {
    set i: nat | i < |actions| && actions[i].kind == AutoUpdateDecision && actions[i].scope == scope
                 && actions[i].status == Applied && actions[i].createdAt >= from
  }

  /** What the operator must have right for an apply, but for the limit. */
  predicate ApplyInOrder(s: State, r: ApplyRequest) {
    && r.scopeEnabled && r.policyAllows
    && r.candidate in s.records && s.records[r.candidate].facts.scope == r.scope
    && s.records[r.candidate].facts.existing.Some? && s.records[r.candidate].facts.existing.value in s.records
  }

  /** An apply changes anything exactly when everything is in order and, outside test scopes, fewer than max(1, limit)
      updates were applied in the hour before the check. */
  lemma ApplyTakesEffectIff(s: State, r: ApplyRequest, pendingSkip: bool)
    ensures Step(s, Apply(r), pendingSkip) != s <==>
              && ApplyInOrder(s, r)
              && (r.testScope || |Recent(s.actions, r.scope, r.checkedAt - 3_600_000)| < AtLeastOne(r.maxHourly))
  {
    assert Recent(s.actions, r.scope, r.checkedAt - 3_600_000)
        == AppliedSince(s.actions, r.scope, r.checkedAt - HOUR_MS);
    if ApplyOutcome(s, r) == None {
      assert |AfterApply(s, r).actions| == |s.actions| + 1;
    }
  }

  /** Which refusal an apply meets: the first check that fails. */
  lemma ApplyRefusal(s: State, r: ApplyRequest)
    ensures match ApplyOutcome(s, r)
            case None => ApplyInOrder(s, r)
            case Some(ScopeDisabled) => !r.scopeEnabled
            case Some(CandidateNotFound) => r.scopeEnabled && r.candidate !in s.records
            case Some(ScopeMismatch) =>
              r.scopeEnabled && r.candidate in s.records && s.records[r.candidate].facts.scope != r.scope
            case Some(ExistingIdRequired) =>
              && r.scopeEnabled && r.candidate in s.records && s.records[r.candidate].facts.scope == r.scope
              && s.records[r.candidate].facts.existing == None
            case Some(OldNotFound) =>
              && r.scopeEnabled && r.candidate in s.records && s.records[r.candidate].facts.scope == r.scope
              && s.records[r.candidate].facts.existing.Some?
              && s.records[r.candidate].facts.existing.value !in s.records
            case Some(PolicyBlocked) => ApplyInOrder(s, r.(policyAllows := true)) && !r.policyAllows
            case Some(HourlyLimitExceeded) => ApplyInOrder(s, r) && !r.testScope
  {
  }

  /** An applied update retires the old record, as archived exactly for a temporal expiry, and approves the candidate;
      reviews of the old record, policies and facts stay. */
  lemma ApplyRetiresAndApproves(s: State, r: ApplyRequest, pendingSkip: bool)
    requires Step(s, Apply(r), pendingSkip) != s
    ensures var t := Step(s, Apply(r), pendingSkip);
            var prior := s.records[r.candidate].facts.existing.value;
            && (prior != r.candidate ==>
                  && t.records[prior].status.lifecycle in {Archived, Superseded} && !t.records[prior].status.current
                  && (t.records[prior].status.lifecycle == Archived <==> r.temporalExpiry)
                  && t.records[prior].status.review == s.records[prior].status.review)
            && t.records[r.candidate].status.lifecycle == Approved && t.records[r.candidate].status.current
            && t.records[r.candidate].status.review == SilentApproved
            && (forall id :: id in s.records ==>
                  t.records[id].policy == s.records[id].policy && t.records[id].facts == s.records[id].facts)
            && (forall id :: id in s.records && id != prior && id != r.candidate ==> t.records[id] == s.records[id])
  {
  }

  /** An applied update counts against the limit of its scope from its commit on. */
  lemma ApplyCounts(s: State, r: ApplyRequest, from: int, pendingSkip: bool)
    requires Step(s, Apply(r), pendingSkip) != s
    ensures var t := Step(s, Apply(r), pendingSkip);
            Recent(t.actions, r.scope, from)
            == Recent(s.actions, r.scope, from) + (if from <= r.committedAt then {|s.actions|} else {})
  {
    var t := Step(s, Apply(r), pendingSkip);
    assert forall i :: 0 <= i < |s.actions| ==> t.actions[i] == s.actions[i];
  }

  // --- rollback ---

  /** A rollback changes anything exactly for a decision whose two records exist, applied or rolled back before. */
  lemma RollbackTakesEffectIff(s: State, decision: nat, at: int, pendingSkip: bool)
    ensures Step(s, Rollback(decision, at), pendingSkip) != s <==>
              && decision < |s.actions| && s.actions[decision].kind == AutoUpdateDecision
              && s.actions[decision].related.Some? && s.actions[decision].related.value in s.records
              && s.actions[decision].memory in s.records
  {
    if RollbackOutcome(s, decision) == None {
      assert |AfterRollback(s, decision, at).outbox| == |s.outbox| + 2;
    }
  }

  lemma RollbackRefusal(s: State, decision: nat)
    ensures match RollbackOutcome(s, decision)
            case None => true
            case Some(DecisionNotFound) => decision < |s.actions| ==> s.actions[decision].kind != AutoUpdateDecision
            case Some(IdsMissing) =>
              && decision < |s.actions| && s.actions[decision].kind == AutoUpdateDecision
              && s.actions[decision].related == None
            case Some(RecordsMissing) =>
              && decision < |s.actions| && s.actions[decision].kind == AutoUpdateDecision
              && s.actions[decision].related.Some?
              && (s.actions[decision].related.value !in s.records || s.actions[decision].memory !in s.records)
  {
  }

  /** A rollback brings the old record back as approved and current, its review untouched but for a pending one, leaves
      the newer one a tombstone, and marks the decision reverted. */
  lemma RollbackRestoresAndBuries(s: State, decision: nat, at: int, pendingSkip: bool)
    requires Step(s, Rollback(decision, at), pendingSkip) != s
    ensures var t := Step(s, Rollback(decision, at), pendingSkip);
            var prior, newer := s.actions[decision].related.value, s.actions[decision].memory;
            && (prior != newer ==>
                  && t.records[prior].status.lifecycle == Approved && t.records[prior].status.current
                  && (if s.records[prior].status.review == Pending then t.records[prior].status.review == SilentApproved
                      else t.records[prior].status.review == s.records[prior].status.review))
            && t.records[newer].status.lifecycle == Tombstone && !t.records[newer].status.current
            && t.actions[decision].status == Reverted && t.actions[decision].revertedAt == Some(at)
            && (forall id :: id in s.records && id != prior && id != newer ==> t.records[id] == s.records[id])
  {
  }

  // --- revert ---

  /** A revert changes anything exactly when the action exists, was not reverted, carries this very token, has not
      expired, and its memory exists. */
  lemma RevertTakesEffectIff(s: State, action: nat, token: string, at: int, pendingSkip: bool)
    ensures Step(s, Revert(action, token, at), pendingSkip) != s <==>
              && action < |s.actions| && s.actions[action].revertedAt == None && s.actions[action].token == Some(token)
              && at <= s.actions[action].expiresAt && s.actions[action].memory in s.records
  {
    if RevertOutcome(s, action, token, at) == None {
      assert |AfterRevert(s, action, token, at).outbox| == |s.outbox| + 1;
    }
  }

  lemma RevertRefusal(s: State, action: nat, token: string, at: int)
    ensures match RevertOutcome(s, action, token, at)
            case None => true
            case Some(ActionNotFound) => action >= |s.actions|
            case Some(AlreadyReverted) => action < |s.actions| && s.actions[action].revertedAt.Some?
            case Some(InvalidToken) =>
              action < |s.actions| && s.actions[action].revertedAt == None && s.actions[action].token != Some(token)
            case Some(TokenExpired) =>
              action < |s.actions| && s.actions[action].token == Some(token) && at > s.actions[action].expiresAt
            case Some(MemoryNotFound) =>
              && action < |s.actions| && s.actions[action].token == Some(token) && at <= s.actions[action].expiresAt
              && s.actions[action].memory !in s.records
  {
  }

  /** A revert writes back what the action remembers, field by field; a field it does not remember becomes that of an
      approved, current record that needs no review. The action is closed and no other record changes. */
  lemma RevertWritesBack(s: State, action: nat, token: string, at: int, pendingSkip: bool)
    requires Step(s, Revert(action, token, at), pendingSkip) != s
    ensures var t := Step(s, Revert(action, token, at), pendingSkip);
            var a := s.actions[action];
            var status := t.records[a.memory].status;
            && (match a.before.lifecycle
                case Some(l) => status.lifecycle == l
                case None => status.lifecycle == Approved)
            && (match a.before.review case Some(r) => status.review == r case None => status.review == NotRequired)
            && (match a.before.current case Some(c) => status.current == c case None => status.current)
            && t.actions[action].status == Reverted && t.actions[action].revertedAt == Some(at)
            && (forall id :: id in s.records && id != a.memory ==> t.records[id] == s.records[id])
  {
  }

  // --- sweep ---

  /** The item is skipped whatever else happens. */
  predicate Idle(s: State, loaded: set<MemoryId>, item: SweepItem) {
    item.id !in loaded || item.id !in s.records || item.alreadyApplied
    || !(s.records[item.id].status.lifecycle == Candidate && s.records[item.id].status.review == Pending
         && s.records[item.id].status.current)
  }

  lemma {:induction false} SweepKeeps(
    start: State, loaded: set<MemoryId>, s: State, items: seq<SweepItem>, at: int, id: MemoryId)
    requires id in s.records && s.records.Keys == start.records.Keys
    requires || s.records[id].status != PENDING_CANDIDATE
             || forall k :: 0 <= k < |items| && items[k].id == id ==> Idle(start, loaded, items[k])
    ensures id in SweepAll(start, loaded, s, items, at).records
    ensures SweepAll(start, loaded, s, items, at).records[id] == s.records[id]
    decreases |items|
  {
    if items == [] {
    } else {
      SweepKeeps(start, loaded, SweepOne(start, loaded, s, items[0], at), items[1..], at, id);
    }
  }

  lemma {:induction false} SweepDecidesFrom(
    start: State, loaded: set<MemoryId>, s: State, items: seq<SweepItem>, at: int, k: nat)
    requires k < |items| && s.records.Keys == start.records.Keys && !Idle(start, loaded, items[k])
    requires s.records[items[k].id].status == PENDING_CANDIDATE
    requires forall j :: 0 <= j < k && items[j].id == items[k].id ==> Idle(start, loaded, items[j])
    ensures var t := SweepAll(start, loaded, s, items, at);
            items[k].id in t.records && Decided(t.records[items[k].id], items[k])
    decreases |items|
  {
    var t := SweepOne(start, loaded, s, items[0], at);
    if k == 0 {
      SweepKeeps(start, loaded, t, items[1..], at, items[0].id);
    } else {
      assert items[1..][k - 1] == items[k];
      SweepDecidesFrom(start, loaded, t, items[1..], at, k - 1);
    }
  }

  /** The record carries the decision of the item: approved and current, or rejected and gone. */
  predicate Decided(r: Record, item: SweepItem) {
    && r.policy == item.policy
    && (if item.approve then r.status.lifecycle == Approved && r.status.review == SilentApproved && r.status.current
        else r.status.lifecycle == Rejected && r.status.review == ReviewRejected && !r.status.current)
  }

  /** A sweep decides a loaded pending candidate as the first effective item about it says. */
  lemma SweepDecides(s: State, loaded: set<MemoryId>, items: seq<SweepItem>, at: int, k: nat, pendingSkip: bool)
    requires k < |items| && !Idle(s, loaded, items[k])
    requires forall j :: 0 <= j < k && items[j].id == items[k].id ==> Idle(s, loaded, items[j])
    ensures var t := Step(s, Sweep(loaded, items, at), pendingSkip);
            items[k].id in t.records && Decided(t.records[items[k].id], items[k])
  {
    SweepDecidesFrom(s, loaded, s, items, at, k);
  }

  /** A sweep leaves every other record alone. */
  lemma SweepLeavesOthers(
    s: State, loaded: set<MemoryId>, items: seq<SweepItem>, at: int, id: MemoryId, pendingSkip: bool)
    requires id in s.records
    requires forall k :: 0 <= k < |items| && items[k].id == id ==> Idle(s, loaded, items[k])
    ensures id in Step(s, Sweep(loaded, items, at), pendingSkip).records
    ensures Step(s, Sweep(loaded, items, at), pendingSkip).records[id] == s.records[id]
  {
    SweepKeeps(s, loaded, s, items, at, id);
  }

  function Effective(start: State, loaded: set<MemoryId>): SweepItem -> bool {
    (item: SweepItem) => !Idle(start, loaded, item)
  }

  function Approving(start: State, loaded: set<MemoryId>): SweepItem -> bool {
    (item: SweepItem) => !Idle(start, loaded, item) && item.approve
  }

  /** A sweep logs one action for each effective item, and emits one event for each that approves. */
  lemma {:induction false} SweepRecords(start: State, loaded: set<MemoryId>, s: State, items: seq<SweepItem>, at: int)
    requires s.records.Keys == start.records.Keys
    ensures var t := SweepAll(start, loaded, s, items, at);
            && |t.actions| == |s.actions| + Count(items, Effective(start, loaded))
            && |t.outbox| == |s.outbox| + Count(items, Approving(start, loaded))
    decreases |items|
  {
    if items == [] {
    } else {
      SweepRecords(start, loaded, SweepOne(start, loaded, s, items[0], at), items[1..], at);
    }
  }

  // --- governance ---

  lemma GovernSingle(s: State, kind: ActionKind, t: Target, at: int)
    ensures GovernAll(s, s, kind, [t], at) ==
              if t.id !in s.records then (s, false)
              else if t.frozen then (Log(s, GovernanceAction(s, kind, t, at)), true)
              else if !ServiceAccepts(s, kind, t) then (s, false)
              else (GovernOne(s, s, kind, t, at), true)
  {
    assert [t][0] == t && [t][1..] == [];
    if t.id in s.records {
      var logged := Log(s, GovernanceAction(s, kind, t, at));
      assert GovernAll(s, logged, kind, [], at) == (logged, true);
      var one := GovernOne(s, s, kind, t, at);
      assert GovernAll(s, one, kind, [], at) == (one, true);
    }
  }

  /** Archiving one record takes place exactly when it is approved, current and accepted by review, and nothing freezes
      its scope. */
  lemma ArchiveTakesEffectIff(s: State, t: Target, at: int, pendingSkip: bool)
    ensures var u := Step(s, Govern([t], [], [], at), pendingSkip);
            if && t.id in s.records && !t.frozen && !t.refused
               && s.records[t.id].status.lifecycle == Approved && s.records[t.id].status.current
               && s.records[t.id].status.review in {ReviewApproved, SilentApproved, NotRequired}
            then
              && t.id in u.records && u.records[t.id].status == Status(Archived, s.records[t.id].status.review, false)
              && Tokened(s, u, ArchiveDuplicate, t)
            else u.records == s.records && NotedIfFrozen(s, u, ArchiveDuplicate, t)
  {
    GovernSingle(s, ArchiveDuplicate, t, at);
    var one := GovernAll(s, s, ArchiveDuplicate, [t], at).0;
    assert GovernAll(s, one, TombstonePollution, [], at) == (one, true);
    assert BackfillAll(one, [], at) == one;
  }

  /** One action of this kind is logged as applied, with the run's token for this target. */
  predicate Tokened(s: State, u: State, kind: ActionKind, t: Target) {
    && |u.actions| == |s.actions| + 1 && u.actions[..|s.actions|] == s.actions
    && u.actions[|s.actions|].kind == kind && u.actions[|s.actions|].memory == t.id
    && u.actions[|s.actions|].status == Applied && u.actions[|s.actions|].token == Some(t.token)
  }

  /** A frozen target is logged as skipped, without a token; a refused one not at all. */
  predicate NotedIfFrozen(s: State, u: State, kind: ActionKind, t: Target) {
    && u.outbox == s.outbox
    && if t.id in s.records && t.frozen then
         && |u.actions| == |s.actions| + 1 && u.actions[..|s.actions|] == s.actions
         && u.actions[|s.actions|].kind == kind && u.actions[|s.actions|].memory == t.id
         && u.actions[|s.actions|].status == Skipped && u.actions[|s.actions|].token == None
       else u.actions == s.actions
  }

  /** Tombstoning one record takes place exactly when it is not a tombstone yet and nothing freezes its scope. */
  lemma TombstoneTakesEffectIff(s: State, t: Target, at: int, pendingSkip: bool)
    ensures var u := Step(s, Govern([], [t], [], at), pendingSkip);
            if t.id in s.records && !t.frozen && !t.refused && s.records[t.id].status.lifecycle != Tombstone then
              && t.id in u.records && u.records[t.id].status == Status(Tombstone, s.records[t.id].status.review, false)
              && Tokened(s, u, TombstonePollution, t)
            else u.records == s.records && NotedIfFrozen(s, u, TombstonePollution, t)
  {
    GovernSingle(s, TombstonePollution, t, at);
    assert GovernAll(s, s, ArchiveDuplicate, [], at) == (s, true);
    var one := GovernAll(s, s, TombstonePollution, [t], at).0;
    assert BackfillAll(one, [], at) == one;
  }

  /** A first archive that is refused ends the run before anything happens: no later target, no tombstone, no
      backfill. */
  lemma RefusedArchiveEndsRun(
    s: State, t: Target, rest: seq<Target>, tombstones: seq<Target>, backfill: seq<Backfill>, at: int,
    pendingSkip: bool)
    requires t.refused && !t.frozen
    ensures Step(s, Govern([t] + rest, tombstones, backfill, at), pendingSkip) == s
  {
    assert ([t] + rest)[0] == t;
  }

  /** A first tombstone that is refused ends the run before the backfill. */
  lemma RefusedTombstoneEndsRun(
    s: State, t: Target, rest: seq<Target>, backfill: seq<Backfill>, at: int, pendingSkip: bool)
    requires t.refused && !t.frozen
    ensures Step(s, Govern([], [t] + rest, backfill, at), pendingSkip) == s
  {
    assert ([t] + rest)[0] == t;
    assert GovernAll(s, s, ArchiveDuplicate, [], at) == (s, true);
  }

  /** A loop over two lists is one loop after the other, unless the first one was refused. */
  lemma {:induction false} GovernConcat(
    start: State, s: State, kind: ActionKind, a: seq<Target>, b: seq<Target>, at: int)
    ensures var (t, finished) := GovernAll(start, s, kind, a, at);
            GovernAll(start, s, kind, a + b, at) == if finished then GovernAll(start, t, kind, b, at) else (t, false)
    decreases |a|
  {
    if a == [] {
      assert a + b == b;
    } else {
      assert (a + b)[1..] == a[1..] + b;
      if a[0].id !in start.records {
      } else if a[0].frozen {
        GovernConcat(start, Log(s, GovernanceAction(start, kind, a[0], at)), kind, a[1..], b, at);
      } else if ServiceAccepts(s, kind, a[0]) {
        GovernConcat(start, GovernOne(start, s, kind, a[0], at), kind, a[1..], b, at);
      }
    }
  }

  /** The backfill refreshes the update time of the eligible rows it fills, never clears a legacy mark, and changes
      nothing else about any record. */
  lemma BackfillFills(s: State, b: Backfill, at: int)
    ensures var t := BackfillAll(s, [b], at);
            && t.records.Keys == s.records.Keys
            && (forall id :: id in s.records && id != b.id ==> t.records[id] == s.records[id])
            && (b.id in s.records ==>
                  var r, u := s.records[b.id], t.records[b.id];
                  if && r.status.current && r.status.lifecycle == Approved
                     && r.status.review in {ReviewApproved, NotRequired}
                  then |t.outbox| == |s.outbox| + 1 && |t.actions| == |s.actions| + 1
                       && t.actions[|s.actions|].token == None
                       && u.updatedAt == at && (u.facts.legacy <==> r.facts.legacy || b.legacy)
                       && u == r.(updatedAt := u.updatedAt, facts := r.facts.(legacy := u.facts.legacy))
                  else t == s)
  {
    assert [b][1..] == [];
    assert BackfillAll(BackfillOne(s, b, at), [], at) == BackfillOne(s, b, at);
  }

  // --- every command ---

  /** The time a command writes. */
  function WrittenAt(c: Command): int {
    match c
    case Apply(r) => r.committedAt
    case Rollback(_, at) => at
    case Sweep(_, _, at) => at
    case Govern(_, _, _, at) => at
    case Revert(_, _, at) => at
    case Drain(_, _) => 0
    case Sync(_, _) => 0
  }

  /** A record that changes carries the time of the change, and an event mentions the record it is about. */
  ghost predicate Stamped(s: State, t: State, at: int) {
    && t.records.Keys == s.records.Keys
    && (forall id :: id in s.records ==> t.records[id] == s.records[id] || t.records[id].updatedAt == at)
    && |s.outbox| <= |t.outbox|
    && (forall k :: |s.outbox| <= k < |t.outbox| ==> t.outbox[k].aggregate in t.outbox[k].affected)
  }

  lemma StampedChain(s: State, t: State, u: State, at: int)
    requires Stamped(s, t, at) && Stamped(t, u, at) && t.outbox <= u.outbox
    ensures Stamped(s, u, at)
  {
  }

  lemma {:induction false} SweepStamps(start: State, loaded: set<MemoryId>, s: State, items: seq<SweepItem>, at: int)
    ensures Stamped(s, SweepAll(start, loaded, s, items, at), at)
    ensures s.outbox <= SweepAll(start, loaded, s, items, at).outbox
    decreases |items|
  {
    if items == [] {
    } else {
      var t := SweepOne(start, loaded, s, items[0], at);
      SweepStamps(start, loaded, t, items[1..], at);
      StampedChain(s, t, SweepAll(start, loaded, t, items[1..], at), at);
    }
  }

  lemma {:induction false} GovernStamps(start: State, s: State, kind: ActionKind, targets: seq<Target>, at: int)
    ensures Stamped(s, GovernAll(start, s, kind, targets, at).0, at)
    ensures s.outbox <= GovernAll(start, s, kind, targets, at).0.outbox
    decreases |targets|
  {
    if targets == [] || targets[0].id !in start.records {
    } else if targets[0].frozen {
      var t := Log(s, GovernanceAction(start, kind, targets[0], at));
      GovernStamps(start, t, kind, targets[1..], at);
      StampedChain(s, t, GovernAll(start, t, kind, targets[1..], at).0, at);
    } else if ServiceAccepts(s, kind, targets[0]) {
      var t := GovernOne(start, s, kind, targets[0], at);
      GovernStamps(start, t, kind, targets[1..], at);
      StampedChain(s, t, GovernAll(start, t, kind, targets[1..], at).0, at);
    }
  }

  lemma {:induction false} BackfillStamps(s: State, backfill: seq<Backfill>, at: int)
    ensures Stamped(s, BackfillAll(s, backfill, at), at)
    ensures s.outbox <= BackfillAll(s, backfill, at).outbox
    decreases |backfill|
  {
    if backfill == [] {
    } else {
      var t := BackfillOne(s, backfill[0], at);
      BackfillStamps(t, backfill[1..], at);
      StampedChain(s, t, BackfillAll(t, backfill[1..], at), at);
    }
  }

  /** Every command stamps what it changes and mentions what its events are about. */
  lemma StepStamps(s: State, c: Command, pendingSkip: bool)
    ensures Stamped(s, Step(s, c, pendingSkip), WrittenAt(c))
  {
    match c
    case Sweep(loaded, items, at) => SweepStamps(s, loaded, s, items, at);
    case Govern(archives, tombstones, backfill, at) =>
      var t := GovernAll(s, s, ArchiveDuplicate, archives, at).0;
      var u := GovernAll(s, t, TombstonePollution, tombstones, at).0;
      GovernStamps(s, s, ArchiveDuplicate, archives, at);
      GovernStamps(s, t, TombstonePollution, tombstones, at);
      BackfillStamps(u, backfill, at);
      StampedChain(s, t, u, at);
      StampedChain(s, u, BackfillAll(u, backfill, at), at);
    case _ =>
  }

  // --- projection ---

  /** The projector upserts exactly the recallable records: its own test and the recall predicate agree. */
  lemma UpsertIffRecallable(r: Record, pendingSkip: bool)
    ensures ProjectionOperation(r, pendingSkip) == Upsert <==> Recallable(r)
  {
  }

  /** An event stays pending exactly while a recallable record that it mentions has no embedding. */
  lemma DispatchedIffEmbedded(s: State, event: nat, embeddable: set<MemoryId>, pendingSkip: bool)
    requires event < |s.outbox| && !s.outbox[event].dispatched
    ensures Step(s, Drain(event, embeddable), pendingSkip).outbox[event].dispatched <==>
              forall id :: id in s.outbox[event].affected && IsRecallable(s, id) ==> id in embeddable
    ensures forall k :: 0 <= k < |s.outbox| && k != event ==>
              Step(s, Drain(event, embeddable), pendingSkip).outbox[k] == s.outbox[k]
    ensures var t := Step(s, Drain(event, embeddable), pendingSkip);
            forall id :: id in t.projection <==>
              if id !in s.outbox[event].affected then id in s.projection
              else if IsRecallable(s, id) then id in s.projection || id in embeddable
              else id in s.projection && OperationOn(s, id, pendingSkip) == Skip
  {
    forall id
      ensures OperationOn(s, id, pendingSkip) == Upsert <==> IsRecallable(s, id)
    {
      if id in s.records {
        UpsertIffRecallable(s.records[id], pendingSkip);
      }
    }
  }
}
