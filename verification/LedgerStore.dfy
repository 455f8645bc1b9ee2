/** The operator commands as they run: rows rewritten one by one, events and actions appended, each proved
    against the command's meaning in `Ledger`. */
module LedgerStore {
  import opened Options
  import opened Ledger

  class MemoryStore {
    var records: map<MemoryId, Record>
    var outbox: seq<Event>
    var actions: seq<Action>
    var projection: set<MemoryId>

    ghost function Now(): State
      reads this
    {
      State(records, outbox, actions, projection)
    }

    constructor (records: map<MemoryId, Record>, projection: set<MemoryId>)
      ensures Now() == State(records, [], [], projection)
    {
      this.records, this.outbox, this.actions, this.projection := records, [], [], projection;
    }

    method SetStatus(id: MemoryId, status: Status, at: int)
      requires id in records
      modifies this`records
      ensures Now() == WithStatus(old(Now()), id, status, at)
    {
      records := records[id := records[id].(status := status, updatedAt := at)];
    }

    method AppendArtifacts(aggregate: MemoryId, affected: set<MemoryId>)
      modifies this`outbox
      ensures Now() == Emit(old(Now()), aggregate, affected)
    {
      outbox := outbox + [Event(aggregate, affected, false)];
    }

    method RecordAction(a: Action)
      modifies this`actions
      ensures Now() == Log(old(Now()), a)
    {
      actions := actions + [a];
    }

    /** The limit's counting query. */
    method CountRecent(scope: Scope, from: int) returns (n: nat)
      ensures n == |AppliedSince(actions, scope, from)|
    {
      n := 0;
      for i := 0 to |actions|
        invariant n == |AppliedSince(actions[..i], scope, from)|
      {
        assert actions[..i + 1] == actions[..i] + [actions[i]];
        var a := actions[i];
        if a.kind == AutoUpdateDecision && a.scope == scope && a.status == Applied && from <= a.createdAt {
          assert AppliedSince(actions[..i + 1], scope, from) == AppliedSince(actions[..i], scope, from) + {i as nat};
          n := n + 1;
        } else {
          assert AppliedSince(actions[..i + 1], scope, from) == AppliedSince(actions[..i], scope, from);
        }
      }
      assert actions[..|actions|] == actions;
    }

    method ApplyUpdate(r: ApplyRequest) returns (error: Option<ApplyError>)
      modifies this
      ensures error == ApplyOutcome(old(Now()), r)
      ensures Now() == if error == None then AfterApply(old(Now()), r) else old(Now())
    {
      if !r.scopeEnabled { return Some(ScopeDisabled); }
      if r.candidate !in records { return Some(CandidateNotFound); }
      var candidate := records[r.candidate];
      if candidate.facts.scope != r.scope { return Some(ScopeMismatch); }
      if candidate.facts.existing == None { return Some(ExistingIdRequired); }
      var prior := candidate.facts.existing.value;
      if prior !in records { return Some(OldNotFound); }
      if !r.policyAllows { return Some(PolicyBlocked); }
      if !r.testScope {
        var recent := CountRecent(r.scope, r.checkedAt - HOUR_MS);
        if recent >= HourlyLimit(r.maxHourly) { return Some(HourlyLimitExceeded); }
      }
      var retired := if r.temporalExpiry then Archived else Superseded;
      SetStatus(prior, Status(retired, records[prior].status.review, false), r.committedAt);
      SetStatus(r.candidate, Status(Approved, SilentApproved, true), r.committedAt);
      AppendArtifacts(prior, {prior, r.candidate});
      AppendArtifacts(r.candidate, {r.candidate, prior});
      RecordAction(Action(AutoUpdateDecision, candidate.facts.scope, r.candidate, Some(prior), NO_BEFORE_STATE,
          Applied, None, 0, None, r.committedAt));
      return None;
    }

    method RollbackUpdate(decision: nat, at: int) returns (error: Option<RollbackError>)
      modifies this
      ensures error == RollbackOutcome(old(Now()), decision)
      ensures Now() == if error == None then AfterRollback(old(Now()), decision, at) else old(Now())
    {
      if decision >= |actions| || actions[decision].kind != AutoUpdateDecision { return Some(DecisionNotFound); }
      var action := actions[decision];
      if action.related == None { return Some(IdsMissing); }
      var prior, newer := action.related.value, action.memory;
      if prior !in records || newer !in records { return Some(RecordsMissing); }
      var review := records[prior].status.review;
      SetStatus(prior, Status(Approved, if review == Pending then SilentApproved else review, true), at);
      SetStatus(newer, Status(Tombstone, records[newer].status.review, false), at);
      AppendArtifacts(prior, {prior});
      AppendArtifacts(newer, {newer});
      actions := actions[decision := action.(status := Reverted, revertedAt := Some(at))];
      return None;
    }

    method SweepItemNow(
        ghost start: State, loaded: set<MemoryId>, rows: map<MemoryId, Record>, item: SweepItem, at: int)
      requires start.records == rows
      modifies this
      ensures Now() == SweepOne(start, loaded, old(Now()), item, at)
    {
      if !(item.id in loaded && item.id in rows && rows[item.id].status == PENDING_CANDIDATE) || item.id !in records
          || item.alreadyApplied {
        return;
      }
      var status := if item.approve then Status(Approved, SilentApproved, true)
          else Status(Rejected, ReviewRejected, false);
      if records[item.id].status == PENDING_CANDIDATE {
        records := records[item.id := records[item.id].(status := status, policy := item.policy, updatedAt := at)];
      }
      if item.approve {
        AppendArtifacts(item.id, {item.id});
      }
      RecordAction(Action(SweepDecision, rows[item.id].facts.scope, item.id, None, BeforeOf(rows[item.id].status),
          Applied, None, 0, None, at));
    }

    /** The sweep's apply loop over the planned items, against the rows loaded before it. */
    method SweepPending(loaded: set<MemoryId>, items: seq<SweepItem>, at: int)
      modifies this
      ensures Now() == SweepAll(old(Now()), loaded, old(Now()), items, at)
    {
      var rows := records;
      ghost var start := Now();
      for i := 0 to |items|
        invariant SweepAll(start, loaded, Now(), items[i..], at) == SweepAll(start, loaded, start, items, at)
      {
        SweepItemNow(start, loaded, rows, items[i], at);
        assert items[i..][1..] == items[i + 1..];
      }
    }

    /** One of the two governance loops; `finished` is false when a service refused. */
    method GovernTargets(
        ghost start: State, rows: map<MemoryId, Record>, kind: ActionKind, targets: seq<Target>, at: int)
      returns (finished: bool)
      requires start.records == rows
      modifies this
      ensures (Now(), finished) == GovernAll(start, old(Now()), kind, targets, at)
    {
      for i := 0 to |targets|
        invariant GovernAll(start, Now(), kind, targets[i..], at) == GovernAll(start, old(Now()), kind, targets, at)
      {
        var t := targets[i];
        ghost var here := Now();
        assert targets[i..][0] == t && targets[i..][1..] == targets[i + 1..];
        if t.id !in rows { return false; }
        var action := Action(kind, rows[t.id].facts.scope, t.id, None, BeforeOf(rows[t.id].status),
                             if t.frozen then Skipped else Applied, if t.frozen then None
                                 else Some(t.token), at + WEEK_MS, None, at);
        if !t.frozen {
          if t.refused || t.id !in records { return false; }
          var status := records[t.id].status;
          if (if kind == ArchiveDuplicate then !StatusRecallable(status)
              else status.lifecycle == Tombstone) { return false; }
          SetStatus(t.id, Status(if kind == ArchiveDuplicate then Archived else Tombstone, status.review, false), at);
          AppendArtifacts(t.id, {t.id});
        }
        RecordAction(action);
        assert GovernAll(start, here, kind, targets[i..], at) == GovernAll(start, Now(), kind, targets[i + 1..], at);
      }
      return true;
    }

    /** The provenance backfill over the rows that its update returns. */
    method BackfillProvenance(backfill: seq<Backfill>, at: int)
      modifies this`records, this`outbox, this`actions
      ensures Now() == BackfillAll(old(Now()), backfill, at)
    {
      for i := 0 to |backfill|
        invariant BackfillAll(Now(), backfill[i..], at) == BackfillAll(old(Now()), backfill, at)
      {
        var b := backfill[i];
        assert backfill[i..][0] == b && backfill[i..][1..] == backfill[i + 1..];
        if b.id in records && Eligible(records[b.id]) {
          var r := records[b.id];
          records := records[b.id := r.(facts := r.facts.(legacy := r.facts.legacy || b.legacy), updatedAt := at)];
          AppendArtifacts(b.id, {b.id});
          RecordAction(Action(ProvenanceBackfill, r.facts.scope, b.id, None, NO_BEFORE_STATE, Applied, None, 0, None,
              at));
        }
      }
    }

    /** The governance apply phase: archive the duplicate losers, tombstone the test pollution, fill in provenance. */
    method GovernanceApply(archives: seq<Target>, tombstones: seq<Target>, backfill: seq<Backfill>, at: int)
      modifies this
      ensures Now() == AfterGovern(old(Now()), archives, tombstones, backfill, at)
    {
      var rows := records;
      ghost var start := Now();
      var finished := GovernTargets(start, rows, ArchiveDuplicate, archives, at);
      if finished {
        finished := GovernTargets(start, rows, TombstonePollution, tombstones, at);
      }
      if finished {
        BackfillProvenance(backfill, at);
      }
    }

    method RevertAction(action: nat, token: string, at: int) returns (error: Option<RevertError>)
      modifies this
      ensures error == RevertOutcome(old(Now()), action, token, at)
      ensures Now() == if error == None then AfterRevert(old(Now()), action, token, at) else old(Now())
    {
      if action >= |actions| { return Some(ActionNotFound); }
      var a := actions[action];
      if a.revertedAt.Some? { return Some(AlreadyReverted); }
      if a.token == None || a.token.value != token { return Some(InvalidToken); }
      if a.expiresAt < at { return Some(TokenExpired); }
      if a.memory !in records { return Some(MemoryNotFound); }
      SetStatus(a.memory, Restored(a.before), at);
      AppendArtifacts(a.memory, {a.memory});
      actions := actions[action := a.(status := Reverted, revertedAt := Some(at))];
      return None;
    }
  }
}
