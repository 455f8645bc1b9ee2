/** The hourly limit on auto-updates, for every one-hour window and not just the trailing one. */
module RateLimit {
  import opened Collections
  import opened Options
  import opened Ledger
  import opened LedgerSafety

  /** No action is from the future, and no closed one-hour window holds more applied ones than allowed. */
  ghost predicate WithinLimit(actions: seq<Action>, scope: Scope, limit: int, clock: int) {
    && (forall i :: 0 <= i < |actions| ==> actions[i].createdAt <= clock)
    && (forall from :: |AppliedInHour(actions, scope, from)| <= limit)
  }

  /** Reverting actions, and adding actions of another scope or kind, never fills a window. */
  lemma OtherActionsKeepLimit(before: seq<Action>, after: seq<Action>, scope: Scope, limit: int, clock: int, later: int)
    requires WithinLimit(before, scope, limit, clock) && clock <= later
    requires |before| <= |after|
    requires forall i :: 0 <= i < |before| ==> after[i] == before[i] || IsRevertOf(before[i], after[i])
    requires forall i :: |before| <= i < |after| ==>
             after[i].createdAt <= later && !(after[i].kind == AutoUpdateDecision && after[i].scope == scope)
    ensures WithinLimit(after, scope, limit, later)
  {
    forall from
      ensures |AppliedInHour(after, scope, from)| <= limit
    {
      SubsetSize(AppliedInHour(after, scope, from), AppliedInHour(before, scope, from));
    }
  }

  /** The new action and everything else in one of its windows lie in the hour before it, which the check
      found to have room. */
  lemma WindowAroundApply(before: seq<Action>, a: Action, scope: Scope, from: int, checkedAt: int)
    requires forall i :: 0 <= i < |before| ==> before[i].createdAt <= checkedAt
    requires checkedAt <= a.createdAt <= from + HOUR_MS
    ensures |AppliedInHour(before + [a], scope, from)| <= |AppliedSince(before, scope, checkedAt - HOUR_MS)| + 1
  {
    var now := AppliedInHour(before + [a], scope, from);
    SubsetSize(now - {|before|}, AppliedSince(before, scope, checkedAt - HOUR_MS));
    SubsetSize(now, now - {|before|} + {|before|});
  }

  lemma ApplyKeepsLimit(s: State, r: ApplyRequest, clock: int)
    requires ApplyOutcome(s, r) == None && !r.testScope
    requires WithinLimit(s.actions, r.scope, HourlyLimit(r.maxHourly), clock)
    requires clock <= r.checkedAt <= r.committedAt
    ensures WithinLimit(AfterApply(s, r).actions, r.scope, HourlyLimit(r.maxHourly), r.committedAt)
  {
    var after := AfterApply(s, r).actions;
    var a := after[|s.actions|];
    assert after == s.actions + [a] && a.createdAt == r.committedAt;
    forall from
      ensures |AppliedInHour(after, r.scope, from)| <= HourlyLimit(r.maxHourly)
    {
      if a.createdAt <= from + HOUR_MS && from <= a.createdAt {
        WindowAroundApply(s.actions, a, r.scope, from, r.checkedAt);
      } else {
        SubsetSize(AppliedInHour(after, r.scope, from), AppliedInHour(s.actions, r.scope, from));
      }
    }
  }

  /** When a command is carried out; projection runs create no action and have no time of their own. */
  function TimeOf(c: Command, clock: int): int {
    match c
    case Apply(r) => r.committedAt
    case Rollback(_, at) => at
    case Sweep(_, _, at) => at
    case Govern(_, _, _, at) => at
    case Revert(_, _, at) => at
    case Drain(_, _) => clock
    case Sync(_, _) => clock
  }

  /** One operator, a clock that does not run backwards, and a constant limit for the scope. */
  ghost predicate Sequential(cs: seq<Command>, scope: Scope, maxHourly: int, clock: int)
    decreases |cs|
  {
    cs == [] ||
    (&& clock <= TimeOf(cs[0], clock)
     && (cs[0].Apply? ==> clock <= cs[0].request.checkedAt <= cs[0].request.committedAt)
     && (cs[0].Apply? && cs[0].request.scope == scope ==>
          !cs[0].request.testScope && cs[0].request.maxHourly == maxHourly)
     && Sequential(cs[1..], scope, maxHourly, TimeOf(cs[0], clock)))
  }

  lemma {:induction false} SweepLogsSweeps(
    start: State, loaded: set<MemoryId>, s: State, items: seq<SweepItem>, at: int)
    ensures s.actions <= SweepAll(start, loaded, s, items, at).actions
    ensures forall i :: |s.actions| <= i < |SweepAll(start, loaded, s, items, at).actions| ==>
              SweepAll(start, loaded, s, items, at).actions[i].kind == SweepDecision
                  && SweepAll(start, loaded, s, items, at).actions[i].createdAt == at
    decreases |items|
  {
    if items == [] {
    } else {
      SweepLogsSweeps(start, loaded, SweepOne(start, loaded, s, items[0], at), items[1..], at);
    }
  }

  lemma {:induction false} GovernLogsGovernance(start: State, s: State, kind: ActionKind, targets: seq<Target>, at: int)
    requires kind != AutoUpdateDecision
    ensures s.actions <= GovernAll(start, s, kind, targets, at).0.actions
    ensures forall i :: |s.actions| <= i < |GovernAll(start, s, kind, targets, at).0.actions| ==>
              GovernAll(start, s, kind, targets, at).0.actions[i].kind == kind
                  && GovernAll(start, s, kind, targets, at).0.actions[i].createdAt == at
    decreases |targets|
  {
    if targets == [] || targets[0].id !in start.records {
    } else if targets[0].frozen {
      GovernLogsGovernance(start, Log(s, GovernanceAction(start, kind, targets[0], at)), kind, targets[1..], at);
    } else if ServiceAccepts(s, kind, targets[0]) {
      GovernLogsGovernance(start, GovernOne(start, s, kind, targets[0], at), kind, targets[1..], at);
    }
  }

  lemma {:induction false} BackfillLogsBackfills(s: State, backfill: seq<Backfill>, at: int)
    ensures s.actions <= BackfillAll(s, backfill, at).actions
    ensures forall i :: |s.actions| <= i < |BackfillAll(s, backfill, at).actions| ==>
              && BackfillAll(s, backfill, at).actions[i].kind == ProvenanceBackfill
              && BackfillAll(s, backfill, at).actions[i].createdAt == at
    decreases |backfill|
  {
    if backfill == [] {
    } else {
      BackfillLogsBackfills(BackfillOne(s, backfill[0], at), backfill[1..], at);
    }
  }

  lemma StepKeepsLimit(s: State, c: Command, pendingSkip: bool, scope: Scope, maxHourly: int, clock: int)
    requires WithinLimit(s.actions, scope, HourlyLimit(maxHourly), clock)
    requires Sequential([c], scope, maxHourly, clock)
    ensures WithinLimit(Step(s, c, pendingSkip).actions, scope, HourlyLimit(maxHourly), TimeOf(c, clock))
  {
    var after := Step(s, c, pendingSkip).actions;
    if c.Apply? && ApplyOutcome(s, c.request) == None && c.request.scope == scope {
      ApplyKeepsLimit(s, c.request, clock);
    } else {
      match c {
        case Sweep(loaded, items, at) => SweepLogsSweeps(s, loaded, s, items, at);
        case Govern(archives, tombstones, backfill, at) =>
          var t := GovernAll(s, s, ArchiveDuplicate, archives, at).0;
          GovernLogsGovernance(s, s, ArchiveDuplicate, archives, at);
          GovernLogsGovernance(s, t, TombstonePollution, tombstones, at);
          BackfillLogsBackfills(GovernAll(s, t, TombstonePollution, tombstones, at).0, backfill, at);
        case _ =>
      }
      OtherActionsKeepLimit(s.actions, after, scope, HourlyLimit(maxHourly), clock, TimeOf(c, clock));
    }
  }

  lemma {:induction false} RunKeepsLimit(
    s: State, cs: seq<Command>, pendingSkip: bool, scope: Scope, maxHourly: int, clock: int, from: int)
    requires WithinLimit(s.actions, scope, HourlyLimit(maxHourly), clock)
    requires Sequential(cs, scope, maxHourly, clock)
    ensures |AppliedInHour(Run(s, cs, pendingSkip).actions, scope, from)| <= HourlyLimit(maxHourly)
    decreases |cs|
  {
    if cs == [] {
    } else {
      assert Sequential([], scope, maxHourly, TimeOf(cs[0], clock));
      assert [cs[0]][1..] == [];
      StepKeepsLimit(s, cs[0], pendingSkip, scope, maxHourly, clock);
      RunKeepsLimit(Step(s, cs[0], pendingSkip), cs[1..], pendingSkip, scope, maxHourly, TimeOf(cs[0], clock), from);
    }
  }

  /** Over every sequential run, rollbacks interleaved at will, every one-hour window of a real scope holds at most
      max(1, limit) auto-update actions still marked applied, if it does so at the start. */
  lemma EveryWindowWithinLimit(
    s: State, cs: seq<Command>, pendingSkip: bool, scope: Scope, maxHourly: int, clock: int, from: int)
    requires forall i :: 0 <= i < |s.actions| ==> s.actions[i].createdAt <= clock
    requires forall start :: |AppliedInHour(s.actions, scope, start)| <= if maxHourly < 1 then 1 else maxHourly
    requires Sequential(cs, scope, maxHourly, clock)
    ensures var actions := Run(s, cs, pendingSkip).actions;
            |set i: nat | i < |actions| && actions[i].kind == AutoUpdateDecision && actions[i].scope == scope
                          && actions[i].status == Applied && from <= actions[i].createdAt <= from + 3_600_000|
            <= if maxHourly < 1 then 1 else maxHourly
  {
    RunKeepsLimit(s, cs, pendingSkip, scope, maxHourly, clock, from);
    var actions := Run(s, cs, pendingSkip).actions;
    assert AppliedInHour(actions, scope, from)
        == set i: nat | i < |actions| && actions[i].kind == AutoUpdateDecision && actions[i].scope == scope
                        && actions[i].status == Applied && from <= actions[i].createdAt <= from + 3_600_000;
  }
}
