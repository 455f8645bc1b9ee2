/** What every command keeps true of the status triples, and what a revert restores. */
module LedgerSafety {
  import opened Options
  import opened Ledger

  /** Records that left the ledger are not current, and approval is never pending. */
  predicate SafeStatus(status: Status) {
    && (status.lifecycle in {Tombstone, Archived, Superseded, Rejected} ==> !status.current)
    && (status.lifecycle == Approved ==> status.review != Pending)
  }

  /** Safe rows, and safe before-states behind every action that a token could still revert. */
  ghost predicate Safe(s: State) {
    && (forall id :: id in s.records ==> SafeStatus(s.records[id].status))
    && (forall i :: 0 <= i < |s.actions| ==> SafeAction(s.actions[i]))
  }

  predicate SafeAction(a: Action) {
    a.token.Some? ==> SafeStatus(Restored(a.before))
  }

  lemma {:induction false} SweepKeepsSafe(start: State, loaded: set<MemoryId>, s: State, items: seq<SweepItem>, at: int)
    requires Safe(s)
    ensures Safe(SweepAll(start, loaded, s, items, at))
    decreases |items|
  {
    if items == [] {
    } else {
      SweepKeepsSafe(start, loaded, SweepOne(start, loaded, s, items[0], at), items[1..], at);
    }
  }

  /** Before-states are read at the start of the run, not at the moment of the change; they are safe all
      the same. */
  lemma {:induction false} GovernKeepsSafe(start: State, s: State, kind: ActionKind, targets: seq<Target>, at: int)
    requires Safe(start) && Safe(s)
    ensures Safe(GovernAll(start, s, kind, targets, at).0)
    decreases |targets|
  {
    if targets == [] || targets[0].id !in start.records {
    } else if targets[0].frozen {
      GovernKeepsSafe(start, Log(s, GovernanceAction(start, kind, targets[0], at)), kind, targets[1..], at);
    } else if ServiceAccepts(s, kind, targets[0]) {
      assert Restored(BeforeOf(start.records[targets[0].id].status)) == start.records[targets[0].id].status;
      GovernKeepsSafe(start, GovernOne(start, s, kind, targets[0], at), kind, targets[1..], at);
    }
  }

  lemma {:induction false} BackfillKeepsSafe(s: State, backfill: seq<Backfill>, at: int)
    requires Safe(s)
    ensures Safe(BackfillAll(s, backfill, at))
    decreases |backfill|
  {
    if backfill == [] {
    } else {
      BackfillKeepsSafe(BackfillOne(s, backfill[0], at), backfill[1..], at);
    }
  }

  lemma StepKeepsSafe(s: State, c: Command, pendingSkip: bool)
    requires Safe(s)
    ensures Safe(Step(s, c, pendingSkip))
  {
    match c
    case Sweep(loaded, items, at) => SweepKeepsSafe(s, loaded, s, items, at);
    case Govern(archives, tombstones, backfill, at) =>
      var t := GovernAll(s, s, ArchiveDuplicate, archives, at).0;
      GovernKeepsSafe(s, s, ArchiveDuplicate, archives, at);
      GovernKeepsSafe(s, t, TombstonePollution, tombstones, at);
      BackfillKeepsSafe(GovernAll(s, t, TombstonePollution, tombstones, at).0, backfill, at);
    case _ =>
  }

  lemma {:induction false} RunKeepsSafe(s: State, cs: seq<Command>, pendingSkip: bool)
    requires Safe(s)
    ensures Safe(Run(s, cs, pendingSkip))
    decreases |cs|
  {
    if cs == [] {
    } else {
      StepKeepsSafe(s, cs[0], pendingSkip);
      RunKeepsSafe(Step(s, cs[0], pendingSkip), cs[1..], pendingSkip);
    }
  }

  // --- what a revert restores ---

  /** A token remembers the status its memory had when the run selected its rows; every archive and tombstone that was
      carried out has one. */
  predicate Remembers(start: State, a: Action, at: int) {
    && (a.token.Some? ==>
          && a.memory in start.records && a.before == BeforeOf(start.records[a.memory].status)
          && a.expiresAt == at + WEEK_MS)
    && (a.kind in {ArchiveDuplicate, TombstonePollution} && a.status == Applied ==> a.token.Some?)
  }

  /** Some token issued since `from` and not used yet undoes a change of this record. */
  ghost predicate Undoable(actions: seq<Action>, from: nat, id: MemoryId) {
    exists i :: from <= i < |actions| && OpenToken(actions[i], id)
  }

  predicate OpenToken(a: Action, id: MemoryId) {
    a.token.Some? && a.revertedAt == None && a.memory == id
  }

  /** From `s` to `t`, within a run that started in `start`, every changed status is behind a new token. */
  ghost predicate Logged(start: State, s: State, t: State, at: int) {
    && t.records.Keys == s.records.Keys && s.actions <= t.actions
    && (forall i :: |s.actions| <= i < |t.actions| ==> Remembers(start, t.actions[i], at))
    && (forall i :: |s.actions| <= i < |t.actions| ==> t.actions[i].revertedAt == None)
    && (forall id :: id in s.records ==>
          t.records[id].policy == s.records[id].policy
          && (t.records[id].status == s.records[id].status || Undoable(t.actions, |s.actions|, id)))
  }

  lemma LoggedChain(start: State, s: State, t: State, u: State, at: int)
    requires Logged(start, s, t, at) && Logged(start, t, u, at)
    ensures Logged(start, s, u, at)
  {
    forall id | id in s.records
      ensures u.records[id].status == s.records[id].status || Undoable(u.actions, |s.actions|, id)
    {
      if u.records[id].status != t.records[id].status {
        var i :| |t.actions| <= i < |u.actions| && OpenToken(u.actions[i], id);
      } else if t.records[id].status != s.records[id].status {
        var i :| |s.actions| <= i < |t.actions| && OpenToken(t.actions[i], id);
        assert u.actions[i] == t.actions[i];
      }
    }
  }

  lemma GovernOneLogged(start: State, s: State, kind: ActionKind, target: Target, at: int)
    requires s.records.Keys == start.records.Keys && target.id in s.records && !target.frozen
    ensures Logged(start, s, GovernOne(start, s, kind, target, at), at)
  {
    assert OpenToken(GovernOne(start, s, kind, target, at).actions[|s.actions|], target.id);
  }

  lemma {:induction false} GovernLogged(start: State, s: State, kind: ActionKind, targets: seq<Target>, at: int)
    requires s.records.Keys == start.records.Keys
    ensures Logged(start, s, GovernAll(start, s, kind, targets, at).0, at)
    decreases |targets|
  {
    if targets == [] || targets[0].id !in start.records {
    } else if targets[0].frozen {
      var t := Log(s, GovernanceAction(start, kind, targets[0], at));
      GovernLogged(start, t, kind, targets[1..], at);
      LoggedChain(start, s, t, GovernAll(start, t, kind, targets[1..], at).0, at);
    } else if ServiceAccepts(s, kind, targets[0]) {
      var t := GovernOne(start, s, kind, targets[0], at);
      GovernOneLogged(start, s, kind, targets[0], at);
      GovernLogged(start, t, kind, targets[1..], at);
      LoggedChain(start, s, t, GovernAll(start, t, kind, targets[1..], at).0, at);
    }
  }

  lemma {:induction false} BackfillLogged(start: State, s: State, backfill: seq<Backfill>, at: int)
    ensures Logged(start, s, BackfillAll(s, backfill, at), at)
    decreases |backfill|
  {
    if backfill == [] {
    } else {
      var t := BackfillOne(s, backfill[0], at);
      BackfillLogged(start, t, backfill[1..], at);
      LoggedChain(start, s, t, BackfillAll(t, backfill[1..], at), at);
    }
  }

  lemma RunLogged(s: State, archives: seq<Target>, tombstones: seq<Target>, backfill: seq<Backfill>, at: int)
    ensures Logged(s, s, AfterGovern(s, archives, tombstones, backfill, at), at)
  {
    var t := GovernAll(s, s, ArchiveDuplicate, archives, at).0;
    var u := GovernAll(s, t, TombstonePollution, tombstones, at).0;
    GovernLogged(s, s, ArchiveDuplicate, archives, at);
    GovernLogged(s, t, TombstonePollution, tombstones, at);
    BackfillLogged(s, u, backfill, at);
    LoggedChain(s, s, t, u, at);
    LoggedChain(s, s, u, BackfillAll(u, backfill, at), at);
  }

  /** After any governance run, finished or refused half-way, each archive or tombstone it carried out can be reverted
      for exactly a week: the record gets back the exact status it had when the run selected it, also when the run
      both archived and tombstoned it. No other record changes, and the token works once. */
  lemma RevertRestoresSelection(
    s: State, archives: seq<Target>, tombstones: seq<Target>, backfill: seq<Backfill>, at: int, i: nat, later: int)
    requires |s.actions| <= i < |AfterGovern(s, archives, tombstones, backfill, at).actions|
    requires var a := AfterGovern(s, archives, tombstones, backfill, at).actions[i];
             a.kind in {ArchiveDuplicate, TombstonePollution} && a.status == Applied
    ensures var t := AfterGovern(s, archives, tombstones, backfill, at);
            var a := t.actions[i];
            && a.token.Some? && a.memory in s.records
            && (RevertOutcome(t, i, a.token.value, later) == None <==> later <= at + 7 * 24 * 3_600_000)
            && (later <= at + 7 * 24 * 3_600_000 ==>
                  var u := AfterRevert(t, i, a.token.value, later);
                  && u.records[a.memory].status == s.records[a.memory].status
                  && (IsRecallable(u, a.memory) <==> IsRecallable(s, a.memory))
                  && (forall id :: id in t.records && id != a.memory ==> u.records[id] == t.records[id])
                  && (forall token, when :: RevertOutcome(u, i, token, when) == Some(AlreadyReverted)))
  {
    RunLogged(s, archives, tombstones, backfill, at);
    var t := AfterGovern(s, archives, tombstones, backfill, at);
    assert Remembers(s, t.actions[i], at) && t.actions[i].revertedAt == None;
  }

  /** Reverting a list of actions with their own tokens, one by one; those without a usable token are passed over. */
  function RevertEach(s: State, order: seq<nat>, later: int): State
    decreases |order|
  {
    if order == [] then s
    else
      var i := order[0];
      var usable := i < |s.actions| && s.actions[i].token.Some?
          && RevertOutcome(s, i, s.actions[i].token.value, later) == None;
      RevertEach(if usable then AfterRevert(s, i, s.actions[i].token.value, later) else s, order[1..], later)
  }

  /** Half-way through reverting: every status that differs from the start is behind a token still to be used. */
  ghost predicate Unwinding(s: State, t: State, order: seq<nat>, at: int) {
    && t.records.Keys == s.records.Keys && |s.actions| <= |t.actions|
    && (forall k :: 0 <= k < |order| ==> order[k] >= |s.actions|)
    && (forall i :: |s.actions| <= i < |t.actions| ==> t.actions[i].token.Some? ==> Remembers(s, t.actions[i], at))
    && (forall id :: id in s.records ==>
          t.records[id].policy == s.records[id].policy
          && (t.records[id].status == s.records[id].status || OpenIn(t.actions, order, id)))
  }

  ghost predicate OpenIn(actions: seq<Action>, order: seq<nat>, id: MemoryId) {
    exists i :: i in order && i < |actions| && OpenToken(actions[i], id)
  }

  lemma RevertUnwinds(s: State, t: State, order: seq<nat>, at: int, later: int)
    requires Unwinding(s, t, order, at) && order != [] && later <= at + WEEK_MS
    requires order[0] < |t.actions| && t.actions[order[0]].token.Some?
    requires RevertOutcome(t, order[0], t.actions[order[0]].token.value, later) == None
    ensures Unwinding(s, AfterRevert(t, order[0], t.actions[order[0]].token.value, later), order[1..], at)
  {
    var i := order[0];
    var a := t.actions[i];
    var u := AfterRevert(t, i, a.token.value, later);
    assert Remembers(s, a, at);
    forall id | id in s.records
      ensures u.records[id].policy == s.records[id].policy
      ensures u.records[id].status == s.records[id].status || OpenIn(u.actions, order[1..], id)
    {
      if id != a.memory && t.records[id].status != s.records[id].status {
        var j :| j in order && j < |t.actions| && OpenToken(t.actions[j], id);
        assert j in order[1..] && u.actions[j] == t.actions[j];
      }
    }
  }

  lemma PassingOverUnwinds(s: State, t: State, order: seq<nat>, at: int, later: int)
    requires Unwinding(s, t, order, at) && order != [] && later <= at + WEEK_MS
    requires order[0] < |t.actions| && t.actions[order[0]].token.Some? ==>
               RevertOutcome(t, order[0], t.actions[order[0]].token.value, later) != None
    ensures Unwinding(s, t, order[1..], at)
  {
    forall id | id in s.records
      ensures t.records[id].status == s.records[id].status || OpenIn(t.actions, order[1..], id)
    {
      if t.records[id].status != s.records[id].status {
        var j :| j in order && j < |t.actions| && OpenToken(t.actions[j], id);
        assert RevertOutcome(t, j, t.actions[j].token.value, later) == None;
        assert j in order[1..];
      }
    }
  }

  lemma {:induction false} RevertEachUnwinds(s: State, t: State, order: seq<nat>, at: int, later: int)
    requires Unwinding(s, t, order, at) && later <= at + WEEK_MS
    ensures Unwinding(s, RevertEach(t, order, later), [], at)
    decreases |order|
  {
    if order == [] {
    } else if order[0] < |t.actions| && t.actions[order[0]].token.Some?
      && RevertOutcome(t, order[0], t.actions[order[0]].token.value, later) == None {
      RevertUnwinds(s, t, order, at, later);
      RevertEachUnwinds(s, AfterRevert(t, order[0], t.actions[order[0]].token.value, later), order[1..], at, later);
    } else {
      PassingOverUnwinds(s, t, order, at, later);
      RevertEachUnwinds(s, t, order[1..], at, later);
    }
  }

  /** Reverting all of a run's actions within the week, in any order, restores every status triple and the recallable
      set. */
  lemma RevertingAllRestores(
    s: State, archives: seq<Target>, tombstones: seq<Target>, backfill: seq<Backfill>, at: int, order: seq<nat>,
        later: int)
    requires later <= at + WEEK_MS
    requires forall i :: i in order <==> |s.actions| <= i < |AfterGovern(s, archives, tombstones, backfill, at).actions|
    ensures var u := RevertEach(AfterGovern(s, archives, tombstones, backfill, at), order, later);
            && u.records.Keys == s.records.Keys
            && (forall id :: id in s.records ==> u.records[id].status == s.records[id].status)
            && RecallableIds(u) == RecallableIds(s)
  {
    var t := AfterGovern(s, archives, tombstones, backfill, at);
    RunLogged(s, archives, tombstones, backfill, at);
    forall id | id in s.records
      ensures t.records[id].status == s.records[id].status || OpenIn(t.actions, order, id)
    {
      if t.records[id].status != s.records[id].status {
        var i :| |s.actions| <= i < |t.actions| && OpenToken(t.actions[i], id);
        assert i in order;
      }
    }
    assert forall k :: 0 <= k < |order| ==> order[k] in order;
    RevertEachUnwinds(s, t, order, at, later);
  }

  /** The shortest such run: archiving one duplicate and reverting it at once. */
  lemma ArchiveThenRevertRestores(s: State, t: Target, at: int, later: int)
    requires !t.frozen && ServiceAccepts(s, ArchiveDuplicate, t) && later <= at + WEEK_MS
    ensures var archived := Step(s, Govern([t], [], [], at), false);
            && t.id in archived.records && archived.records[t.id].status
                 == Status(Archived, s.records[t.id].status.review, false)
            && RevertOutcome(archived, |s.actions|, t.token, later) == None
            && var reverted := AfterRevert(archived, |s.actions|, t.token, later);
               && reverted.records.Keys == s.records.Keys
               && (forall id :: id in s.records ==>
                    reverted.records[id].status == s.records[id].status
                        && reverted.records[id].policy == s.records[id].policy)
               && RecallableIds(reverted) == RecallableIds(s)
               && (forall token, when :: RevertOutcome(reverted, |s.actions|, token, when) == Some(AlreadyReverted))
  {
    var archived := GovernOne(s, s, ArchiveDuplicate, t, at);
    assert GovernAll(s, s, ArchiveDuplicate, [t], at) == GovernAll(s, archived, ArchiveDuplicate, [t][1..], at)
        == (archived, true);
    assert GovernAll(s, archived, TombstonePollution, [], at) == (archived, true);
    assert Step(s, Govern([t], [], [], at), false) == archived;
    assert archived.actions[|s.actions|] == GovernanceAction(s, ArchiveDuplicate, t, at);
    var reverted := AfterRevert(archived, |s.actions|, t.token, later);
    forall id | id in s.records
      ensures reverted.records[id].status == s.records[id].status && reverted.records[id].policy == s.records[id].policy
    {
    }
    assert RecallableIds(reverted) == RecallableIds(s);
  }

  /** A reverted action stays reverted over every run, so no token works twice. */
  lemma {:induction false} RevertedForever(s: State, cs: seq<Command>, pendingSkip: bool, action: nat)
    requires action < |s.actions| && s.actions[action].revertedAt.Some?
    ensures action < |Run(s, cs, pendingSkip).actions| && Run(s, cs, pendingSkip).actions[action].revertedAt.Some?
    decreases |cs|
  {
    if cs == [] {
    } else {
      ActionsOnlyGrow(s, cs[0], pendingSkip);
      RevertedForever(Step(s, cs[0], pendingSkip), cs[1..], pendingSkip, action);
    }
  }

  /** Actions are never removed; all that changes in one is its move to "reverted". */
  ghost predicate ActionsExtend(s: State, t: State) {
    && |s.actions| <= |t.actions|
    && forall i :: 0 <= i < |s.actions| ==> t.actions[i] == s.actions[i] || IsRevertOf(s.actions[i], t.actions[i])
  }

  predicate IsRevertOf(a: Action, b: Action) {
    b.revertedAt.Some? && b == a.(status := Reverted, revertedAt := b.revertedAt)
  }

  lemma {:induction false} SweepExtendsActions(
    start: State, loaded: set<MemoryId>, s: State, items: seq<SweepItem>, at: int)
    ensures s.actions <= SweepAll(start, loaded, s, items, at).actions
    decreases |items|
  {
    if items == [] {
    } else {
      SweepExtendsActions(start, loaded, SweepOne(start, loaded, s, items[0], at), items[1..], at);
    }
  }

  lemma {:induction false} GovernExtendsActions(start: State, s: State, kind: ActionKind, targets: seq<Target>, at: int)
    ensures s.actions <= GovernAll(start, s, kind, targets, at).0.actions
    decreases |targets|
  {
    if targets == [] || targets[0].id !in start.records {
    } else if targets[0].frozen {
      GovernExtendsActions(start, Log(s, GovernanceAction(start, kind, targets[0], at)), kind, targets[1..], at);
    } else if ServiceAccepts(s, kind, targets[0]) {
      GovernExtendsActions(start, GovernOne(start, s, kind, targets[0], at), kind, targets[1..], at);
    }
  }

  lemma {:induction false} BackfillExtendsActions(s: State, backfill: seq<Backfill>, at: int)
    ensures s.actions <= BackfillAll(s, backfill, at).actions
    decreases |backfill|
  {
    if backfill == [] {
    } else {
      BackfillExtendsActions(BackfillOne(s, backfill[0], at), backfill[1..], at);
    }
  }

  lemma ActionsOnlyGrow(s: State, c: Command, pendingSkip: bool)
    ensures ActionsExtend(s, Step(s, c, pendingSkip))
  {
    match c
    case Sweep(loaded, items, at) => SweepExtendsActions(s, loaded, s, items, at);
    case Govern(archives, tombstones, backfill, at) =>
      var t := GovernAll(s, s, ArchiveDuplicate, archives, at).0;
      GovernExtendsActions(s, s, ArchiveDuplicate, archives, at);
      GovernExtendsActions(s, t, TombstonePollution, tombstones, at);
      BackfillExtendsActions(GovernAll(s, t, TombstonePollution, tombstones, at).0, backfill, at);
    case _ =>
  }
}
