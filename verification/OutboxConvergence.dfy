/** The outbox always suffices to bring the projection back to the ledger, but for points that the projector is told
    to leave alone. */
module OutboxConvergence {
  import opened Options
  import opened Ledger

  ghost predicate PendingFor(s: State, id: MemoryId) {
    exists k :: 0 <= k < |s.outbox| && !s.outbox[k].dispatched && id in s.outbox[k].affected
  }

  predicate Agrees(s: State, id: MemoryId) {
    id in s.projection <==> IsRecallable(s, id)
  }

  /** A point whose record the projector leaves alone while the skip switch is on. */
  predicate Stranded(s: State, id: MemoryId) {
    id in s.projection && OperationOn(s, id, true) == Skip
  }

  ghost predicate NoStrandedPoint(s: State) {
    forall id :: !Stranded(s, id)
  }

  /** Every id that no undispatched event mentions is in the projection exactly when it is recallable; with the skip
      switch on it may also be stranded. */
  ghost predicate Converging(s: State, pendingSkip: bool) {
    forall id :: PendingFor(s, id) || Agrees(s, id) || (pendingSkip && Stranded(s, id))
  }

  /** `t` leaves the projection and the events of `s` alone, and every record for which the projector has something
      else to do than before is mentioned by a new undispatched event. */
  ghost predicate Announces(s: State, t: State) {
    && t.projection == s.projection
    && s.outbox <= t.outbox
    && t.records.Keys == s.records.Keys
    && forall id {:trigger OperationOn(t, id, true)} ::
         OperationOn(s, id, true) != OperationOn(t, id, true) ==> AnnouncedSince(|s.outbox|, t, id)
  }

  ghost predicate AnnouncedSince(start: nat, t: State, id: MemoryId) {
    exists k :: start <= k < |t.outbox| && !t.outbox[k].dispatched && id in t.outbox[k].affected
  }

  lemma AnnouncesChain(s: State, t: State, u: State)
    requires Announces(s, t) && Announces(t, u)
    ensures Announces(s, u)
  {
    forall id | OperationOn(s, id, true) != OperationOn(u, id, true)
      ensures AnnouncedSince(|s.outbox|, u, id)
    {
      if OperationOn(s, id, true) != OperationOn(t, id, true) {
        var k :| |s.outbox| <= k < |t.outbox| && !t.outbox[k].dispatched && id in t.outbox[k].affected;
        assert u.outbox[k] == t.outbox[k];
      }
    }
  }

  lemma AnnouncedKeepsConverging(s: State, t: State, pendingSkip: bool)
    requires Converging(s, pendingSkip) && Announces(s, t)
    ensures Converging(t, pendingSkip)
  {
    forall id
      ensures PendingFor(t, id) || Agrees(t, id) || (pendingSkip && Stranded(t, id))
    {
      if PendingFor(s, id) {
        var k :| 0 <= k < |s.outbox| && !s.outbox[k].dispatched && id in s.outbox[k].affected;
        assert t.outbox[k] == s.outbox[k];
      } else {
        assert OperationOn(s, id, true) == OperationOn(t, id, true) || PendingFor(t, id);
      }
    }
  }

  lemma ApplyAnnounces(s: State, r: ApplyRequest)
    requires ApplyOutcome(s, r) == None
    ensures Announces(s, AfterApply(s, r))
  {
    var t := AfterApply(s, r);
    assert t.outbox[|s.outbox|].affected == {OldOf(s, r), r.candidate};
  }

  lemma RollbackAnnounces(s: State, decision: nat, at: int)
    requires RollbackOutcome(s, decision) == None
    ensures Announces(s, AfterRollback(s, decision, at))
  {
    var t := AfterRollback(s, decision, at);
    var a := s.actions[decision];
    assert t.outbox[|s.outbox|] == Event(a.related.value, {a.related.value}, false);
    assert t.outbox[|s.outbox| + 1] == Event(a.memory, {a.memory}, false);
  }

  lemma RevertAnnounces(s: State, action: nat, token: string, at: int)
    requires RevertOutcome(s, action, token, at) == None
    ensures Announces(s, AfterRevert(s, action, token, at))
  {
    var t := AfterRevert(s, action, token, at);
    assert t.outbox[|s.outbox|].affected == {s.actions[action].memory};
  }

  /** A sweep rejection emits nothing, and need not: the projector skips a pending candidate and skips it still once
      it is rejected. */
  lemma {:induction false} SweepAnnounces(start: State, loaded: set<MemoryId>, s: State, items: seq<SweepItem>, at: int)
    ensures Announces(s, SweepAll(start, loaded, s, items, at))
    decreases |items|
  {
    if items == [] {
    } else {
      var t := SweepOne(start, loaded, s, items[0], at);
      assert |t.outbox| > |s.outbox| ==> t.outbox[|s.outbox|].affected == {items[0].id};
      assert Announces(s, t);
      SweepAnnounces(start, loaded, t, items[1..], at);
      AnnouncesChain(s, t, SweepAll(start, loaded, s, items, at));
    }
  }

  lemma {:induction false} GovernAnnounces(start: State, s: State, kind: ActionKind, targets: seq<Target>, at: int)
    ensures Announces(s, GovernAll(start, s, kind, targets, at).0)
    decreases |targets|
  {
    if targets == [] || targets[0].id !in start.records {
    } else if targets[0].frozen {
      var t := Log(s, GovernanceAction(start, kind, targets[0], at));
      GovernAnnounces(start, t, kind, targets[1..], at);
      AnnouncesChain(s, t, GovernAll(start, t, kind, targets[1..], at).0);
    } else if ServiceAccepts(s, kind, targets[0]) {
      var t := GovernOne(start, s, kind, targets[0], at);
      assert t.outbox[|s.outbox|].affected == {targets[0].id};
      GovernAnnounces(start, t, kind, targets[1..], at);
      AnnouncesChain(s, t, GovernAll(start, t, kind, targets[1..], at).0);
    }
  }

  lemma {:induction false} BackfillAnnounces(s: State, backfill: seq<Backfill>, at: int)
    ensures Announces(s, BackfillAll(s, backfill, at))
    decreases |backfill|
  {
    if backfill == [] {
    } else {
      var t := BackfillOne(s, backfill[0], at);
      assert Announces(s, t);
      BackfillAnnounces(t, backfill[1..], at);
      AnnouncesChain(s, t, BackfillAll(s, backfill, at));
    }
  }

  /** Every command other than a projection run announces what it changes. */
  lemma StepAnnounces(s: State, c: Command, pendingSkip: bool)
    requires !c.Drain? && !c.Sync?
    ensures Announces(s, Step(s, c, pendingSkip))
  {
    match c
    case Apply(r) => if ApplyOutcome(s, r) == None { ApplyAnnounces(s, r); }
    case Rollback(decision, at) => if RollbackOutcome(s, decision) == None { RollbackAnnounces(s, decision, at); }
    case Sweep(loaded, items, at) => SweepAnnounces(s, loaded, s, items, at);
    case Govern(archives, tombstones, backfill, at) =>
      var t := GovernAll(s, s, ArchiveDuplicate, archives, at).0;
      var u := GovernAll(s, t, TombstonePollution, tombstones, at).0;
      GovernAnnounces(s, s, ArchiveDuplicate, archives, at);
      GovernAnnounces(s, t, TombstonePollution, tombstones, at);
      BackfillAnnounces(u, backfill, at);
      AnnouncesChain(s, t, u);
      AnnouncesChain(s, u, BackfillAll(u, backfill, at));
    case Revert(action, token, at) =>
      if RevertOutcome(s, action, token, at) == None { RevertAnnounces(s, action, token, at); }
  }

  lemma SyncKeepsConverging(s: State, ids: set<MemoryId>, embeddable: set<MemoryId>, pendingSkip: bool)
    requires Converging(s, pendingSkip)
    ensures Converging(Synced(s, ids, embeddable, pendingSkip), pendingSkip)
  {
    var t := Synced(s, ids, embeddable, pendingSkip);
    forall id
      ensures PendingFor(t, id) || Agrees(t, id) || (pendingSkip && Stranded(t, id))
    {
      assert PendingFor(s, id) <==> PendingFor(t, id);
    }
  }

  /** Dispatching an event loses no id: whatever it mentions is now in agreement or stranded. */
  lemma DrainKeepsConverging(s: State, event: nat, embeddable: set<MemoryId>, pendingSkip: bool)
    requires Converging(s, pendingSkip) && event < |s.outbox| && !s.outbox[event].dispatched
    ensures Converging(AfterDrain(s, event, embeddable, pendingSkip), pendingSkip)
  {
    var e := s.outbox[event];
    var t := AfterDrain(s, event, embeddable, pendingSkip);
    SyncKeepsConverging(s, e.affected, embeddable, pendingSkip);
    if t.outbox != s.outbox {
      forall id
        ensures PendingFor(t, id) || Agrees(t, id) || (pendingSkip && Stranded(t, id))
      {
        if id !in e.affected && PendingFor(s, id) {
          var k :| 0 <= k < |s.outbox| && !s.outbox[k].dispatched && id in s.outbox[k].affected;
          assert t.outbox[k] == s.outbox[k];
        }
      }
    }
  }

  /** Over every run, and with either setting of the switch, the outbox covers the difference between ledger and
      projection, stranded points aside. */
  lemma {:induction false} RunKeepsConverging(s: State, cs: seq<Command>, pendingSkip: bool)
    requires Converging(s, pendingSkip)
    ensures Converging(Run(s, cs, pendingSkip), pendingSkip)
    decreases |cs|
  {
    if cs == [] {
    } else {
      match cs[0] {
        case Drain(event, embeddable) =>
          if event < |s.outbox| && !s.outbox[event].dispatched {
            DrainKeepsConverging(s, event, embeddable, pendingSkip);
          }
        case Sync(ids, embeddable) => SyncKeepsConverging(s, ids, embeddable, pendingSkip);
        case _ =>
          StepAnnounces(s, cs[0], pendingSkip);
          AnnouncedKeepsConverging(s, Step(s, cs[0], pendingSkip), pendingSkip);
      }
      RunKeepsConverging(Step(s, cs[0], pendingSkip), cs[1..], pendingSkip);
    }
  }

  /** Replaying ids one by one, embeddings available. */
  function Replay(s: State, order: seq<MemoryId>, pendingSkip: bool): State
    decreases |order|
  {
    if order == [] then s
    else Replay(Synced(s, {order[0]}, {order[0]}, pendingSkip), order[1..], pendingSkip)
  }

  /** The ids to replay, in any order and with repeats, include those of the pending events. */
  ghost predicate CoversPending(s: State, order: seq<MemoryId>) {
    forall id :: PendingFor(s, id) ==> id in order
  }

  lemma {:induction false} ReplayMember(s: State, order: seq<MemoryId>, pendingSkip: bool, id: MemoryId)
    ensures Replay(s, order, pendingSkip).records == s.records
    ensures id in Replay(s, order, pendingSkip).projection <==>
              if id !in order || OperationOn(s, id, pendingSkip) == Skip then id in s.projection
              else OperationOn(s, id, pendingSkip) == Upsert
    decreases |order|
  {
    if order == [] {
    } else {
      ReplayMember(Synced(s, {order[0]}, {order[0]}, pendingSkip), order[1..], pendingSkip, id);
    }
  }

  /** Replaying the pending ids makes the projection equal to the recallable set; with the skip switch on, exactly when
      no point is stranded. */
  lemma ReplayConvergesIff(s: State, order: seq<MemoryId>, pendingSkip: bool)
    requires Converging(s, pendingSkip) && CoversPending(s, order)
    ensures Replay(s, order, pendingSkip).projection == RecallableIds(s) <==> (pendingSkip ==> NoStrandedPoint(s))
  {
    var t := Replay(s, order, pendingSkip);
    forall id
      ensures id in t.projection <==>
                if id !in order || OperationOn(s, id, pendingSkip) == Skip then id in s.projection
                else OperationOn(s, id, pendingSkip) == Upsert
    {
      ReplayMember(s, order, pendingSkip, id);
    }
    if pendingSkip && !NoStrandedPoint(s) {
      var id :| Stranded(s, id);
      assert id in t.projection && id !in RecallableIds(s);
    } else {
      forall id
        ensures id in t.projection <==> id in RecallableIds(s)
      {
        assert PendingFor(s, id) || Agrees(s, id) || (pendingSkip && Stranded(s, id));
        assert pendingSkip ==> !Stranded(s, id);
      }
    }
  }

  /** After every run, replaying the pending ids restores the projection, with the skip switch on exactly when the
      state reached has no stranded point. */
  lemma EveryRunConvergesIff(s: State, cs: seq<Command>, order: seq<MemoryId>, pendingSkip: bool)
    requires Converging(s, pendingSkip) && CoversPending(Run(s, cs, pendingSkip), order)
    ensures var t := Run(s, cs, pendingSkip);
            Replay(t, order, pendingSkip).projection == RecallableIds(t) <==> (pendingSkip ==> NoStrandedPoint(t))
  {
    RunKeepsConverging(s, cs, pendingSkip);
    ReplayConvergesIff(Run(s, cs, pendingSkip), order, pendingSkip);
  }

  /** With the skip switch off the outbox converges over every run, unconditionally. */
  lemma EveryRunConverges(s: State, cs: seq<Command>, order: seq<MemoryId>)
    requires Converging(s, false) && CoversPending(Run(s, cs, false), order)
    ensures Replay(Run(s, cs, false), order, false).projection == RecallableIds(Run(s, cs, false))
  {
    EveryRunConvergesIff(s, cs, order, false);
  }

  // --- the worker ---

  /** With no event left to dispatch, the projection is the recallable set, with the skip switch on exactly when no
      point is stranded. */
  lemma NothingPendingIff(s: State, pendingSkip: bool)
    requires Converging(s, pendingSkip) && forall k :: 0 <= k < |s.outbox| ==> s.outbox[k].dispatched
    ensures s.projection == RecallableIds(s) <==> (pendingSkip ==> NoStrandedPoint(s))
  {
    assert Replay(s, [], pendingSkip) == s;
    ReplayConvergesIff(s, [], pendingSkip);
  }

  /** Dispatching events one by one, in the given order; events that are dispatched already are passed over. */
  function Drains(order: seq<nat>, embeddable: set<MemoryId>): seq<Command> {
    if order == [] then [] else [Drain(order[0], embeddable)] + Drains(order[1..], embeddable)
  }

  /** Draining changes neither records nor the events but for their dispatch, and with the skip switch on it neither
      strands nor frees a point. */
  ghost predicate DrainedFrom(s: State, t: State, pendingSkip: bool) {
    && t.records == s.records
    && |t.outbox| == |s.outbox|
    && (forall k :: 0 <= k < |s.outbox| && s.outbox[k].dispatched ==> t.outbox[k].dispatched)
    && (pendingSkip ==> forall id :: Stranded(t, id) <==> Stranded(s, id))
  }

  lemma DrainStep(s: State, event: nat, embeddable: set<MemoryId>, pendingSkip: bool)
    requires RecallableIds(s) <= embeddable
    ensures DrainedFrom(s, Step(s, Drain(event, embeddable), pendingSkip), pendingSkip)
    ensures event < |s.outbox| ==> Step(s, Drain(event, embeddable), pendingSkip).outbox[event].dispatched
  {
    var t := Step(s, Drain(event, embeddable), pendingSkip);
    if event < |s.outbox| && !s.outbox[event].dispatched {
      forall id | id in s.outbox[event].affected && OperationOn(s, id, pendingSkip) == Upsert
        ensures id in embeddable
      {
        assert id in RecallableIds(s);
      }
    }
  }

  lemma {:induction false} DrainsDispatch(s: State, order: seq<nat>, embeddable: set<MemoryId>, pendingSkip: bool)
    requires RecallableIds(s) <= embeddable
    ensures DrainedFrom(s, Run(s, Drains(order, embeddable), pendingSkip), pendingSkip)
    ensures forall k :: k in order && k < |s.outbox| ==>
              Run(s, Drains(order, embeddable), pendingSkip).outbox[k].dispatched
    decreases |order|
  {
    var cs := Drains(order, embeddable);
    RunUnfolds(s, cs, pendingSkip);
    if order == [] {
    } else {
      var t := Step(s, Drain(order[0], embeddable), pendingSkip);
      DrainStep(s, order[0], embeddable, pendingSkip);
      assert cs[1..] == Drains(order[1..], embeddable);
      assert RecallableIds(t) == RecallableIds(s);
      DrainsDispatch(t, order[1..], embeddable, pendingSkip);
      assert forall k :: k in order <==> k == order[0] || k in order[1..];
    }
  }

  /** A worker that dispatches every pending event, in any order and with embeddings at hand, brings the projection to
      the recallable set; with the skip switch on, exactly when no point was stranded to begin with. */
  lemma WorkerConvergesIff(s: State, order: seq<nat>, embeddable: set<MemoryId>, pendingSkip: bool)
    requires Converging(s, pendingSkip) && RecallableIds(s) <= embeddable
    requires forall k :: 0 <= k < |s.outbox| && !s.outbox[k].dispatched ==> k in order
    ensures Run(s, Drains(order, embeddable), pendingSkip).projection == RecallableIds(s)
       <==> (pendingSkip ==> NoStrandedPoint(s))
  {
    var t := Run(s, Drains(order, embeddable), pendingSkip);
    DrainsDispatch(s, order, embeddable, pendingSkip);
    RunKeepsConverging(s, Drains(order, embeddable), pendingSkip);
    NothingPendingIff(t, pendingSkip);
    assert RecallableIds(t) == RecallableIds(s);
  }

  // --- which commands strand a point ---

  /** What an operator can look up beforehand: an apply strands a projected candidate with an unknown policy; a rollback
      strands a projected old record whose policy is unknown, or default with a rejected review; a revert strands a
      projected record when the status it writes back is one that the projector skips. */
  predicate Strands(s: State, c: Command) {
    match c
    case Apply(r) =>
      ApplyOutcome(s, r) == None && r.candidate in s.projection && s.records[r.candidate].policy == UnknownPolicy
    case Rollback(decision, _) =>
      && RollbackOutcome(s, decision) == None
      && var prior := s.actions[decision].related.value;
         && prior != s.actions[decision].memory && prior in s.projection
         && (|| s.records[prior].policy == UnknownPolicy
             || (s.records[prior].policy == DefaultPolicy && s.records[prior].status.review == ReviewRejected))
    case Revert(action, token, at) =>
      && RevertOutcome(s, action, token, at) == None
      && var a := s.actions[action];
         a.memory in s.projection
         && ProjectionOperation(s.records[a.memory].(status := Restored(a.before)), true) == Skip
    case _ => false
  }

  lemma ApplyStrandsIff(s: State, r: ApplyRequest)
    requires NoStrandedPoint(s) && ApplyOutcome(s, r) == None
    ensures NoStrandedPoint(AfterApply(s, r)) <==> !Strands(s, Apply(r))
  {
    var t := AfterApply(s, r);
    forall id | id != r.candidate
      ensures !Stranded(t, id)
    {
      assert id != OldOf(s, r) && id in s.records ==> t.records[id] == s.records[id];
      assert !Stranded(s, id);
    }
    assert Stranded(t, r.candidate) <==> Strands(s, Apply(r));
  }

  lemma RollbackStrandsIff(s: State, decision: nat, at: int)
    requires NoStrandedPoint(s) && RollbackOutcome(s, decision) == None
    ensures NoStrandedPoint(AfterRollback(s, decision, at)) <==> !Strands(s, Rollback(decision, at))
  {
    var t := AfterRollback(s, decision, at);
    var prior, cand := s.actions[decision].related.value, s.actions[decision].memory;
    forall id | id != prior
      ensures !Stranded(t, id)
    {
      assert id != cand && id in s.records ==> t.records[id] == s.records[id];
      assert !Stranded(s, id);
    }
    assert Stranded(t, prior) <==> Strands(s, Rollback(decision, at));
  }

  lemma RevertStrandsIff(s: State, action: nat, token: string, at: int)
    requires NoStrandedPoint(s) && RevertOutcome(s, action, token, at) == None
    ensures NoStrandedPoint(AfterRevert(s, action, token, at)) <==> !Strands(s, Revert(action, token, at))
  {
    var t := AfterRevert(s, action, token, at);
    var memory := s.actions[action].memory;
    forall id | id != memory
      ensures !Stranded(t, id)
    {
      assert id in s.records ==> t.records[id] == s.records[id];
      assert !Stranded(s, id);
    }
    assert Stranded(t, memory) <==> Strands(s, Revert(action, token, at));
  }

  lemma {:induction false} SweepNeverStrands(
    start: State, loaded: set<MemoryId>, s: State, items: seq<SweepItem>, at: int)
    requires NoStrandedPoint(s)
    ensures NoStrandedPoint(SweepAll(start, loaded, s, items, at))
    decreases |items|
  {
    if items == [] {
    } else {
      var t := SweepOne(start, loaded, s, items[0], at);
      forall id
        ensures !Stranded(t, id)
      {
        assert !Stranded(s, id);
      }
      SweepNeverStrands(start, loaded, t, items[1..], at);
    }
  }

  lemma {:induction false} GovernNeverStrands(start: State, s: State, kind: ActionKind, targets: seq<Target>, at: int)
    requires NoStrandedPoint(s)
    ensures NoStrandedPoint(GovernAll(start, s, kind, targets, at).0)
    decreases |targets|
  {
    if targets == [] || targets[0].id !in start.records {
    } else if targets[0].frozen {
      var t := Log(s, GovernanceAction(start, kind, targets[0], at));
      assert forall id :: Stranded(t, id) ==> Stranded(s, id);
      GovernNeverStrands(start, t, kind, targets[1..], at);
    } else if ServiceAccepts(s, kind, targets[0]) {
      var t := GovernOne(start, s, kind, targets[0], at);
      assert forall id :: Stranded(t, id) ==> Stranded(s, id);
      GovernNeverStrands(start, t, kind, targets[1..], at);
    }
  }

  lemma {:induction false} BackfillNeverStrands(s: State, backfill: seq<Backfill>, at: int)
    requires NoStrandedPoint(s)
    ensures NoStrandedPoint(BackfillAll(s, backfill, at))
    decreases |backfill|
  {
    if backfill == [] {
    } else {
      var t := BackfillOne(s, backfill[0], at);
      assert forall id :: Stranded(t, id) ==> Stranded(s, id);
      BackfillNeverStrands(t, backfill[1..], at);
    }
  }

  /** From a state without stranded points, a command strands one exactly when its guard says so; sweeps, governance
      runs and projection runs never do. */
  lemma StepStrandsIff(s: State, c: Command)
    requires NoStrandedPoint(s)
    ensures NoStrandedPoint(Step(s, c, true)) <==> !Strands(s, c)
  {
    match c
    case Apply(r) => if ApplyOutcome(s, r) == None { ApplyStrandsIff(s, r); }
    case Rollback(decision, at) => if RollbackOutcome(s, decision) == None { RollbackStrandsIff(s, decision, at); }
    case Revert(action, token, at) =>
      if RevertOutcome(s, action, token, at) == None { RevertStrandsIff(s, action, token, at); }
    case Sweep(loaded, items, at) => SweepNeverStrands(s, loaded, s, items, at);
    case Govern(archives, tombstones, backfill, at) =>
      var t := GovernAll(s, s, ArchiveDuplicate, archives, at).0;
      var u := GovernAll(s, t, TombstonePollution, tombstones, at).0;
      GovernNeverStrands(s, s, ArchiveDuplicate, archives, at);
      GovernNeverStrands(s, t, TombstonePollution, tombstones, at);
      BackfillNeverStrands(u, backfill, at);
    case _ =>
      assert forall id :: Stranded(Step(s, c, true), id) ==> Stranded(s, id);
  }

  /** No command of the run meets its guard. */
  ghost predicate Guarded(s: State, cs: seq<Command>)
    decreases |cs|
  {
    cs == [] || (!Strands(s, cs[0]) && Guarded(Step(s, cs[0], true), cs[1..]))
  }

  /** With the skip switch on, a run whose commands each check the guard converges. */
  lemma {:induction false} GuardedRunConverges(s: State, cs: seq<Command>, order: seq<MemoryId>)
    requires Converging(s, true) && NoStrandedPoint(s) && Guarded(s, cs) && CoversPending(Run(s, cs, true), order)
    ensures NoStrandedPoint(Run(s, cs, true))
    ensures Replay(Run(s, cs, true), order, true).projection == RecallableIds(Run(s, cs, true))
    decreases |cs|
  {
    if cs == [] {
      ReplayConvergesIff(s, order, true);
    } else {
      StepStrandsIff(s, cs[0]);
      RunKeepsConverging(s, [cs[0]], true);
      assert [cs[0]][1..] == [];
      RunUnfolds(Step(s, cs[0], true), [], true);
      GuardedRunConverges(Step(s, cs[0], true), cs[1..], order);
    }
  }

  const WITNESS_SCOPE := Scope("project", "memory-xx")

  const WITNESS_CANDIDATE := Record(Facts(WITNESS_SCOPE, "fact", "new", Some(1), false, false, None),
      PENDING_CANDIDATE, DefaultPolicy, 0)

  const WITNESS_OLD := Record(Facts(WITNESS_SCOPE, "fact", "old", None, false, false, None),
      Status(Approved, NotRequired, true), DefaultPolicy, 0)

  const WITNESS := State(map[0 := WITNESS_CANDIDATE, 1 := WITNESS_OLD], [], [], {1})

  const WITNESS_RUN := [
    Govern([], [Target(0, false, false, "token")], [], 0),
    Apply(ApplyRequest(WITNESS_SCOPE, 0, true, true, false, true, 3, 1, 1)),
    Drain(1, {0, 1}),
    Revert(0, "token", 2)]

  /** With the skip switch on, a run can strand a point: a candidate is tombstoned as pollution, then applied as an
      update and projected, then the tombstone is reverted to "candidate". No replay of the pending events brings
      the projection back. */
  lemma RevertCanStrand(order: seq<MemoryId>)
    requires CoversPending(Run(WITNESS, WITNESS_RUN, true), order)
    ensures Converging(WITNESS, true) && NoStrandedPoint(WITNESS)
    ensures var t := Run(WITNESS, WITNESS_RUN, true);
            !NoStrandedPoint(t) && Replay(t, order, true).projection != RecallableIds(t)
  {
    WitnessStrands();
    EveryRunConvergesIff(WITNESS, WITNESS_RUN, order, true);
  }

  lemma WitnessStrands()
    ensures !NoStrandedPoint(Run(WITNESS, WITNESS_RUN, true))
  {
    var s1 := Step(WITNESS, WITNESS_RUN[0], true);
    WitnessTombstoned();
    var s2 := Step(s1, WITNESS_RUN[1], true);
    assert s2 == AfterApply(s1, WITNESS_RUN[1].request);
    var s3 := Step(s2, WITNESS_RUN[2], true);
    assert s2.outbox[1] == Event(1, {1, 0}, false);
    assert IsRecallable(s2, 0);
    assert 0 in s3.projection;
    var s4 := Step(s3, WITNESS_RUN[3], true);
    assert s3.actions[0] == s1.actions[0];
    assert s4.records[0].status == PENDING_CANDIDATE;
    assert Stranded(s4, 0);
    RunOfFour(WITNESS, WITNESS_RUN, true);
  }

  lemma WitnessTombstoned()
    ensures var s1 := Step(WITNESS, WITNESS_RUN[0], true);
            && s1.records.Keys == {0, 1}
            && s1.records[0].facts == WITNESS_CANDIDATE.facts && s1.records[0].policy == DefaultPolicy
            && s1.outbox == [Event(0, {0}, false)]
            && s1.projection == {1}
            && |s1.actions| == 1
            && s1.actions[0].memory == 0 && s1.actions[0].token == Some("token") && s1.actions[0].revertedAt == None
            && s1.actions[0].expiresAt == WEEK_MS && s1.actions[0].before == BeforeOf(PENDING_CANDIDATE)
  {
  }

  lemma RunOfFour(s: State, cs: seq<Command>, pendingSkip: bool)
    requires |cs| == 4
    ensures Run(s, cs, pendingSkip) == Step(Step(Step(Step(s, cs[0], pendingSkip), cs[1], pendingSkip), cs[2],
            pendingSkip), cs[3], pendingSkip)
  {
    RunUnfolds(s, cs, pendingSkip);
    var s1 := Step(s, cs[0], pendingSkip);
    RunUnfolds(s1, cs[1..], pendingSkip);
    var s2 := Step(s1, cs[1], pendingSkip);
    assert cs[1..][1..] == cs[2..];
    RunUnfolds(s2, cs[2..], pendingSkip);
    var s3 := Step(s2, cs[2], pendingSkip);
    assert cs[2..][1..] == cs[3..];
    RunUnfolds(s3, cs[3..], pendingSkip);
    assert cs[3..][1..] == [];
  }

  lemma RunUnfolds(s: State, cs: seq<Command>, pendingSkip: bool)
    ensures Run(s, cs, pendingSkip) == if cs == [] then s else Run(Step(s, cs[0], pendingSkip), cs[1..], pendingSkip)
  {
  }
}
