/** The memory ledger: status of every record, the outbox, the governance actions and the vector
    projection, with the meaning of each operator command as a function on the whole state. */
module Ledger {
  import opened Options

  type MemoryId = nat

  datatype Lifecycle = Candidate | Approved | Rejected | Archived | Superseded | Tombstone

  datatype Review = Pending | ReviewApproved | SilentApproved | NotRequired | ReviewRejected

  datatype Status = Status(lifecycle: Lifecycle, review: Review, current: bool)

  /** The recall policy stored with a record: absent or `default`; one of the four restricted ones; or
      any other text. */
  datatype Policy = DefaultPolicy | RestrictedPolicy | UnknownPolicy

  datatype Scope = Scope(kind: string, id: string)

  /** What the status commands do not change about a record. `existing` is the record a candidate wants to replace;
      the last three fields order duplicates, and a backfill may find a record to be `legacy`. */
  datatype Facts = Facts(
    scope: Scope, memoryType: string, content: string, existing: Option<MemoryId>,
    legacy: bool, hasEpisode: bool, strength: Option<int>)

  datatype Record = Record(facts: Facts, status: Status, policy: Policy, updatedAt: int)

  /** `affected` are the memory ids a worker derives from the event. */
  datatype Event = Event(aggregate: MemoryId, affected: set<MemoryId>, dispatched: bool)

  datatype ActionKind = AutoUpdateDecision | SweepDecision | ArchiveDuplicate | TombstonePollution | ProvenanceBackfill

  datatype ActionStatus = Applied | Skipped | Reverted

  /** The status fields found at the top level of a stored before-state. */
  datatype BeforeState = BeforeState(lifecycle: Option<Lifecycle>, review: Option<Review>, current: Option<bool>)

  datatype Action = Action(
    kind: ActionKind, scope: Scope, memory: MemoryId, related: Option<MemoryId>, before: BeforeState,
    status: ActionStatus, token: Option<string>, expiresAt: int, revertedAt: Option<int>, createdAt: int)

  /** Event and action ids are positions in their append-only tables. */
  datatype State = State(records: map<MemoryId, Record>, outbox: seq<Event>, actions: seq<Action>,
      projection: set<MemoryId>)

  predicate StatusRecallable(status: Status) {
    status.lifecycle == Approved && status.current && status.review in {ReviewApproved, SilentApproved, NotRequired}
  }

  predicate Recallable(r: Record) {
    StatusRecallable(r.status) && r.policy == DefaultPolicy
  }

  predicate IsRecallable(s: State, id: MemoryId) {
    id in s.records && Recallable(s.records[id])
  }

  function RecallableIds(s: State): set<MemoryId> {
    set id | id in s.records && Recallable(s.records[id])
  }

  function WithStatus(s: State, id: MemoryId, status: Status, at: int): State
    requires id in s.records
  {
    s.(records := s.records[id := s.records[id].(status := status, updatedAt := at)])
  }

  function Emit(s: State, aggregate: MemoryId, affected: set<MemoryId>): State {
    s.(outbox := s.outbox + [Event(aggregate, affected, false)])
  }

  function Log(s: State, action: Action): State {
    s.(actions := s.actions + [action])
  }

  const NO_BEFORE_STATE := BeforeState(None, None, None)

  function BeforeOf(status: Status): BeforeState {
    BeforeState(Some(status.lifecycle), Some(status.review), Some(status.current))
  }

  /** The status a revert writes: missing fields default to an approved, current record. */
  function Restored(b: BeforeState): Status {
    Status(
    if b.lifecycle.Some? then b.lifecycle.value else Approved,
    if b.review.Some? then b.review.value else NotRequired,
    if b.current.Some? then b.current.value else true)
  }

  // --- auto-update: apply ---

  const HOUR_MS := 3_600_000

  /** Policy, scope switches and clock readings are inputs. The rate limit is checked at `checkedAt`,
      outside the transaction that commits at `committedAt`. */
  datatype ApplyRequest = ApplyRequest(
    scope: Scope, candidate: MemoryId, scopeEnabled: bool, policyAllows: bool, temporalExpiry: bool,
    testScope: bool, maxHourly: int, checkedAt: int, committedAt: int)

  datatype ApplyError =
    | ScopeDisabled | CandidateNotFound | ScopeMismatch | ExistingIdRequired | OldNotFound | PolicyBlocked
    | HourlyLimitExceeded

  /** `Math.max(1, configured || 1)`. */
  function HourlyLimit(maxHourly: int): int {
    if maxHourly < 1 then 1 else maxHourly
  }

  /** The positions of the still-applied auto-update actions of a scope created within the closed hour
      that starts at `from`. */
  function AppliedInHour(actions: seq<Action>, scope: Scope, from: int): set<nat> {
    set i: nat | i < |actions| && actions[i].kind == AutoUpdateDecision && actions[i].scope == scope
                 && actions[i].status == Applied && from <= actions[i].createdAt <= from + HOUR_MS
  }

  /** The rows the limit query counts: no upper bound on the creation time. */
  function AppliedSince(actions: seq<Action>, scope: Scope, from: int): set<nat> {
    set i: nat | i < |actions| && actions[i].kind == AutoUpdateDecision && actions[i].scope == scope
                 && actions[i].status == Applied && from <= actions[i].createdAt
  }

  function ApplyOutcome(s: State, r: ApplyRequest): Option<ApplyError> {
    if !r.scopeEnabled then Some(ScopeDisabled)
    else if r.candidate !in s.records then Some(CandidateNotFound)
    else if s.records[r.candidate].facts.scope != r.scope then Some(ScopeMismatch)
    else if s.records[r.candidate].facts.existing == None then Some(ExistingIdRequired)
    else if s.records[r.candidate].facts.existing.value !in s.records then Some(OldNotFound)
    else if !r.policyAllows then Some(PolicyBlocked)
    else if !r.testScope && |AppliedSince(s.actions, r.scope, r.checkedAt - HOUR_MS)| >= HourlyLimit(r.maxHourly)
        then Some(HourlyLimitExceeded)
    else None
  }

  /** The record the candidate replaces. */
  function OldOf(s: State, r: ApplyRequest): MemoryId
    requires ApplyOutcome(s, r) == None
  {
    s.records[r.candidate].facts.existing.value
  }

  function AfterApply(s: State, r: ApplyRequest): State
    requires ApplyOutcome(s, r) == None
  {
    var prior := OldOf(s, r);
    var s1 := WithStatus(s, prior, Status(if r.temporalExpiry then Archived
        else Superseded, s.records[prior].status.review, false), r.committedAt);
    var s2 := WithStatus(s1, r.candidate, Status(Approved, SilentApproved, true), r.committedAt);
    var s3 := Emit(Emit(s2, prior, {prior, r.candidate}), r.candidate, {r.candidate, prior});
    Log(s3, Action(AutoUpdateDecision, r.scope, r.candidate, Some(prior), NO_BEFORE_STATE, Applied, None, 0, None,
        r.committedAt))
  }

  // --- auto-update: rollback ---

  datatype RollbackError = DecisionNotFound | IdsMissing | RecordsMissing

  /** A rollback does not look at the decision's status: it can be repeated. */
  function RollbackOutcome(s: State, decision: nat): Option<RollbackError> {
    if decision >= |s.actions| || s.actions[decision].kind != AutoUpdateDecision then Some(DecisionNotFound)
    else if s.actions[decision].related == None then Some(IdsMissing)
    else if s.actions[decision].related.value !in s.records
        || s.actions[decision].memory !in s.records then Some(RecordsMissing)
    else None
  }

  function AfterRollback(s: State, decision: nat, at: int): State
    requires RollbackOutcome(s, decision) == None
  {
    var a := s.actions[decision];
    var prior := a.related.value;
    var review := s.records[prior].status.review;
    var s1 := WithStatus(s, prior, Status(Approved, if review == Pending then SilentApproved else review, true), at);
    var s2 := WithStatus(s1, a.memory, Status(Tombstone, s1.records[a.memory].status.review, false), at);
    var s3 := Emit(Emit(s2, prior, {prior}), a.memory, {a.memory});
    s3.(actions := s3.actions[decision := a.(status := Reverted, revertedAt := Some(at))])
  }

  // --- auto-approval sweep ---

  /** What the planner decided for one row; `alreadyApplied` items are skipped. */
  datatype SweepItem = SweepItem(id: MemoryId, approve: bool, policy: Policy, alreadyApplied: bool)

  const PENDING_CANDIDATE := Status(Candidate, Pending, true)

  /** The rows the sweep loaded before its transaction; `loaded` stands for the query's limit. */
  predicate SweepRow(start: State, loaded: set<MemoryId>, id: MemoryId) {
    id in loaded && id in start.records && start.records[id].status == PENDING_CANDIDATE
  }

  function SweepOne(start: State, loaded: set<MemoryId>, s: State, item: SweepItem, at: int): State {
    if !SweepRow(start, loaded, item.id) || item.id !in s.records || item.alreadyApplied then
      s
    else
      var hit := s.records[item.id].status == PENDING_CANDIDATE;
      var status := if item.approve then Status(Approved, SilentApproved, true)
          else Status(Rejected, ReviewRejected, false);
      var s1 := if hit then s.(records := s.records[item.id := s.records[item.id].(status := status,
          policy := item.policy, updatedAt := at)]) else s;
      var s2 := if item.approve then Emit(s1, item.id, {item.id}) else s1;
      Log(s2, Action(SweepDecision, start.records[item.id].facts.scope, item.id, None,
          BeforeOf(start.records[item.id].status),
                     Applied, None, 0, None, at))
  }

  function SweepAll(start: State, loaded: set<MemoryId>, s: State, items: seq<SweepItem>, at: int): State
    decreases |items|
  {
    if items == [] then s
    else SweepAll(start, loaded, SweepOne(start, loaded, s, items[0], at), items[1..], at)
  }

  // --- governance: archive and tombstone ---

  const WEEK_MS := 604_800_000

  /** A selected row. `frozen` is the run's own freeze check, `refused` the service's. */
  datatype Target = Target(id: MemoryId, frozen: bool, refused: bool, token: string)

  function GovernanceAction(start: State, kind: ActionKind, t: Target, at: int): Action
    requires t.id in start.records
  {
    Action(kind, start.records[t.id].facts.scope, t.id, None, BeforeOf(start.records[t.id].status),
           if t.frozen then Skipped else Applied, if t.frozen then None else Some(t.token), at + WEEK_MS, None, at)
  }

  /** Archiving demands a recallable status; tombstoning any status but tombstone. */
  predicate ServiceAccepts(s: State, kind: ActionKind, t: Target) {
    !t.refused && t.id in s.records
    && if kind == ArchiveDuplicate then StatusRecallable(s.records[t.id].status)
         else s.records[t.id].status.lifecycle != Tombstone
  }

  /** Handling the selected rows one by one; the first refusal ends the run. The recorded before-state is
      the row as it was when the run selected it. */
  function GovernAll(start: State, s: State, kind: ActionKind, targets: seq<Target>, at: int): (State, bool)
    decreases |targets|
  {
    if targets == [] then
      (s, true)
    else if targets[0].id !in start.records then
      (s, false)
    else if targets[0].frozen then
      GovernAll(start, Log(s, GovernanceAction(start, kind, targets[0], at)), kind, targets[1..], at)
    else if !ServiceAccepts(s, kind, targets[0]) then
      (s, false)
    else
      GovernAll(start, GovernOne(start, s, kind, targets[0], at), kind, targets[1..], at)
  }

  function GovernOne(start: State, s: State, kind: ActionKind, t: Target, at: int): State
    requires t.id in start.records && t.id in s.records
  {
    var status := Status(if kind == ArchiveDuplicate then Archived
        else Tombstone, s.records[t.id].status.review, false);
    Log(Emit(WithStatus(s, t.id, status, at), t.id, {t.id}), GovernanceAction(start, kind, t, at))
  }

  /** The rows that the duplicate query and the backfill look at. */
  predicate Eligible(r: Record) {
    r.status.current && r.status.lifecycle == Approved && r.status.review in {ReviewApproved, NotRequired}
  }

  /** A row with a missing provenance field, and whether what is filled in marks it as legacy. Only blanks are filled,
      so a legacy row stays one. */
  datatype Backfill = Backfill(id: MemoryId, legacy: bool)

  function BackfillOne(s: State, b: Backfill, at: int): State {
    if b.id !in s.records || !Eligible(s.records[b.id]) then
      s
    else
      var r := s.records[b.id];
      var filled := r.(facts := r.facts.(legacy := r.facts.legacy || b.legacy), updatedAt := at);
      Log(Emit(s.(records := s.records[b.id := filled]), b.id, {b.id}),
          Action(ProvenanceBackfill, r.facts.scope, b.id, None, NO_BEFORE_STATE, Applied, None, 0, None, at))
  }

  function BackfillAll(s: State, backfill: seq<Backfill>, at: int): State
    decreases |backfill|
  {
    if backfill == [] then s else BackfillAll(BackfillOne(s, backfill[0], at), backfill[1..], at)
  }

  /** The apply phase: a refusal ends it where it stands. */
  function AfterGovern(
    s: State, archives: seq<Target>, tombstones: seq<Target>, backfill: seq<Backfill>, at: int) : State {
    var (s1, archived) := GovernAll(s, s, ArchiveDuplicate, archives, at);
    if !archived then s1
    else
      var (s2, tombstoned) := GovernAll(s, s1, TombstonePollution, tombstones, at);
      if tombstoned then BackfillAll(s2, backfill, at) else s2
  }

  // --- governance: revert ---

  datatype RevertError = ActionNotFound | AlreadyReverted | InvalidToken | TokenExpired | MemoryNotFound

  function RevertOutcome(s: State, action: nat, token: string, at: int): Option<RevertError> {
    if action >= |s.actions| then Some(ActionNotFound)
    else if s.actions[action].revertedAt.Some? then Some(AlreadyReverted)
    else if s.actions[action].token != Some(token) then Some(InvalidToken)
    else if s.actions[action].expiresAt < at then Some(TokenExpired)
    else if s.actions[action].memory !in s.records then Some(MemoryNotFound)
    else None
  }

  function AfterRevert(s: State, action: nat, token: string, at: int): State
    requires RevertOutcome(s, action, token, at) == None
  {
    var a := s.actions[action];
    var s1 := Emit(WithStatus(s, a.memory, Restored(a.before), at), a.memory, {a.memory});
    s1.(actions := s1.actions[action := a.(status := Reverted, revertedAt := Some(at))])
  }

  // --- projection ---

  datatype Operation = Upsert | Delete | Skip

  /** What the projector does with a record; `pendingSkip` is the switch that leaves the points of
      undecided records alone. */
  function ProjectionOperation(r: Record, pendingSkip: bool): Operation {
    if r.status.lifecycle == Approved && r.status.current && r.policy == DefaultPolicy
      && (r.status.review == ReviewApproved || r.status.review == SilentApproved || r.status.review == NotRequired)
    then Upsert
    else if r.status.lifecycle == Approved && r.status.current && r.policy == RestrictedPolicy then Delete
    else if r.status.lifecycle in {Archived, Tombstone, Superseded} then Delete
    else if pendingSkip then Skip
    else Delete
  }

  function OperationOn(s: State, id: MemoryId, pendingSkip: bool): Operation {
    if id in s.records then ProjectionOperation(s.records[id], pendingSkip) else Delete
  }

  /** Upserts need an embedding; without one the point is left as it is. */
  function Synced(s: State, ids: set<MemoryId>, embeddable: set<MemoryId>, pendingSkip: bool): State {
    var upserts := set id | id in ids && OperationOn(s, id, pendingSkip) == Upsert && id in embeddable;
    var deletes := set id | id in ids && OperationOn(s, id, pendingSkip) == Delete;
    s.(projection := s.projection + upserts - deletes)
  }

  /** One event: synchronise its ids, and mark it dispatched unless an embedding was missing. */
  function AfterDrain(s: State, event: nat, embeddable: set<MemoryId>, pendingSkip: bool): State
    requires event < |s.outbox|
  {
    var e := s.outbox[event];
    var s1 := Synced(s, e.affected, embeddable, pendingSkip);
    if forall id :: id in e.affected && OperationOn(s, id, pendingSkip) == Upsert ==> id in embeddable
    then s1.(outbox := s1.outbox[event := e.(dispatched := true)])
    else s1
  }

  // --- commands and runs ---

  datatype Command =
    | Apply(request: ApplyRequest)
    | Rollback(decision: nat, at: int)
    | Sweep(loaded: set<MemoryId>, items: seq<SweepItem>, at: int)
    | Govern(archives: seq<Target>, tombstones: seq<Target>, backfill: seq<Backfill>, at: int)
    | Revert(action: nat, token: string, at: int)
    | Drain(event: nat, embeddable: set<MemoryId>)
    | Sync(ids: set<MemoryId>, embeddable: set<MemoryId>)

  /** A command that reports an error changes nothing. */
  function Step(s: State, c: Command, pendingSkip: bool): State {
    match c
    case Apply(r) => if ApplyOutcome(s, r) == None then AfterApply(s, r) else s
    case Rollback(decision, at) => if RollbackOutcome(s, decision) == None then AfterRollback(s, decision, at) else s
    case Sweep(loaded, items, at) => SweepAll(s, loaded, s, items, at)
    case Govern(archives, tombstones, backfill, at) => AfterGovern(s, archives, tombstones, backfill, at)
    case Revert(action, token, at) => if RevertOutcome(s, action, token, at) == None
        then AfterRevert(s, action, token, at) else s
    case Drain(event, embeddable) => if event < |s.outbox|
        && !s.outbox[event].dispatched then AfterDrain(s, event, embeddable, pendingSkip) else s
    case Sync(ids, embeddable) => Synced(s, ids, embeddable, pendingSkip)
  }

  function Run(s: State, cs: seq<Command>, pendingSkip: bool): State
    decreases |cs|
  {
    if cs == [] then s else Run(Step(s, cs[0], pendingSkip), cs[1..], pendingSkip)
  }

  lemma {:induction false} RunConcat(s: State, a: seq<Command>, b: seq<Command>, pendingSkip: bool)
    ensures Run(s, a + b, pendingSkip) == Run(Run(s, a, pendingSkip), b, pendingSkip)
    decreases |a|
  {
    if a == [] {
      assert a + b == b;
    } else {
      assert (a + b)[1..] == a[1..] + b;
      RunConcat(Step(s, a[0], pendingSkip), a[1..], b, pendingSkip);
    }
  }
}
