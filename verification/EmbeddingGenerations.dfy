/** Embedding generations and the vector store's alias map (scripts/embedding-manifest.ts). The alias is
    switched before the database transaction, so an activation can stop half-way. */
module EmbeddingGenerations {
  import opened Options

  datatype GenerationStatus = Prepared | Generated | Validated | Active | Retired | Failed

  /** The statuses a prepare or generate step may ask for. */
  type DraftStatus = st: GenerationStatus | st != Active && st != Retired witness Prepared

  datatype Generation = Generation(status: GenerationStatus, alias: string, target: string, retiredAt: Option<int>,
      updatedAt: int)

  datatype State = State(rows: map<string, Generation>, aliases: map<string, string>)

  function ActiveIds(s: State): set<string> {
    set g | g in s.rows && s.rows[g].status == Active
  }

  /** Insert or update: an active row stays active, and a row keeps the time it was retired. */
  function Upserted(s: State, id: string, status: DraftStatus, alias: string, target: string, at: int): State {
    var row :=
      if id in s.rows then s.rows[id].(status := if s.rows[id].status == Active then Active
          else status, alias := alias, target := target, updatedAt := at)
      else Generation(status, alias, target, None, at);
    s.(rows := s.rows[id := row])
  }

  /** The status a finished generator run asks for. */
  function GeneratorVerdict(errors: nat, verified: bool): DraftStatus {
    if errors == 0 && verified then Validated else if errors == 0 then Generated else Failed
  }

  function AfterValidation(s: State, id: string, passed: bool, at: int): State
    requires id in s.rows
  {
    var row := s.rows[id];
    s.(rows := s.rows[id := row.(status := if passed
        && row.status != Active then Validated else row.status, updatedAt := at)])
  }

  function WithAlias(s: State, alias: string, target: string): State {
    s.(aliases := s.aliases[alias := target])
  }

  /** First statement of the activation transaction. */
  function OthersRetired(s: State, id: string, at: int): State {
    s.(rows := map g | g in s.rows ::
      if s.rows[g].status == Active && g != id then s.rows[g].(status := Retired, retiredAt := Some(at),
          updatedAt := at) else s.rows[g])
  }

  /** Second statement of the activation transaction. */
  function MadeActive(s: State, id: string, at: int): State
    requires id in s.rows
  {
    s.(rows := s.rows[id := s.rows[id].(status := Active, retiredAt := None, updatedAt := at)])
  }

  /** How far an activation gets. A stop inside the transaction rolls it back, and what remains is the switched alias.
      `CrashAfterRetire` is the stop that leaves the first statement in force: the statements go through a connection
      pool one by one, so that they share a transaction is an assumption that not all results below make. */
  datatype Progress = CrashAfterValidation | CrashAfterSwitch | CrashAfterRetire | Completed

  function AfterActivate(
    s: State, id: string, passed: bool, progress: Progress, validatedAt: int, committedAt: int) : State {
    if id !in s.rows then
      s
    else
      var s1 := AfterValidation(s, id, passed, validatedAt);
      if !passed || progress == CrashAfterValidation then
        s1
      else
        var s2 := WithAlias(s1, s.rows[id].alias, s.rows[id].target);
        match progress
        case CrashAfterRetire => OthersRetired(s2, id, committedAt)
        case Completed => MadeActive(OthersRetired(s2, id, committedAt), id, committedAt)
        case _ => s2
  }

  /** `ORDER BY retired_at DESC NULLS LAST, updated_at DESC`: `a` may come before `b`. */
  predicate NotAfter(a: Generation, b: Generation) {
    if a.retiredAt == b.retiredAt then a.updatedAt >= b.updatedAt
    else a.retiredAt.Some? && (b.retiredAt == None || a.retiredAt.value > b.retiredAt.value)
  }

  /** The active row is excluded by name, and the empty name when there is none. */
  predicate Restorable(s: State, id: string) {
    id in s.rows && s.rows[id].status in {Retired, Validated, Generated} && (ActiveIds(s) == {} ==> id != "")
  }

  /** The rows a rollback without an explicit id may pick. */
  ghost predicate RollbackChoice(s: State, id: string) {
    Restorable(s, id) && forall g :: Restorable(s, g) ==> NotAfter(s.rows[id], s.rows[g])
  }

  datatype Command =
    | Upsert(id: string, status: DraftStatus, alias: string, target: string, at: int)
    | Validate(id: string, passed: bool, at: int)
    | Activate(id: string, passed: bool, progress: Progress, validatedAt: int, committedAt: int)

  /** A rollback is an activation of the picked row. */
  function Step(s: State, c: Command): State {
    match c
    case Upsert(id, status, alias, target, at) => Upserted(s, id, status, alias, target, at)
    case Validate(id, passed, at) => if id in s.rows then AfterValidation(s, id, passed, at) else s
    case Activate(id, passed, progress, validatedAt, committedAt) => AfterActivate(s, id, passed, progress,
        validatedAt, committedAt)
  }

  function Run(s: State, cs: seq<Command>): State
    decreases |cs|
  {
    if cs == [] then s else Run(Step(s, cs[0]), cs[1..])
  }

  ghost predicate AtMostOneActive(s: State) {
    forall g, h :: g in ActiveIds(s) && h in ActiveIds(s) ==> g == h
  }

  /** The active generation's alias leads to its collection. */
  ghost predicate AliasAgrees(s: State) {
    forall g :: g in ActiveIds(s) ==> s.rows[g].alias in s.aliases && s.aliases[s.rows[g].alias] == s.rows[g].target
  }

  /** Which rows are active after a command. */
  function ActiveAfter(s: State, c: Command): set<string> {
    if c.Activate? && c.id in s.rows && c.passed && c.progress == Completed then {c.id}
    else if c.Activate? && c.id in s.rows && c.passed && c.progress == CrashAfterRetire then ActiveIds(s) * {c.id}
    else ActiveIds(s)
  }

  lemma ActiveAfterStep(s: State, c: Command)
    ensures ActiveIds(Step(s, c)) == ActiveAfter(s, c)
  {
    forall g
      ensures g in ActiveIds(Step(s, c)) <==> g in ActiveAfter(s, c)
    {
    }
  }

  /** Even between the two statements of the transaction no second row is active. */
  lemma MidTransactionAtMostOne(s: State, id: string, at: int)
    ensures forall g :: g in ActiveIds(OthersRetired(s, id, at)) ==> g == id
  {
  }

  /** No activation of the run stops with the first statement of its transaction in force. */
  predicate Atomic(cs: seq<Command>) {
    forall i :: 0 <= i < |cs| ==> !(cs[i].Activate? && cs[i].progress == CrashAfterRetire)
  }

  /** From any state with at most one active generation, every run keeps it that way, wherever an activation stops. Once
      one is active, exactly one stays active, provided the transactions are atomic. */
  lemma {:induction false} RunKeepsSingleActive(s: State, cs: seq<Command>)
    requires AtMostOneActive(s)
    ensures AtMostOneActive(Run(s, cs))
    ensures ActiveIds(s) != {} && Atomic(cs) ==> |ActiveIds(Run(s, cs))| == 1
    decreases |cs|
  {
    if cs == [] {
      if ActiveIds(s) != {} {
        var g :| g in ActiveIds(s);
        assert ActiveIds(s) == {g};
      }
    } else {
      ActiveAfterStep(s, cs[0]);
      assert Atomic(cs) ==> !(cs[0].Activate? && cs[0].progress == CrashAfterRetire);
      RunKeepsSingleActive(Step(s, cs[0]), cs[1..]);
    }
  }

  /** A single step takes the last active generation away exactly when another one's activation stops after the
      first statement. */
  lemma LastActiveLostIff(s: State, c: Command)
    requires AtMostOneActive(s) && ActiveIds(s) != {}
    ensures ActiveIds(Step(s, c)) == {} <==>
              c.Activate? && c.id in s.rows && c.passed && c.progress == CrashAfterRetire && c.id !in ActiveIds(s)
  {
    ActiveAfterStep(s, c);
    var g :| g in ActiveIds(s);
    assert ActiveIds(s) == {g};
  }

  /** A completed activation makes its generation the only active one and points its alias at it, from any
      state whatsoever: completing either side of an interrupted switch repairs it. */
  lemma CompletedActivationAgrees(s: State, id: string, validatedAt: int, committedAt: int)
    requires id in s.rows
    ensures var t := AfterActivate(s, id, true, Completed, validatedAt, committedAt);
            ActiveIds(t) == {id} && AliasAgrees(t) && t.aliases == s.aliases[s.rows[id].alias := s.rows[id].target]
            && t.rows[id].alias == s.rows[id].alias && t.rows[id].target == s.rows[id].target
  {
  }

  /** The only two ways agreement is lost. */
  predicate Misaligns(s: State, c: Command) {
    match c
    case Upsert(id, status, alias, target, _) =>
      id in ActiveIds(s) && !(alias in s.aliases && s.aliases[alias] == target)
    case Validate(_, _, _) => false
    case Activate(id, passed, progress, _, _) =>
      && id in s.rows && passed && progress == CrashAfterSwitch
      && exists g :: g in ActiveIds(s) && s.rows[g].alias == s.rows[id].alias && s.rows[g].target != s.rows[id].target
  }

  /** Agreement survives a command exactly when it is neither a crash between alias switch and commit over
      a shared alias nor a re-preparation of the active generation with another target or alias. */
  lemma AgreementLostIffMisaligned(s: State, c: Command)
    requires AliasAgrees(s)
    ensures AliasAgrees(Step(s, c)) <==> !Misaligns(s, c)
  {
    ActiveAfterStep(s, c);
    match c {
      case Upsert(id, status, alias, target, at) =>
        if id in ActiveIds(s) {
          assert id in ActiveIds(Step(s, c));
        }
      case Validate(_, _, _) =>
      case Activate(id, passed, progress, validatedAt, committedAt) =>
        if id in s.rows && passed && progress == Completed {
          CompletedActivationAgrees(s, id, validatedAt, committedAt);
        } else if Misaligns(s, c) {
          var g :| g in ActiveIds(s) && s.rows[g].alias == s.rows[id].alias && s.rows[g].target != s.rows[id].target;
          assert g in ActiveIds(Step(s, c));
        }
    }
  }

  /** Stopping between alias switch and transaction leaves `a` active; the alias agrees only if the target is the
      same. */
  lemma InterruptedSwitch(s: State, a: string, b: string, at: int)
    requires ActiveIds(s) == {a} && AliasAgrees(s) && b in s.rows && s.rows[b].alias == s.rows[a].alias
    ensures var broken := AfterActivate(s, b, true, CrashAfterSwitch, at, at);
            && ActiveIds(broken) == {a}
            && (AliasAgrees(broken) <==> s.rows[b].target == s.rows[a].target)
            && broken.rows.Keys == s.rows.Keys
            && broken.aliases == s.aliases[s.rows[a].alias := s.rows[b].target]
            && (forall g :: g in s.rows ==>
                 broken.rows[g].alias == s.rows[g].alias && broken.rows[g].target == s.rows[g].target)
  {
    assert a in ActiveIds(s);
    ActiveAfterStep(s, Activate(b, true, CrashAfterSwitch, at, at));
    assert a in ActiveIds(AfterActivate(s, b, true, CrashAfterSwitch, at, at));
  }

  /** After an interrupted switch from `a` to `b` over one alias, completing `a` brings back the alias map, and
      completing `b` finishes the switch. */
  lemma InterruptedSwitchRecovers(s: State, a: string, b: string, t0: int, t1: int, t2: int)
    requires ActiveIds(s) == {a} && AliasAgrees(s) && b in s.rows && s.rows[b].alias == s.rows[a].alias
    ensures var broken := AfterActivate(s, b, true, CrashAfterSwitch, t0, t0);
            var back, forth := AfterActivate(broken, a, true, Completed, t1, t2),
                AfterActivate(broken, b, true, Completed, t1, t2);
            && ActiveIds(back) == {a} && AliasAgrees(back) && back.aliases == s.aliases
            && ActiveIds(forth) == {b} && AliasAgrees(forth)
                 && forth.aliases == s.aliases[s.rows[a].alias := s.rows[b].target]
  {
    InterruptedSwitch(s, a, b, t0);
    var broken := AfterActivate(s, b, true, CrashAfterSwitch, t0, t0);
    assert a in ActiveIds(s);
    RecoveryByCompletion(s, broken, a, b, t1, t2);
  }

  /** Completing either side, from any state that has the same aliases and targets. */
  lemma RecoveryByCompletion(s: State, broken: State, a: string, b: string, t1: int, t2: int)
    requires a in ActiveIds(s) && AliasAgrees(s) && b in s.rows && s.rows[b].alias == s.rows[a].alias
    requires broken.rows.Keys == s.rows.Keys && broken.aliases == s.aliases[s.rows[a].alias := s.rows[b].target]
    requires forall g :: g in s.rows ==>
             broken.rows[g].alias == s.rows[g].alias && broken.rows[g].target == s.rows[g].target
    ensures var back, forth := AfterActivate(broken, a, true, Completed, t1, t2),
            AfterActivate(broken, b, true, Completed, t1, t2);
            && ActiveIds(back) == {a} && AliasAgrees(back) && back.aliases == s.aliases
            && ActiveIds(forth) == {b} && AliasAgrees(forth) && forth.aliases == broken.aliases
  {
    CompletedActivationAgrees(broken, a, t1, t2);
    CompletedActivationAgrees(broken, b, t1, t2);
    assert s.aliases[s.rows[a].alias] == s.rows[a].target;
  }

  /** A failed validation leaves the active generation and the alias map alone. */
  lemma FailedValidationChangesNothing(s: State, id: string, progress: Progress, validatedAt: int, committedAt: int)
    ensures var t := AfterActivate(s, id, false, progress, validatedAt, committedAt);
            && t.aliases == s.aliases && t.rows.Keys == s.rows.Keys
            && forall g :: g in s.rows ==>
                 t.rows[g].status == s.rows[g].status && t.rows[g].retiredAt == s.rows[g].retiredAt
  {
  }

  /** A passing validation moves an inactive row to validated, leaves an active one active, and touches no other row. */
  lemma PassedValidation(s: State, id: string, at: int)
    requires id in s.rows
    ensures var t := Step(s, Validate(id, true, at));
            && t.aliases == s.aliases && t.rows.Keys == s.rows.Keys
            && (if s.rows[id].status == Active then t.rows[id].status == Active else t.rows[id].status == Validated)
            && t.rows[id].retiredAt == s.rows[id].retiredAt
            && forall g :: g in s.rows && g != id ==> t.rows[g] == s.rows[g]
  {
  }

  /** An upsert keeps an active row active, gives any other row the status asked for, sets its alias and target, keeps
      the time it was retired, and touches neither another row nor an alias. */
  lemma UpsertSets(s: State, id: string, status: DraftStatus, alias: string, target: string, at: int)
    ensures var t := Step(s, Upsert(id, status, alias, target, at));
            && t.aliases == s.aliases && t.rows.Keys == s.rows.Keys + {id}
            && (t.rows[id].status == Active <==> id in ActiveIds(s))
            && (id !in ActiveIds(s) ==> t.rows[id].status == status)
            && t.rows[id].alias == alias && t.rows[id].target == target
            && (id in s.rows ==> t.rows[id].retiredAt == s.rows[id].retiredAt)
            && (id !in s.rows ==> t.rows[id].retiredAt == None)
            && forall g :: g in s.rows && g != id ==> t.rows[g] == s.rows[g]
  {
  }

  /** A completed activation retires the generation that was active, at the time of the commit, and forgets when the new
      one had been retired. */
  lemma ActivationRetires(s: State, id: string, validatedAt: int, committedAt: int)
    requires id in s.rows
    ensures var t := AfterActivate(s, id, true, Completed, validatedAt, committedAt);
            && t.rows.Keys == s.rows.Keys && t.rows[id].status == Active && t.rows[id].retiredAt == None
            && (forall g :: g in ActiveIds(s) && g != id ==>
                  t.rows[g].status == Retired && t.rows[g].retiredAt == Some(committedAt))
            && (forall g :: g in s.rows && g !in ActiveIds(s) && g != id ==> t.rows[g] == s.rows[g])
  {
  }

  /** A rollback without an explicit id takes a row that was retired, validated or generated: the one retired last, and
      only if none ever was retired the one updated last. */
  lemma PickedIsLatest(s: State, id: string, g: string)
    requires RollbackChoice(s, id) && g in s.rows && g != "" && s.rows[g].status in {Retired, Validated, Generated}
    ensures s.rows[id].status in {Retired, Validated, Generated}
    ensures s.rows[g].retiredAt.Some? ==>
              s.rows[id].retiredAt.Some? && s.rows[id].retiredAt.value >= s.rows[g].retiredAt.value
    ensures s.rows[id].retiredAt == s.rows[g].retiredAt ==> s.rows[id].updatedAt >= s.rows[g].updatedAt
  {
    assert Restorable(s, g);
  }

  /** No row was retired after `clock`. */
  predicate RetiredBy(s: State, clock: int) {
    forall g :: g in s.rows ==> s.rows[g].retiredAt == None || s.rows[g].retiredAt.value <= clock
  }

  /** Right after `b` replaced the active `a`, a rollback can only pick `a`. */
  lemma RollbackPicksReplaced(s: State, a: string, b: string, clock: int, validatedAt: int, committedAt: int)
    requires ActiveIds(s) == {a} && b in s.rows && a != b
    requires RetiredBy(s, clock) && clock < committedAt
    ensures var t := AfterActivate(s, b, true, Completed, validatedAt, committedAt);
            && ActiveIds(t) == {b} && RetiredBy(t, committedAt)
            && forall g :: RollbackChoice(t, g) <==> g == a
  {
    var t := AfterActivate(s, b, true, Completed, validatedAt, committedAt);
    assert a in ActiveIds(s);
    ActiveAfterStep(s, Activate(b, true, Completed, validatedAt, committedAt));
    assert b in ActiveIds(t);
    assert t.rows[a].status == Retired && t.rows[a].retiredAt == Some(committedAt);
    assert Restorable(t, a);
    forall g | Restorable(t, g) && g != a
      ensures NotAfter(t.rows[a], t.rows[g]) && !NotAfter(t.rows[g], t.rows[a])
    {
      assert g !in ActiveIds(s);
      assert g != b;
      assert t.rows[g] == s.rows[g];
    }
  }

  /** With a strictly increasing clock and passing validations, a rollback right after activating `b` over
      `a` reactivates `a`, and a second one reactivates `b`. */
  lemma RollbackToggles(s: State, a: string, b: string, first: string, second: string, clock: int,
                        v1: int, t1: int, v2: int, t2: int, v3: int, t3: int)
    requires ActiveIds(s) == {a} && b in s.rows && a != b
    requires RetiredBy(s, clock) && clock < t1 < t2 < t3
    requires RollbackChoice(AfterActivate(s, b, true, Completed, v1, t1), first)
    requires RollbackChoice(AfterActivate(AfterActivate(s, b, true, Completed, v1, t1), first, true, Completed, v2,
             t2), second)
    ensures first == a && second == b
    ensures var back := AfterActivate(AfterActivate(s, b, true, Completed, v1, t1), first, true, Completed, v2, t2);
            && ActiveIds(back) == {a} && AliasAgrees(back)
            && ActiveIds(AfterActivate(back, second, true, Completed, v3, t3)) == {b}
                 && AliasAgrees(AfterActivate(back, second, true, Completed, v3, t3))
  {
    var s1 := AfterActivate(s, b, true, Completed, v1, t1);
    RollbackPicksReplaced(s, a, b, clock, v1, t1);
    var s2 := AfterActivate(s1, first, true, Completed, v2, t2);
    assert a in ActiveIds(s);
    RollbackPicksReplaced(s1, b, a, t1, v2, t2);
    CompletedActivationAgrees(s1, a, v2, t2);
    CompletedActivationAgrees(s2, b, v3, t3);
  }

  /** The manifest table and the alias map as the commands change them. */
  class EmbeddingManifest {
    var rows: map<string, Generation>
    var aliases: map<string, string>

    ghost function Now(): State
      reads this
    {
      State(rows, aliases)
    }

    constructor ()
      ensures Now() == State(map[], map[])
    {
      rows, aliases := map[], map[];
    }

    method UpsertManifest(id: string, status: DraftStatus, alias: string, target: string, at: int)
      modifies this`rows
      ensures Now() == Step(old(Now()), Upsert(id, status, alias, target, at))
    {
      if id in rows {
        var kept := if rows[id].status == Active then Active else status;
        rows := rows[id := rows[id].(status := kept, alias := alias, target := target, updatedAt := at)];
      } else {
        rows := rows[id := Generation(status, alias, target, None, at)];
      }
    }

    /** The generator reports the outcome of its run; it never activates and never demotes an active row. */
    method FinishGeneration(id: string, errors: nat, verified: bool, alias: string, target: string, at: int)
      modifies this`rows
      ensures Now() == Step(old(Now()), Upsert(id, GeneratorVerdict(errors, verified), alias, target, at))
      ensures ActiveIds(Now()) == old(ActiveIds(Now()))
      ensures id in rows && (rows[id].status == Active <==> id in old(ActiveIds(Now())))
      ensures rows[id].status != Active ==>
                && (rows[id].status == Failed <==> errors > 0)
                && (rows[id].status == Validated <==> errors == 0 && verified)
                && (rows[id].status == Generated <==> errors == 0 && !verified)
    {
      ActiveAfterStep(Now(), Upsert(id, GeneratorVerdict(errors, verified), alias, target, at));
      UpsertManifest(id, GeneratorVerdict(errors, verified), alias, target, at);
    }

    /** `healthy` is the verdict on the collection, its dimension, its point count and its payloads. */
    method ValidateManifest(id: string, healthy: bool, at: int) returns (ok: bool)
      modifies this`rows
      ensures ok <==> old(id in rows) && healthy
      ensures Now() == Step(old(Now()), Validate(id, healthy, at))
    {
      if id !in rows { return false; }
      var row := rows[id];
      rows := rows[id := row.(status := if healthy && row.status != Active then Validated
          else row.status, updatedAt := at)];
      return healthy;
    }

    method SwitchAlias(alias: string, target: string)
      modifies this`aliases
      ensures Now() == WithAlias(old(Now()), alias, target)
    {
      if alias in aliases {
        aliases := aliases - {alias};
      }
      aliases := aliases[alias := target];
    }

    /** `progress` says where the process or the database gives up. */
    method ActivateManifest(
        id: string, healthy: bool, progress: Progress, validatedAt: int, committedAt: int)
      returns (ok: bool)
      modifies this
      ensures Now() == Step(old(Now()), Activate(id, healthy, progress, validatedAt, committedAt))
      ensures ok <==> old(id in rows) && healthy && progress == Completed
    {
      var manifest := if id in rows then Some(rows[id]) else None;
      var valid := ValidateManifest(id, healthy, validatedAt);
      if !valid || progress == CrashAfterValidation { return false; }
      SwitchAlias(manifest.value.alias, manifest.value.target);
      if progress == CrashAfterSwitch { return false; }
      rows := map g | g in rows ::
        if rows[g].status == Active && g != id then rows[g].(status := Retired, retiredAt := Some(committedAt),
            updatedAt := committedAt) else rows[g];
      if progress == CrashAfterRetire { return false; }
      rows := rows[id := rows[id].(status := Active, retiredAt := None, updatedAt := committedAt)];
      return true;
    }

    /** `wanted` is an explicit id; otherwise `picked` is what the ordered query returned. */
    method Rollback(
        wanted: Option<string>, picked: Option<string>, healthy: bool, progress: Progress, validatedAt: int,
        committedAt: int)
      returns (ok: bool)
      requires picked.Some? ==> RollbackChoice(Now(), picked.value)
      requires picked == None ==> forall g :: !Restorable(Now(), g)
      modifies this
      ensures var id := if wanted.Some? then wanted else picked;
              Now() == if id == None then old(Now())
                  else Step(old(Now()), Activate(id.value, healthy, progress, validatedAt, committedAt))
      ensures ok ==> |ActiveIds(Now())| == 1 && AliasAgrees(Now())
    {
      var id := if wanted.Some? then wanted else picked;
      if id == None || id.value !in rows { return false; }
      ok := ActivateManifest(id.value, healthy, progress, validatedAt, committedAt);
      if ok {
        CompletedActivationAgrees(old(Now()), id.value, validatedAt, committedAt);
      }
    }
  }
}
