/** Runtime modules: which of them can run under a profile and an environment
    (app/runtime-modules.ts). The registry is arbitrary and its dependency graph may have cycles. */
module RuntimeModules {
  import opened Collections
  import opened Options
  import opened DependencyGraph

  datatype Profile = Core | Enhanced | Full

  datatype ModuleState = Enabled | Disabled | MissingDependency

  datatype Reason =
    | NoReason
    | EnvDisabled(variable: string)
    | ModuleDisabled
    | HealthUrlUnconfigured
    | DependencyUnavailable(dependency: string, was: ModuleState)

  /** Optional names are `""` when absent: the source treats both the same way. */
  datatype RuntimeModule = RuntimeModule(
    name: string,
    requiredIn: set<Profile>,
    expectedIn: set<Profile>,
    envEnabled: string,
    envSourceAvailable: string,
    defaultEnabled: Option<bool>,
    requireHealthUrl: bool,
    healthUrlVariables: seq<string>,
    healthUrl: string,
    dependencies: seq<string>)

  datatype Resolved = Resolved(mod: RuntimeModule, state: ModuleState, enabled: bool, blocksProfile: bool,
      reason: Reason)

  /** How the source reads a variable's trimmed, lower-cased text: as yes (`1 true yes on enabled`), as no
      (`0 false no off disabled`), as empty, or as anything else. */
  datatype EnvValue = Yes | No | Blank | OtherText

  type Env = map<string, EnvValue>

  type States = map<string, Resolved>

  function EnvFlag(name: string, env: Env): Option<bool> {
    if name !in env then None
    else if env[name] == Yes then Some(true)
    else if env[name] == No then Some(false)
    else None
  }

  function ReadEnabled(m: RuntimeModule, profileDefault: bool, env: Env): bool {
    if m.envEnabled == "" then
      if m.defaultEnabled.Some? then m.defaultEnabled.value else profileDefault
    else
      match EnvFlag(m.envEnabled, env)
      case Some(explicit) => explicit
      case None => profileDefault || m.defaultEnabled == Some(true)
  }

  predicate HasHealthUrl(m: RuntimeModule, env: Env) {
    || m.healthUrl != ""
    || exists i :: 0 <= i < |m.healthUrlVariables|
                   && m.healthUrlVariables[i] != "" && m.healthUrlVariables[i] in env
                        && env[m.healthUrlVariables[i]] != Blank
  }

  function SelfState(m: RuntimeModule, profile: Profile, env: Env): (r: Resolved)
    ensures OwnVerdict(m, profile, r)
  {
    var required := profile in m.requiredIn;
    if !ReadEnabled(m, required || profile in m.expectedIn, env) then
      Resolved(m, Disabled, false, false, if m.envEnabled != "" then EnvDisabled(m.envEnabled) else ModuleDisabled)
    else if m.envSourceAvailable != "" && EnvFlag(m.envSourceAvailable, env) == Some(false) then
      Resolved(m, MissingDependency, true, required, EnvDisabled(m.envSourceAvailable))
    else if m.requireHealthUrl && !HasHealthUrl(m, env) then
      Resolved(m, MissingDependency, true, required, HealthUrlUnconfigured)
    else
      Resolved(m, Enabled, true, false, NoReason)
  }

  /** What every verdict of a module on itself looks like. */
  ghost predicate OwnVerdict(m: RuntimeModule, profile: Profile, r: Resolved) {
    && r.mod == m
    && !r.reason.DependencyUnavailable?
    && (r.state == Enabled ==> r == Resolved(m, Enabled, true, false, NoReason))
    && (r.blocksProfile <==> profile in m.requiredIn && r.state == MissingDependency)
  }

  ghost predicate DistinctNames(ms: seq<RuntimeModule>) {
    forall i, j :: 0 <= i < j < |ms| ==> ms[i].name != ms[j].name
  }

  function Names(ms: seq<RuntimeModule>): set<string> {
    set m | m in ms :: m.name
  }

  /** The dependencies in front of the first one that names no module. The search for an unavailable
      dependency stops at an unknown name and then treats it as "nothing found", so these are the only
      dependencies that can ever take effect. */
  function EffectiveDeps(deps: seq<string>, known: set<string>): (r: seq<string>)
    ensures forall d :: d in r ==> d in known && d in deps
  {
    if deps == [] || deps[0] !in known then [] else [deps[0]] + EffectiveDeps(deps[1..], known)
  }

  /** The resolver's starting point: every module judged on its own. */
  function InitialStates(ms: seq<RuntimeModule>, profile: Profile, env: Env): (states: States)
    requires DistinctNames(ms)
    ensures states.Keys == Names(ms)
    ensures forall m :: m in ms ==> states[m.name] == SelfState(m, profile, env)
    ensures OwnVerdicts(ms, profile, states)
  {
    var states := map i | 0 <= i < |ms| :: ms[i].name := SelfState(ms[i], profile, env);
    assert forall i :: 0 <= i < |ms| ==> ms[i].name in states;
    states
  }

  ghost predicate OwnVerdicts(ms: seq<RuntimeModule>, profile: Profile, init: States) {
    && init.Keys == Names(ms)
    && forall m {:trigger init[m.name]} :: m in ms ==> OwnVerdict(m, profile, init[m.name])
  }

  ghost function EnabledNames(states: States): set<string> {
    set x | x in states && states[x].state == Enabled
  }

  /** The graph the resolver works on: self-enabled modules and effective dependencies. */
  ghost function ModuleGraph(ms: seq<RuntimeModule>, init: States): (g: Graph<string>)
    requires DistinctNames(ms)
  {
    Graph(EnabledNames(init), map i | 0 <= i < |ms| :: ms[i].name := EffectiveDeps(ms[i].dependencies, Names(ms)))
  }

  ghost predicate IsModuleGraph(g: Graph<string>, ms: seq<RuntimeModule>, init: States) {
    && g.ok == EnabledNames(init)
    && g.deps.Keys == Names(ms)
    && forall m {:trigger Deps(g, m.name)} :: m in ms ==> Deps(g, m.name) == EffectiveDeps(m.dependencies, Names(ms))
  }

  lemma ModuleGraphFits(ms: seq<RuntimeModule>, init: States)
    requires DistinctNames(ms)
    ensures IsModuleGraph(ModuleGraph(ms, init), ms, init)
  {
  }

  ghost function RuntimeGraph(ms: seq<RuntimeModule>, profile: Profile, env: Env): (g: Graph<string>)
    requires DistinctNames(ms)
  {
    ModuleGraph(ms, InitialStates(ms, profile, env))
  }

  /** The first dependency that is not enabled; an unknown name in front of it hides it. */
  function FirstUnavailable(deps: seq<string>, states: States): (r: Option<Resolved>)
    ensures r == None <==> forall d :: d in EffectiveDeps(deps, states.Keys) ==> states[d].state == Enabled
    ensures r.Some? ==> exists d ::
            d in EffectiveDeps(deps, states.Keys) && r.value == states[d] && states[d].state != Enabled
  {
    if deps == [] || deps[0] !in states then
      None
    else if states[deps[0]].state != Enabled then
      assert deps[0] in EffectiveDeps(deps, states.Keys);
      Some(states[deps[0]])
    else
      FirstUnavailable(deps[1..], states)
  }

  /** The search finds the first dependency that is not enabled. */
  lemma {:induction false} FoundIsFirst(deps: seq<string>, states: States) returns (k: nat)
    requires FirstUnavailable(deps, states).Some?
    ensures k < |deps| && deps[k] in states && FirstUnavailable(deps, states) == Some(states[deps[k]])
    ensures states[deps[k]].state != Enabled
    ensures forall j :: 0 <= j < k ==> deps[j] in states && states[deps[j]].state == Enabled
  {
    if states[deps[0]].state != Enabled {
      k := 0;
    } else {
      var rest := deps[1..];
      var i := FoundIsFirst(rest, states);
      k := i + 1;
      assert deps[k] == rest[i];
      forall j | 0 <= j < k
        ensures deps[j] in states && states[deps[j]].state == Enabled
      {
        assert j > 0 ==> deps[j] == rest[j - 1];
      }
    }
  }

  /** A module's entry is its own verdict, or it was switched off for a dependency that failed earlier:
      `rank` orders the modules by the time they failed. */
  ghost predicate ResolvedShape(
    m: RuntimeModule, profile: Profile, init: States, states: States, rank: map<string, nat>)
    requires m.name in init && m.name in states && states.Keys == rank.Keys
  {
    var r := states[m.name];
    || r == init[m.name]
    || (&& init[m.name].state == Enabled
        && r.reason.DependencyUnavailable?
        && r == Resolved(m, MissingDependency, true, profile in m.requiredIn, r.reason)
        && r.reason.dependency in EffectiveDeps(m.dependencies, states.Keys)
        && states[r.reason.dependency].state == r.reason.was != Enabled
        && rank[r.reason.dependency] < rank[m.name])
  }

  /** What every pass of the resolver keeps. */
  ghost predicate Resolving(
    g: Graph<string>, ms: seq<RuntimeModule>, profile: Profile, init: States, states: States, rank: map<string, nat>)
  {
    && init.Keys == states.Keys == rank.Keys == Names(ms)
    && (forall m {:trigger ResolvedShape(m, profile, init, states, rank)} :: m in ms ==>
         ResolvedShape(m, profile, init, states, rank))
    && (forall s :: Supported(g, s) ==> s <= EnabledNames(states))
  }

  /** All enabled modules keep their effective dependencies: nothing is left to switch off. */
  ghost predicate Settled(ms: seq<RuntimeModule>, states: States) {
    forall m {:trigger FirstUnavailable(m.dependencies, states)} ::
      m in ms && m.name in states && states[m.name].state == Enabled ==>
          FirstUnavailable(m.dependencies, states) == None
  }

  lemma SettledExtends(ms: seq<RuntimeModule>, i: nat, states: States)
    requires i < |ms| && Settled(ms[..i], states)
    requires ms[i].name in states && states[ms[i].name].state == Enabled ==>
             FirstUnavailable(ms[i].dependencies, states) == None
    ensures Settled(ms[..i + 1], states)
  {
  }

  lemma SettledIsSupported(
    g: Graph<string>, ms: seq<RuntimeModule>, profile: Profile, init: States, states: States, rank: map<string, nat>)
    requires DistinctNames(ms) && IsModuleGraph(g, ms, init) && Resolving(g, ms, profile, init, states, rank)
    requires Settled(ms, states)
    ensures Supported(g, EnabledNames(states))
  {
    forall x | x in EnabledNames(states)
      ensures x in g.ok && forall d :: d in Deps(g, x) ==> d in EnabledNames(states)
    {
      var m :| m in ms && m.name == x;
      assert ResolvedShape(m, profile, init, states, rank);
      assert FirstUnavailable(m.dependencies, states) == None;
    }
  }

  function SwitchedOff(m: RuntimeModule, profile: Profile, found: Resolved): Resolved {
    Resolved(m, MissingDependency, true, profile in m.requiredIn, DependencyUnavailable(found.mod.name, found.state))
  }

  lemma NamesTellApart(ms: seq<RuntimeModule>, m: RuntimeModule, n: RuntimeModule)
    requires DistinctNames(ms) && m in ms && n in ms && m.name == n.name
    ensures m == n
  {
  }

  lemma SupportedLoses(g: Graph<string>, s: set<string>, x: string, d: string)
    requires Supported(g, s) && d in Deps(g, x) && d !in s
    ensures x !in s
  {
  }

  lemma SwitchOffKeepsShape(
    ms: seq<RuntimeModule>, profile: Profile, init: States, states: States, rank: map<string, nat>,
    m: RuntimeModule, d: string, n: RuntimeModule)
    requires DistinctNames(ms) && m in ms && n in ms
    requires init.Keys == states.Keys == rank.Keys == Names(ms)
    requires OwnVerdict(m, profile, init[m.name])
    requires ResolvedShape(m, profile, init, states, rank) && ResolvedShape(n, profile, init, states, rank)
    requires states[m.name].state == Enabled
    requires d in EffectiveDeps(m.dependencies, states.Keys) && states[d].state != Enabled && states[d].mod.name == d
    ensures ResolvedShape(n, profile, init, states[m.name := SwitchedOff(m, profile, states[d])],
            rank[m.name := rank[d] + 1])
  {
    assert rank[m.name := rank[d] + 1].Keys == states.Keys;
    assert states[m.name := SwitchedOff(m, profile, states[d])].Keys == states.Keys;
    if n.name == m.name {
      NamesTellApart(ms, m, n);
    }
  }

  /** Switching off an enabled module for a failed dependency keeps the invariant. */
  lemma SwitchOffKeeps(
    g: Graph<string>, ms: seq<RuntimeModule>, profile: Profile, init: States, states: States, rank: map<string, nat>,
    m: RuntimeModule, d: string)
    requires DistinctNames(ms) && IsModuleGraph(g, ms, init) && OwnVerdicts(ms, profile, init)
    requires Resolving(g, ms, profile, init, states, rank)
    requires m in ms && states[m.name].state == Enabled
    requires d in EffectiveDeps(m.dependencies, states.Keys) && states[d].state != Enabled && states[d].mod.name == d
    ensures Resolving(g, ms, profile, init, states[m.name := SwitchedOff(m, profile, states[d])],
            rank[m.name := rank[d] + 1])
  {
    var states', rank' := states[m.name := SwitchedOff(m, profile, states[d])], rank[m.name := rank[d] + 1];
    assert states'.Keys == states.Keys && rank'.Keys == rank.Keys;
    forall n | n in ms
      ensures ResolvedShape(n, profile, init, states', rank')
    {
      SwitchOffKeepsShape(ms, profile, init, states, rank, m, d, n);
    }
    forall s | Supported(g, s)
      ensures s <= EnabledNames(states')
    {
      assert s <= EnabledNames(states);
      SupportedLoses(g, s, m.name, d);
    }
  }

  /** The failed dependency behind a search result. */
  lemma FoundDependency(
    g: Graph<string>, ms: seq<RuntimeModule>, profile: Profile, init: States, states: States, rank: map<string, nat>,
    m: RuntimeModule)
    returns (d: string)
    requires DistinctNames(ms) && IsModuleGraph(g, ms, init) && OwnVerdicts(ms, profile, init)
    requires Resolving(g, ms, profile, init, states, rank)
    requires FirstUnavailable(m.dependencies, states).Some?
    ensures d in EffectiveDeps(m.dependencies, states.Keys)
    ensures states[d].state != Enabled && states[d].mod.name == d
    ensures FirstUnavailable(m.dependencies, states) == Some(states[d])
  {
    d :| d in EffectiveDeps(m.dependencies, states.Keys)
        && FirstUnavailable(m.dependencies, states).value == states[d] && states[d].state != Enabled;
    var dm :| dm in ms && dm.name == d;
    assert ResolvedShape(dm, profile, init, states, rank);
  }

  /** Dependencies are listed before the modules that need them. */
  ghost predicate ListedInOrder(ms: seq<RuntimeModule>) {
    forall i, d :: 0 <= i < |ms| && d in EffectiveDeps(ms[i].dependencies, Names(ms)) ==> d in Names(ms[..i])
  }

  /** With dependencies listed first, switching off a module cannot disturb those before it. */
  lemma EarlierStaySettled(ms: seq<RuntimeModule>, i: nat, was: States, now: States)
    requires DistinctNames(ms) && ListedInOrder(ms) && i < |ms|
    requires was.Keys == now.Keys == Names(ms)
    requires forall x :: x in was && x != ms[i].name ==> now[x] == was[x]
    requires now[ms[i].name].state != Enabled
    requires Settled(ms[..i], was)
    ensures Settled(ms[..i + 1], now)
  {
    forall m | m in ms[..i + 1] && now[m.name].state == Enabled
      ensures FirstUnavailable(m.dependencies, now) == None
    {
      var k :| 0 <= k < i + 1 && ms[k] == m;
      assert m == ms[..i][k];
      assert FirstUnavailable(m.dependencies, was) == None;
      forall d | d in EffectiveDeps(m.dependencies, now.Keys)
        ensures now[d].state == Enabled
      {
        assert d in Names(ms[..k]);
      }
    }
  }

  /** The number of reason hops from a failed module to one that fails on its own account. */
  ghost predicate LeadsToOwnFailure(states: States, x: string, hops: nat)
    decreases hops
  {
    && x in states
    && states[x].state != Enabled
    && match states[x].reason
       case DependencyUnavailable(d, was) => hops > 0 && d in states && states[d].state == was
           && LeadsToOwnFailure(states, d, hops - 1)
       case _ => hops == 0
  }

  lemma {:induction false} RankLeadsToOwnFailure(
    g: Graph<string>, ms: seq<RuntimeModule>, profile: Profile, init: States, states: States, rank: map<string, nat>,
    x: string)
    requires DistinctNames(ms) && IsModuleGraph(g, ms, init) && OwnVerdicts(ms, profile, init)
    requires Resolving(g, ms, profile, init, states, rank)
    requires x in states && states[x].state != Enabled
    ensures exists hops: nat :: LeadsToOwnFailure(states, x, hops)
    decreases rank[x]
  {
    var m :| m in ms && m.name == x;
    assert ResolvedShape(m, profile, init, states, rank);
    if states[x].reason.DependencyUnavailable? {
      var d := states[x].reason.dependency;
      RankLeadsToOwnFailure(g, ms, profile, init, states, rank, d);
      var hops: nat :| LeadsToOwnFailure(states, d, hops);
      assert LeadsToOwnFailure(states, x, hops + 1);
    } else {
      assert LeadsToOwnFailure(states, x, 0);
    }
  }

  /** The hop count is unique, so no module is met twice on the way: reasons never form a cycle. */
  lemma {:induction false} HopsAreUnique(states: States, x: string, a: nat, b: nat)
    requires LeadsToOwnFailure(states, x, a) && LeadsToOwnFailure(states, x, b)
    ensures a == b
    decreases a
  {
    if states[x].reason.DependencyUnavailable? {
      HopsAreUnique(states, states[x].reason.dependency, a - 1, b - 1);
    }
  }

  /** What the finished table says, module by module. */
  ghost predicate ModuleResolved(m: RuntimeModule, profile: Profile, own: Resolved, states: States)
    requires m.name in states
  {
    var r := states[m.name];
    && r.mod == m
    && (own.state != Enabled ==> r == own)
    && (r.state == Enabled ==> r == own)
    && (own.state == Enabled && r.state != Enabled ==>
          && r.state == MissingDependency && r.enabled
          && r.reason.DependencyUnavailable?
          && r.reason.dependency in m.dependencies
          && r.reason.dependency in states
          && states[r.reason.dependency].state == r.reason.was != Enabled)
    && (r.blocksProfile <==> profile in m.requiredIn && r.state == MissingDependency)
  }

  lemma ShapeIsResolved(
    g: Graph<string>, ms: seq<RuntimeModule>, profile: Profile, init: States, states: States, rank: map<string, nat>,
    m: RuntimeModule)
    requires DistinctNames(ms) && IsModuleGraph(g, ms, init) && OwnVerdicts(ms, profile, init)
    requires Resolving(g, ms, profile, init, states, rank)
    requires m in ms
    ensures ModuleResolved(m, profile, init[m.name], states)
  {
    assert ResolvedShape(m, profile, init, states, rank);
    assert OwnVerdict(m, profile, init[m.name]);
  }

  lemma EnabledAfterSwitchOff(states: States, x: string, off: Resolved)
    requires x in EnabledNames(states) && off.state != Enabled
    ensures EnabledNames(states[x := off]) == EnabledNames(states) - {x}
  {
  }

  /** Every failed entry has a finite chain of reasons. */
  ghost predicate Explained(states: States) {
    forall x :: x in states && states[x].state != Enabled ==> exists hops: nat :: LeadsToOwnFailure(states, x, hops)
  }

  lemma ResolvedIsExplained(
    g: Graph<string>, ms: seq<RuntimeModule>, profile: Profile, init: States, states: States, rank: map<string, nat>)
    requires DistinctNames(ms) && IsModuleGraph(g, ms, init) && OwnVerdicts(ms, profile, init)
    requires Resolving(g, ms, profile, init, states, rank)
    ensures Explained(states)
  {
    forall x | x in states && states[x].state != Enabled
      ensures exists hops: nat :: LeadsToOwnFailure(states, x, hops)
    {
      RankLeadsToOwnFailure(g, ms, profile, init, states, rank, x);
    }
  }

  lemma SwitchOffKeepsResolving(
    g: Graph<string>, ms: seq<RuntimeModule>, profile: Profile, init: States, states: States, rank: map<string, nat>,
    m: RuntimeModule, found: Resolved)
    returns (rank': map<string, nat>)
    requires DistinctNames(ms) && IsModuleGraph(g, ms, init) && OwnVerdicts(ms, profile, init)
    requires Resolving(g, ms, profile, init, states, rank)
    requires m in ms && states[m.name].state == Enabled && FirstUnavailable(m.dependencies, states) == Some(found)
    ensures Resolving(g, ms, profile, init, states[m.name := SwitchedOff(m, profile, found)], rank')
  {
    var d := FoundDependency(g, ms, profile, init, states, rank, m);
    SwitchOffKeeps(g, ms, profile, init, states, rank, m, d);
    rank' := rank[m.name := rank[d] + 1];
  }

  /** What switching off one module does to the progress of a round. */
  lemma SwitchOffAdvances(ms: seq<RuntimeModule>, i: nat, states: States, off: Resolved)
    requires DistinctNames(ms) && i < |ms| && states.Keys == Names(ms) && off.state != Enabled
    requires states[ms[i].name].state == Enabled && FirstUnavailable(ms[i].dependencies, states).Some?
    ensures EnabledNames(states[ms[i].name := off]) < EnabledNames(states)
    ensures !Settled(ms, states)
    ensures ListedInOrder(ms) && Settled(ms[..i], states) ==> Settled(ms[..i + 1], states[ms[i].name := off])
  {
    EnabledAfterSwitchOff(states, ms[i].name, off);
    if ListedInOrder(ms) && Settled(ms[..i], states) {
      EarlierStaySettled(ms, i, states, states[ms[i].name := off]);
    }
  }

  /** The progress of a round that started from `before`, after the first `i` modules. */
  ghost predicate RoundProgress(ms: seq<RuntimeModule>, before: States, states: States, changed: bool, i: nat)
    requires i <= |ms|
  {
    && (if changed then EnabledNames(states) < EnabledNames(before) else states == before)
    && (ListedInOrder(ms) || !changed ==> Settled(ms[..i], states))
    && (Settled(ms, before) ==> !changed)
  }

  lemma RoundAdvances(ms: seq<RuntimeModule>, before: States, states: States, changed: bool, i: nat, off: Resolved)
    requires DistinctNames(ms) && i < |ms| && states.Keys == Names(ms) && off.state != Enabled
    requires RoundProgress(ms, before, states, changed, i)
    ensures var stuck := states[ms[i].name].state == Enabled && FirstUnavailable(ms[i].dependencies, states).Some?;
            RoundProgress(ms, before, if stuck then states[ms[i].name := off] else states, changed || stuck, i + 1)
  {
    if states[ms[i].name].state == Enabled && FirstUnavailable(ms[i].dependencies, states).Some? {
      SwitchOffAdvances(ms, i, states, off);
    } else if ListedInOrder(ms) || !changed {
      SettledExtends(ms, i, states);
    }
  }

  /** One round over the registry. */
  method SwitchOffRound(
    ghost g: Graph<string>, ms: seq<RuntimeModule>, profile: Profile, init: States, before: States,
    ghost rankBefore: map<string, nat>)
    returns (states: States, changed: bool, ghost rank: map<string, nat>)
    requires DistinctNames(ms) && IsModuleGraph(g, ms, init) && OwnVerdicts(ms, profile, init)
    requires Resolving(g, ms, profile, init, before, rankBefore)
    ensures Resolving(g, ms, profile, init, states, rank)
    ensures RoundProgress(ms, before, states, changed, |ms|)
  {
    states, changed, rank := before, false, rankBefore;
    for i := 0 to |ms|
      invariant Resolving(g, ms, profile, init, states, rank)
      invariant RoundProgress(ms, before, states, changed, i)
    {
      var unavailable := FirstUnavailable(ms[i].dependencies, states);
      if states[ms[i].name].state != Enabled || unavailable == None {
        RoundAdvances(ms, before, states, changed, i, SwitchedOff(ms[i], profile, states[ms[i].name]));
      } else {
        RoundAdvances(ms, before, states, changed, i, SwitchedOff(ms[i], profile, unavailable.value));
        rank := SwitchOffKeepsResolving(g, ms, profile, init, states, rank, ms[i], unavailable.value);
        states, changed := states[ms[i].name := SwitchedOff(ms[i], profile, unavailable.value)], true;
      }
    }
  }

  /** What a settled table says. */
  lemma SettledTable(
    g: Graph<string>, ms: seq<RuntimeModule>, profile: Profile, init: States, states: States, rank: map<string, nat>)
    requires DistinctNames(ms) && IsModuleGraph(g, ms, init) && OwnVerdicts(ms, profile, init)
    requires Resolving(g, ms, profile, init, states, rank) && Settled(ms, states)
    ensures states.Keys == Names(ms)
    ensures Supported(g, EnabledNames(states))
    ensures forall s :: Supported(g, s) ==> s <= EnabledNames(states)
    ensures forall m :: m in ms ==> ModuleResolved(m, profile, init[m.name], states)
    ensures Explained(states)
  {
    SettledIsSupported(g, ms, profile, init, states, rank);
    forall m | m in ms
      ensures ModuleResolved(m, profile, init[m.name], states)
    {
      ShapeIsResolved(g, ms, profile, init, states, rank, m);
    }
    ResolvedIsExplained(g, ms, profile, init, states, rank);
  }

  /** After `rounds` passes: each but the last switched something off, and if dependencies are listed first the first
      pass was already final. */
  ghost predicate Counted(ms: seq<RuntimeModule>, init: States, states: States, changed: bool, rounds: nat) {
    && rounds + |EnabledNames(states)| <= |EnabledNames(init)| + (if changed then 0 else 1)
    && (!changed ==> Settled(ms, states))
    && (ListedInOrder(ms) && rounds > 0 ==> Settled(ms, states) && rounds <= if changed then 1 else 2)
  }

  lemma RoundCounts(ms: seq<RuntimeModule>, init: States, before: States, states: States, changed: bool, rounds: nat)
    requires Counted(ms, init, before, true, rounds) && RoundProgress(ms, before, states, changed, |ms|)
    ensures Counted(ms, init, states, changed, rounds + 1)
    ensures if changed then |EnabledNames(states)| < |EnabledNames(before)| else states == before
  {
    assert ms[..|ms|] == ms;
    if changed {
      SubsetSize(EnabledNames(states), EnabledNames(before));
    }
  }

  /** The resolver's loop. `rounds` counts how often it goes over the registry. */
  method SwitchOffUnsupported(ghost g: Graph<string>, ms: seq<RuntimeModule>, profile: Profile, init: States)
    returns (states: States, ghost rounds: nat)
    requires DistinctNames(ms) && IsModuleGraph(g, ms, init) && OwnVerdicts(ms, profile, init)
    ensures states.Keys == Names(ms)
    ensures Supported(g, EnabledNames(states))
    ensures forall s :: Supported(g, s) ==> s <= EnabledNames(states)
    ensures forall m :: m in ms ==> ModuleResolved(m, profile, init[m.name], states)
    ensures Explained(states)
    ensures rounds <= |EnabledNames(init)| + 1
    ensures ListedInOrder(ms) ==> rounds <= 2
  {
    states := init;
    ghost var rank: map<string, nat> := map x | x in states :: 0;
    rounds := 0;
    var changed := true;
    while changed
      invariant Resolving(g, ms, profile, init, states, rank)
      invariant Counted(ms, init, states, changed, rounds)
      decreases |EnabledNames(states)|, changed
    {
      ghost var before := states;
      states, changed, rank := SwitchOffRound(g, ms, profile, init, states, rank);
      RoundCounts(ms, init, before, states, changed, rounds);
      rounds := rounds + 1;
    }
    SettledTable(g, ms, profile, init, states, rank);
  }

  /** What a resolved table says: a module is enabled exactly when it belongs to the greatest set of self-enabled
      modules closed under effective dependencies, and every other entry is explained. */
  ghost predicate Resolves(ms: seq<RuntimeModule>, profile: Profile, env: Env, states: States)
    requires DistinctNames(ms)
  {
    && states.Keys == Names(ms)
    && (forall x :: x in states ==> (states[x].state == Enabled <==> Alive(RuntimeGraph(ms, profile, env), x)))
    && (forall m :: m in ms ==> ModuleResolved(m, profile, SelfState(m, profile, env), states))
    && Explained(states)
  }

  /** Resolving a registry. */
  method ResolveRuntimeModuleStates(ms: seq<RuntimeModule>, profile: Profile, env: Env)
    returns (states: States, ghost rounds: nat)
    requires DistinctNames(ms)
    ensures Resolves(ms, profile, env, states)
    ensures rounds <= |RuntimeGraph(ms, profile, env).ok| + 1
    ensures ListedInOrder(ms) ==> rounds <= 2
  {
    var init := InitialStates(ms, profile, env);
    ghost var g := ModuleGraph(ms, init);
    ModuleGraphFits(ms, init);
    states, rounds := SwitchOffUnsupported(g, ms, profile, init);
    assert Supported(g, EnabledNames(states));
  }
}
