/** What the resolved runtime table means for a registry as a whole. */
module RuntimeModuleProperties {
  import opened Options
  import opened DependencyGraph
  import opened RuntimeModules

  lemma ReachedIsModule(g: Graph<string>, ms: seq<RuntimeModule>, init: States, m: RuntimeModule, y: string)
    requires IsModuleGraph(g, ms, init) && m in ms && Reachable(g, m.name, y)
    ensures y in Names(ms)
  {
    var p: seq<string> :| IsPath(g, p) && p[0] == m.name && p[|p| - 1] == y;
    if |p| > 1 {
      var x := p[|p| - 2];
      assert y in Deps(g, x);
      var n :| n in ms && n.name == x;
      assert Deps(g, n.name) == EffectiveDeps(n.dependencies, Names(ms));
    }
  }

  /** A module is enabled exactly when it and every module reachable through effective dependencies is
      enabled on its own account, cycles included. */
  lemma EnabledIffAllReachableSelfEnabled(ms: seq<RuntimeModule>, profile: Profile, env: Env, m: RuntimeModule)
    requires DistinctNames(ms) && m in ms
    ensures Alive(RuntimeGraph(ms, profile, env), m.name)
       <==> forall n :: n in ms && Reachable(RuntimeGraph(ms, profile, env), m.name, n.name) ==>
           SelfState(n, profile, env).state == Enabled
  {
    var init := InitialStates(ms, profile, env);
    var g := RuntimeGraph(ms, profile, env);
    ModuleGraphFits(ms, init);
    AliveIffReachableOk(g, m.name);
    AllReachedOk(g, ms, profile, env, init, m);
  }

  lemma AllReachedOk(
    g: Graph<string>, ms: seq<RuntimeModule>, profile: Profile, env: Env, init: States, m: RuntimeModule)
    requires IsModuleGraph(g, ms, init) && m in ms && init.Keys == Names(ms)
    requires forall n {:trigger SelfState(n, profile, env)} :: n in ms ==> init[n.name] == SelfState(n, profile, env)
    ensures (forall y :: Reachable(g, m.name, y) ==> y in g.ok)
       <==> forall n :: n in ms && Reachable(g, m.name, n.name) ==> SelfState(n, profile, env).state == Enabled
  {
    if forall n :: n in ms && Reachable(g, m.name, n.name) ==> SelfState(n, profile, env).state == Enabled {
      forall y | Reachable(g, m.name, y)
        ensures y in g.ok
      {
        ReachedIsModule(g, ms, init, m, y);
        var n :| n in ms && n.name == y;
        assert SelfState(n, profile, env).state == Enabled;
      }
    }
  }

  /** Listing the same modules in another order gives the same graph. */
  lemma SameGraph(ms: seq<RuntimeModule>, ns: seq<RuntimeModule>, profile: Profile, env: Env)
    requires DistinctNames(ms) && DistinctNames(ns)
    requires forall m :: m in ms <==> m in ns
    ensures RuntimeGraph(ms, profile, env) == RuntimeGraph(ns, profile, env)
  {
    var init, jnit := InitialStates(ms, profile, env), InitialStates(ns, profile, env);
    SameNames(ms, ns);
    forall x | x in init
      ensures init[x] == jnit[x]
    {
      var m :| m in ms && m.name == x;
    }
    assert init == jnit;
    ModuleGraphFits(ms, init);
    ModuleGraphFits(ns, init);
    SameDeps(ModuleGraph(ms, init), ModuleGraph(ns, init), ms, ns, init);
  }

  /** Two tables that resolve the same modules, listed in any two orders, agree on every state, on what is enabled and
      on what blocks the profile. Only a reason may name another one of several failed dependencies. */
  lemma OrderIsIrrelevant(
    ms: seq<RuntimeModule>, ns: seq<RuntimeModule>, profile: Profile, env: Env, a: States, b: States)
    requires DistinctNames(ms) && DistinctNames(ns)
    requires forall m :: m in ms <==> m in ns
    requires Resolves(ms, profile, env, a) && Resolves(ns, profile, env, b)
    ensures a.Keys == b.Keys
    ensures forall x :: x in a ==>
              a[x].state == b[x].state && a[x].enabled == b[x].enabled && a[x].blocksProfile == b[x].blocksProfile
  {
    SameGraph(ms, ns, profile, env);
    SameNames(ms, ns);
    forall x | x in a
      ensures a[x].state == b[x].state && a[x].enabled == b[x].enabled && a[x].blocksProfile == b[x].blocksProfile
    {
      var m :| m in ms && m.name == x;
      SameEntry(m, profile, SelfState(m, profile, env), a, b);
    }
  }

  lemma SameEntry(m: RuntimeModule, profile: Profile, own: Resolved, a: States, b: States)
    requires m.name in a && m.name in b
    requires ModuleResolved(m, profile, own, a) && ModuleResolved(m, profile, own, b)
    requires a[m.name].state == Enabled <==> b[m.name].state == Enabled
    ensures a[m.name].state == b[m.name].state && a[m.name].enabled == b[m.name].enabled
    ensures a[m.name].blocksProfile == b[m.name].blocksProfile
  {
  }

  lemma SameNames(ms: seq<RuntimeModule>, ns: seq<RuntimeModule>)
    requires forall m :: m in ms <==> m in ns
    ensures Names(ms) == Names(ns)
  {
  }

  lemma SameDeps(g: Graph<string>, h: Graph<string>, ms: seq<RuntimeModule>, ns: seq<RuntimeModule>, init: States)
    requires IsModuleGraph(g, ms, init) && IsModuleGraph(h, ns, init)
    requires Names(ms) == Names(ns)
    requires forall m :: m in ms <==> m in ns
    ensures g == h
  {
    forall x | x in Names(ms)
      ensures g.deps[x] == h.deps[x]
    {
      var m :| m in ms && m.name == x;
      assert Deps(g, m.name) == Deps(h, m.name);
    }
  }

  /** Every declared dependency names a module. */
  ghost predicate Closed(m: RuntimeModule, ms: seq<RuntimeModule>) {
    forall d :: d in m.dependencies ==> d in Names(ms)
  }

  lemma {:induction false} ClosedDepsAreEffective(deps: seq<string>, known: set<string>)
    ensures EffectiveDeps(deps, known) == deps <==> forall d :: d in deps ==> d in known
  {
    if deps == [] {
    } else {
      ClosedDepsAreEffective(deps[1..], known);
    }
  }

  lemma ClosedKeepsDependencies(g: Graph<string>, ms: seq<RuntimeModule>, init: States, m: RuntimeModule, d: string)
    requires IsModuleGraph(g, ms, init) && m in ms && Closed(m, ms) && d in m.dependencies && Alive(g, m.name)
    ensures Alive(g, d)
  {
    ClosedDepsAreEffective(m.dependencies, Names(ms));
    var s :| Supported(g, s) && m.name in s;
    assert d in Deps(g, m.name);
  }

  /** The promise of the dependency list: an enabled module has every dependency it declares present and enabled. */
  ghost predicate Honoured(g: Graph<string>, ms: seq<RuntimeModule>) {
    forall m, d :: m in ms && Alive(g, m.name) && d in m.dependencies ==> d in Names(ms) && Alive(g, d)
  }

  lemma HonouredIffEnabledClosed(g: Graph<string>, ms: seq<RuntimeModule>, init: States)
    requires IsModuleGraph(g, ms, init)
    ensures Honoured(g, ms) <==> forall m :: m in ms && Alive(g, m.name) ==> Closed(m, ms)
  {
    if forall m :: m in ms && Alive(g, m.name) ==> Closed(m, ms) {
      forall m, d | m in ms && Alive(g, m.name) && d in m.dependencies
        ensures d in Names(ms) && Alive(g, d)
      {
        ClosedKeepsDependencies(g, ms, init, m, d);
      }
    }
  }

  /** Something reachable from the module, itself included, is not enabled on its own account. */
  ghost predicate ReachesFailure(
    g: Graph<string>, ms: seq<RuntimeModule>, profile: Profile, env: Env, m: RuntimeModule) {
    exists n :: n in ms && Reachable(g, m.name, n.name) && SelfState(n, profile, env).state != Enabled
  }

  /** The promise is kept exactly when every module that declares an unknown name reaches one that fails by itself: a
      condition on the registry, the profile and the environment alone. */
  lemma DeclaredDependenciesHonouredIff(ms: seq<RuntimeModule>, profile: Profile, env: Env)
    requires DistinctNames(ms)
    ensures var g := RuntimeGraph(ms, profile, env);
            Honoured(g, ms) <==> forall m :: m in ms && !Closed(m, ms) ==> ReachesFailure(g, ms, profile, env, m)
  {
    var g := RuntimeGraph(ms, profile, env);
    var init := InitialStates(ms, profile, env);
    ModuleGraphFits(ms, init);
    HonouredIffEnabledClosed(g, ms, init);
    forall m | m in ms
      ensures Alive(g, m.name) <==> !ReachesFailure(g, ms, profile, env, m)
    {
      AliveIffReachableOk(g, m.name);
      AllReachedOk(g, ms, profile, env, init, m);
    }
  }

  /** An unknown name in front hides everything listed behind it: a self-enabled module stays enabled
      whatever becomes of its other dependencies. */
  lemma UnknownNameHidesDependencies(ms: seq<RuntimeModule>, profile: Profile, env: Env, m: RuntimeModule)
    requires DistinctNames(ms) && m in ms && SelfState(m, profile, env).state == Enabled
    requires m.dependencies != [] && m.dependencies[0] !in Names(ms)
    ensures Alive(RuntimeGraph(ms, profile, env), m.name)
  {
    ModuleGraphFits(ms, InitialStates(ms, profile, env));
    FreeNodeIsAlive(RuntimeGraph(ms, profile, env), m.name);
  }

  lemma FreeNodeIsAlive(g: Graph<string>, x: string)
    requires x in g.ok && Deps(g, x) == []
    ensures Alive(g, x)
  {
    assert Supported(g, {x});
  }

  function Rank(p: Profile): nat {
    match p
    case Core => 0
    case Enhanced => 1
    case Full => 2
  }

  /** Once a profile requires or expects a module, so does every larger one. */
  ghost predicate UpwardClosed(m: RuntimeModule) {
    forall p, q :: Rank(p) <= Rank(q) && (p in m.requiredIn || p in m.expectedIn) ==>
        q in m.requiredIn || q in m.expectedIn
  }

  lemma LargerProfileSelfEnables(m: RuntimeModule, small: Profile, large: Profile, env: Env)
    requires Rank(small) <= Rank(large) && UpwardClosed(m) && SelfState(m, small, env).state == Enabled
    ensures SelfState(m, large, env).state == Enabled
  {
  }

  lemma LargerInitKeepsAlive(
    g: Graph<string>, h: Graph<string>, ms: seq<RuntimeModule>, init: States, jnit: States, x: string)
    requires IsModuleGraph(g, ms, init) && IsModuleGraph(h, ms, jnit)
    requires EnabledNames(init) <= EnabledNames(jnit)
    requires Alive(g, x)
    ensures Alive(h, x)
  {
    forall y | y in Names(ms)
      ensures g.deps[y] == h.deps[y]
    {
      var m :| m in ms && m.name == y;
      assert Deps(g, m.name) == Deps(h, m.name);
    }
    AliveMonotone(g, h, x);
  }

  /** A larger profile never switches a module off. */
  lemma LargerProfileKeepsEnabled(ms: seq<RuntimeModule>, small: Profile, large: Profile, env: Env, x: string)
    requires DistinctNames(ms) && Rank(small) <= Rank(large)
    requires forall m :: m in ms ==> UpwardClosed(m)
    requires Alive(RuntimeGraph(ms, small, env), x)
    ensures Alive(RuntimeGraph(ms, large, env), x)
  {
    var init, jnit := InitialStates(ms, small, env), InitialStates(ms, large, env);
    forall y | y in EnabledNames(init)
      ensures y in EnabledNames(jnit)
    {
      var m :| m in ms && m.name == y;
      LargerProfileSelfEnables(m, small, large, env);
    }
    ModuleGraphFits(ms, init);
    ModuleGraphFits(ms, jnit);
    LargerInitKeepsAlive(ModuleGraph(ms, init), ModuleGraph(ms, jnit), ms, init, jnit, x);
  }

  // --- What the environment decides ---

  predicate SetTo(name: string, value: EnvValue, env: Env) {
    name != "" && name in env && env[name] == value
  }

  predicate Undecided(name: string, env: Env) {
    name != "" && (name in env ==> env[name] != Yes && env[name] != No)
  }

  predicate WantedBy(m: RuntimeModule, profile: Profile) {
    profile in m.requiredIn || profile in m.expectedIn
  }

  /** An explicit no disables a module and an explicit yes never leaves it disabled. Without either, a module with a
      variable is disabled exactly when neither profile nor default wants it, and a module without one follows its
      default, or the profile if it has none. */
  predicate OperatorDecides(m: RuntimeModule, profile: Profile, env: Env, r: Resolved) {
    && (SetTo(m.envEnabled, No, env) ==> r.state == Disabled)
    && (SetTo(m.envEnabled, Yes, env) ==> r.state != Disabled)
    && (Undecided(m.envEnabled, env) ==>
          (r.state == Disabled <==> !WantedBy(m, profile) && m.defaultEnabled != Some(true)))
    && (m.envEnabled == "" && m.defaultEnabled.Some? ==> (r.state == Disabled <==> !m.defaultEnabled.value))
    && (m.envEnabled == "" && m.defaultEnabled == None ==> (r.state == Disabled <==> !WantedBy(m, profile)))
    && (r.enabled <==> r.state != Disabled)
  }

  predicate Configured(m: RuntimeModule, env: Env) {
    m.healthUrl != "" || exists v :: v in m.healthUrlVariables && v != "" && v in env && env[v] != Blank
  }

  /** A wanted module whose source is declared unavailable, or that needs a health address and has none, is reported as
      missing it; any other wanted module is enabled or waits for a dependency. */
  predicate EnvironmentDecides(m: RuntimeModule, env: Env, r: Resolved) {
    if r.state == Disabled then
      r.reason == if m.envEnabled == "" then ModuleDisabled else EnvDisabled(m.envEnabled)
    else if SetTo(m.envSourceAvailable, No, env) then
      r.state == MissingDependency && r.reason == EnvDisabled(m.envSourceAvailable)
    else if m.requireHealthUrl && !Configured(m, env) then
      r.state == MissingDependency && r.reason == HealthUrlUnconfigured
    else if r.state == Enabled then r.reason == NoReason
    else r.reason.DependencyUnavailable?
  }

  lemma HealthUrlIff(m: RuntimeModule, env: Env)
    ensures HasHealthUrl(m, env) <==> Configured(m, env)
  {
  }

  lemma SelfStateDecides(m: RuntimeModule, profile: Profile, env: Env)
    ensures OperatorDecides(m, profile, env, SelfState(m, profile, env))
    ensures EnvironmentDecides(m, env, SelfState(m, profile, env))
  {
    HealthUrlIff(m, env);
  }

  lemma DecisionsSurvive(m: RuntimeModule, profile: Profile, env: Env, own: Resolved, states: States)
    requires m.name in states && ModuleResolved(m, profile, own, states) && OwnVerdict(m, profile, own)
    requires OperatorDecides(m, profile, env, own) && EnvironmentDecides(m, env, own)
    ensures OperatorDecides(m, profile, env, states[m.name]) && EnvironmentDecides(m, env, states[m.name])
  {
  }

  /** Every entry of a resolved table is what the operator and the environment decide. */
  lemma TableFollowsEnvironment(
    ms: seq<RuntimeModule>, profile: Profile, env: Env, states: States, m: RuntimeModule)
    requires DistinctNames(ms) && m in ms && Resolves(ms, profile, env, states)
    ensures m.name in states
    ensures OperatorDecides(m, profile, env, states[m.name]) && EnvironmentDecides(m, env, states[m.name])
  {
    assert ModuleResolved(m, profile, SelfState(m, profile, env), states);
    SelfStateDecides(m, profile, env);
    DecisionsSurvive(m, profile, env, SelfState(m, profile, env), states);
  }
}
