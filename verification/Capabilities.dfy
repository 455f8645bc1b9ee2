/** Full-stack capabilities: a second fixpoint stacked on the runtime modules
    (app/full-stack-capabilities.ts). A dependency names a runtime module first, then a capability. */
module Capabilities {
  import opened Collections
  import opened Options
  import opened DependencyGraph
  import opened RuntimeModules

  datatype Capability = Capability(name: string, defaultEnabled: bool, envEnabled: string, dependencies: seq<string>)

  /** `enabled` is what the operator asked for; `state` is what the dependencies allow. */
  datatype Item = Item(state: ModuleState, enabled: bool, reason: Reason)

  type Items = map<string, Item>

  function ReadCapabilityEnabled(c: Capability, env: Env): bool {
    if c.envEnabled == "" || c.envEnabled !in env then c.defaultEnabled
    else if env[c.envEnabled] == Yes then true
    else if env[c.envEnabled] == No then false
    else c.defaultEnabled
  }

  function OwnItem(c: Capability, env: Env): Item {
    if ReadCapabilityEnabled(c, env) then Item(Enabled, true, NoReason)
    else Item(Disabled, false, if c.envEnabled != "" then EnvDisabled(c.envEnabled) else ModuleDisabled)
  }

  ghost predicate DistinctCapabilities(cs: seq<Capability>) {
    forall i, j :: 0 <= i < j < |cs| ==> cs[i].name != cs[j].name
  }

  function CapabilityNames(cs: seq<Capability>): set<string> {
    set c | c in cs :: c.name
  }

  /** The state a dependency name stands for. */
  function LookUp(d: string, runtime: States, items: Items): ModuleState {
    if d in runtime then runtime[d].state
    else if d in items then items[d].state
    else MissingDependency
  }

  function FirstBlocked(deps: seq<string>, runtime: States, items: Items): (r: Option<string>)
    ensures r == None <==> forall d :: d in deps ==> LookUp(d, runtime, items) == Enabled
    ensures r.Some? ==> r.value in deps && LookUp(r.value, runtime, items) != Enabled
  {
    if deps == [] then None
    else if LookUp(deps[0], runtime, items) != Enabled then Some(deps[0])
    else FirstBlocked(deps[1..], runtime, items)
  }

  /** The search finds the first dependency that does not stand for something enabled. */
  lemma {:induction false} BlockedIsFirst(deps: seq<string>, runtime: States, items: Items) returns (k: nat)
    requires FirstBlocked(deps, runtime, items).Some?
    ensures k < |deps| && FirstBlocked(deps, runtime, items) == Some(deps[k])
    ensures LookUp(deps[k], runtime, items) != Enabled
    ensures forall j :: 0 <= j < k ==> LookUp(deps[j], runtime, items) == Enabled
  {
    if LookUp(deps[0], runtime, items) != Enabled {
      k := 0;
    } else {
      k := BlockedIsFirst(deps[1..], runtime, items);
      k := k + 1;
    }
  }

  /** The nodes of the merged graph. */
  datatype Node = RuntimeNode(name: string) | CapabilityNode(name: string) | UnknownNode(name: string)

  function ResolveName(d: string, modules: set<string>, capabilities: set<string>): Node {
    if d in modules then RuntimeNode(d)
    else if d in capabilities then CapabilityNode(d)
    else UnknownNode(d)
  }

  ghost function EnabledItems(items: Items): set<string> {
    set c | c in items && items[c].state == Enabled
  }

  /** One graph for both layers: a name resolves to a module, else a capability, else to nothing. */
  ghost predicate IsMergedGraph(
    h: Graph<Node>, g: Graph<string>, modules: set<string>, cs: seq<Capability>, own: Items) {
    && (forall x :: RuntimeNode(x) in h.ok <==> x in g.ok)
    && (forall x :: CapabilityNode(x) in h.ok <==> x in EnabledItems(own))
    && (forall x :: UnknownNode(x) !in h.ok)
    && (forall x, n {:trigger n in Deps(h, RuntimeNode(x))} :: n in Deps(h, RuntimeNode(x))
         <==> n.RuntimeNode? && n.name in Deps(g, x))
    && (forall c, n {:trigger n in Deps(h, CapabilityNode(c.name))} :: c in cs ==>
          (n in Deps(h, CapabilityNode(c.name)) <==> exists d ::
               d in c.dependencies && n == ResolveName(d, modules, CapabilityNames(cs))))
  }

  ghost predicate OwnItems(cs: seq<Capability>, own: Items) {
    && own.Keys == CapabilityNames(cs)
    && forall x {:trigger own[x]} :: x in own ==>
         && !own[x].reason.DependencyUnavailable?
         && (own[x].state == Enabled ==> own[x] == Item(Enabled, true, NoReason))
         && (own[x].state != Enabled ==> own[x].state == Disabled && !own[x].enabled)
  }

  /** A capability's entry is its own verdict, or it was switched off for a dependency that was blocked;
      `rank` orders the capabilities by the time they failed. */
  ghost predicate ItemShape(c: Capability, runtime: States, own: Items, items: Items, rank: map<string, nat>)
    requires c.name in own && c.name in items && items.Keys == rank.Keys
  {
    var r := items[c.name];
    || r == own[c.name]
    || (&& own[c.name].state == Enabled
        && r.reason.DependencyUnavailable?
        && r == Item(MissingDependency, true, r.reason)
        && r.reason.dependency in c.dependencies
        && LookUp(r.reason.dependency, runtime, items) == r.reason.was != Enabled
        && (r.reason.dependency !in runtime && r.reason.dependency in items ==>
             rank[r.reason.dependency] < rank[c.name]))
  }

  ghost predicate Stacking(
    h: Graph<Node>, cs: seq<Capability>, runtime: States, own: Items, items: Items, rank: map<string, nat>) {
    && own.Keys == items.Keys == rank.Keys == CapabilityNames(cs)
    && (forall c {:trigger ItemShape(c, runtime, own, items, rank)} :: c in cs ==>
         ItemShape(c, runtime, own, items, rank))
    && (forall s, x {:trigger Supported(h, s), CapabilityNode(x) in s} :: Supported(h, s) && CapabilityNode(x) in s ==>
         x in EnabledItems(items))
  }

  /** The runtime layer is finished: its enabled modules are the greatest fixpoint. */
  ghost predicate RuntimeDone(g: Graph<string>, modules: set<string>, runtime: States) {
    && runtime.Keys == modules
    && Supported(g, EnabledNames(runtime))
    && (forall s :: Supported(g, s) ==> s <= EnabledNames(runtime))
  }

  ghost predicate SettledItems(cs: seq<Capability>, runtime: States, items: Items) {
    forall c {:trigger FirstBlocked(c.dependencies, runtime, items)} ::
      c in cs && c.name in items && items[c.name].state == Enabled ==>
          FirstBlocked(c.dependencies, runtime, items) == None
  }

  /** The modules of a supported set of the merged graph form a supported set of the runtime graph. */
  lemma RuntimePartSupported(
    h: Graph<Node>, g: Graph<string>, modules: set<string>, cs: seq<Capability>, own: Items, s: set<Node>)
    returns (r: set<string>)
    requires IsMergedGraph(h, g, modules, cs, own) && Supported(h, s)
    ensures Supported(g, r) && forall x :: x in r <==> RuntimeNode(x) in s
  {
    r := set x | x in g.ok && RuntimeNode(x) in s;
    forall x, d | x in r && d in Deps(g, x)
      ensures d in r
    {
      assert RuntimeNode(d) in Deps(h, RuntimeNode(x));
    }
  }

  lemma BlockedDependencyDead(
    h: Graph<Node>, g: Graph<string>, cs: seq<Capability>, runtime: States, own: Items, items: Items,
    rank: map<string, nat>, c: Capability, d: string, s: set<Node>)
    requires IsMergedGraph(h, g, runtime.Keys, cs, own) && RuntimeDone(g, runtime.Keys, runtime)
    requires Stacking(h, cs, runtime, own, items, rank)
    requires c in cs && d in c.dependencies && LookUp(d, runtime, items) != Enabled && Supported(h, s)
    ensures CapabilityNode(c.name) !in s
  {
    var n := ResolveName(d, runtime.Keys, CapabilityNames(cs));
    assert n in Deps(h, CapabilityNode(c.name));
    var r := RuntimePartSupported(h, g, runtime.Keys, cs, own, s);
    assert r <= EnabledNames(runtime);
    assert n !in s;
  }

  function BlockedItem(d: string, runtime: States, items: Items): Item {
    Item(MissingDependency, true, DependencyUnavailable(d, LookUp(d, runtime, items)))
  }

  lemma BlockKeepsShape(
    cs: seq<Capability>, runtime: States, own: Items, items: Items, rank: map<string, nat>, c: Capability, d: string,
    e: Capability)
    requires DistinctCapabilities(cs) && OwnItems(cs, own) && c in cs && e in cs
    requires own.Keys == items.Keys == rank.Keys == CapabilityNames(cs)
    requires ItemShape(c, runtime, own, items, rank) && ItemShape(e, runtime, own, items, rank)
    requires items[c.name].state == Enabled && d in c.dependencies && LookUp(d, runtime, items) != Enabled
    ensures ItemShape(e, runtime, own, items[c.name := BlockedItem(d, runtime, items)],
            rank[c.name := if d in rank then rank[d] + 1 else 0])
  {
  }

  lemma BlockKeepsStacking(
    h: Graph<Node>, g: Graph<string>, cs: seq<Capability>, runtime: States, own: Items, items: Items,
    rank: map<string, nat>, c: Capability, d: string)
    returns (rank': map<string, nat>)
    requires DistinctCapabilities(cs) && IsMergedGraph(h, g, runtime.Keys, cs, own)
    requires RuntimeDone(g, runtime.Keys, runtime)
    requires OwnItems(cs, own) && Stacking(h, cs, runtime, own, items, rank)
    requires c in cs && items[c.name].state == Enabled && d in c.dependencies && LookUp(d, runtime, items) != Enabled
    ensures Stacking(h, cs, runtime, own, items[c.name := BlockedItem(d, runtime, items)], rank')
  {
    rank' := rank[c.name := if d in rank then rank[d] + 1 else 0];
    var items' := items[c.name := BlockedItem(d, runtime, items)];
    forall e | e in cs
      ensures ItemShape(e, runtime, own, items', rank')
    {
      assert ItemShape(c, runtime, own, items, rank) && ItemShape(e, runtime, own, items, rank);
      BlockKeepsShape(cs, runtime, own, items, rank, c, d, e);
    }
    forall s, x | Supported(h, s) && CapabilityNode(x) in s
      ensures x in EnabledItems(items')
    {
      BlockedDependencyDead(h, g, cs, runtime, own, items, rank, c, d, s);
    }
  }

  lemma BlockAdvances(cs: seq<Capability>, runtime: States, items: Items, c: Capability, off: Item)
    requires c in cs && c.name in items && items[c.name].state == Enabled && off.state != Enabled
    requires FirstBlocked(c.dependencies, runtime, items).Some?
    ensures EnabledItems(items[c.name := off]) < EnabledItems(items)
    ensures !SettledItems(cs, runtime, items)
  {
    assert c.name in EnabledItems(items) && c.name !in EnabledItems(items[c.name := off]);
  }

  lemma ItemsSettleExtends(cs: seq<Capability>, i: nat, runtime: States, items: Items)
    requires i < |cs| && SettledItems(cs[..i], runtime, items)
    requires cs[i].name in items && items[cs[i].name].state == Enabled ==>
             FirstBlocked(cs[i].dependencies, runtime, items) == None
    ensures SettledItems(cs[..i + 1], runtime, items)
  {
  }

  /** One round over the capabilities. */
  method BlockRound(
    ghost h: Graph<Node>, ghost g: Graph<string>, cs: seq<Capability>, runtime: States, ghost own: Items,
    before: Items, ghost rankBefore: map<string, nat>)
    returns (items: Items, changed: bool, ghost rank: map<string, nat>)
    requires DistinctCapabilities(cs) && IsMergedGraph(h, g, runtime.Keys, cs, own)
    requires RuntimeDone(g, runtime.Keys, runtime)
    requires OwnItems(cs, own) && Stacking(h, cs, runtime, own, before, rankBefore)
    ensures Stacking(h, cs, runtime, own, items, rank)
    ensures if changed then EnabledItems(items) < EnabledItems(before)
            else items == before && SettledItems(cs, runtime, items)
  {
    items, changed, rank := before, false, rankBefore;
    for i := 0 to |cs|
      invariant Stacking(h, cs, runtime, own, items, rank)
      invariant if changed then EnabledItems(items) < EnabledItems(before)
                else items == before && SettledItems(cs[..i], runtime, items)
    {
      var unavailable := FirstBlocked(cs[i].dependencies, runtime, items);
      if items[cs[i].name].state == Enabled && unavailable.Some? {
        BlockAdvances(cs, runtime, items, cs[i], BlockedItem(unavailable.value, runtime, items));
        rank := BlockKeepsStacking(h, g, cs, runtime, own, items, rank, cs[i], unavailable.value);
        items, changed := items[cs[i].name := BlockedItem(unavailable.value, runtime, items)], true;
      } else if !changed {
        ItemsSettleExtends(cs, i, runtime, items);
      }
    }
    assert cs[..|cs|] == cs;
  }

  lemma SettledStackIsSupported(
    h: Graph<Node>, g: Graph<string>, cs: seq<Capability>, runtime: States, own: Items, items: Items,
    rank: map<string, nat>)
    returns (s: set<Node>)
    requires IsMergedGraph(h, g, runtime.Keys, cs, own) && RuntimeDone(g, runtime.Keys, runtime)
    requires OwnItems(cs, own) && Stacking(h, cs, runtime, own, items, rank) && SettledItems(cs, runtime, items)
    ensures Supported(h, s)
    ensures forall x :: CapabilityNode(x) in s <==> x in EnabledItems(items)
    ensures forall x :: RuntimeNode(x) in s <==> x in EnabledNames(runtime)
  {
    s := (set x | x in EnabledNames(runtime) :: RuntimeNode(x)) + (set x | x in EnabledItems(items) ::
        CapabilityNode(x));
    forall n | n in s
      ensures n in h.ok
      ensures forall d :: d in Deps(h, n) ==> d in s
    {
      match n
      case RuntimeNode(x) =>
      case CapabilityNode(x) =>
        var c :| c in cs && c.name == x;
        assert ItemShape(c, runtime, own, items, rank);
        assert FirstBlocked(c.dependencies, runtime, items) == None;
        CapabilityDepsInside(h, g, cs, runtime, own, items, c, s);
    }
  }

  lemma CapabilityDepsInside(
    h: Graph<Node>, g: Graph<string>, cs: seq<Capability>, runtime: States, own: Items, items: Items, c: Capability,
    s: set<Node>)
    requires IsMergedGraph(h, g, runtime.Keys, cs, own) && c in cs && items.Keys == CapabilityNames(cs)
    requires forall d :: d in c.dependencies ==> LookUp(d, runtime, items) == Enabled
    requires forall x :: x in EnabledNames(runtime) ==> RuntimeNode(x) in s
    requires forall x :: x in EnabledItems(items) ==> CapabilityNode(x) in s
    ensures forall n :: n in Deps(h, CapabilityNode(c.name)) ==> n in s
  {
  }

  /** The number of reason hops from a blocked capability to its root cause: a capability switched off by its operator,
      a runtime module that fails on its own account, or a name nobody provides. */
  ghost predicate LeadsToRootCause(runtime: States, items: Items, x: string, hops: nat)
    decreases hops
  {
    && x in items
    && items[x].state != Enabled
    && match items[x].reason
       case DependencyUnavailable(d, was) =>
         && hops > 0
         && LookUp(d, runtime, items) == was != Enabled
         && (if d in runtime then LeadsToOwnFailure(runtime, d, hops - 1)
             else if d in items then LeadsToRootCause(runtime, items, d, hops - 1)
             else hops == 1)
       case _ => hops == 0 && items[x].state == Disabled
  }

  ghost predicate ItemsExplained(runtime: States, items: Items) {
    forall x :: x in items && items[x].state != Enabled ==>
        exists hops: nat :: LeadsToRootCause(runtime, items, x, hops)
  }

  lemma {:induction false} RankLeadsToRootCause(
    h: Graph<Node>, cs: seq<Capability>, runtime: States, own: Items, items: Items, rank: map<string, nat>, x: string)
    requires OwnItems(cs, own) && Stacking(h, cs, runtime, own, items, rank) && Explained(runtime)
    requires x in items && items[x].state != Enabled
    ensures exists hops: nat :: LeadsToRootCause(runtime, items, x, hops)
    decreases rank[x]
  {
    var c :| c in cs && c.name == x;
    assert ItemShape(c, runtime, own, items, rank);
    if items[x].reason.DependencyUnavailable? {
      var d := items[x].reason.dependency;
      if d in runtime {
        var hops: nat :| LeadsToOwnFailure(runtime, d, hops);
        assert LeadsToRootCause(runtime, items, x, hops + 1);
      } else if d in items {
        RankLeadsToRootCause(h, cs, runtime, own, items, rank, d);
        var hops: nat :| LeadsToRootCause(runtime, items, d, hops);
        assert LeadsToRootCause(runtime, items, x, hops + 1);
      } else {
        assert LeadsToRootCause(runtime, items, x, 1);
      }
    } else {
      assert LeadsToRootCause(runtime, items, x, 0);
    }
  }

  /** The hop count is unique, so reasons never form a cycle, neither among capabilities nor further down. */
  lemma {:induction false} RootCauseHopsAreUnique(runtime: States, items: Items, x: string, a: nat, b: nat)
    requires LeadsToRootCause(runtime, items, x, a) && LeadsToRootCause(runtime, items, x, b)
    ensures a == b
    decreases a
  {
    if items[x].reason.DependencyUnavailable? {
      var d := items[x].reason.dependency;
      if d in runtime {
        HopsAreUnique(runtime, d, a - 1, b - 1);
      } else if d in items {
        RootCauseHopsAreUnique(runtime, items, d, a - 1, b - 1);
      }
    }
  }

  /** What the finished table says, capability by capability. */
  ghost predicate ItemResolved(c: Capability, runtime: States, own: Item, items: Items)
    requires c.name in items
  {
    var r := items[c.name];
    && r.enabled == own.enabled
    && (own.state != Enabled ==> r == own)
    && (r.state == Enabled ==> r == own)
    && (own.state == Enabled && r.state != Enabled ==>
          && r.state == MissingDependency
          && r.reason.DependencyUnavailable?
          && r.reason.dependency in c.dependencies
          && LookUp(r.reason.dependency, runtime, items) == r.reason.was != Enabled)
  }

  /** The capability layer's loop, on top of a finished runtime layer. */
  method BlockUnsupported(
    ghost h: Graph<Node>, ghost g: Graph<string>, cs: seq<Capability>, runtime: States, own: Items)
    returns (items: Items)
    requires DistinctCapabilities(cs) && IsMergedGraph(h, g, runtime.Keys, cs, own)
    requires RuntimeDone(g, runtime.Keys, runtime)
    requires OwnItems(cs, own) && Explained(runtime)
    ensures items.Keys == CapabilityNames(cs)
    ensures forall x :: x in items ==> (items[x].state == Enabled <==> Alive(h, CapabilityNode(x)))
    ensures forall x :: x in runtime ==> (runtime[x].state == Enabled <==> Alive(h, RuntimeNode(x)))
    ensures forall c :: c in cs ==> ItemResolved(c, runtime, own[c.name], items)
    ensures ItemsExplained(runtime, items)
  {
    items := own;
    ghost var rank: map<string, nat> := map x | x in items :: 0;
    var changed := true;
    while changed
      invariant Stacking(h, cs, runtime, own, items, rank)
      invariant !changed ==> SettledItems(cs, runtime, items)
      decreases |EnabledItems(items)|, changed
    {
      ghost var before := items;
      items, changed, rank := BlockRound(h, g, cs, runtime, own, items, rank);
      if changed {
        SubsetSize(EnabledItems(items), EnabledItems(before));
      }
    }
    StackedStates(h, g, cs, runtime, own, items, rank);
    forall c | c in cs
      ensures ItemResolved(c, runtime, own[c.name], items)
    {
      assert ItemShape(c, runtime, own, items, rank);
    }
    forall x | x in items && items[x].state != Enabled
      ensures exists hops: nat :: LeadsToRootCause(runtime, items, x, hops)
    {
      RankLeadsToRootCause(h, cs, runtime, own, items, rank, x);
    }
  }

  /** Both layers together are the greatest fixpoint of the merged graph. */
  lemma StackedStates(
    h: Graph<Node>, g: Graph<string>, cs: seq<Capability>, runtime: States, own: Items, items: Items,
    rank: map<string, nat>)
    requires IsMergedGraph(h, g, runtime.Keys, cs, own) && RuntimeDone(g, runtime.Keys, runtime)
    requires OwnItems(cs, own) && Stacking(h, cs, runtime, own, items, rank) && SettledItems(cs, runtime, items)
    ensures forall x :: x in items ==> (items[x].state == Enabled <==> Alive(h, CapabilityNode(x)))
    ensures forall x :: x in runtime ==> (runtime[x].state == Enabled <==> Alive(h, RuntimeNode(x)))
  {
    var s := SettledStackIsSupported(h, g, cs, runtime, own, items, rank);
    forall x | x in items
      ensures items[x].state == Enabled <==> Alive(h, CapabilityNode(x))
    {
      assert x in EnabledItems(items) <==> CapabilityNode(x) in s;
    }
    forall x | x in runtime
      ensures runtime[x].state == Enabled <==> Alive(h, RuntimeNode(x))
    {
      assert x in EnabledNames(runtime) <==> RuntimeNode(x) in s;
      if Alive(h, RuntimeNode(x)) {
        var t :| Supported(h, t) && RuntimeNode(x) in t;
        var r := RuntimePartSupported(h, g, runtime.Keys, cs, own, t);
        assert x in r;
      }
    }
  }

  function RuntimeNodes(deps: seq<string>): (r: seq<Node>)
    ensures forall n :: n in r <==> n.RuntimeNode? && n.name in deps
  {
    if deps == [] then [] else [RuntimeNode(deps[0])] + RuntimeNodes(deps[1..])
  }

  function ResolveAll(deps: seq<string>, modules: set<string>, capabilities: set<string>): (r: seq<Node>)
    ensures forall n :: n in r <==> exists d :: d in deps && n == ResolveName(d, modules, capabilities)
  {
    if deps == [] then [] else [ResolveName(deps[0], modules, capabilities)] + ResolveAll(deps[1..], modules,
        capabilities)
  }

  ghost function CapabilityDeps(cs: seq<Capability>, modules: set<string>): (r: map<Node, seq<Node>>)
    requires DistinctCapabilities(cs)
    ensures forall n :: n in r ==> n.CapabilityNode?
    ensures forall c {:trigger CapabilityNode(c.name)} :: c in cs ==>
              CapabilityNode(c.name) in r && r[CapabilityNode(c.name)]
                  == ResolveAll(c.dependencies, modules, CapabilityNames(cs))
  {
    map i | 0 <= i < |cs| :: CapabilityNode(cs[i].name) := ResolveAll(cs[i].dependencies, modules, CapabilityNames(cs))
  }

  ghost function MergedGraph(g: Graph<string>, modules: set<string>, cs: seq<Capability>, own: Items): (h: Graph<Node>)
    requires DistinctCapabilities(cs) && g.deps.Keys == modules && OwnItems(cs, own)
  {
    Graph(
    (set x | x in g.ok :: RuntimeNode(x)) + (set x | x in EnabledItems(own) :: CapabilityNode(x)),
    (map x | x in modules :: RuntimeNode(x) := RuntimeNodes(g.deps[x])) + CapabilityDeps(cs, modules))
  }

  lemma MergedModuleDeps(g: Graph<string>, modules: set<string>, cs: seq<Capability>, own: Items, x: string)
    requires DistinctCapabilities(cs) && g.deps.Keys == modules && OwnItems(cs, own)
    ensures forall n ::
            n in Deps(MergedGraph(g, modules, cs, own), RuntimeNode(x)) <==> n.RuntimeNode? && n.name in Deps(g, x)
  {
  }

  lemma MergedCapabilityDeps(g: Graph<string>, modules: set<string>, cs: seq<Capability>, own: Items, c: Capability)
    requires DistinctCapabilities(cs) && g.deps.Keys == modules && OwnItems(cs, own) && c in cs
    ensures Deps(MergedGraph(g, modules, cs, own), CapabilityNode(c.name))
            == ResolveAll(c.dependencies, modules, CapabilityNames(cs))
  {
  }

  lemma MergedOk(g: Graph<string>, modules: set<string>, cs: seq<Capability>, own: Items)
    requires DistinctCapabilities(cs) && g.deps.Keys == modules && OwnItems(cs, own)
    ensures forall x :: RuntimeNode(x) in MergedGraph(g, modules, cs, own).ok <==> x in g.ok
    ensures forall x :: CapabilityNode(x) in MergedGraph(g, modules, cs, own).ok <==> x in EnabledItems(own)
    ensures forall x :: UnknownNode(x) !in MergedGraph(g, modules, cs, own).ok
  {
  }

  lemma MergedGraphFits(g: Graph<string>, modules: set<string>, cs: seq<Capability>, own: Items)
    requires DistinctCapabilities(cs) && g.deps.Keys == modules && OwnItems(cs, own)
    ensures IsMergedGraph(MergedGraph(g, modules, cs, own), g, modules, cs, own)
  {
    var h := MergedGraph(g, modules, cs, own);
    MergedOk(g, modules, cs, own);
    forall x, n
      ensures n in Deps(h, RuntimeNode(x)) <==> n.RuntimeNode? && n.name in Deps(g, x)
    {
      MergedModuleDeps(g, modules, cs, own, x);
    }
    forall c, n | c in cs
      ensures n in Deps(h, CapabilityNode(c.name)) <==> exists d ::
              d in c.dependencies && n == ResolveName(d, modules, CapabilityNames(cs))
    {
      MergedCapabilityDeps(g, modules, cs, own, c);
    }
  }

  ghost function OwnTable(cs: seq<Capability>, env: Env): (own: Items)
    requires DistinctCapabilities(cs)
    ensures OwnItems(cs, own)
    ensures forall c {:trigger own[c.name]} :: c in cs ==> own[c.name] == OwnItem(c, env)
  {
    map i | 0 <= i < |cs| :: cs[i].name := OwnItem(cs[i], env)
  }

  /** The graph of both layers for a registry. */
  ghost function StackedGraph(ms: seq<RuntimeModule>, cs: seq<Capability>, profile: Profile, env: Env): Graph<Node>
    requires DistinctNames(ms) && DistinctCapabilities(cs)
  {
    var g := RuntimeGraph(ms, profile, env);
    MergedGraph(g, g.deps.Keys, cs, OwnTable(cs, env))
  }

  function NamesInOrder(cs: seq<Capability>): seq<string> {
    if cs == [] then [] else [cs[0].name] + NamesInOrder(cs[1..])
  }

  lemma {:induction false} NamesInOrderAre(cs: seq<Capability>)
    ensures forall x :: x in NamesInOrder(cs) <==> x in CapabilityNames(cs)
  {
    if cs == [] {
    } else {
      NamesInOrderAre(cs[1..]);
      assert forall c :: c in cs <==> c == cs[0] || c in cs[1..];
      assert cs[0].name in CapabilityNames(cs);
    }
  }

  function Enabling(items: Items): string -> bool {
    x => x in items && items[x].enabled
  }

  function InState(items: Items, state: ModuleState): string -> bool {
    x => x in items && items[x].state == state
  }

  datatype Snapshot = Snapshot(states: Items, enabled: seq<string>, disabled: seq<string>, missing: seq<string>)

  /** The three lists sort the capabilities: by what the operator asked for, by being switched off, and by missing a
      dependency; each in registry order. */
  ghost predicate ListsAgree(cs: seq<Capability>, snapshot: Snapshot)
    requires snapshot.states.Keys == CapabilityNames(cs)
  {
    && (forall c :: c in cs ==> (c.name in snapshot.enabled <==> snapshot.states[c.name].enabled))
    && (forall c :: c in cs ==> (c.name in snapshot.disabled <==> snapshot.states[c.name].state == Disabled))
    && (forall c :: c in cs ==> (c.name in snapshot.missing <==> snapshot.states[c.name].state == MissingDependency))
    && snapshot.enabled == Filter(NamesInOrder(cs), Enabling(snapshot.states))
    && snapshot.disabled == Filter(NamesInOrder(cs), InState(snapshot.states, Disabled))
    && snapshot.missing == Filter(NamesInOrder(cs), InState(snapshot.states, MissingDependency))
  }

  /** What the operator's setting does: no disables, yes never leaves disabled, anything else follows the default; and
      `enabled` says what was asked for. */
  predicate OperatorObeyed(c: Capability, env: Env, item: Item) {
    && (c.envEnabled != "" && c.envEnabled in env && env[c.envEnabled] == No ==> item.state == Disabled)
    && (c.envEnabled != "" && c.envEnabled in env && env[c.envEnabled] == Yes ==> item.state != Disabled)
    && (!(c.envEnabled != "" && c.envEnabled in env && env[c.envEnabled] in {Yes, No}) ==>
          (item.state == Disabled <==> !c.defaultEnabled))
    && (item.enabled <==> item.state != Disabled)
    && (item.state == Disabled ==>
          item.reason == if c.envEnabled == "" then ModuleDisabled else EnvDisabled(c.envEnabled))
  }

  lemma SortedOut(cs: seq<Capability>, items: Items)
    requires items.Keys == CapabilityNames(cs)
    ensures ListsAgree(cs, Snapshot(items, Filter(NamesInOrder(cs), Enabling(items)),
                                    Filter(NamesInOrder(cs), InState(items, Disabled)),
                                    Filter(NamesInOrder(cs), InState(items, MissingDependency))))
  {
    NamesInOrderAre(cs);
    FilterMembers(NamesInOrder(cs), Enabling(items));
    FilterMembers(NamesInOrder(cs), InState(items, Disabled));
    FilterMembers(NamesInOrder(cs), InState(items, MissingDependency));
    assert forall c :: c in cs ==> c.name in CapabilityNames(cs);
  }

  /** Resolving the runtime layer first and the capabilities second gives the states of one greatest
      fixpoint on the merged graph. */
  method BuildFullStackCapabilitySnapshot(ms: seq<RuntimeModule>, cs: seq<Capability>, profile: Profile, env: Env)
    returns (runtime: States, snapshot: Snapshot)
    requires DistinctNames(ms) && DistinctCapabilities(cs)
    ensures Resolves(ms, profile, env, runtime) && snapshot.states.Keys == CapabilityNames(cs)
    ensures forall x :: x in runtime ==>
              (runtime[x].state == Enabled <==> Alive(StackedGraph(ms, cs, profile, env), RuntimeNode(x)))
    ensures forall x :: x in snapshot.states ==>
              (snapshot.states[x].state == Enabled <==> Alive(StackedGraph(ms, cs, profile, env), CapabilityNode(x)))
    ensures forall c :: c in cs ==> ItemResolved(c, runtime, OwnItem(c, env), snapshot.states)
    ensures forall c :: c in cs ==> OperatorObeyed(c, env, snapshot.states[c.name])
    ensures ItemsExplained(runtime, snapshot.states)
    ensures ListsAgree(cs, snapshot)
  {
    ghost var rounds;
    runtime, rounds := ResolveRuntimeModuleStates(ms, profile, env);
    var own := JudgeCapabilities(cs, env);
    ghost var g := RuntimeGraph(ms, profile, env);
    RuntimeLayerDone(ms, profile, env, runtime);
    MergedGraphFits(g, runtime.Keys, cs, own);
    var items := BlockUnsupported(MergedGraph(g, runtime.Keys, cs, own), g, cs, runtime, own);
    snapshot := Snapshot(items, Filter(NamesInOrder(cs), Enabling(items)),
                         Filter(NamesInOrder(cs), InState(items, Disabled)),
                         Filter(NamesInOrder(cs), InState(items, MissingDependency)));
    SortedOut(cs, items);
    forall c | c in cs
      ensures OperatorObeyed(c, env, items[c.name])
    {
      OperatorIsObeyed(c, env, runtime, items);
    }
  }

  lemma OperatorIsObeyed(c: Capability, env: Env, runtime: States, items: Items)
    requires c.name in items && ItemResolved(c, runtime, OwnItem(c, env), items)
    ensures OperatorObeyed(c, env, items[c.name])
  {
  }

  method JudgeCapabilities(cs: seq<Capability>, env: Env) returns (own: Items)
    requires DistinctCapabilities(cs)
    ensures own == OwnTable(cs, env)
  {
    own := map[];
    for i := 0 to |cs|
      invariant own.Keys == CapabilityNames(cs[..i])
      invariant forall k :: 0 <= k < i ==> own[cs[k].name] == OwnItem(cs[k], env)
    {
      own := own[cs[i].name := OwnItem(cs[i], env)];
      assert cs[..i + 1] == cs[..i] + [cs[i]];
    }
    assert cs[..|cs|] == cs;
  }

  lemma RuntimeLayerDone(ms: seq<RuntimeModule>, profile: Profile, env: Env, runtime: States)
    requires DistinctNames(ms) && runtime.Keys == Names(ms)
    requires forall x :: x in runtime ==> (runtime[x].state == Enabled <==> Alive(RuntimeGraph(ms, profile, env), x))
    ensures RuntimeGraph(ms, profile, env).deps.Keys == Names(ms)
    ensures RuntimeDone(RuntimeGraph(ms, profile, env), runtime.Keys, runtime)
  {
    var g := RuntimeGraph(ms, profile, env);
    ModuleGraphFits(ms, InitialStates(ms, profile, env));
    AliveAreNamed(g, ms, InitialStates(ms, profile, env));
    AliveSetIsGreatest(g, EnabledNames(runtime));
  }

  lemma AliveAreNamed(g: Graph<string>, ms: seq<RuntimeModule>, init: States)
    requires IsModuleGraph(g, ms, init) && init.Keys == Names(ms)
    ensures forall x :: Alive(g, x) ==> x in Names(ms)
  {
  }
}
