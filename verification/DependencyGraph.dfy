/** Dependency graphs, and the reference meaning of "can be enabled": membership in the greatest set
    of self-enabled nodes that is closed under dependencies. Cycles are allowed. */
module DependencyGraph {

  /** `ok` holds the nodes that are enabled on their own account. */
  datatype Graph<!T(==)> = Graph(ok: set<T>, deps: map<T, seq<T>>)

  function Deps<T(==)>(g: Graph<T>, x: T): seq<T> {
    if x in g.deps then g.deps[x] else []
  }

  ghost predicate Supported<T(!new)>(g: Graph<T>, s: set<T>) {
    s <= g.ok && forall x, d :: x in s && d in Deps(g, x) ==> d in s
  }

  /** The union of all supported sets: the greatest fixpoint. */
  ghost predicate Alive<T(!new)>(g: Graph<T>, x: T) {
    exists s: set<T> :: Supported(g, s) && x in s
  }

  ghost predicate IsPath<T(!new)>(g: Graph<T>, p: seq<T>) {
    |p| > 0 && forall i :: 0 < i < |p| ==> p[i] in Deps(g, p[i - 1])
  }

  ghost predicate Reachable<T(!new)>(g: Graph<T>, x: T, y: T) {
    exists p: seq<T> :: IsPath(g, p) && p[0] == x && p[|p| - 1] == y
  }

  lemma {:induction false} PathStaysInside<T(!new)>(g: Graph<T>, s: set<T>, p: seq<T>)
    requires Supported(g, s) && IsPath(g, p) && p[0] in s
    ensures p[|p| - 1] in s
  {
    if |p| == 1 {
    } else {
      var q := p[..|p| - 1];
      assert IsPath(g, q);
      PathStaysInside(g, s, q);
      assert p[|p| - 1] in Deps(g, p[|p| - 2]);
    }
  }

  lemma ReachesItself<T(!new)>(g: Graph<T>, x: T)
    ensures Reachable(g, x, x)
  {
    assert IsPath(g, [x]);
    assert [x][0] == x && [x][|[x]| - 1] == x;
  }

  lemma ReachesOneMore<T(!new)>(g: Graph<T>, x: T, y: T, d: T)
    requires Reachable(g, x, y) && d in Deps(g, y)
    ensures Reachable(g, x, d)
  {
    var p: seq<T> :| IsPath(g, p) && p[0] == x && p[|p| - 1] == y;
    var q := p + [d];
    forall i | 0 < i < |q|
      ensures q[i] in Deps(g, q[i - 1])
    {
      if i < |p| {
        assert q[i] == p[i] && q[i - 1] == p[i - 1];
      }
    }
    assert IsPath(g, q);
    assert q[0] == x && q[|q| - 1] == d;
  }

  /** A node survives exactly when it and everything it reaches are enabled on their own account. */
  lemma AliveIffReachableOk<T(!new)>(g: Graph<T>, x: T)
    ensures Alive(g, x) <==> forall y :: Reachable(g, x, y) ==> y in g.ok
  {
    if Alive(g, x) {
      var s :| Supported(g, s) && x in s;
      forall y | Reachable(g, x, y)
        ensures y in g.ok
      {
        var p: seq<T> :| IsPath(g, p) && p[0] == x && p[|p| - 1] == y;
        PathStaysInside(g, s, p);
      }
    }
    if forall y :: Reachable(g, x, y) ==> y in g.ok {
      var s := set y | y in g.ok && Reachable(g, x, y);
      forall y, d | y in s && d in Deps(g, y)
        ensures d in s
      {
        ReachesOneMore(g, x, y, d);
      }
      ReachesItself(g, x);
      assert Supported(g, s);
    }
  }

  /** More self-enabled nodes never switch a node off. */
  lemma AliveMonotone<T(!new)>(g: Graph<T>, h: Graph<T>, x: T)
    requires g.ok <= h.ok && g.deps == h.deps
    requires Alive(g, x)
    ensures Alive(h, x)
  {
  }

  /** A set that holds exactly the alive nodes is the greatest supported set. */
  lemma AliveSetIsGreatest<T(!new)>(g: Graph<T>, e: set<T>)
    requires forall x :: x in e <==> Alive(g, x)
    ensures Supported(g, e)
    ensures forall s :: Supported(g, s) ==> s <= e
  {
  }
}
