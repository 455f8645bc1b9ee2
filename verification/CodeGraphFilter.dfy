/** Cutting a code graph down to what one view shows (app/code-graph.ts). */
module CodeGraphFilter {
  import opened Options
  import opened Collections
  import opened StableSort
  import opened CodeGraph
  import CodeGraphBuild
  import CodeGraphLaws

  datatype Graph = Graph(nodes: seq<Node>, edges: seq<Edge>)

  /** A query is what its text matches: the searchable text of a node is not part of this model. */
  datatype FilterOptions = FilterOptions(limit: Option<int>, edgeLimit: Option<int>, query: Option<Node -> bool>)

  function Limit(o: FilterOptions): nat {
    Clamp(1, 400, if o.limit.Some? then o.limit.value else 120)
  }

  function EdgeLimit(o: FilterOptions): nat {
    Clamp(20, 800, if o.edgeLimit.Some? then o.edgeLimit.value else Limit(o) * 3)
  }

  predicate HigherScore(a: Node, b: Node) { a.score >= b.score }
  predicate HigherWeight(a: Edge, b: Edge) { a.weight >= b.weight }

  function Take<T>(xs: seq<T>, n: nat): (r: seq<T>)
    ensures |r| <= n && r <= xs && (|xs| > n ==> |r| == n) && (|xs| <= n ==> r == xs)
  {
    if |xs| <= n then xs else xs[..n]
  }

  /** Adding to an insertion-ordered set. */
  function Add(ids: seq<string>, id: string): seq<string> {
    if id in ids then ids else ids + [id]
  }

  function AddIds(ids: seq<string>, nodes: seq<Node>): seq<string>
    decreases |nodes|
  {
    if nodes == [] then ids else AddIds(Add(ids, nodes[0].id), nodes[1..])
  }

  /** The nodes selected before their neighbours are added. */
  function Direct(g: Graph, o: FilterOptions): seq<Node> {
    match o.query
    case Some(test) => Filter(g.nodes, test)
    case None => Take(Sort(g.nodes, HigherScore), Limit(o))
  }

  /** Both ends of every edge that touches a direct node, until enough ids are selected. */
  function Expand(selected: seq<string>, edges: seq<Edge>, direct: set<string>, enough: nat): seq<string>
    decreases |edges|
  {
    if edges == [] then selected
    else
      var e := edges[0];
      var more := if e.source in direct || e.target in direct then Add(Add(selected, e.source), e.target) else selected;
      if |more| >= enough then more else Expand(more, edges[1..], direct, enough)
  }

  /** The node an id maps to: the last one, if ids repeat. */
  function NodeOf(nodes: seq<Node>, id: string): Option<Node> {
    if nodes == [] then None
    else
      var n := nodes[|nodes| - 1];
      if n.id == id then Some(n) else NodeOf(nodes[..|nodes| - 1], id)
  }

  function Known(ids: seq<string>, nodes: seq<Node>): seq<Node> {
    if ids == [] then []
    else (match NodeOf(nodes, ids[0]) case Some(n) => [n] case None => []) + Known(ids[1..], nodes)
  }

  function JoinsOnly(allowed: set<string>): Edge -> bool {
    (e: Edge) => e.source in allowed && e.target in allowed
  }

  function Selected(g: Graph, o: FilterOptions): seq<string> {
    var direct := AddIds([], Direct(g, o));
    Expand(direct, g.edges, set id | id in direct, 2 * Limit(o))
  }

  function KeptNodes(g: Graph, o: FilterOptions): seq<Node> {
    Take(Sort(Known(Selected(g, o), g.nodes), HigherScore), Limit(o))
  }

  function KeptEdges(g: Graph, o: FilterOptions): seq<Edge> {
    Take(Sort(Filter(g.edges, JoinsOnly(IdSet(KeptNodes(g, o)))), HigherWeight), EdgeLimit(o))
  }

  /** The two loops that fill `selected` before neighbours are added. */
  method SelectDirect(g: Graph, o: FilterOptions) returns (selected: seq<string>)
    ensures selected == AddIds([], Direct(g, o))
  {
    selected := [];
    match o.query {
      case Some(test) =>
        for i := 0 to |g.nodes|
          invariant AddIds(selected, Filter(g.nodes[i..], test)) == AddIds([], Direct(g, o))
        {
          assert g.nodes[i..][1..] == g.nodes[i + 1..];
          FirstMatch(selected, g.nodes[i..], test);
          if test(g.nodes[i]) {
            selected := Add(selected, g.nodes[i].id);
          }
        }
      case None =>
        var top := Take(Sort(g.nodes, HigherScore), Limit(o));
        for i := 0 to |top|
          invariant AddIds(selected, top[i..]) == AddIds([], Direct(g, o))
        {
          assert top[i..][1..] == top[i + 1..];
          selected := Add(selected, top[i].id);
        }
    }
  }

  /** `filterCodeGraph`. */
  method FilterCodeGraph(g: Graph, o: FilterOptions) returns (r: Graph)
    ensures r == Graph(KeptNodes(g, o), KeptEdges(g, o))
  {
    var limit, edgeLimit := Limit(o), EdgeLimit(o);
    var selected := SelectDirect(g, o);
    var direct := set id | id in selected;
    var i := 0;
    while i < |g.edges|
      invariant 0 <= i <= |g.edges|
      invariant Expand(selected, g.edges[i..], direct, 2 * limit) == Selected(g, o)
    {
      var e := g.edges[i];
      assert g.edges[i..][1..] == g.edges[i + 1..];
      if e.source in direct || e.target in direct {
        selected := Add(Add(selected, e.source), e.target);
      }
      if |selected| >= limit * 2 {
        break;
      }
      i := i + 1;
    }
    assert selected == Selected(g, o);
    var nodes := Take(Sort(Known(selected, g.nodes), HigherScore), limit);
    var edges := Take(Sort(Filter(g.edges, JoinsOnly(IdSet(nodes))), HigherWeight), edgeLimit);
    r := Graph(nodes, edges);
  }

  lemma FirstMatch(ids: seq<string>, nodes: seq<Node>, test: Node -> bool)
    requires nodes != []
    ensures AddIds(ids, Filter(nodes, test)) == AddIds(if test(nodes[0]) then Add(ids, nodes[0].id)
            else ids, Filter(nodes[1..], test))
  {
    var rest := Filter(nodes[1..], test);
    assert ([nodes[0]] + rest)[1..] == rest;
    assert [] + rest == rest;
  }

  // --- Any query ---

  lemma {:induction false} NodeOfSpec(nodes: seq<Node>, id: string)
    ensures match NodeOf(nodes, id)
            case Some(n) => n in nodes && n.id == id
            case None => id !in IdSet(nodes)
  {
    if nodes == [] {
    } else {
      NodeOfSpec(nodes[..|nodes| - 1], id);
      assert nodes == nodes[..|nodes| - 1] + [nodes[|nodes| - 1]];
    }
  }

  lemma {:induction false} KnownAre(ids: seq<string>, nodes: seq<Node>)
    ensures forall n :: n in Known(ids, nodes) <==> n.id in ids && NodeOf(nodes, n.id) == Some(n)
  {
    if ids == [] {
    } else {
      NodeOfSpec(nodes, ids[0]);
      KnownAre(ids[1..], nodes);
      assert forall id :: id in ids <==> id == ids[0] || id in ids[1..];
    }
  }

  lemma {:induction false} AddIdsAre(ids: seq<string>, nodes: seq<Node>)
    ensures forall id :: id in AddIds(ids, nodes) <==> id in ids || id in IdSet(nodes)
    decreases |nodes|
  {
    if nodes == [] {
    } else {
      AddIdsAre(Add(ids, nodes[0].id), nodes[1..]);
      assert forall n :: n in nodes <==> n == nodes[0] || n in nodes[1..];
      assert nodes[0] in nodes;
    }
  }

  /** Expanding only appends, and never an id twice. */
  lemma {:induction false} ExpandAppends(selected: seq<string>, edges: seq<Edge>, direct: set<string>, enough: nat)
    requires NoRepeats(selected)
    ensures selected <= Expand(selected, edges, direct, enough)
    ensures NoRepeats(Expand(selected, edges, direct, enough))
    decreases |edges|
  {
    if edges == [] {
    } else {
      var e := edges[0];
      var more := if e.source in direct || e.target in direct then Add(Add(selected, e.source), e.target) else selected;
      if |more| < enough {
        ExpandAppends(more, edges[1..], direct, enough);
      }
    }
  }

  ghost predicate NoRepeats(ids: seq<string>) {
    forall i, j :: 0 <= i < j < |ids| ==> ids[i] != ids[j]
  }

  lemma {:induction false} AddIdsNoRepeats(ids: seq<string>, nodes: seq<Node>)
    requires NoRepeats(ids)
    ensures NoRepeats(AddIds(ids, nodes))
    decreases |nodes|
  {
    if nodes == [] {
    } else {
      AddIdsNoRepeats(Add(ids, nodes[0].id), nodes[1..]);
    }
  }

  /** What is left out by a cut never comes before what is kept. */
  lemma CutKeepsFront<T(!new)>(xs: seq<T>, n: nat, le: (T, T) -> bool)
    requires TotalPreorder(le)
    ensures var kept := Take(Sort(xs, le), n);
            && Sorted(kept, le) && (forall x :: x in kept ==> x in xs)
            && forall x :: x in xs && x !in kept ==> |kept| == n && forall k :: k in kept ==> le(k, x)
  {
    var sorted := Sort(xs, le);
    SortSorts(xs, le);
    SortMembers(xs, le);
    var kept := Take(sorted, n);
    forall x | x in kept
      ensures x in xs
    {
      assert x in sorted;
    }
    forall x | x in xs && x !in kept
      ensures |kept| == n && forall k :: k in kept ==> le(k, x)
    {
      assert x in sorted;
      var j :| 0 <= j < |sorted| && sorted[j] == x;
      assert |sorted| > n && kept == sorted[..n];
    }
  }

  /** Whatever the query: the kept nodes are nodes of the graph in descending score, at most `limit`; the kept edges
      join kept nodes, in descending weight, at most `edgeLimit`. */
  lemma FilterStaysInside(g: Graph, o: FilterOptions)
    ensures |KeptNodes(g, o)| <= Limit(o)
    ensures forall i, j :: 0 <= i < j < |KeptNodes(g, o)| ==> KeptNodes(g, o)[i].score >= KeptNodes(g, o)[j].score
    ensures forall n :: n in KeptNodes(g, o) ==> n in g.nodes
    ensures |KeptEdges(g, o)| <= EdgeLimit(o)
    ensures forall i, j :: 0 <= i < j < |KeptEdges(g, o)| ==> KeptEdges(g, o)[i].weight >= KeptEdges(g, o)[j].weight
    ensures forall e :: e in KeptEdges(g, o) ==>
            e in g.edges && e.source in IdSet(KeptNodes(g, o)) && e.target in IdSet(KeptNodes(g, o))
  {
    var known := Known(Selected(g, o), g.nodes);
    KnownAre(Selected(g, o), g.nodes);
    forall n | n in known
      ensures n in g.nodes
    {
      NodeOfSpec(g.nodes, n.id);
    }
    CutKeepsFront(known, Limit(o), HigherScore);
    FilterMembers(g.edges, JoinsOnly(IdSet(KeptNodes(g, o))));
    CutKeepsFront(Filter(g.edges, JoinsOnly(IdSet(KeptNodes(g, o)))), EdgeLimit(o), HigherWeight);
    assert Sorted(KeptNodes(g, o), HigherScore) && Sorted(KeptEdges(g, o), HigherWeight);
  }

  /** The limits: 120 nodes and three edges a node by default, between 1 and 400 nodes, between 20 and 800 edges. */
  lemma LimitsAre(o: FilterOptions)
    ensures match o.limit
            case None => Limit(o) == 120
            case Some(k) => if k < 1 then Limit(o) == 1 else if k > 400 then Limit(o) == 400 else Limit(o) == k
    ensures var k := if o.edgeLimit.Some? then o.edgeLimit.value else 3 * Limit(o);
            if k < 20 then EdgeLimit(o) == 20 else if k > 800 then EdgeLimit(o) == 800 else EdgeLimit(o) == k
  {
  }

  /** An edge between kept nodes is missing only when `edgeLimit` edges of at least its weight are kept. */
  lemma EdgeMissingOnlyWhenFull(g: Graph, o: FilterOptions, e: Edge)
    requires e in g.edges && e.source in IdSet(KeptNodes(g, o)) && e.target in IdSet(KeptNodes(g, o))
    ensures e !in KeptEdges(g, o) ==>
              |KeptEdges(g, o)| == EdgeLimit(o) && forall k :: k in KeptEdges(g, o) ==> k.weight >= e.weight
  {
    var inside := Filter(g.edges, JoinsOnly(IdSet(KeptNodes(g, o))));
    FilterMembers(g.edges, JoinsOnly(IdSet(KeptNodes(g, o))));
    CutKeepsFront(inside, EdgeLimit(o), HigherWeight);
    assert e !in KeptEdges(g, o) ==> forall k :: k in KeptEdges(g, o) ==> HigherWeight(k, e);
  }

  lemma UniqueNodeOf(nodes: seq<Node>, n: Node)
    requires UniqueIds(nodes) && n in nodes
    ensures NodeOf(nodes, n.id) == Some(n)
  {
  }

  /** A node that matches the query is missing only when `limit` nodes with at least its score are kept. */
  lemma MatchMissingOnlyWhenFull(g: Graph, o: FilterOptions, n: Node)
    requires UniqueIds(g.nodes) && o.query.Some? && n in g.nodes && o.query.value(n)
    ensures n !in KeptNodes(g, o) ==>
              |KeptNodes(g, o)| == Limit(o) && forall k :: k in KeptNodes(g, o) ==> k.score >= n.score
  {
    FilterMembers(g.nodes, o.query.value);
    var ids := AddIds([], Direct(g, o));
    AddIdsAre([], Direct(g, o));
    AddIdsNoRepeats([], Direct(g, o));
    ExpandAppends(ids, g.edges, set id | id in ids, 2 * Limit(o));
    assert n.id in IdSet(Direct(g, o));
    SelectedMissingOnlyWhenFull(g, o, n);
  }

  // --- The neighbours of the matches ---

  predicate Touches(e: Edge, id: string) {
    e.source == id || e.target == id
  }

  /** An edge one of whose ends is direct. */
  predicate Reaches(e: Edge, direct: set<string>) {
    e.source in direct || e.target in direct
  }

  lemma {:induction false} ExpandReaches(
    selected: seq<string>, edges: seq<Edge>, direct: set<string>, enough: nat, e: Edge)
    requires NoRepeats(selected) && e in edges && Reaches(e, direct)
    ensures var all := Expand(selected, edges, direct, enough);
            |all| >= enough || (e.source in all && e.target in all)
    decreases |edges|
  {
    var first := edges[0];
    var more := if Reaches(first, direct) then Add(Add(selected, first.source), first.target) else selected;
    if |more| >= enough {
    } else if first == e {
      ExpandAppends(more, edges[1..], direct, enough);
      var all := Expand(more, edges[1..], direct, enough);
      assert e.source in more && e.target in more;
      assert more == all[..|more|];
    } else {
      ExpandReaches(more, edges[1..], direct, enough, e);
    }
  }

  /** What is added is an end of an edge that touches a direct node. */
  lemma {:induction false} ExpandAddsOnlyEnds(
    selected: seq<string>, edges: seq<Edge>, direct: set<string>, enough: nat, id: string)
    requires id in Expand(selected, edges, direct, enough)
    ensures id in selected || exists e :: e in edges && Reaches(e, direct) && Touches(e, id)
    decreases |edges|
  {
    if edges == [] {
    } else {
      var first := edges[0];
      var more := if Reaches(first, direct) then Add(Add(selected, first.source), first.target) else selected;
      assert id in more && id !in selected ==> Reaches(first, direct) && Touches(first, id);
      if |more| < enough {
        ExpandAddsOnlyEnds(more, edges[1..], direct, enough, id);
      }
    }
  }

  /** Expanding stops with the edge that makes it enough. */
  lemma {:induction false} ExpandStops(selected: seq<string>, edges: seq<Edge>, direct: set<string>, enough: nat)
    ensures |Expand(selected, edges, direct, enough)| <= (if |selected| < enough then enough + 1 else |selected| + 2)
    decreases |edges|
  {
    if edges == [] {
    } else {
      var e := edges[0];
      var more := if Reaches(e, direct) then Add(Add(selected, e.source), e.target) else selected;
      if |more| < enough {
        ExpandStops(more, edges[1..], direct, enough);
      }
    }
  }

  /** A match, or a node that shares an edge with one. */
  ghost predicate Near(g: Graph, test: Node -> bool, id: string) {
    exists m :: m in g.nodes && test(m) && (m.id == id || NextTo(g, m.id, id))
  }

  ghost predicate NextTo(g: Graph, a: string, b: string) {
    exists e :: e in g.edges && Touches(e, a) && Touches(e, b)
  }

  ghost predicate EdgesJoinNodes(g: Graph) {
    forall e :: e in g.edges ==> e.source in IdSet(g.nodes) && e.target in IdSet(g.nodes)
  }

  /** Everything selected for a query is near a match. */
  lemma SelectedIsNear(g: Graph, o: FilterOptions, id: string)
    requires o.query.Some? && id in Selected(g, o)
    ensures Near(g, o.query.value, id)
  {
    var ids := AddIds([], Direct(g, o));
    var direct := set x | x in ids;
    FilterMembers(g.nodes, o.query.value);
    AddIdsAre([], Direct(g, o));
    ExpandAddsOnlyEnds(ids, g.edges, direct, 2 * Limit(o), id);
    if id in ids {
      var m :| m in Direct(g, o) && m.id == id;
    } else {
      var e :| e in g.edges && Reaches(e, direct) && Touches(e, id);
      var a := if e.source in direct then e.source else e.target;
      var m :| m in Direct(g, o) && m.id == a;
      assert NextTo(g, m.id, id);
    }
  }

  /** Everything near a match is selected, unless enough is. */
  lemma NearIsSelected(g: Graph, o: FilterOptions, id: string)
    requires o.query.Some? && Near(g, o.query.value, id)
    ensures id in Selected(g, o) || |Selected(g, o)| >= 2 * Limit(o)
  {
    var ids := AddIds([], Direct(g, o));
    var direct := set x | x in ids;
    FilterMembers(g.nodes, o.query.value);
    AddIdsAre([], Direct(g, o));
    AddIdsNoRepeats([], Direct(g, o));
    ExpandAppends(ids, g.edges, direct, 2 * Limit(o));
    var m :| m in g.nodes && o.query.value(m) && (m.id == id || NextTo(g, m.id, id));
    assert m in Direct(g, o) && m.id in ids;
    if m.id != id {
      var e :| e in g.edges && Touches(e, m.id) && Touches(e, id);
      ExpandReaches(ids, g.edges, direct, 2 * Limit(o), e);
    }
  }

  lemma {:induction false} KnownLength(ids: seq<string>, nodes: seq<Node>)
    requires forall id :: id in ids ==> id in IdSet(nodes)
    ensures |Known(ids, nodes)| == |ids|
  {
    if ids == [] {
    } else {
      NodeOfSpec(nodes, ids[0]);
      KnownLength(ids[1..], nodes);
    }
  }

  lemma SelectedAreNodes(g: Graph, o: FilterOptions)
    requires o.query.Some? && EdgesJoinNodes(g)
    ensures |Known(Selected(g, o), g.nodes)| == |Selected(g, o)|
  {
    forall id | id in Selected(g, o)
      ensures id in IdSet(g.nodes)
    {
      SelectedIsNear(g, o, id);
    }
    KnownLength(Selected(g, o), g.nodes);
  }

  lemma SelectedMissingOnlyWhenFull(g: Graph, o: FilterOptions, n: Node)
    requires UniqueIds(g.nodes) && n in g.nodes && n.id in Selected(g, o)
    ensures n !in KeptNodes(g, o) ==>
              |KeptNodes(g, o)| == Limit(o) && forall k :: k in KeptNodes(g, o) ==> k.score >= n.score
  {
    UniqueNodeOf(g.nodes, n);
    KnownAre(Selected(g, o), g.nodes);
    CutKeepsFront(Known(Selected(g, o), g.nodes), Limit(o), HigherScore);
    assert n !in KeptNodes(g, o) ==> forall k :: k in KeptNodes(g, o) ==> HigherScore(k, n);
  }

  /** A neighbour of a match is missing only from a full view. */
  lemma NeighbourMissingOnlyWhenFull(g: Graph, o: FilterOptions, m: Node, e: Edge, n: Node)
    requires UniqueIds(g.nodes) && EdgesJoinNodes(g) && o.query.Some?
    requires m in g.nodes && o.query.value(m) && e in g.edges && Touches(e, m.id)
    requires n in g.nodes && Touches(e, n.id)
    ensures n !in KeptNodes(g, o) ==> |KeptNodes(g, o)| == Limit(o)
  {
    assert NextTo(g, m.id, n.id);
    NearIsSelected(g, o, n.id);
    SelectedAreNodes(g, o);
    if n.id in Selected(g, o) {
      SelectedMissingOnlyWhenFull(g, o, n);
    }
  }

  /** A view for a query shows nothing but matches and their neighbours. */
  lemma OnlyNeighboursShown(g: Graph, o: FilterOptions, n: Node)
    requires o.query.Some? && n in KeptNodes(g, o)
    ensures n in g.nodes && Near(g, o.query.value, n.id)
  {
    FilterStaysInside(g, o);
    KnownAre(Selected(g, o), g.nodes);
    CutKeepsFront(Known(Selected(g, o), g.nodes), Limit(o), HigherScore);
    SelectedIsNear(g, o, n.id);
  }

  lemma {:induction false} NoRepeatsCount(ids: seq<string>, all: set<string>)
    requires NoRepeats(ids) && forall id :: id in ids ==> id in all
    ensures |ids| <= |all|
  {
    if ids == [] {
    } else {
      assert forall id :: id in ids[1..] ==> id in all && id != ids[0];
      NoRepeatsCount(ids[1..], all - {ids[0]});
    }
  }

  /** When fewer than twice `limit` nodes are near a match, the view is the best of them: one of them is missing only if
      `limit` nodes of at least its score are shown. */
  lemma SmallNeighbourhoodIsTopK(g: Graph, o: FilterOptions, n: Node)
    requires UniqueIds(g.nodes) && EdgesJoinNodes(g) && o.query.Some?
    requires n in g.nodes && Near(g, o.query.value, n.id)
    requires |set id | id in IdSet(g.nodes) && Near(g, o.query.value, id)| < 2 * Limit(o)
    ensures n !in KeptNodes(g, o) ==>
              |KeptNodes(g, o)| == Limit(o) && forall k :: k in KeptNodes(g, o) ==> k.score >= n.score
  {
    var near := set id | id in IdSet(g.nodes) && Near(g, o.query.value, id);
    var ids := AddIds([], Direct(g, o));
    AddIdsNoRepeats([], Direct(g, o));
    ExpandAppends(ids, g.edges, set x | x in ids, 2 * Limit(o));
    forall id | id in Selected(g, o)
      ensures id in near
    {
      SelectedIsNear(g, o, id);
    }
    NoRepeatsCount(Selected(g, o), near);
    NearIsSelected(g, o, n.id);
    SelectedMissingOnlyWhenFull(g, o, n);
  }

  // --- No query ---

  lemma {:induction false} KnownConcat(a: seq<string>, b: seq<string>, nodes: seq<Node>)
    ensures Known(a + b, nodes) == Known(a, nodes) + Known(b, nodes)
  {
    if a == [] {
      assert a + b == b;
    } else {
      assert (a + b)[1..] == a[1..] + b;
      KnownConcat(a[1..], b, nodes);
    }
  }

  lemma KnownOneMore(ids: seq<string>, n: Node, nodes: seq<Node>)
    requires NodeOf(nodes, n.id) == Some(n)
    ensures Known(ids + [n.id], nodes) == Known(ids, nodes) + [n]
  {
    KnownConcat(ids, [n.id], nodes);
    assert [n.id][1..] == [] && [n] + [] == [n];
    assert Known([n.id], nodes) == [n];
  }

  /** Nodes that are known under their ids, none of which is selected yet. */
  ghost predicate Selectable(ids: seq<string>, top: seq<Node>, nodes: seq<Node>) {
    forall i :: 0 <= i < |top| ==> top[i].id !in ids && NodeOf(nodes, top[i].id) == Some(top[i])
  }

  lemma SelectableTail(ids: seq<string>, top: seq<Node>, nodes: seq<Node>)
    requires UniqueIds(top) && Selectable(ids, top, nodes) && top != []
    ensures UniqueIds(top[1..]) && Selectable(ids + [top[0].id], top[1..], nodes)
    ensures Add(ids, top[0].id) == ids + [top[0].id]
  {
  }

  lemma {:induction false} AddIdsConcat(ids: seq<string>, top: seq<Node>, nodes: seq<Node>)
    requires UniqueIds(top) && Selectable(ids, top, nodes)
    ensures Known(AddIds(ids, top), nodes) == Known(ids, nodes) + top
    decreases |top|
  {
    if top == [] {
    } else {
      SelectableTail(ids, top, nodes);
      AddIdsConcat(ids + [top[0].id], top[1..], nodes);
      KnownOneMore(ids, top[0], nodes);
      assert top == [top[0]] + top[1..];
    }
  }

  lemma SortKeepsUniqueIds(nodes: seq<Node>)
    requires UniqueIds(nodes)
    ensures UniqueIds(Sort(nodes, HigherScore))
  {
    var sorted := Sort(nodes, HigherScore);
    SortSorts(nodes, HigherScore);
    forall i, j | 0 <= i < j < |sorted|
      ensures sorted[i].id != sorted[j].id
    {
      TwicePermuted(sorted, nodes, i, j);
    }
  }

  lemma TwiceCounts(a: seq<Node>, i: nat, j: nat)
    requires i < j < |a| && a[i] == a[j]
    ensures multiset(a)[a[i]] >= 2
  {
    assert a == a[..j] + [a[j]] + a[j + 1..];
    assert a[i] in a[..j];
  }

  lemma UniqueCounts(b: seq<Node>, k: nat)
    requires UniqueIds(b) && k < |b|
    ensures multiset(b)[b[k]] == 1
  {
    assert b == b[..k] + [b[k]] + b[k + 1..];
    assert b[k] !in b[..k] && b[k] !in b[k + 1..];
  }

  lemma TwicePermuted(a: seq<Node>, b: seq<Node>, i: nat, j: nat)
    requires multiset(a) == multiset(b) && UniqueIds(b) && i < j < |a|
    ensures a[i].id != a[j].id
  {
    assert a[i] in multiset(b) && a[j] in multiset(b);
    var k :| 0 <= k < |b| && b[k] == a[i];
    var m :| 0 <= m < |b| && b[m] == a[j];
    UniqueCounts(b, k);
    if a[i] == a[j] {
      TwiceCounts(a, i, j);
    }
  }

  /** In a graph with unique ids, the selected nodes are the top ones followed by nodes scoring no higher. */
  lemma SelectedIsTopThenRest(g: Graph, o: FilterOptions) returns (rest: seq<Node>)
    requires UniqueIds(g.nodes) && o.query == None
    ensures Known(Selected(g, o), g.nodes) == Direct(g, o) + rest
    ensures forall n :: n in rest ==> n in g.nodes && n !in Direct(g, o)
  {
    var ids := AddIds([], Direct(g, o));
    TopIsKnown(g, o);
    IdsOfTop(Direct(g, o), g.nodes);
    ExpandAppends(ids, g.edges, set id | id in ids, 2 * Limit(o));
    rest := AppendedIsRest(ids, Selected(g, o), g.nodes, Direct(g, o));
  }

  lemma IdsOfTop(top: seq<Node>, nodes: seq<Node>)
    requires UniqueIds(top) && forall n :: n in top ==> NodeOf(nodes, n.id) == Some(n)
    ensures NoRepeats(AddIds([], top)) && Known(AddIds([], top), nodes) == top
    ensures forall n :: n in top ==> n.id in AddIds([], top)
  {
    assert forall i :: 0 <= i < |top| ==> top[i] in top;
    AddIdsConcat([], top, nodes);
    AddIdsAre([], top);
    AddIdsNoRepeats([], top);
  }

  lemma AppendedIsRest(ids: seq<string>, all: seq<string>, nodes: seq<Node>, top: seq<Node>) returns (rest: seq<Node>)
    requires NoRepeats(all) && ids <= all && Known(ids, nodes) == top && forall n :: n in top ==> n.id in ids
    ensures Known(all, nodes) == top + rest
    ensures forall n :: n in rest ==> n in nodes && n !in top
  {
    assert all == ids + all[|ids|..] && ids == all[..|ids|];
    KnownConcat(ids, all[|ids|..], nodes);
    rest := Known(all[|ids|..], nodes);
    RestIsOutside(all, |ids|, nodes, top);
  }

  lemma RestIsOutside(all: seq<string>, k: nat, nodes: seq<Node>, top: seq<Node>)
    requires NoRepeats(all) && k <= |all|
    requires forall n :: n in top ==> n.id in all[..k]
    ensures forall n :: n in Known(all[k..], nodes) ==> n in nodes && n !in top
  {
    KnownAre(all[k..], nodes);
    forall n | n in Known(all[k..], nodes)
      ensures n in nodes && n !in top
    {
      NodeOfSpec(nodes, n.id);
      var j :| 0 <= j < |all[k..]| && all[k..][j] == n.id;
      assert all[k + j] == n.id;
      assert n.id !in all[..k];
    }
  }

  lemma TopIsKnown(g: Graph, o: FilterOptions)
    requires UniqueIds(g.nodes) && o.query == None
    ensures UniqueIds(Direct(g, o)) && forall n :: n in Direct(g, o) ==>
            n in g.nodes && NodeOf(g.nodes, n.id) == Some(n)
  {
    SortKeepsUniqueIds(g.nodes);
    CutKeepsFront(g.nodes, Limit(o), HigherScore);
    forall n | n in Direct(g, o)
      ensures NodeOf(g.nodes, n.id) == Some(n)
    {
      UniqueNodeOf(g.nodes, n);
    }
  }

  /** Without a query, neighbour expansion and the early stop never matter: the kept nodes are the first `limit` in
      stable score order. */
  lemma EmptyQueryIsTopK(g: Graph, o: FilterOptions)
    requires UniqueIds(g.nodes) && o.query == None
    ensures KeptNodes(g, o) == Take(Sort(g.nodes, HigherScore), Limit(o))
  {
    var top := Direct(g, o);
    var rest := SelectedIsTopThenRest(g, o);
    CutKeepsFront(g.nodes, Limit(o), HigherScore);
    assert Sorted(top, HigherScore);
    forall x, y | x in top && y in rest
      ensures HigherScore(x, y)
    {
      assert y in g.nodes && y !in top;
    }
    SortKeepsFront(top, rest, HigherScore);
    assert Sort(Known(Selected(g, o), g.nodes), HigherScore) == top + Sort(rest, HigherScore);
    assert rest == [] || (rest[0] in g.nodes && rest[0] !in top);
    if |top| < Limit(o) {
      SortMembers(g.nodes, HigherScore);
      assert top == Sort(g.nodes, HigherScore) && rest == [];
      assert top + Sort(rest, HigherScore) == top;
    } else {
      assert (top + Sort(rest, HigherScore))[..|top|] == top;
    }
  }

  /** Filtering the result again with the same options changes neither nodes nor edges. */
  lemma EmptyQueryFilterIsIdempotent(g: Graph, o: FilterOptions)
    requires UniqueIds(g.nodes) && o.query == None
    ensures var r := Graph(KeptNodes(g, o), KeptEdges(g, o));
            KeptNodes(r, o) == r.nodes && KeptEdges(r, o) == r.edges
  {
    var r := Graph(KeptNodes(g, o), KeptEdges(g, o));
    EmptyQueryIsTopK(g, o);
    TopIsKnown(g, o);
    FilterStaysInside(g, o);
    EmptyQueryIsTopK(r, o);
    SortOfSorted(r.nodes, HigherScore);
    assert KeptNodes(r, o) == r.nodes;
    FilterKeepsAll(r.edges, JoinsOnly(IdSet(r.nodes)));
    SortOfSorted(r.edges, HigherWeight);
  }

  /** The same for every graph that `buildCodeGraph` returns, whose ids are always unique. */
  lemma BuiltGraphTopK(title: string, files: seq<CodeGraph.FileFacts>, o: FilterOptions)
    requires o.query == None
    ensures var g := Graph(CodeGraphLaws.BuiltNodes(title, files), CodeGraphLaws.BuiltEdges(files));
            var r := Graph(KeptNodes(g, o), KeptEdges(g, o));
            r.nodes == Take(Sort(g.nodes, HigherScore), Limit(o)) && KeptNodes(r, o) == r.nodes
                && KeptEdges(r, o) == r.edges
  {
    CodeGraphLaws.BuiltIdsAreUnique(title, files);
    var g := Graph(CodeGraphLaws.BuiltNodes(title, files), CodeGraphLaws.BuiltEdges(files));
    EmptyQueryIsTopK(g, o);
    EmptyQueryFilterIsIdempotent(g, o);
  }
}
