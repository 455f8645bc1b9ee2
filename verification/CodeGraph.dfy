/** The code graph: nodes and edges collected from facts extracted per file (app/code-graph.ts). The text of the
    files and the patterns that extract declarations, imports and calls from it are not part of this model. */
module CodeGraph {
  datatype NodeType = Repository | File | Symbol | External
  datatype Node = Node(id: string, kind: NodeType, caption: string, score: int)

  datatype EdgeType = Contains | Declares | Imports | ImportsExternal | Calls
  datatype Edge = Edge(id: string, source: string, target: string, kind: EdgeType, weight: real)

  datatype DeclarationKind = Function | Class | Interface | Type | Enum | Export
  datatype Declaration = Declaration(kind: DeclarationKind, name: string)

  /** `candidates` are the paths a relative specifier may stand for, in order; none for a package. */
  datatype Import = Import(candidates: seq<string>, package: string)

  /** What was extracted from one file. `calls` are the called names, each once. */
  datatype FileFacts = FileFacts(path: string, declarations: seq<Declaration>, imports: seq<Import>, calls: seq<string>)

  // --- Insertion-ordered maps ---

  function NodeAt(nodes: seq<Node>, id: string): (i: nat)
    ensures i <= |nodes| && (i < |nodes| ==> nodes[i].id == id)
    ensures forall j :: 0 <= j < i ==> nodes[j].id != id
  {
    if nodes == [] || nodes[0].id == id then 0 else NodeAt(nodes[1..], id) + 1
  }

  /** A node replaces an existing one, in place, only with a higher score. */
  function PushNode(nodes: seq<Node>, n: Node): seq<Node> {
    var i := NodeAt(nodes, n.id);
    if i == |nodes| then nodes + [n] else if n.score > nodes[i].score then nodes[i := n] else nodes
  }

  function PushNodes(nodes: seq<Node>, pushes: seq<Node>): seq<Node>
    decreases |pushes|
  {
    if pushes == [] then nodes else PushNodes(PushNode(nodes, pushes[0]), pushes[1..])
  }

  predicate HasEdge(edges: seq<Edge>, id: string) {
    exists e :: e in edges && e.id == id
  }

  /** Self-loops are dropped, and the first edge with an id stays. */
  function PushEdge(edges: seq<Edge>, e: Edge): seq<Edge> {
    if e.source == e.target || HasEdge(edges, e.id) then edges else edges + [e]
  }

  function PushEdges(edges: seq<Edge>, pushes: seq<Edge>): seq<Edge>
    decreases |pushes|
  {
    if pushes == [] then edges else PushEdges(PushEdge(edges, pushes[0]), pushes[1..])
  }

  lemma {:induction false} PushNodesConcat(nodes: seq<Node>, a: seq<Node>, b: seq<Node>)
    ensures PushNodes(nodes, a + b) == PushNodes(PushNodes(nodes, a), b)
    decreases |a|
  {
    if a == [] {
      assert a + b == b;
    } else {
      assert (a + b)[1..] == a[1..] + b;
      PushNodesConcat(PushNode(nodes, a[0]), a[1..], b);
    }
  }

  lemma {:induction false} PushEdgesConcat(edges: seq<Edge>, a: seq<Edge>, b: seq<Edge>)
    ensures PushEdges(edges, a + b) == PushEdges(PushEdges(edges, a), b)
    decreases |a|
  {
    if a == [] {
      assert a + b == b;
    } else {
      assert (a + b)[1..] == a[1..] + b;
      PushEdgesConcat(PushEdge(edges, a[0]), a[1..], b);
    }
  }

  function IdSet(nodes: seq<Node>): set<string> {
    set n | n in nodes :: n.id
  }

  ghost predicate UniqueIds(nodes: seq<Node>) {
    forall i, j :: 0 <= i < j < |nodes| ==> nodes[i].id != nodes[j].id
  }

  function Clamp(low: int, high: int, x: int): (r: int)
    requires low <= high
    ensures low <= r <= high && (low <= x <= high ==> r == x)
  {
    if x < low then low else if x > high then high else x
  }

  // --- What a list of pushes must leave behind ---

  function Ids(nodes: seq<Node>): seq<string> {
    seq(|nodes|, i requires 0 <= i < |nodes| => nodes[i].id)
  }

  /** The distinct entries in order of first appearance. */
  function FirstSeen(ids: seq<string>): seq<string> {
    if ids == [] then []
    else
      var before := FirstSeen(ids[..|ids| - 1]);
      if ids[|ids| - 1] in before then before else before + [ids[|ids| - 1]]
  }

  /** `n` is the first push with the highest score for its id. */
  ghost predicate Best(log: seq<Node>, n: Node) {
    exists k: nat :: BestAt(log, n, k)
  }

  ghost predicate BestAt(log: seq<Node>, n: Node, k: nat) {
    && k < |log| && log[k] == n
    && forall j :: 0 <= j < |log| && log[j].id == n.id ==> log[j].score <= n.score && (j < k ==> log[j].score < n.score)
  }

  ghost predicate Collected(nodes: seq<Node>, log: seq<Node>) {
    && Ids(nodes) == FirstSeen(Ids(log))
    && forall n :: n in nodes ==> Best(log, n)
  }

  /** `e` is the first push with its id that is not a self-loop. */
  ghost predicate FirstAt(log: seq<Edge>, e: Edge, k: nat) {
    && k < |log| && log[k] == e && e.source != e.target
    && forall j :: 0 <= j < k && log[j].id == e.id ==> log[j].source == log[j].target
  }

  ghost predicate IsFirst(log: seq<Edge>, e: Edge) {
    exists k: nat :: FirstAt(log, e, k)
  }

  /** The edges are exactly those pushes. */
  ghost predicate CollectedEdges(edges: seq<Edge>, log: seq<Edge>) {
    && (forall e :: e in edges <==> IsFirst(log, e))
    && (forall i, j :: 0 <= i < j < |edges| ==> edges[i].id != edges[j].id)
  }

  lemma {:induction false} FirstSeenMembers(ids: seq<string>)
    ensures forall id :: id in FirstSeen(ids) <==> id in ids
    ensures forall i, j :: 0 <= i < j < |FirstSeen(ids)| ==> FirstSeen(ids)[i] != FirstSeen(ids)[j]
  {
    if ids == [] {
    } else {
      FirstSeenMembers(ids[..|ids| - 1]);
      assert ids == ids[..|ids| - 1] + [ids[|ids| - 1]];
    }
  }

  lemma IdsGrow(log: seq<Node>, n: Node)
    ensures Ids(log + [n]) == Ids(log) + [n.id]
    ensures FirstSeen(Ids(log + [n])) == if n.id in FirstSeen(Ids(log)) then FirstSeen(Ids(log))
            else FirstSeen(Ids(log)) + [n.id]
  {
  }

  lemma BestStays(log: seq<Node>, m: Node, n: Node)
    requires Best(log, m) && (n.id == m.id ==> n.score <= m.score)
    ensures Best(log + [n], m)
  {
    var k: nat :| BestAt(log, m, k);
    assert BestAt(log + [n], m, k);
  }

  lemma IdOf(nodes: seq<Node>, i: nat)
    requires i < |nodes|
    ensures Ids(nodes)[i] == nodes[i].id
  {
  }

  /** An id not yet seen starts with its first push. */
  lemma NewIsBest(nodes: seq<Node>, log: seq<Node>, n: Node)
    requires Collected(nodes, log) && n.id !in Ids(nodes)
    ensures Best(log + [n], n)
  {
    FirstSeenMembers(Ids(log));
    forall j | 0 <= j < |log|
      ensures log[j].id != n.id
    {
      IdOf(log, j);
      assert log[j].id in Ids(log);
    }
    assert BestAt(log + [n], n, |log|);
  }

  lemma HigherIsBest(log: seq<Node>, m: Node, n: Node)
    requires Best(log, m) && m.id == n.id && n.score > m.score
    ensures Best(log + [n], n)
  {
    assert BestAt(log + [n], n, |log|);
  }

  lemma PushKeepsCollected(nodes: seq<Node>, log: seq<Node>, n: Node)
    requires Collected(nodes, log)
    ensures Collected(PushNode(nodes, n), log + [n])
  {
    var after := PushNode(nodes, n);
    var i := NodeAt(nodes, n.id);
    IdsGrow(log, n);
    if i == |nodes| {
      IdsGrow(nodes, n);
      assert n.id !in Ids(nodes);
      NewIsBest(nodes, log, n);
    } else {
      IdOf(nodes, i);
      assert n.id in Ids(nodes);
      assert Ids(after) == Ids(nodes);
      if n.score > nodes[i].score {
        HigherIsBest(log, nodes[i], n);
      }
    }
    forall m | m in after
      ensures Best(log + [n], m)
    {
      if m != n {
        var j :| 0 <= j < |after| && after[j] == m;
        FirstSeenMembers(Ids(log));
        IdsApart(nodes, log, i, j);
        BestStays(log, m, n);
      } else if i < |nodes| && n.score <= nodes[i].score {
        BestStays(log, m, n);
      }
    }
  }

  lemma IdsApart(nodes: seq<Node>, log: seq<Node>, i: nat, j: nat)
    requires Collected(nodes, log)
    ensures i < |nodes| && j < |nodes| && i != j ==> nodes[i].id != nodes[j].id
  {
    FirstSeenMembers(Ids(log));
    if i < |nodes| && j < |nodes| && i != j {
      IdOf(nodes, i);
      IdOf(nodes, j);
    }
  }

  /** The nodes are the distinct pushed ids in order of first push, each with the first push of highest score. */
  lemma {:induction false} PushNodesCollects(nodes: seq<Node>, log: seq<Node>, pushes: seq<Node>)
    requires Collected(nodes, log)
    ensures Collected(PushNodes(nodes, pushes), log + pushes)
    decreases |pushes|
  {
    if pushes == [] {
      assert log + pushes == log;
    } else {
      PushKeepsCollected(nodes, log, pushes[0]);
      PushNodesCollects(PushNode(nodes, pushes[0]), log + [pushes[0]], pushes[1..]);
      assert log + [pushes[0]] + pushes[1..] == log + pushes;
    }
  }

  /** Some push with the id of a given one that is not a self-loop comes first. */
  lemma {:induction false} SomeFirst(log: seq<Edge>, i: nat)
    requires i < |log| && log[i].source != log[i].target
    ensures exists f :: f in log && f.id == log[i].id && IsFirst(log, f)
    decreases i
  {
    if FirstAt(log, log[i], i) {
      assert IsFirst(log, log[i]);
    } else {
      var j :| 0 <= j < i && log[j].id == log[i].id && log[j].source != log[j].target;
      SomeFirst(log, j);
    }
  }

  /** After one more push `e`, the first pushes are those from before and `e` itself if it has a new id. */
  lemma FirstAfterPush(log: seq<Edge>, e: Edge, f: Edge)
    ensures IsFirst(log + [e], f) <==> IsFirst(log, f) || (f == e && FirstAt(log + [e], e, |log|))
  {
    if IsFirst(log, f) {
      var k: nat :| FirstAt(log, f, k);
      assert FirstAt(log + [e], f, k);
    } else if IsFirst(log + [e], f) {
      var k: nat :| FirstAt(log + [e], f, k);
      if k < |log| {
        assert forall j :: 0 <= j < k ==> (log + [e])[j] == log[j];
        assert FirstAt(log, f, k);
      }
    }
  }

  lemma NewIffAbsent(edges: seq<Edge>, log: seq<Edge>, e: Edge)
    requires CollectedEdges(edges, log)
    ensures FirstAt(log + [e], e, |log|) <==> e.source != e.target && !HasEdge(edges, e.id)
  {
    if e.source != e.target {
      if HasEdge(edges, e.id) {
        var f :| f in edges && f.id == e.id;
        var k: nat :| FirstAt(log, f, k);
        assert (log + [e])[k] == f && f.source != f.target;
      } else {
        forall j | 0 <= j < |log| && log[j].id == e.id
          ensures log[j].source == log[j].target
        {
          if log[j].source != log[j].target {
            SomeFirst(log, j);
          }
        }
      }
    }
  }

  lemma PushKeepsCollectedEdges(edges: seq<Edge>, log: seq<Edge>, e: Edge)
    requires CollectedEdges(edges, log)
    ensures CollectedEdges(PushEdge(edges, e), log + [e])
  {
    NewIffAbsent(edges, log, e);
    forall f
      ensures f in PushEdge(edges, e) <==> IsFirst(log + [e], f)
    {
      FirstAfterPush(log, e, f);
    }
  }

  /** The edges are the first push of each id, self-loops aside. */
  lemma {:induction false} PushEdgesCollects(edges: seq<Edge>, log: seq<Edge>, pushes: seq<Edge>)
    requires CollectedEdges(edges, log)
    ensures CollectedEdges(PushEdges(edges, pushes), log + pushes)
    decreases |pushes|
  {
    if pushes == [] {
      assert log + pushes == log;
    } else {
      PushKeepsCollectedEdges(edges, log, pushes[0]);
      PushEdgesCollects(PushEdge(edges, pushes[0]), log + [pushes[0]], pushes[1..]);
      assert log + [pushes[0]] + pushes[1..] == log + pushes;
    }
  }
}
