/** Building the code graph: which nodes and edges each file pushes, and what call names resolve to
    (app/code-graph.ts). */
module CodeGraphBuild {
  import opened Options
  import opened CodeGraph

  const ROOT_ID := "repository:root"

  function FileId(file: string): string { "file:" + file }
  function SymbolPrefix(file: string): string { "symbol:" + file + "#" }
  function SymbolId(file: string, name: string): string { SymbolPrefix(file) + name }
  function ExternalId(package: string): string { "external:" + package }

  /** The number of parts between slashes. */
  function Segments(path: string): nat {
    if path == [] then 1 else (if path[0] == '/' then 1 else 0) + Segments(path[1..])
  }

  /** What follows the last slash. */
  function Basename(path: string): string {
    if path == [] || path[|path| - 1] == '/' then [] else Basename(path[..|path| - 1]) + [path[|path| - 1]]
  }

  function RootNode(title: string): Node { Node(ROOT_ID, Repository, title, 100) }
  function FileNode(file: string): Node {
    Node(FileId(file), File, Basename(file), Clamp(30, 80, 80 - Segments(file) * 3))
  }
  function ExternalNode(package: string): Node { Node(ExternalId(package), External, package, 26) }
  function SymbolNode(file: string, d: Declaration): Node {
    Node(SymbolId(file, d.name), Symbol, d.name, if d.kind == Class then 72 else 64)
  }

  function ContainsEdge(file: string): Edge { Edge("contains:root:" + file, ROOT_ID, FileId(file), Contains, 0.22) }
  function DeclaresEdge(file: string, name: string): Edge {
    Edge("declares:" + file + ":" + name, FileId(file), SymbolId(file, name), Declares, 0.75)
  }
  function ImportsEdge(file: string, resolved: string): Edge {
    Edge("imports:" + file + ":" + resolved, FileId(file), FileId(resolved), Imports, 0.82)
  }
  function ImportsExternalEdge(file: string, package: string): Edge {
    Edge("imports:" + file + ":" + package, FileId(file), ExternalId(package), ImportsExternal, 0.36)
  }
  function CallsEdge(file: string, target: string): Edge {
    Edge("calls:" + file + ":" + target, FileId(file), target, Calls, 0.48)
  }

  // --- What each file pushes ---

  /** Declarations not met before with the same kind and name. */
  function Fresh(ds: seq<Declaration>, seen: set<Declaration>): seq<Declaration> {
    if ds == [] then []
    else if ds[0] in seen then Fresh(ds[1..], seen)
    else [ds[0]] + Fresh(ds[1..], seen + {ds[0]})
  }

  function SymbolNodes(file: string, ds: seq<Declaration>): seq<Node> {
    if ds == [] then [] else [SymbolNode(file, ds[0])] + SymbolNodes(file, ds[1..])
  }

  function DeclaresEdges(file: string, ds: seq<Declaration>): seq<Edge> {
    if ds == [] then [] else [DeclaresEdge(file, ds[0].name)] + DeclaresEdges(file, ds[1..])
  }

  type SymbolTable = map<string, seq<string>>

  function Lookup(table: SymbolTable, name: string): seq<string> {
    if name in table then table[name] else []
  }

  function Enter(table: SymbolTable, file: string, ds: seq<Declaration>): SymbolTable
    decreases |ds|
  {
    if ds == [] then table
    else Enter(table[ds[0].name := Lookup(table, ds[0].name) + [SymbolId(file, ds[0].name)]], file, ds[1..])
  }

  /** The first candidate that is a file of the graph. */
  function Resolve(candidates: seq<string>, paths: set<string>): Option<string> {
    if candidates == [] then None
    else if candidates[0] in paths then Some(candidates[0])
    else Resolve(candidates[1..], paths)
  }

  function ImportNodes(imports: seq<Import>, paths: set<string>): seq<Node> {
    if imports == [] then []
    else
      (if Resolve(imports[0].candidates, paths).Some? then [] else [ExternalNode(imports[0].package)])
      + ImportNodes(imports[1..], paths)
  }

  function ImportEdge(file: string, i: Import, paths: set<string>): Edge {
    match Resolve(i.candidates, paths)
    case Some(resolved) => ImportsEdge(file, resolved)
    case None => ImportsExternalEdge(file, i.package)
  }

  function ImportEdges(file: string, imports: seq<Import>, paths: set<string>): seq<Edge> {
    if imports == [] then [] else [ImportEdge(file, imports[0], paths)] + ImportEdges(file, imports[1..], paths)
  }

  predicate StartsWith(s: string, prefix: string) {
    |prefix| <= |s| && s[..|prefix|] == prefix
  }

  function FindWithPrefix(targets: seq<string>, prefix: string): Option<string> {
    if targets == [] then None
    else if StartsWith(targets[0], prefix) then Some(targets[0])
    else FindWithPrefix(targets[1..], prefix)
  }

  /** The file's own symbol, else the only symbol of that name. */
  function CallTarget(table: SymbolTable, file: string, name: string): Option<string> {
    var targets := Lookup(table, name);
    match FindWithPrefix(targets, SymbolPrefix(file))
    case Some(local) => Some(local)
    case None => if |targets| == 1 then Some(targets[0]) else None
  }

  function CallEdges(table: SymbolTable, file: string, calls: seq<string>): seq<Edge> {
    if calls == [] then []
    else
      (match CallTarget(table, file, calls[0]) case Some(target) => [CallsEdge(file, target)] case None => [])
      + CallEdges(table, file, calls[1..])
  }

  // --- What all files push ---

  function Own(f: FileFacts): seq<Declaration> { Fresh(f.declarations, {}) }

  function FileNodes(f: FileFacts): seq<Node> { [FileNode(f.path)] + SymbolNodes(f.path, Own(f)) }
  function FileEdges(f: FileFacts): seq<Edge> { [ContainsEdge(f.path)] + DeclaresEdges(f.path, Own(f)) }

  function AllFileNodes(files: seq<FileFacts>): seq<Node> {
    if files == [] then [] else FileNodes(files[0]) + AllFileNodes(files[1..])
  }

  function AllFileEdges(files: seq<FileFacts>): seq<Edge> {
    if files == [] then [] else FileEdges(files[0]) + AllFileEdges(files[1..])
  }

  function EnterAll(table: SymbolTable, files: seq<FileFacts>): SymbolTable
    decreases |files|
  {
    if files == [] then table else EnterAll(Enter(table, files[0].path, Own(files[0])), files[1..])
  }

  function Paths(files: seq<FileFacts>): set<string> {
    set f | f in files :: f.path
  }

  function AllImportNodes(files: seq<FileFacts>, paths: set<string>): seq<Node> {
    if files == [] then [] else ImportNodes(files[0].imports, paths) + AllImportNodes(files[1..], paths)
  }

  function AllImportEdges(files: seq<FileFacts>, paths: set<string>): seq<Edge> {
    if files == [] then [] else ImportEdges(files[0].path, files[0].imports, paths) + AllImportEdges(files[1..], paths)
  }

  function AllCallEdges(files: seq<FileFacts>, table: SymbolTable): seq<Edge> {
    if files == [] then [] else CallEdges(table, files[0].path, files[0].calls) + AllCallEdges(files[1..], table)
  }

  function NodeLog(title: string, files: seq<FileFacts>): seq<Node> {
    [RootNode(title)] + AllFileNodes(files) + AllImportNodes(files, Paths(files))
  }

  function EdgeLog(files: seq<FileFacts>): seq<Edge> {
    AllFileEdges(files) + AllImportEdges(files, Paths(files)) + AllCallEdges(files, EnterAll(map[], files))
  }

  // --- The builder ---

  /** The maps that `buildCodeGraph` fills, nodes and edges in insertion order. */
  class GraphBuilder {
    var nodes: seq<Node>
    var edges: seq<Edge>
    var symbolByName: SymbolTable

    constructor ()
      ensures nodes == [] && edges == [] && symbolByName == map[]
    {
      nodes, edges, symbolByName := [], [], map[];
    }

    method AddNode(n: Node)
      modifies this`nodes
      ensures nodes == PushNode(old(nodes), n)
    {
      var i := NodeAt(nodes, n.id);
      if i == |nodes| {
        nodes := nodes + [n];
      } else if n.score > nodes[i].score {
        nodes := nodes[i := n];
      }
    }

    method AddEdge(e: Edge)
      modifies this`edges
      ensures edges == PushEdge(old(edges), e)
    {
      if e.source == e.target { return; }
      if !HasEdge(edges, e.id) {
        edges := edges + [e];
      }
    }

    method AddDeclarations(f: FileFacts)
      modifies this
      ensures nodes == PushNodes(old(nodes), SymbolNodes(f.path, Own(f)))
      ensures edges == PushEdges(old(edges), DeclaresEdges(f.path, Own(f)))
      ensures symbolByName == Enter(old(symbolByName), f.path, Own(f))
    {
      var seen := {};
      var i := 0;
      while i < |f.declarations|
        invariant 0 <= i <= |f.declarations|
        invariant var rest := Fresh(f.declarations[i..], seen);
                  && PushNodes(nodes, SymbolNodes(f.path, rest)) == PushNodes(old(nodes), SymbolNodes(f.path, Own(f)))
                  && PushEdges(edges, DeclaresEdges(f.path, rest))
                       == PushEdges(old(edges), DeclaresEdges(f.path, Own(f)))
                  && Enter(symbolByName, f.path, rest) == Enter(old(symbolByName), f.path, Own(f))
      {
        var d := f.declarations[i];
        assert f.declarations[i..][1..] == f.declarations[i + 1..];
        if d !in seen {
          ghost var later := Fresh(f.declarations[i + 1..], seen + {d});
          FirstDeclaration(nodes, edges, symbolByName, f.path, d, later);
          seen := seen + {d};
          AddNode(SymbolNode(f.path, d));
          AddEdge(DeclaresEdge(f.path, d.name));
          symbolByName := symbolByName[d.name := Lookup(symbolByName, d.name) + [SymbolId(f.path, d.name)]];
        }
        i := i + 1;
      }
    }

    method AddImports(f: FileFacts, paths: set<string>)
      modifies this`nodes, this`edges
      ensures nodes == PushNodes(old(nodes), ImportNodes(f.imports, paths))
      ensures edges == PushEdges(old(edges), ImportEdges(f.path, f.imports, paths))
    {
      var i := 0;
      while i < |f.imports|
        invariant 0 <= i <= |f.imports|
        invariant PushNodes(nodes, ImportNodes(f.imports[i..], paths))
                  == PushNodes(old(nodes), ImportNodes(f.imports, paths))
        invariant PushEdges(edges, ImportEdges(f.path, f.imports[i..], paths))
                  == PushEdges(old(edges), ImportEdges(f.path, f.imports, paths))
      {
        assert f.imports[i..][1..] == f.imports[i + 1..];
        FirstImport(nodes, edges, f.path, f.imports[i..], paths);
        var resolved := Resolve(f.imports[i].candidates, paths);
        if resolved.Some? {
          AddEdge(ImportsEdge(f.path, resolved.value));
        } else {
          AddNode(ExternalNode(f.imports[i].package));
          AddEdge(ImportsExternalEdge(f.path, f.imports[i].package));
        }
        i := i + 1;
      }
    }

    method AddCalls(f: FileFacts)
      modifies this`edges
      ensures edges == PushEdges(old(edges), CallEdges(symbolByName, f.path, f.calls))
    {
      ghost var goal := PushEdges(edges, CallEdges(symbolByName, f.path, f.calls));
      for i := 0 to |f.calls|
        invariant PushEdges(edges, CallEdges(symbolByName, f.path, f.calls[i..])) == goal
      {
        var rest := f.calls[i..];
        assert rest[0] == f.calls[i] && rest[1..] == f.calls[i + 1..];
        FirstCall(edges, symbolByName, f.path, rest);
        var target := CallTarget(symbolByName, f.path, rest[0]);
        if target.Some? {
          AddEdge(CallsEdge(f.path, target.value));
        }
      }
    }

    /** The three passes of `buildCodeGraph`. */
    method Build(title: string, files: seq<FileFacts>)
      requires nodes == [] && edges == [] && symbolByName == map[]
      modifies this
      ensures nodes == PushNodes([], NodeLog(title, files))
      ensures edges == PushEdges([], EdgeLog(files))
      ensures symbolByName == EnterAll(map[], files)
    {
      AddNode(RootNode(title));
      assert nodes == PushNodes([], [RootNode(title)]);
      ReadFiles(files);
      PushNodesConcat([], [RootNode(title)], AllFileNodes(files));
      var paths := Paths(files);
      ResolveImports(files, paths);
      PushNodesConcat([], [RootNode(title)] + AllFileNodes(files), AllImportNodes(files, paths));
      PushEdgesConcat([], AllFileEdges(files), AllImportEdges(files, paths));
      ResolveCalls(files);
      PushEdgesConcat([], AllFileEdges(files) + AllImportEdges(files, paths), AllCallEdges(files, symbolByName));
    }

    method ReadFiles(files: seq<FileFacts>)
      modifies this
      ensures nodes == PushNodes(old(nodes), AllFileNodes(files))
      ensures edges == PushEdges(old(edges), AllFileEdges(files))
      ensures symbolByName == EnterAll(old(symbolByName), files)
    {
      var i := 0;
      while i < |files|
        invariant 0 <= i <= |files|
        invariant PushNodes(nodes, AllFileNodes(files[i..])) == PushNodes(old(nodes), AllFileNodes(files))
        invariant PushEdges(edges, AllFileEdges(files[i..])) == PushEdges(old(edges), AllFileEdges(files))
        invariant EnterAll(symbolByName, files[i..]) == EnterAll(old(symbolByName), files)
      {
        var f := files[i];
        assert files[i..][1..] == files[i + 1..];
        FirstFile(nodes, edges, f, files[i + 1..]);
        AddNode(FileNode(f.path));
        AddEdge(ContainsEdge(f.path));
        AddDeclarations(f);
        i := i + 1;
      }
    }

    method ResolveImports(files: seq<FileFacts>, paths: set<string>)
      modifies this`nodes, this`edges
      ensures nodes == PushNodes(old(nodes), AllImportNodes(files, paths))
      ensures edges == PushEdges(old(edges), AllImportEdges(files, paths))
    {
      var i := 0;
      while i < |files|
        invariant 0 <= i <= |files|
        invariant PushNodes(nodes, AllImportNodes(files[i..], paths))
                  == PushNodes(old(nodes), AllImportNodes(files, paths))
        invariant PushEdges(edges, AllImportEdges(files[i..], paths))
                  == PushEdges(old(edges), AllImportEdges(files, paths))
      {
        assert files[i..][1..] == files[i + 1..];
        PushNodesConcat(nodes, ImportNodes(files[i].imports, paths), AllImportNodes(files[i + 1..], paths));
        PushEdgesConcat(edges, ImportEdges(files[i].path, files[i].imports, paths),
            AllImportEdges(files[i + 1..], paths));
        AddImports(files[i], paths);
        i := i + 1;
      }
    }

    method ResolveCalls(files: seq<FileFacts>)
      modifies this`edges
      ensures edges == PushEdges(old(edges), AllCallEdges(files, symbolByName))
    {
      var i := 0;
      while i < |files|
        invariant 0 <= i <= |files|
        invariant PushEdges(edges, AllCallEdges(files[i..], symbolByName))
                  == PushEdges(old(edges), AllCallEdges(files, symbolByName))
      {
        assert files[i..][1..] == files[i + 1..];
        PushEdgesConcat(edges, CallEdges(symbolByName, files[i].path, files[i].calls),
            AllCallEdges(files[i + 1..], symbolByName));
        AddCalls(files[i]);
        i := i + 1;
      }
    }
  }

  // --- Unfolding the first push ---

  lemma ConsNodes(nodes: seq<Node>, n: Node, rest: seq<Node>)
    ensures PushNodes(nodes, [n] + rest) == PushNodes(PushNode(nodes, n), rest)
  {
  }

  lemma ConsEdges(edges: seq<Edge>, e: Edge, rest: seq<Edge>)
    ensures PushEdges(edges, [e] + rest) == PushEdges(PushEdge(edges, e), rest)
  {
  }

  lemma FirstDeclaration(
    nodes: seq<Node>, edges: seq<Edge>, table: SymbolTable, file: string, d: Declaration, later: seq<Declaration>)
    ensures PushNodes(nodes, SymbolNodes(file, [d] + later))
            == PushNodes(PushNode(nodes, SymbolNode(file, d)), SymbolNodes(file, later))
    ensures PushEdges(edges, DeclaresEdges(file, [d] + later))
            == PushEdges(PushEdge(edges, DeclaresEdge(file, d.name)), DeclaresEdges(file, later))
    ensures Enter(table, file, [d] + later) == Enter(table[d.name := Lookup(table, d.name) + [SymbolId(file, d.name)]],
            file, later)
  {
  }

  lemma FirstImport(nodes: seq<Node>, edges: seq<Edge>, file: string, imports: seq<Import>, paths: set<string>)
    requires imports != []
    ensures PushNodes(nodes, ImportNodes(imports, paths))
            == PushNodes(if Resolve(imports[0].candidates, paths).Some? then nodes
                else PushNode(nodes, ExternalNode(imports[0].package)), ImportNodes(imports[1..], paths))
    ensures PushEdges(edges, ImportEdges(file, imports, paths))
            == PushEdges(PushEdge(edges, ImportEdge(file, imports[0], paths)), ImportEdges(file, imports[1..], paths))
  {
    ConsNodes(nodes, ExternalNode(imports[0].package), ImportNodes(imports[1..], paths));
    assert [] + ImportNodes(imports[1..], paths) == ImportNodes(imports[1..], paths);
    ConsEdges(edges, ImportEdge(file, imports[0], paths), ImportEdges(file, imports[1..], paths));
  }

  lemma FirstCall(edges: seq<Edge>, table: SymbolTable, file: string, calls: seq<string>)
    requires calls != []
    ensures PushEdges(edges, CallEdges(table, file, calls))
            == PushEdges(match CallTarget(table, file, calls[0]) case Some(target) => PushEdge(edges,
                CallsEdge(file, target)) case None => edges, CallEdges(table, file, calls[1..]))
  {
    match CallTarget(table, file, calls[0])
    case Some(target) => ConsEdges(edges, CallsEdge(file, target), CallEdges(table, file, calls[1..]));
    case None => assert [] + CallEdges(table, file, calls[1..]) == CallEdges(table, file, calls[1..]);
  }

  lemma FirstFile(nodes: seq<Node>, edges: seq<Edge>, f: FileFacts, rest: seq<FileFacts>)
    ensures PushNodes(nodes, AllFileNodes([f] + rest))
            == PushNodes(PushNodes(PushNode(nodes, FileNode(f.path)), SymbolNodes(f.path, Own(f))), AllFileNodes(rest))
    ensures PushEdges(edges, AllFileEdges([f] + rest))
            == PushEdges(PushEdges(PushEdge(edges, ContainsEdge(f.path)), DeclaresEdges(f.path, Own(f))),
                AllFileEdges(rest))
  {
    assert ([f] + rest)[1..] == rest;
    PushNodesConcat(nodes, FileNodes(f), AllFileNodes(rest));
    PushEdgesConcat(edges, FileEdges(f), AllFileEdges(rest));
    ConsNodes(nodes, FileNode(f.path), SymbolNodes(f.path, Own(f)));
    ConsEdges(edges, ContainsEdge(f.path), DeclaresEdges(f.path, Own(f)));
  }
}
