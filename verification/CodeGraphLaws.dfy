/** What every built code graph satisfies, for any extracted facts (app/code-graph.ts). */
module CodeGraphLaws {
  import opened Collections
  import opened Options
  import opened CodeGraph
  import opened CodeGraphBuild

  function BuiltNodes(title: string, files: seq<FileFacts>): seq<Node> { PushNodes([], NodeLog(title, files)) }
  function BuiltEdges(files: seq<FileFacts>): seq<Edge> { PushEdges([], EdgeLog(files)) }

  /** The ids of a built graph are the pushed ones, and each node is a best push for its id. */
  lemma BuiltNodesAreBest(title: string, files: seq<FileFacts>)
    ensures Collected(BuiltNodes(title, files), NodeLog(title, files))
    ensures IdSet(BuiltNodes(title, files)) == IdSet(NodeLog(title, files))
  {
    var nodes, log := BuiltNodes(title, files), NodeLog(title, files);
    assert [] + log == log;
    PushNodesCollects([], [], log);
    FirstSeenMembers(Ids(log));
    forall id
      ensures id in IdSet(nodes) <==> id in IdSet(log)
    {
      IdSetIsIds(nodes, id);
      IdSetIsIds(log, id);
    }
  }

  /** No id occurs twice in a built graph. */
  lemma BuiltIdsAreUnique(title: string, files: seq<FileFacts>)
    ensures UniqueIds(BuiltNodes(title, files))
  {
    var nodes, log := BuiltNodes(title, files), NodeLog(title, files);
    BuiltNodesAreBest(title, files);
    FirstSeenMembers(Ids(log));
    forall i, j | 0 <= i < j < |nodes|
      ensures nodes[i].id != nodes[j].id
    {
      IdsApart(nodes, log, i, j);
    }
  }

  lemma IdSetIsIds(nodes: seq<Node>, id: string)
    ensures id in IdSet(nodes) <==> id in Ids(nodes)
  {
    if id in IdSet(nodes) {
      var n :| n in nodes && n.id == id;
      var i :| 0 <= i < |nodes| && nodes[i] == n;
      assert Ids(nodes)[i] == id;
    }
  }

  lemma BuiltEdgesAreFirst(files: seq<FileFacts>)
    ensures CollectedEdges(BuiltEdges(files), EdgeLog(files))
  {
    assert [] + EdgeLog(files) == EdgeLog(files);
    PushEdgesCollects([], [], EdgeLog(files));
  }

  // --- Every edge joins two nodes ---

  ghost predicate Within(edges: seq<Edge>, ids: set<string>) {
    forall e :: e in edges ==> e.source in ids && e.target in ids
  }

  lemma {:induction false} DeclaresWithin(file: string, ds: seq<Declaration>, ids: set<string>)
    requires FileId(file) in ids && IdSet(SymbolNodes(file, ds)) <= ids
    ensures Within(DeclaresEdges(file, ds), ids)
  {
    if ds == [] {
    } else {
      assert SymbolNode(file, ds[0]) in SymbolNodes(file, ds);
      assert SymbolId(file, ds[0].name) in ids;
      assert forall n :: n in SymbolNodes(file, ds[1..]) ==> n in SymbolNodes(file, ds);
      DeclaresWithin(file, ds[1..], ids);
    }
  }

  lemma IdSetConcat(a: seq<Node>, b: seq<Node>)
    ensures IdSet(a + b) == IdSet(a) + IdSet(b)
  {
  }

  lemma {:induction false} FileEdgesWithin(files: seq<FileFacts>, ids: set<string>)
    requires ROOT_ID in ids && IdSet(AllFileNodes(files)) <= ids
    ensures Within(AllFileEdges(files), ids)
    ensures forall f :: f in files ==> FileId(f.path) in ids
  {
    if files == [] {
    } else {
      var f := files[0];
      IdSetConcat(FileNodes(f), AllFileNodes(files[1..]));
      IdSetConcat([FileNode(f.path)], SymbolNodes(f.path, Own(f)));
      assert FileNode(f.path) in [FileNode(f.path)];
      DeclaresWithin(f.path, Own(f), ids);
      FileEdgesWithin(files[1..], ids);
    }
  }

  /** A specifier resolves to its first candidate that is a file, and to nothing only if none is. */
  lemma {:induction false} ResolvedIsFile(candidates: seq<string>, paths: set<string>)
    ensures match Resolve(candidates, paths)
            case Some(p) => p in paths && IsFirstListed(candidates, paths, p)
            case None => forall c :: c in candidates ==> c !in paths
  {
    if candidates == [] {
    } else {
      ResolvedIsFile(candidates[1..], paths);
      var first := Resolve(candidates, paths);
      if candidates[0] in paths {
        assert candidates[0] == first.value;
      } else if first.Some? {
        var k :| 0 <= k < |candidates[1..]| && candidates[1..][k] == first.value
            && FirstListedAt(candidates[1..], paths, k);
        assert candidates[k + 1] == first.value;
        assert forall j :: 0 <= j < k + 1 ==> j == 0 || candidates[j] == candidates[1..][j - 1];
        assert FirstListedAt(candidates, paths, k + 1);
      }
    }
  }

  ghost predicate IsFirstListed(candidates: seq<string>, paths: set<string>, p: string) {
    exists k :: 0 <= k < |candidates| && candidates[k] == p && FirstListedAt(candidates, paths, k)
  }

  ghost predicate FirstListedAt(candidates: seq<string>, paths: set<string>, k: nat)
    requires k < |candidates|
  {
    forall j :: 0 <= j < k ==> candidates[j] !in paths
  }

  lemma {:induction false} ImportsWithin(file: string, imports: seq<Import>, paths: set<string>, ids: set<string>)
    requires FileId(file) in ids && IdSet(ImportNodes(imports, paths)) <= ids
    requires forall p :: p in paths ==> FileId(p) in ids
    ensures Within(ImportEdges(file, imports, paths), ids)
  {
    if imports == [] {
    } else {
      var i := imports[0];
      ResolvedIsFile(i.candidates, paths);
      var first := if Resolve(i.candidates, paths).Some? then [] else [ExternalNode(i.package)];
      IdSetConcat(first, ImportNodes(imports[1..], paths));
      assert Resolve(i.candidates, paths).None? ==> ExternalNode(i.package) in first;
      ImportsWithin(file, imports[1..], paths, ids);
    }
  }

  lemma {:induction false} AllImportsWithin(files: seq<FileFacts>, paths: set<string>, ids: set<string>)
    requires IdSet(AllImportNodes(files, paths)) <= ids
    requires forall f :: f in files ==> FileId(f.path) in ids
    requires forall p :: p in paths ==> FileId(p) in ids
    ensures Within(AllImportEdges(files, paths), ids)
  {
    if files == [] {
    } else {
      IdSetConcat(ImportNodes(files[0].imports, paths), AllImportNodes(files[1..], paths));
      ImportsWithin(files[0].path, files[0].imports, paths, ids);
      AllImportsWithin(files[1..], paths, ids);
    }
  }

  // --- The symbol table ---

  function NameEntries(file: string, ds: seq<Declaration>, name: string): seq<string> {
    if ds == [] then []
    else (if ds[0].name == name then [SymbolId(file, name)] else []) + NameEntries(file, ds[1..], name)
  }

  /** One entry for each kind under which each file declares the name. */
  function Entries(files: seq<FileFacts>, name: string): seq<string> {
    if files == [] then [] else NameEntries(files[0].path, Own(files[0]), name) + Entries(files[1..], name)
  }

  lemma ConcatAssociates(a: seq<string>, b: seq<string>, c: seq<string>)
    ensures (a + b) + c == a + (b + c)
  {
  }

  lemma {:induction false} EnterLookup(table: SymbolTable, file: string, ds: seq<Declaration>, name: string)
    ensures Lookup(Enter(table, file, ds), name) == Lookup(table, name) + NameEntries(file, ds, name)
    decreases |ds|
  {
    if ds == [] {
    } else {
      var next := table[ds[0].name := Lookup(table, ds[0].name) + [SymbolId(file, ds[0].name)]];
      EnterLookup(next, file, ds[1..], name);
      var before, rest := Lookup(table, name), NameEntries(file, ds[1..], name);
      if ds[0].name == name {
        ConcatAssociates(before, [SymbolId(file, name)], rest);
      } else {
        assert Lookup(next, name) == before && [] + rest == rest;
      }
    }
  }

  /** The table built file by file lists exactly the entries of each name. */
  lemma {:induction false} TableListsEntries(table: SymbolTable, files: seq<FileFacts>, name: string)
    ensures Lookup(EnterAll(table, files), name) == Lookup(table, name) + Entries(files, name)
    decreases |files|
  {
    if files == [] {
    } else {
      var f := files[0];
      EnterLookup(table, f.path, Own(f), name);
      TableListsEntries(Enter(table, f.path, Own(f)), files[1..], name);
      ConcatAssociates(Lookup(table, name), NameEntries(f.path, Own(f), name), Entries(files[1..], name));
    }
  }

  ghost predicate DeclaresName(f: FileFacts, name: string) {
    exists d :: d in f.declarations && d.name == name
  }

  ghost predicate DeclaredIn(files: seq<FileFacts>, file: string, name: string) {
    exists f :: f in files && f.path == file && DeclaresName(f, name)
  }

  lemma {:induction false} FreshKeepsAll(ds: seq<Declaration>, seen: set<Declaration>)
    ensures forall d :: d in Fresh(ds, seen) <==> d in ds && d !in seen
    ensures forall i, j :: 0 <= i < j < |Fresh(ds, seen)| ==> Fresh(ds, seen)[i] != Fresh(ds, seen)[j]
    decreases |ds|
  {
    if ds == [] {
    } else {
      assert ds == [ds[0]] + ds[1..];
      FreshKeepsAll(ds[1..], seen);
      FreshKeepsAll(ds[1..], seen + {ds[0]});
    }
  }

  lemma {:induction false} NameEntriesAre(file: string, ds: seq<Declaration>, name: string)
    ensures forall id :: id in NameEntries(file, ds, name) ==> id == SymbolId(file, name)
    ensures NameEntries(file, ds, name) != [] <==> exists d :: d in ds && d.name == name
  {
    if ds == [] {
    } else {
      NameEntriesAre(file, ds[1..], name);
      assert forall d :: d in ds <==> d == ds[0] || d in ds[1..];
      if ds[0].name == name {
        assert ds[0] in ds;
      }
    }
  }

  lemma OwnEntries(f: FileFacts, name: string)
    ensures forall id :: id in NameEntries(f.path, Own(f), name) ==> id == SymbolId(f.path, name)
    ensures NameEntries(f.path, Own(f), name) != [] <==> DeclaresName(f, name)
  {
    NameEntriesAre(f.path, Own(f), name);
    FreshKeepsAll(f.declarations, {});
  }

  /** The entries of a name are the ids of its symbols in the files that declare it. */
  lemma {:induction false} EntriesAre(files: seq<FileFacts>, name: string)
    ensures forall id ::
            id in Entries(files, name) <==> exists f ::
                 f in files && DeclaresName(f, name) && id == SymbolId(f.path, name)
  {
    if files == [] {
    } else {
      var f := files[0];
      OwnEntries(f, name);
      EntriesAre(files[1..], name);
      forall id
        ensures id in Entries(files, name) <==> exists g ::
                g in files && DeclaresName(g, name) && id == SymbolId(g.path, name)
      {
        var first := NameEntries(f.path, Own(f), name);
        assert id in Entries(files, name) <==> id in first || id in Entries(files[1..], name);
        assert forall g :: g in files <==> g == f || g in files[1..];
        if DeclaresName(f, name) {
          assert first[0] in first;
        }
      }
    }
  }

  // --- What a call resolves to ---

  /** The part before the first `c` and the part after it are determined by the whole. */
  lemma SplitAt(c: char, a: string, x: string, b: string, y: string)
    requires a + [c] + x == b + [c] + y && c !in a && c !in b
    ensures a == b && x == y
  {
    var s := a + [c] + x;
    assert s[|a|] == c && s[|b|] == c;
    assert forall k :: 0 <= k < |a| ==> s[k] == a[k];
    assert forall k :: 0 <= k < |b| ==> s[k] == b[k];
    assert a == s[..|a|] && b == s[..|b|];
    assert x == s[|a| + 1..] && y == s[|b| + 1..];
  }

  /** The textual prefix test singles out the symbols of one file, as long as paths hold no `#`. */
  lemma PrefixIsOwnFile(file: string, other: string, name: string)
    requires '#' !in file && '#' !in other
    ensures StartsWith(SymbolId(other, name), SymbolPrefix(file)) <==> other == file
  {
    var id, prefix := SymbolId(other, name), SymbolPrefix(file);
    if other == file {
      assert id == prefix + name;
    }
    if StartsWith(id, prefix) {
      var tail := id[|prefix|..];
      assert id == prefix + tail;
      assert id[7..] == file + "#" + tail by { assert prefix[7..] == file + "#"; }
      assert id[7..] == other + "#" + name;
      SplitAt('#', file, tail, other, name);
    }
  }

  lemma {:induction false} FindSpec(targets: seq<string>, prefix: string)
    ensures match FindWithPrefix(targets, prefix)
            case Some(t) => t in targets && StartsWith(t, prefix)
            case None => forall t :: t in targets ==> !StartsWith(t, prefix)
  {
    if targets == [] {
    } else {
      FindSpec(targets[1..], prefix);
    }
  }

  /** A called name resolves to the file's own symbol if the file declares it, else to the only entry of that
      name, and to nothing when there is none or more than one. */
  lemma CallResolution(files: seq<FileFacts>, file: string, name: string)
    requires '#' !in file && forall f :: f in files ==> '#' !in f.path
    ensures var target := CallTarget(EnterAll(map[], files), file, name);
            if DeclaredIn(files, file, name) then target == Some(SymbolId(file, name))
            else if |Entries(files, name)| == 1 then target == Some(Entries(files, name)[0])
            else target == None
  {
    var targets := Lookup(EnterAll(map[], files), name);
    TableListsEntries(map[], files, name);
    assert targets == Entries(files, name);
    EntriesAre(files, name);
    FindSpec(targets, SymbolPrefix(file));
    forall f | f in files
      ensures StartsWith(SymbolId(f.path, name), SymbolPrefix(file)) <==> f.path == file
    {
      PrefixIsOwnFile(file, f.path, name);
    }
    if DeclaredIn(files, file, name) {
      var f :| f in files && f.path == file && DeclaresName(f, name);
      assert SymbolId(f.path, name) in targets;
    }
  }

  lemma {:induction false} TwoKindsTwoEntries(file: string, ds: seq<Declaration>, i: nat, j: nat)
    requires i < j < |ds| && ds[i].name == ds[j].name
    ensures |NameEntries(file, ds, ds[i].name)| >= 2
  {
    if i == 0 {
      NameEntriesAre(file, ds[1..], ds[0].name);
      assert ds[j] in ds[1..];
    } else {
      TwoKindsTwoEntries(file, ds[1..], i - 1, j - 1);
    }
  }

  lemma {:induction false} EntriesInclude(files: seq<FileFacts>, f: FileFacts, name: string)
    requires f in files
    ensures |Entries(files, name)| >= |NameEntries(f.path, Own(f), name)|
  {
    if f == files[0] {
    } else {
      EntriesInclude(files[1..], f, name);
    }
  }

  /** A name that one file declares under two kinds (a class and an interface, say) counts as ambiguous: calls
      to it from files that do not declare it get no edge. */
  lemma MergedDeclarationsAreAmbiguous(
    files: seq<FileFacts>, f: FileFacts, name: string, one: DeclarationKind, two: DeclarationKind, file: string)
    requires '#' !in file && forall g :: g in files ==> '#' !in g.path
    requires f in files && one != two
    requires Declaration(one, name) in f.declarations && Declaration(two, name) in f.declarations
    requires !DeclaredIn(files, file, name)
    ensures CallTarget(EnterAll(map[], files), file, name) == None
  {
    OwnKindsEntries(f, name, one, two);
    EntriesInclude(files, f, name);
    CallResolution(files, file, name);
  }

  lemma OwnKindsEntries(f: FileFacts, name: string, one: DeclarationKind, two: DeclarationKind)
    requires one != two
    requires Declaration(one, name) in f.declarations && Declaration(two, name) in f.declarations
    ensures |NameEntries(f.path, Own(f), name)| >= 2
  {
    FreshKeepsAll(f.declarations, {});
    var own := Own(f);
    var i :| 0 <= i < |own| && own[i] == Declaration(one, name);
    var j :| 0 <= j < |own| && own[j] == Declaration(two, name);
    TwoKindsTwoEntries(f.path, own, if i < j then i else j, if i < j then j else i);
  }

  lemma {:induction false} CallEdgesAre(table: SymbolTable, file: string, calls: seq<string>)
    ensures forall e :: e in CallEdges(table, file, calls) <==>
              exists name :: name in calls && CallTarget(table, file, name).Some?
                  && e == CallsEdge(file, CallTarget(table, file, name).value)
  {
    if calls == [] {
    } else {
      CallEdgesAre(table, file, calls[1..]);
      assert forall name :: name in calls <==> name == calls[0] || name in calls[1..];
    }
  }

  /** `e` is the edge of a call of `name` in `f`. */
  ghost predicate IsCall(table: SymbolTable, f: FileFacts, name: string, e: Edge) {
    name in f.calls && CallTarget(table, f.path, name).Some?
        && e == CallsEdge(f.path, CallTarget(table, f.path, name).value)
  }

  lemma {:induction false} AllCallEdgesAre(files: seq<FileFacts>, table: SymbolTable)
    ensures forall e :: e in AllCallEdges(files, table) <==> exists f, name :: f in files && IsCall(table, f, name, e)
  {
    if files == [] {
    } else {
      CallEdgesAre(table, files[0].path, files[0].calls);
      AllCallEdgesAre(files[1..], table);
      forall e
        ensures e in AllCallEdges(files, table) <==> exists f, name :: f in files && IsCall(table, f, name, e)
      {
        assert forall f :: f in files <==> f == files[0] || f in files[1..];
        if e in CallEdges(table, files[0].path, files[0].calls) {
          var name :| name in files[0].calls && CallTarget(table, files[0].path, name).Some?
              && e == CallsEdge(files[0].path, CallTarget(table, files[0].path, name).value);
          assert IsCall(table, files[0], name, e);
        }
      }
    }
  }

  lemma {:induction false} SymbolPushed(files: seq<FileFacts>, f: FileFacts, name: string)
    requires f in files && DeclaresName(f, name)
    ensures SymbolId(f.path, name) in IdSet(AllFileNodes(files))
  {
    if f == files[0] {
      FreshKeepsAll(f.declarations, {});
      var d :| d in f.declarations && d.name == name;
      SymbolNodeOf(f.path, Own(f), d);
      assert SymbolNode(f.path, d) in AllFileNodes(files);
    } else {
      SymbolPushed(files[1..], f, name);
      IdSetConcat(FileNodes(files[0]), AllFileNodes(files[1..]));
    }
  }

  lemma {:induction false} SymbolNodeOf(file: string, ds: seq<Declaration>, d: Declaration)
    requires d in ds
    ensures SymbolNode(file, d) in SymbolNodes(file, ds)
  {
    if d == ds[0] {
    } else {
      SymbolNodeOf(file, ds[1..], d);
    }
  }

  lemma TargetIsSymbol(files: seq<FileFacts>, file: string, name: string)
    ensures var target := CallTarget(EnterAll(map[], files), file, name);
            target.Some? ==> exists f :: f in files && DeclaresName(f, name) && target.value == SymbolId(f.path, name)
  {
    var targets := Lookup(EnterAll(map[], files), name);
    TableListsEntries(map[], files, name);
    assert targets == Entries(files, name);
    EntriesAre(files, name);
    FindSpec(targets, SymbolPrefix(file));
    var target := CallTarget(EnterAll(map[], files), file, name);
    assert target.Some? ==> target.value in targets;
  }

  lemma CallsWithin(files: seq<FileFacts>, ids: set<string>)
    requires IdSet(AllFileNodes(files)) <= ids
    requires forall f :: f in files ==> FileId(f.path) in ids
    ensures Within(AllCallEdges(files, EnterAll(map[], files)), ids)
  {
    var table := EnterAll(map[], files);
    AllCallEdgesAre(files, table);
    forall e | e in AllCallEdges(files, table)
      ensures e.source in ids && e.target in ids
    {
      var f, name :| f in files && IsCall(table, f, name, e);
      TargetIsSymbol(files, f.path, name);
      var g :| g in files && DeclaresName(g, name) && e.target == SymbolId(g.path, name);
      SymbolPushed(files, g, name);
    }
  }

  /** Every edge of the built graph joins two distinct nodes of the graph, whatever was extracted. */
  lemma EdgesJoinNodes(title: string, files: seq<FileFacts>)
    ensures forall e :: e in BuiltEdges(files) ==>
              e.source != e.target && e.source in IdSet(BuiltNodes(title, files))
                  && e.target in IdSet(BuiltNodes(title, files))
  {
    var paths := Paths(files);
    BuiltNodesAreBest(title, files);
    BuiltEdgesAreFirst(files);
    var ids := IdSet(NodeLog(title, files));
    IdSetConcat([RootNode(title)] + AllFileNodes(files), AllImportNodes(files, paths));
    IdSetConcat([RootNode(title)], AllFileNodes(files));
    assert RootNode(title) in [RootNode(title)];
    FileEdgesWithin(files, ids);
    AllImportsWithin(files, paths, ids);
    CallsWithin(files, ids);
    assert Within(EdgeLog(files), ids);
  }

  /** What a call of `name` from `file` must point at. */
  ghost predicate CallsTo(files: seq<FileFacts>, file: string, name: string, target: string) {
    if DeclaredIn(files, file, name) then target == SymbolId(file, name)
    else Entries(files, name) == [target]
  }

  /** Symbol ids share no value with the ids of other nodes. */
  lemma SymbolIdsApart(file: string, name: string)
    ensures SymbolId(file, name) != ROOT_ID
    ensures forall other :: SymbolId(file, name) != FileId(other) && SymbolId(file, name) != ExternalId(other)
  {
    assert SymbolId(file, name)[0] == 's';
    assert ROOT_ID[0] == 'r';
    assert forall other :: FileId(other)[0] == 'f' && ExternalId(other)[0] == 'e';
  }

  // --- Scores ---

  ghost predicate IsSymbolOf(f: FileFacts, n: Node) {
    exists d :: d in f.declarations && n == SymbolNode(f.path, d)
  }

  lemma {:induction false} SymbolNodesAre(file: string, ds: seq<Declaration>)
    ensures forall n :: n in SymbolNodes(file, ds) <==> exists d :: d in ds && n == SymbolNode(file, d)
  {
    if ds == [] {
    } else {
      SymbolNodesAre(file, ds[1..]);
      assert forall d :: d in ds <==> d == ds[0] || d in ds[1..];
    }
  }

  lemma {:induction false} FileNodesAre(files: seq<FileFacts>)
    ensures forall n :: n in AllFileNodes(files) <==> exists f ::
            f in files && (n == FileNode(f.path) || IsSymbolOf(f, n))
  {
    if files == [] {
    } else {
      var f := files[0];
      SymbolNodesAre(f.path, Own(f));
      FreshKeepsAll(f.declarations, {});
      FileNodesAre(files[1..]);
      assert forall n :: n in FileNodes(f) <==> n == FileNode(f.path) || IsSymbolOf(f, n);
      assert forall g :: g in files <==> g == f || g in files[1..];
    }
  }

  lemma {:induction false} ImportNodesAreExternal(files: seq<FileFacts>, paths: set<string>)
    ensures forall n :: n in AllImportNodes(files, paths) ==> exists package :: n == ExternalNode(package)
  {
    if files == [] {
    } else {
      FileImportsAreExternal(files[0].imports, paths);
      ImportNodesAreExternal(files[1..], paths);
    }
  }

  lemma {:induction false} FileImportsAreExternal(imports: seq<Import>, paths: set<string>)
    ensures forall n :: n in ImportNodes(imports, paths) ==> exists package :: n == ExternalNode(package)
  {
    if imports == [] {
    } else {
      FileImportsAreExternal(imports[1..], paths);
    }
  }

  ghost predicate DeclaresClass(files: seq<FileFacts>, file: string, name: string) {
    exists f :: f in files && f.path == file && Declaration(Class, name) in f.declarations
  }

  /** Whatever else pushes nodes, those under a symbol's id come from declarations of that name in that file. */
  lemma OnlySymbolsUnderSymbolIds(title: string, files: seq<FileFacts>, file: string, name: string, n: Node)
    requires '#' !in file && forall f :: f in files ==> '#' !in f.path
    requires n in NodeLog(title, files) && n.id == SymbolId(file, name)
    ensures exists f, d ::
            f in files && d in f.declarations && f.path == file && d.name == name && n == SymbolNode(file, d)
  {
    SymbolIdsApart(file, name);
    FileNodesAre(files);
    ImportNodesAreExternal(files, Paths(files));
    assert n != RootNode(title);
    assert n in AllFileNodes(files);
    var f :| f in files && (n == FileNode(f.path) || IsSymbolOf(f, n));
    var d :| d in f.declarations && n == SymbolNode(f.path, d);
    SameSymbolId(f.path, d.name, file, name);
  }

  lemma SameSymbolId(a: string, x: string, b: string, y: string)
    requires SymbolId(a, x) == SymbolId(b, y) && '#' !in a && '#' !in b
    ensures a == b && x == y
  {
    assert SymbolId(a, x)[7..] == a + "#" + x;
    assert SymbolId(b, y)[7..] == b + "#" + y;
    SplitAt('#', a, x, b, y);
  }

  /** A symbol node scores 72 exactly when its file declares the name as a class, in whatever order its declarations
      appear, and 64 otherwise. */
  lemma SymbolScore(title: string, files: seq<FileFacts>, file: string, name: string, n: Node)
    requires '#' !in file && forall f :: f in files ==> '#' !in f.path
    requires n in BuiltNodes(title, files) && n.id == SymbolId(file, name)
    ensures n.kind == Symbol && n.caption == name
    ensures n.score == if DeclaresClass(files, file, name) then 72 else 64
  {
    BuiltNodesAreBest(title, files);
    var log := NodeLog(title, files);
    var k: nat :| BestAt(log, n, k);
    assert n in log;
    OnlySymbolsUnderSymbolIds(title, files, file, name, n);
    if DeclaresClass(files, file, name) {
      var f :| f in files && f.path == file && Declaration(Class, name) in f.declarations;
      var m := SymbolNode(file, Declaration(Class, name));
      FileNodesAre(files);
      assert IsSymbolOf(f, m);
      assert m in log;
      var j :| 0 <= j < |log| && log[j] == m;
    }
  }

  lemma {:induction false} SegmentsCountSlashes(path: string)
    ensures Segments(path) == 1 + Count(path, IsSlash)
  {
    if path == [] {
    } else {
      SegmentsCountSlashes(path[1..]);
    }
  }

  predicate IsSlash(c: char) { c == '/' }

  /** `name` is the end of the path that follows its last slash. */
  predicate IsBasename(name: string, path: string) {
    && |name| <= |path| && path[|path| - |name|..] == name && '/' !in name
    && (|name| == |path| || path[|path| - |name| - 1] == '/')
  }

  lemma {:induction false} BasenameIs(path: string)
    ensures IsBasename(Basename(path), path)
  {
    if path == [] || path[|path| - 1] == '/' {
    } else {
      var front := path[..|path| - 1];
      BasenameIs(front);
      var name := Basename(front);
      assert path[|path| - |name| - 1..] == name + [path[|path| - 1]];
    }
  }

  /** Only files push file ids, only imports external ids, and only the build itself the root id. */
  lemma OnlyOwnKindUnderId(title: string, files: seq<FileFacts>, n: Node)
    requires n in NodeLog(title, files)
    ensures match n.kind
            case Repository => n == RootNode(title)
            case File => exists f :: f in files && n == FileNode(f.path)
            case External => exists package :: n == ExternalNode(package)
            case Symbol => true
    ensures |n.id| > 0
    ensures n.kind == Repository <==> n.id[0] == 'r'
    ensures n.kind == File <==> n.id[0] == 'f'
    ensures n.kind == External <==> n.id[0] == 'e'
  {
    FileNodesAre(files);
    ImportNodesAreExternal(files, Paths(files));
    assert ROOT_ID[0] == 'r';
  }

  /** A file's node scores 77 less 3 for every directory above it, but never below 30; its label is the last part of the
      path. */
  lemma FileNodeIs(title: string, files: seq<FileFacts>, f: FileFacts, n: Node)
    requires f in files && n in BuiltNodes(title, files) && n.id == FileId(f.path)
    ensures n.kind == File && IsBasename(n.caption, f.path)
    ensures var slashes := Count(f.path, IsSlash); n.score == if slashes <= 15 then 77 - 3 * slashes else 30
  {
    BuiltNodesAreBest(title, files);
    var k: nat :| BestAt(NodeLog(title, files), n, k);
    OnlyOwnKindUnderId(title, files, n);
    assert n.id[0] == 'f';
    var g :| g in files && n == FileNode(g.path);
    assert FileId(g.path)[5..] == g.path && FileId(f.path)[5..] == f.path;
    SegmentsCountSlashes(f.path);
    BasenameIs(f.path);
  }

  /** The repository scores 100 and a package 26. */
  lemma RootAndPackageScores(title: string, files: seq<FileFacts>, n: Node)
    requires n in BuiltNodes(title, files)
    ensures n.kind == Repository ==> n.score == 100 && n.caption == title
    ensures n.kind == External ==> n.score == 26 && n.id == ExternalId(n.caption)
  {
    BuiltNodesAreBest(title, files);
    var k: nat :| BestAt(NodeLog(title, files), n, k);
    OnlyOwnKindUnderId(title, files, n);
  }

  /** What a file imports that is none of its own files. */
  ghost predicate ImportsPackage(f: FileFacts, paths: set<string>, package: string) {
    exists i :: i in f.imports && i.package == package && forall c :: c in i.candidates ==> c !in paths
  }

  lemma {:induction false} FileImportNodesAre(imports: seq<Import>, paths: set<string>)
    ensures forall n :: n in ImportNodes(imports, paths) <==>
              exists i :: i in imports && Resolve(i.candidates, paths) == None && n == ExternalNode(i.package)
  {
    if imports == [] {
    } else {
      FileImportNodesAre(imports[1..], paths);
      assert forall i :: i in imports <==> i == imports[0] || i in imports[1..];
    }
  }

  lemma PackagePushed(f: FileFacts, paths: set<string>, package: string)
    ensures ExternalNode(package) in ImportNodes(f.imports, paths) <==> ImportsPackage(f, paths, package)
  {
    FileImportNodesAre(f.imports, paths);
    forall i | i in f.imports
      ensures Resolve(i.candidates, paths) == None <==> forall c :: c in i.candidates ==> c !in paths
    {
      ResolvedIsFile(i.candidates, paths);
    }
    assert ExternalId(package)[9..] == package;
    if ExternalNode(package) in ImportNodes(f.imports, paths) {
      var i :| i in f.imports && Resolve(i.candidates, paths) == None
          && ExternalNode(package) == ExternalNode(i.package);
      assert i.package == package;
    }
  }

  lemma {:induction false} AllPackagesPushed(files: seq<FileFacts>, paths: set<string>, package: string)
    ensures ExternalNode(package) in AllImportNodes(files, paths) <==>
              exists f :: f in files && ImportsPackage(f, paths, package)
  {
    if files == [] {
    } else {
      PackagePushed(files[0], paths, package);
      AllPackagesPushed(files[1..], paths, package);
      assert forall f :: f in files <==> f == files[0] || f in files[1..];
    }
  }

  /** A package has a node exactly when some file imports it and none of the paths it may stand for is listed. */
  lemma PackageShownIff(title: string, files: seq<FileFacts>, package: string)
    ensures ExternalId(package) in IdSet(BuiltNodes(title, files)) <==>
              exists f :: f in files && ImportsPackage(f, Paths(files), package)
  {
    BuiltNodesAreBest(title, files);
    AllPackagesPushed(files, Paths(files), package);
    var log := NodeLog(title, files);
    if ExternalId(package) in IdSet(log) {
      var n :| n in log && n.id == ExternalId(package);
      OnlyOwnKindUnderId(title, files, n);
      assert n.id[0] == 'e';
      var p :| n == ExternalNode(p);
      assert ExternalId(p)[9..] == p && ExternalId(package)[9..] == package;
      FileNodesAre(files);
      assert n in AllImportNodes(files, Paths(files));
    }
  }

  /** Files and declared names always have their nodes. */
  lemma FilesAndSymbolsShown(title: string, files: seq<FileFacts>, f: FileFacts)
    requires f in files
    ensures FileId(f.path) in IdSet(BuiltNodes(title, files))
    ensures forall name :: DeclaresName(f, name) ==> SymbolId(f.path, name) in IdSet(BuiltNodes(title, files))
    ensures ROOT_ID in IdSet(BuiltNodes(title, files))
  {
    BuiltNodesAreBest(title, files);
    FileNodesAre(files);
    var log := NodeLog(title, files);
    assert RootNode(title) in log && FileNode(f.path) in log;
    forall name | DeclaresName(f, name)
      ensures SymbolId(f.path, name) in IdSet(log)
    {
      var d :| d in f.declarations && d.name == name;
      assert IsSymbolOf(f, SymbolNode(f.path, d));
      assert SymbolNode(f.path, d) in log;
    }
  }
}
