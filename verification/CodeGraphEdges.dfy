/** Which edges a built code graph keeps: ids decide, and the first push of an id wins (app/code-graph.ts). */
module CodeGraphEdges {
  import opened Options
  import opened CodeGraph
  import opened CodeGraphBuild
  import opened CodeGraphLaws

  // --- Where each edge comes from ---

  ghost predicate IsContains(files: seq<FileFacts>, e: Edge) {
    exists f :: f in files && e == ContainsEdge(f.path)
  }

  ghost predicate IsDeclares(files: seq<FileFacts>, e: Edge) {
    exists f :: f in files && DeclaredBy(f, e)
  }

  ghost predicate DeclaredBy(f: FileFacts, e: Edge) {
    exists d :: d in f.declarations && e == DeclaresEdge(f.path, d.name)
  }

  ghost predicate IsImport(files: seq<FileFacts>, paths: set<string>, e: Edge) {
    exists f :: f in files && ImportedBy(f, paths, e)
  }

  ghost predicate ImportedBy(f: FileFacts, paths: set<string>, e: Edge) {
    exists i :: i in f.imports && e == ImportEdge(f.path, i, paths)
  }

  ghost predicate IsResolvedCall(files: seq<FileFacts>, e: Edge) {
    exists f, name :: f in files && IsCall(EnterAll(map[], files), f, name, e)
  }

  lemma {:induction false} DeclaresEdgesAre(file: string, ds: seq<Declaration>)
    ensures forall e :: e in DeclaresEdges(file, ds) <==> exists d :: d in ds && e == DeclaresEdge(file, d.name)
  {
    if ds == [] {
    } else {
      DeclaresEdgesAre(file, ds[1..]);
      assert forall d :: d in ds <==> d == ds[0] || d in ds[1..];
    }
  }

  lemma {:induction false} FileEdgesAre(files: seq<FileFacts>)
    ensures forall e :: e in AllFileEdges(files) <==> IsContains(files, e) || IsDeclares(files, e)
  {
    if files == [] {
    } else {
      var f := files[0];
      DeclaresEdgesAre(f.path, Own(f));
      FreshKeepsAll(f.declarations, {});
      FileEdgesAre(files[1..]);
      assert forall e :: e in FileEdges(f) <==> e == ContainsEdge(f.path) || DeclaredBy(f, e);
      assert forall g :: g in files <==> g == f || g in files[1..];
    }
  }

  lemma {:induction false} FileImportEdgesAre(file: string, imports: seq<Import>, paths: set<string>)
    ensures forall e :: e in ImportEdges(file, imports, paths) <==>
              exists i :: i in imports && e == ImportEdge(file, i, paths)
  {
    if imports == [] {
    } else {
      FileImportEdgesAre(file, imports[1..], paths);
      assert forall i :: i in imports <==> i == imports[0] || i in imports[1..];
    }
  }

  lemma {:induction false} ImportEdgesAre(files: seq<FileFacts>, paths: set<string>)
    ensures forall e :: e in AllImportEdges(files, paths) <==> IsImport(files, paths, e)
  {
    if files == [] {
    } else {
      var f := files[0];
      FileImportEdgesAre(f.path, f.imports, paths);
      ImportEdgesAre(files[1..], paths);
      assert forall e :: e in ImportEdges(f.path, f.imports, paths) <==> ImportedBy(f, paths, e);
      assert forall g :: g in files <==> g == f || g in files[1..];
    }
  }

  /** The pushes of a build, by kind. */
  lemma PushesAre(files: seq<FileFacts>, e: Edge)
    ensures e in EdgeLog(files) <==>
              || IsContains(files, e) || IsDeclares(files, e)
              || IsImport(files, Paths(files), e) || IsResolvedCall(files, e)
  {
    FileEdgesAre(files);
    ImportEdgesAre(files, Paths(files));
    AllCallEdgesAre(files, EnterAll(map[], files));
  }

  /** How the id of an edge of this kind begins. */
  function Tag(kind: EdgeType): string {
    match kind
    case Contains => "co"
    case Declares => "de"
    case Imports => "im"
    case ImportsExternal => "im"
    case Calls => "ca"
  }

  /** The kind of a push can be read off its id, but for the two kinds of imports. */
  lemma PushIsTagged(files: seq<FileFacts>, e: Edge)
    requires e in EdgeLog(files)
    ensures |e.id| >= 2 && e.id[..2] == Tag(e.kind)
    ensures e.kind == Contains <==> IsContains(files, e)
    ensures e.kind == Declares <==> IsDeclares(files, e)
    ensures e.kind in {Imports, ImportsExternal} <==> IsImport(files, Paths(files), e)
    ensures e.kind == Calls <==> IsResolvedCall(files, e)
  {
    PushesAre(files, e);
  }

  lemma SameIdSameTag(files: seq<FileFacts>, e: Edge, g: Edge)
    requires e in EdgeLog(files) && g in EdgeLog(files) && e.id == g.id
    ensures e.kind == g.kind || (e.kind in {Imports, ImportsExternal} && g.kind in {Imports, ImportsExternal})
  {
    PushIsTagged(files, e);
    PushIsTagged(files, g);
    assert Tag(e.kind)[0] == Tag(g.kind)[0] && Tag(e.kind)[1] == Tag(g.kind)[1];
  }

  /** A push is kept when every other push of its id, self-loops aside, is the same edge. */
  lemma KeptWhenAlone(files: seq<FileFacts>, e: Edge)
    requires e in EdgeLog(files) && e.source != e.target
    requires forall g :: g in EdgeLog(files) && g.id == e.id && g.source != g.target ==> g == e
    ensures e in BuiltEdges(files)
  {
    var log := EdgeLog(files);
    var i :| 0 <= i < |log| && log[i] == e;
    BuiltEdgesAreFirst(files);
    SomeFirst(log, i);
    var g :| g in log && g.id == e.id && IsFirst(log, g);
    assert g == e;
  }

  lemma KeptIdsDiffer(files: seq<FileFacts>, e: Edge, g: Edge)
    requires e in BuiltEdges(files) && g in BuiltEdges(files) && e.id == g.id
    ensures e == g
  {
    BuiltEdgesAreFirst(files);
  }

  lemma KeptWasPushed(files: seq<FileFacts>, e: Edge)
    requires e in BuiltEdges(files)
    ensures e in EdgeLog(files)
  {
    BuiltEdgesAreFirst(files);
    var k: nat :| FirstAt(EdgeLog(files), e, k);
  }

  /** What an edge joins and how much it weighs goes by its kind: the repository and a file, a file and a symbol of its
      own, two files, a file and a package, or a file and a symbol. */
  lemma EdgesByKind(files: seq<FileFacts>, e: Edge)
    requires e in BuiltEdges(files)
    ensures match e.kind
            case Contains => e.weight == 0.22 && e.source == ROOT_ID && IsFile(files, e.target)
            case Declares =>
              && e.weight == 0.75
              && exists f, name ::
                   && f in files && DeclaresName(f, name)
                   && e.source == FileId(f.path) && e.target == SymbolId(f.path, name)
            case Imports => e.weight == 0.82 && IsFile(files, e.source) && IsFile(files, e.target)
            case ImportsExternal =>
              e.weight == 0.36 && IsFile(files, e.source) && exists package :: e.target == ExternalId(package)
            case Calls => e.weight == 0.48 && IsFile(files, e.source)
  {
    KeptWasPushed(files, e);
    PushIsTagged(files, e);
    match e.kind
    case Contains =>
    case Declares =>
      var f :| f in files && DeclaredBy(f, e);
      var d :| d in f.declarations && e == DeclaresEdge(f.path, d.name);
      assert DeclaresName(f, d.name);
    case Calls =>
    case _ =>
      var f :| f in files && ImportedBy(f, Paths(files), e);
      var i :| i in f.imports && e == ImportEdge(f.path, i, Paths(files));
      ResolvedIsFile(i.candidates, Paths(files));
  }

  ghost predicate IsFile(files: seq<FileFacts>, id: string) {
    exists f :: f in files && id == FileId(f.path)
  }

  // --- Calls ---

  /** Every call edge of the built graph goes to the calling file's own symbol if it declares the name, else to the
      only entry of the name. */
  lemma CallEdgesAreSound(files: seq<FileFacts>, e: Edge)
    requires forall f :: f in files ==> '#' !in f.path
    requires e in BuiltEdges(files) && e.kind == Calls
    ensures exists f, name ::
            f in files && name in f.calls && e.source == FileId(f.path) && CallsTo(files, f.path, name, e.target)
  {
    KeptWasPushed(files, e);
    PushIsTagged(files, e);
    var f, name :| f in files && IsCall(EnterAll(map[], files), f, name, e);
    CallResolution(files, f.path, name);
    assert CallsTo(files, f.path, name, e.target);
  }

  lemma CallIdTail(p: string, a: string, x: string)
    ensures CallsEdge(p, SymbolId(a, x)).id[6..] == p + ":symbol:" + a + ['#'] + x
  {
  }

  /** What the id of a call edge determines, for paths without `#`: the name, and the two paths run together. */
  lemma SplitCallId(p: string, a: string, x: string, q: string, b: string, y: string)
    requires '#' !in p && '#' !in a && '#' !in q && '#' !in b
    requires CallsEdge(p, SymbolId(a, x)).id == CallsEdge(q, SymbolId(b, y)).id
    ensures x == y && p + ":symbol:" + a == q + ":symbol:" + b
  {
    var one, two := p + ":symbol:" + a, q + ":symbol:" + b;
    CallIdTail(p, a, x);
    CallIdTail(q, b, y);
    SplitAt('#', one, x, two, y);
  }

  lemma SameEndSameStart(p: string, q: string, middle: string, a: string)
    requires p + middle + a == q + middle + a
    ensures p == q
  {
    var s := p + middle + a;
    assert |s| == |q + middle + a|;
    assert p == s[..|p|] && q == s[..|q|];
  }

  lemma SameHalves(p: string, q: string, middle: string)
    requires p + middle + p == q + middle + q
    ensures p == q
  {
    var s := p + middle + p;
    assert |s| == |q + middle + q|;
    assert p == s[..|p|] && q == s[..|q|];
  }

  /** The target of a resolved call is the symbol of a file that declares the name; with two such files it is the
      caller's own. */
  lemma ResolvedTarget(files: seq<FileFacts>, f: FileFacts, name: string, e: Edge) returns (g: FileFacts)
    requires forall f :: f in files ==> '#' !in f.path
    requires f in files && IsCall(EnterAll(map[], files), f, name, e)
    ensures g in files && DeclaresName(g, name) && e == CallsEdge(f.path, SymbolId(g.path, name))
    ensures g.path == f.path || Entries(files, name) == [SymbolId(g.path, name)]
  {
    TargetIsSymbol(files, f.path, name);
    CallResolution(files, f.path, name);
    g :| g in files && DeclaresName(g, name) && e.target == SymbolId(g.path, name);
    if DeclaredIn(files, f.path, name) {
      SameSymbolId(g.path, name, f.path, name);
    }
  }

  /** Two resolved calls with one id are one edge: ids could only run together if a name were declared in two files,
      and then both calls would be local. */
  lemma ResolvedCallsApart(files: seq<FileFacts>, f: FileFacts, n: string, e: Edge, g: FileFacts, m: string, d: Edge)
    requires forall f :: f in files ==> '#' !in f.path
    requires f in files && IsCall(EnterAll(map[], files), f, n, e)
    requires g in files && IsCall(EnterAll(map[], files), g, m, d)
    requires e.id == d.id
    ensures e == d
  {
    var a := ResolvedTarget(files, f, n, e);
    var b := ResolvedTarget(files, g, m, d);
    SplitCallId(f.path, a.path, n, g.path, b.path, m);
    if a.path == b.path {
      SameEndSameStart(f.path, g.path, ":symbol:", a.path);
    } else {
      EntriesAre(files, n);
      assert SymbolId(a.path, n) in Entries(files, n) && SymbolId(b.path, n) in Entries(files, n);
      if SymbolId(a.path, n) == SymbolId(b.path, n) {
        SameSymbolId(a.path, n, b.path, n);
      }
      assert a.path == f.path && b.path == g.path;
      SameHalves(f.path, g.path, ":symbol:");
    }
  }

  /** Every call that resolves has its edge: no call edge is ever lost to another one with its id. */
  lemma CallEdgesAreComplete(files: seq<FileFacts>, f: FileFacts, name: string, target: string)
    requires forall f :: f in files ==> '#' !in f.path
    requires f in files && name in f.calls && CallsTo(files, f.path, name, target)
    ensures CallsEdge(f.path, target) in BuiltEdges(files)
  {
    var table := EnterAll(map[], files);
    CallResolution(files, f.path, name);
    var e := CallsEdge(f.path, target);
    assert IsCall(table, f, name, e);
    TargetIsSymbol(files, f.path, name);
    var h :| h in files && DeclaresName(h, name) && target == SymbolId(h.path, name);
    SymbolIdsApart(h.path, name);
    PushesAre(files, e);
    forall d | d in EdgeLog(files) && d.id == e.id
      ensures d == e
    {
      SameIdSameTag(files, e, d);
      PushIsTagged(files, d);
      var g, m :| g in files && IsCall(table, g, m, d);
      ResolvedCallsApart(files, f, name, e, g, m, d);
    }
    KeptWhenAlone(files, e);
  }

  // --- Containment and declarations ---

  /** Each file is contained in the repository. */
  lemma ContainsEdgesKept(files: seq<FileFacts>, f: FileFacts)
    requires f in files
    ensures ContainsEdge(f.path) in BuiltEdges(files)
  {
    var e := ContainsEdge(f.path);
    assert ROOT_ID[0] == 'r' && FileId(f.path)[0] == 'f';
    PushesAre(files, e);
    forall d | d in EdgeLog(files) && d.id == e.id
      ensures d == e
    {
      SameIdSameTag(files, e, d);
      PushIsTagged(files, d);
      var g :| g in files && d == ContainsEdge(g.path);
      assert e.id[14..] == f.path && d.id[14..] == g.path;
    }
    KeptWhenAlone(files, e);
  }

  lemma SplitDeclaresId(p: string, x: string, q: string, y: string)
    requires ':' !in p && ':' !in q && DeclaresEdge(p, x).id == DeclaresEdge(q, y).id
    ensures p == q && x == y
  {
    assert DeclaresEdge(p, x).id[9..] == p + [':'] + x;
    assert DeclaresEdge(q, y).id[9..] == q + [':'] + y;
    SplitAt(':', p, x, q, y);
  }

  /** Each file declares its symbols, as long as paths hold no `:`. */
  lemma DeclaresEdgesKept(files: seq<FileFacts>, f: FileFacts, name: string)
    requires forall f :: f in files ==> ':' !in f.path
    requires f in files && DeclaresName(f, name)
    ensures DeclaresEdge(f.path, name) in BuiltEdges(files)
  {
    var e := DeclaresEdge(f.path, name);
    SymbolIdsApart(f.path, name);
    assert DeclaredBy(f, e);
    PushesAre(files, e);
    forall d | d in EdgeLog(files) && d.id == e.id
      ensures d == e
    {
      SameIdSameTag(files, e, d);
      PushIsTagged(files, d);
      var g :| g in files && DeclaredBy(g, d);
      var x :| x in g.declarations && d == DeclaresEdge(g.path, x.name);
      SplitDeclaresId(f.path, name, g.path, x.name);
    }
    KeptWhenAlone(files, e);
  }

  // --- Imports ---

  /** What an import is about: the path it resolves to, or its package. */
  function Imported(i: Import, paths: set<string>): string {
    match Resolve(i.candidates, paths)
    case Some(p) => p
    case None => i.package
  }

  lemma SameImportId(p: string, i: Import, q: string, j: Import, paths: set<string>)
    requires ':' !in p && ':' !in q
    ensures ImportEdge(p, i, paths).id == ImportEdge(q, j, paths).id <==>
              p == q && Imported(i, paths) == Imported(j, paths)
  {
    var x, y := Imported(i, paths), Imported(j, paths);
    assert ImportEdge(p, i, paths).id[8..] == p + [':'] + x;
    assert ImportEdge(q, j, paths).id[8..] == q + [':'] + y;
    if ImportEdge(p, i, paths).id == ImportEdge(q, j, paths).id {
      SplitAt(':', p, x, q, y);
    }
  }

  /** One file imports another file and a package of the same name. */
  ghost predicate ImportsClash(files: seq<FileFacts>) {
    exists f, g :: f in files && g in files && f.path == g.path && Clash(f, g, Paths(files))
  }

  ghost predicate Clash(f: FileFacts, g: FileFacts, paths: set<string>) {
    exists i, j :: i in f.imports && j in g.imports && ClashingPair(f.path, i, j, paths)
  }

  predicate ClashingPair(file: string, i: Import, j: Import, paths: set<string>) {
    && Resolve(i.candidates, paths).Some? && Resolve(j.candidates, paths) == None
    && Imported(i, paths) == j.package && j.package != file
  }

  lemma FileIdsApart(a: string, b: string)
    ensures FileId(a) == FileId(b) <==> a == b
    ensures FileId(a) != ExternalId(b)
  {
    assert FileId(a)[5..] == a && FileId(b)[5..] == b;
    assert FileId(a)[0] == 'f' && ExternalId(b)[0] == 'e';
  }

  /** Two import edges with one id, neither a self-loop, are the same or clash. */
  lemma SameIdOrClash(files: seq<FileFacts>, e: Edge, d: Edge)
    requires forall f :: f in files ==> ':' !in f.path
    requires IsImport(files, Paths(files), e) && IsImport(files, Paths(files), d)
    requires e.id == d.id && e.source != e.target && d.source != d.target
    ensures e == d || ImportsClash(files)
  {
    var paths := Paths(files);
    var f :| f in files && ImportedBy(f, paths, e);
    var i :| i in f.imports && e == ImportEdge(f.path, i, paths);
    var g :| g in files && ImportedBy(g, paths, d);
    var j :| j in g.imports && d == ImportEdge(g.path, j, paths);
    SameImportId(f.path, i, g.path, j, paths);
    FileIdsApart(f.path, Imported(i, paths));
    if Resolve(i.candidates, paths).Some? && Resolve(j.candidates, paths) == None {
      assert ClashingPair(f.path, i, j, paths);
      assert Clash(f, g, paths);
    }
    if Resolve(i.candidates, paths) == None && Resolve(j.candidates, paths).Some? {
      assert ClashingPair(g.path, j, i, paths);
      assert Clash(g, f, paths);
    }
  }

  /** Both edges of a clash are pushed with one id, so that one of them is lost. */
  lemma ClashLosesOne(files: seq<FileFacts>)
    requires forall f :: f in files ==> ':' !in f.path
    requires ImportsClash(files)
    ensures exists e :: IsImport(files, Paths(files), e) && e.source != e.target && e !in BuiltEdges(files)
  {
    var paths := Paths(files);
    var f, g :| f in files && g in files && f.path == g.path && Clash(f, g, paths);
    var i, j :| i in f.imports && j in g.imports && ClashingPair(f.path, i, j, paths);
    var e, d := ImportEdge(f.path, i, paths), ImportEdge(g.path, j, paths);
    assert ImportedBy(f, paths, e) && ImportedBy(g, paths, d);
    SameImportId(f.path, i, g.path, j, paths);
    FileIdsApart(f.path, Imported(i, paths));
    FileIdsApart(f.path, j.package);
    assert e != d;
    if e in BuiltEdges(files) && d in BuiltEdges(files) {
      KeptIdsDiffer(files, e, d);
    }
  }

  /** For paths without `:`, every import but a file's import of itself has its edge exactly when no file imports both
      another file and a package of the same name. */
  lemma ImportEdgesKeptIff(files: seq<FileFacts>)
    requires forall f :: f in files ==> ':' !in f.path
    ensures (forall e :: IsImport(files, Paths(files), e) && e.source != e.target ==> e in BuiltEdges(files))
       <==> !ImportsClash(files)
  {
    if ImportsClash(files) {
      ClashLosesOne(files);
    } else {
      forall e | IsImport(files, Paths(files), e) && e.source != e.target
        ensures e in BuiltEdges(files)
      {
        PushesAre(files, e);
        PushIsTagged(files, e);
        forall d | d in EdgeLog(files) && d.id == e.id && d.source != d.target
          ensures d == e
        {
          SameIdSameTag(files, e, d);
          PushIsTagged(files, d);
          SameIdOrClash(files, e, d);
        }
        KeptWhenAlone(files, e);
      }
    }
  }

  const CHART_FILES := [
    FileFacts("main.js", [], [Import(["chart.js"], "."), Import([], "chart.js")], []),
    FileFacts("chart.js", [], [], [])]

  /** An ordinary clash: `main.js` imports `./chart.js` and the package `chart.js`. */
  lemma ChartLosesAnImport()
    ensures exists e ::
              IsImport(CHART_FILES, Paths(CHART_FILES), e) && e.source != e.target && e !in BuiltEdges(CHART_FILES)
  {
    var main, paths := CHART_FILES[0], Paths(CHART_FILES);
    assert CHART_FILES[1] in CHART_FILES && "chart.js" in paths;
    assert Resolve(["chart.js"], paths) == Some("chart.js");
    assert "chart.js"[0] != "main.js"[0];
    assert ClashingPair(main.path, main.imports[0], main.imports[1], paths);
    assert Clash(main, main, paths);
    ClashLosesOne(CHART_FILES);
  }
}
