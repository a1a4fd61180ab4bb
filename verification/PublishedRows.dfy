/** What a rendered payload says of the tables, row by row. */
module PublishedRows {
  import opened Prelude
  import opened Rows
  import opened Sorting
  import A = Analyzers
  import C = Declarations
  import D = EdgeDocuments
  import E = EdgeIdentities
  import F = PublishedForest
  import I = NodeIdentities
  import K = Keys
  import N = NodeDocuments
  import P = Payloads
  import R = Reconcile

  /** The row's file is not tombstoned. */
  predicate IsLive(files: map<string, R.FileRow>, e: D.StoredEdge) {
    e.owner in files && !files[e.owner].deleted
  }

  lemma {:induction false} LiveRowsAreRead(
    table: map<string, D.StoredEdge>, files: map<string, R.FileRow>, keys: seq<string>, e: D.StoredEdge)
    ensures e in P.EdgeRows(table, files, keys) <==> exists key <- keys :: key in table && table[key] == e && IsLive(files, e)
  {
    if keys != [] {
      var init, last := keys[..|keys| - 1], keys[|keys| - 1];
      LiveRowsAreRead(table, files, init, e);
      assert keys == init + [last];
    }
  }

  /** The rows behind the edges of a payload. */
  lemma RowsBehind(
    table: map<string, D.StoredEdge>, files: map<string, R.FileRow>, keys: seq<string>, e: D.StoredEdge)
    requires Lists(keys, table.Keys)
    ensures e in P.EdgeRows(table, files, keys) <==> exists key <- table :: table[key] == e && IsLive(files, e)
  {
    LiveRowsAreRead(table, files, keys, e);
    assert forall key :: key in keys <==> key in SetOf(keys);
  }

  lemma SortedHasSame(documents: seq<N.Document<D.EdgeBody>>, d: N.Document<D.EdgeBody>)
    ensures d in SortBy(N.IdNotAfter<D.EdgeBody>, documents) <==> d in documents
  {
    SortKeepsElements(N.IdNotAfter<D.EdgeBody>, documents);
    SameMembers(SortBy(N.IdNotAfter<D.EdgeBody>, documents), documents);
  }

  /** Every published edge repeats a live row. */
  lemma EdgesSay(
    hash: string -> string, project: string, table: map<string, D.StoredEdge>, files: map<string, R.FileRow>,
    payload: P.Payload, nodes: set<N.StoredNode>, emitted: seq<N.StoredNode>, names: map<string, string>, keys: seq<string>,
    d: N.Document<D.EdgeBody>) returns (key: string)
    requires P.EdgesRendered(hash, project, table, files, payload, nodes, emitted, names, keys) && d in payload.edges
    ensures key in table && IsLive(files, table[key])
    ensures E.Says(d, N.PublishedBy(hash, project, nodes, emitted), names, table[key])
  {
    var published, rows := N.PublishedBy(hash, project, nodes, emitted), P.EdgeRows(table, files, keys);
    SortedHasSame(D.Kept(hash, published, names, rows), d);
    D.KeptIsExact(hash, published, names, rows);
    var e :| e in rows && D.DocumentOf(hash, published, names, e) == Some(d);
    RowsBehind(table, files, keys, e);
    key :| key in table && table[key] == e && IsLive(files, e);
    E.DocumentSays(hash, published, names, e);
  }

  /** Two published nodes are linked in a payload exactly when a live row links what they
      stand for. */
  lemma LinksArePublished(
    hash: string -> string, project: string, table: map<string, D.StoredEdge>, files: map<string, R.FileRow>,
    payload: P.Payload, nodes: set<N.StoredNode>, emitted: seq<N.StoredNode>, names: map<string, string>, keys: seq<string>,
    a: string, b: string)
    requires P.EdgesRendered(hash, project, table, files, payload, nodes, emitted, names, keys) && Injective(hash)
    requires E.NoNameIsAnId(N.PublishedBy(hash, project, nodes, emitted), names, P.EdgeRows(table, files, keys))
    ensures F.DocumentLinked(payload.edges, a, b) <==>
            exists key <- table :: IsLive(files, table[key]) && E.RowLinks(N.PublishedBy(hash, project, nodes, emitted), table[key], a, b)
  {
    var published, rows := N.PublishedBy(hash, project, nodes, emitted), P.EdgeRows(table, files, keys);
    var kept := D.Kept(hash, published, names, rows);
    E.LinksAreKept(hash, published, names, rows, a, b);
    if F.DocumentLinked(payload.edges, a, b) {
      var d :| d in payload.edges && d.body.source == a && d.body.target == Resolved(b);
      SortedHasSame(kept, d);
      assert E.Links(d, a, b);
      var e :| e in rows && E.RowLinks(published, e, a, b);
      RowsBehind(table, files, keys, e);
    }
    if key :| key in table && IsLive(files, table[key]) && E.RowLinks(published, table[key], a, b) {
      RowsBehind(table, files, keys, table[key]);
      assert table[key] in rows;
      var d :| d in kept && E.Links(d, a, b);
      SortedHasSame(kept, d);
    }
  }

  // Nodes.

  /** The document says of the row what the row says, under a numbered name. */
  ghost predicate NodeSays(d: N.Document<N.NodeBody>, project: string, row: NodeRow) {
    var start := if row.body.startLine >= 1 then row.body.startLine else 1;
    var name := if row.body.qualifiedName == "" then row.qualifiedName else row.body.qualifiedName;
    && d.body.project == project && d.body.language == row.body.language && d.body.file == row.body.file
    && d.body.startLine == start && d.body.endLine == (if row.body.endLine > start then row.body.endLine else start)
    && (row.body.name != "" ==> d.body.name == row.body.name)
    && d.body.attributes == row.body.attributes
    && |name| <= |d.body.qualifiedName| && d.body.qualifiedName[..|name|] == name
    && N.ContractNodeKind(row.kind) == Some(d.body.kind)
  }

  /** A row is published if it has a language, a file and a kind the contract knows. */
  ghost predicate IsPublished(row: NodeRow) {
    row.body.language != "" && row.body.file != "" && N.ContractNodeKind(row.kind).Some?
  }

  lemma DocumentSays(hash: string -> string, project: string, table: map<string, NodeRow>, nodes: set<N.StoredNode>, n: N.StoredNode)
    requires P.IsNodeOf(table, n) && N.GroupOf(n).Some?
    ensures IsPublished(table[n.id]) && NodeSays(N.DocumentOf(hash, project, nodes, n), project, table[n.id])
  {
  }

  /** Every published node repeats a row. */
  lemma NodesSay(
    hash: string -> string, project: string, table: map<string, NodeRow>, payload: P.Payload, nodes: set<N.StoredNode>,
    emitted: seq<N.StoredNode>, d: N.Document<N.NodeBody>) returns (key: string)
    requires P.NodesRendered(hash, project, table, payload, nodes, emitted) && d in payload.nodes
    ensures key in table && IsPublished(table[key]) && NodeSays(d, project, table[key])
    ensures key in N.PublishedBy(hash, project, nodes, emitted)
    ensures d.id == N.PublishedBy(hash, project, nodes, emitted)[key]
  {
    var documents := N.DocumentsOf(hash, project, nodes, emitted);
    SortKeepsElements(N.IdNotAfter<N.NodeBody>, documents);
    SameMembers(payload.nodes, documents);
    I.DocumentsFollow(hash, project, nodes, emitted);
    var i :| 0 <= i < |documents| && documents[i] == d;
    var n := emitted[i];
    EmittedIsRow(table, nodes, emitted, n);
    PublishedHasRow(hash, project, table, nodes, emitted, n);
    DocumentSays(hash, project, table, nodes, n);
    key := n.id;
  }

  lemma EmittedIsRow(table: map<string, NodeRow>, nodes: set<N.StoredNode>, emitted: seq<N.StoredNode>, n: N.StoredNode)
    requires (forall m :: m in nodes <==> P.IsNodeOf(table, m)) && Lists(emitted, N.Publishable(nodes))
    ensures n in emitted <==> P.IsNodeOf(table, n) && N.GroupOf(n).Some?
  {
    assert n in emitted <==> n in SetOf(emitted);
  }

  lemma PublishedHasRow(
    hash: string -> string, project: string, table: map<string, NodeRow>, nodes: set<N.StoredNode>,
    emitted: seq<N.StoredNode>, n: N.StoredNode)
    requires (forall m :: m in nodes <==> P.IsNodeOf(table, m)) && Lists(emitted, N.Publishable(nodes))
    requires n in emitted
    ensures n.id in N.PublishedBy(hash, project, nodes, emitted)
    ensures N.PublishedBy(hash, project, nodes, emitted)[n.id] == N.PublishedId(hash, project, nodes, n)
  {
    P.RowsAreKeyed(table, nodes);
    assert forall m <- SetOf(emitted) :: m in N.Publishable(nodes);
    N.PublishedByHolds(hash, project, nodes, emitted);
  }

  /** Every row that can be published is. */
  lemma RowIsPublished(
    hash: string -> string, project: string, table: map<string, NodeRow>, nodes: set<N.StoredNode>,
    emitted: seq<N.StoredNode>, key: string)
    requires (forall m :: m in nodes <==> P.IsNodeOf(table, m)) && Lists(emitted, N.Publishable(nodes))
    requires key in table && IsPublished(table[key])
    ensures key in N.PublishedBy(hash, project, nodes, emitted)
  {
    var n := N.ReadNode(key, table[key]).value;
    EmittedIsRow(table, nodes, emitted, n);
    PublishedHasRow(hash, project, table, nodes, emitted, n);
  }

  // What the passes leave is published whole.

  /** The contract has a kind for every kind the analyzers declare. */
  lemma KindsArePublished(kind: A.Kind)
    ensures N.ContractNodeKind(A.Spelling(kind)) == Some(
        match kind
        case Namespace => "Namespace"
        case Class => "Class"
        case Interface => "Interface"
        case Struct => "Class"
        case Record => "Class"
        case Enum => "Class"
        case Method => "Method"
        case Function => "Function"
        case TypeAlias => "Property"
        case Variable => "Property"
        case DefaultExport => "Class")
  {
  }

  /** The tables hold the facts of every file, by key, and nothing else. */
  ghost predicate AreTables(facts: map<string, Facts>, nodeTable: map<string, NodeRow>, edgeTable: map<string, D.StoredEdge>) {
    && (forall p <- facts, n <- facts[p].nodes :: n in nodeTable && nodeTable[n] == facts[p].nodes[n])
    && (forall n <- nodeTable :: exists p <- facts :: n in facts[p].nodes)
    && (forall p <- facts, e <- facts[p].edges :: e in edgeTable && edgeTable[e] == D.StoredEdge(facts[p].edges[e], p))
    && forall e <- edgeTable :: exists p <- facts :: e in facts[p].edges
  }

  /** The tables after passes that completed, over paths that are not empty. */
  ghost predicate AreLeft(
    a: A.Analyzer, files: map<string, R.FileRow>, facts: map<string, Facts>, nodeTable: map<string, NodeRow>,
    edgeTable: map<string, D.StoredEdge>)
  {
    && K.IsDigest(a.hash) && R.Consistent(A.ProfileOf(a), files, facts) && R.AllClean(files)
    && AreTables(facts, nodeTable, edgeTable) && "" !in files
  }

  /** A file with facts is observed and in a pinned language. */
  lemma FileWithFacts(a: A.Analyzer, files: map<string, R.FileRow>, facts: map<string, Facts>, p: string)
    requires R.Consistent(A.ProfileOf(a), files, facts) && R.AllClean(files)
    requires p in facts && facts[p] != NO_FACTS
    ensures p in R.KnownOf(files) && a.language(p).Some? && !files[p].deleted
    ensures R.StoresDeclarations(A.ProfileOf(a), R.KnownOf(files), facts)
  {
    R.CleanIsCold(A.ProfileOf(a), files, facts);
    R.ColdStoresDeclarations(A.ProfileOf(a), R.KnownOf(files), facts);
    assert R.RowConsistent(A.ProfileOf(a), p, files[p], facts[p]);
  }

  lemma LeftNodeIsPublished(
    a: A.Analyzer, files: map<string, R.FileRow>, facts: map<string, Facts>, nodeTable: map<string, NodeRow>,
    edgeTable: map<string, D.StoredEdge>, key: string)
    requires AreLeft(a, files, facts, nodeTable, edgeTable) && key in nodeTable
    ensures IsPublished(nodeTable[key])
  {
    var p :| p in facts && key in facts[p].nodes;
    FileWithFacts(a, files, facts, p);
    A.SourceFactsAreDeclarations(a, R.KnownOf(files), facts, p);
    var language, file := a.language(p).value, A.SourcePath(a.prefix, p);
    var ss := a.scan(file, R.KnownOf(files)[p].bytes).value;
    var i := A.NodesAreDeclared(a, language, file, ss, facts[p], key);
    assert A.Describes(nodeTable[key], ss[i], key, language, file);
    KindsArePublished(ss[i].kind);
    C.PortablePath(file);
  }

  lemma FileEdgeLinks(
    a: A.Analyzer, files: map<string, R.FileRow>, facts: map<string, Facts>, p: string, key: string)
    requires K.IsDigest(a.hash) && R.Consistent(A.ProfileOf(a), files, facts) && R.AllClean(files)
    requires p in facts && key in facts[p].edges
    ensures p in files && !files[p].deleted && IsInside(facts[p], key)
  {
    FileWithFacts(a, files, facts, p);
    var language, file := a.language(p).value, A.SourcePath(a.prefix, p);
    assert A.AnalyzeFile(a, p, R.KnownOf(files)[p].bytes) == Some(facts[p]);
    var ss := a.scan(file, R.KnownOf(files)[p].bytes).value;
    C.FactsAreSelfContained(A.OriginOf(a, language, file), A.Declared(a, file, ss));
    var parent, i := A.EdgeIsDescribed(a, language, file, ss, facts[p], key);
  }

  /** A containment between two nodes of the file. */
  ghost predicate IsInside(f: Facts, key: string) {
    key in f.edges
    && var row := f.edges[key];
       row.kind == "contains" && row.source in f.nodes && row.target.Resolved? && row.target.id in f.nodes
  }

  lemma EdgeHasFile(
    facts: map<string, Facts>, nodeTable: map<string, NodeRow>, edgeTable: map<string, D.StoredEdge>, key: string)
    returns (p: string)
    requires AreTables(facts, nodeTable, edgeTable) && key in edgeTable
    ensures p in facts && key in facts[p].edges && edgeTable[key] == D.StoredEdge(facts[p].edges[key], p)
    ensures facts[p].nodes.Keys <= nodeTable.Keys
  {
    p :| p in facts && key in facts[p].edges;
  }

  lemma LeftEdgeLinks(
    a: A.Analyzer, files: map<string, R.FileRow>, facts: map<string, Facts>, nodeTable: map<string, NodeRow>,
    edgeTable: map<string, D.StoredEdge>, key: string)
    requires AreLeft(a, files, facts, nodeTable, edgeTable) && key in edgeTable
    ensures IsLive(files, edgeTable[key]) && edgeTable[key].row.kind == "contains"
    ensures edgeTable[key].row.source in nodeTable
    ensures edgeTable[key].row.target.Resolved? && edgeTable[key].row.target.id in nodeTable
  {
    var p := EdgeHasFile(facts, nodeTable, edgeTable, key);
    FileEdgeLinks(a, files, facts, p, key);
  }

  /** Every row of the tables is published as far as links go. */
  lemma LeftEdgesLink(
    a: A.Analyzer, files: map<string, R.FileRow>, facts: map<string, Facts>, nodeTable: map<string, NodeRow>,
    edgeTable: map<string, D.StoredEdge>, published: map<string, string>)
    requires AreLeft(a, files, facts, nodeTable, edgeTable) && nodeTable.Keys <= published.Keys
    ensures forall key <- edgeTable ::
              var row := edgeTable[key].row;
              && IsLive(files, edgeTable[key]) && row.source in published && row.target.Resolved? && row.target.id in published
              && E.RowLinks(published, edgeTable[key], published[row.source], published[row.target.id])
  {
    forall key | key in edgeTable
      ensures var row := edgeTable[key].row;
              && IsLive(files, edgeTable[key]) && row.source in published && row.target.Resolved? && row.target.id in published
              && E.RowLinks(published, edgeTable[key], published[row.source], published[row.target.id])
    {
      LeftEdgeLinks(a, files, facts, nodeTable, edgeTable, key);
    }
  }

  lemma NothingIsUnresolved(
    table: map<string, D.StoredEdge>, files: map<string, R.FileRow>, keys: seq<string>, published: map<string, string>,
    names: map<string, string>)
    requires forall key <- table :: table[key].row.target.Resolved? && table[key].row.target.id in published
    ensures E.NoNameIsAnId(published, names, P.EdgeRows(table, files, keys))
  {
    forall e | e in P.EdgeRows(table, files, keys)
      ensures D.TargetOf(published, names, e).Resolved?
    {
      LiveRowsAreRead(table, files, keys, e);
    }
  }

  /** End to end: whatever passes led to the tables, once the last one completed every
      declaration is published, two published nodes are linked exactly when a stored
      containment joins the declarations behind them, and no reference is unresolved. */
  lemma PublicationIsComplete(
    a: A.Analyzer, files: map<string, R.FileRow>, facts: map<string, Facts>, hash: string -> string,
    nodeTable: map<string, NodeRow>, edgeTable: map<string, D.StoredEdge>,
    payload: P.Payload, nodes: set<N.StoredNode>, emitted: seq<N.StoredNode>, names: map<string, string>, keys: seq<string>,
    x: string, y: string)
    requires AreLeft(a, files, facts, nodeTable, edgeTable) && Injective(hash)
    requires P.NodesRendered(hash, a.project, nodeTable, payload, nodes, emitted)
    requires P.EdgesRendered(hash, a.project, edgeTable, files, payload, nodes, emitted, names, keys)
    ensures nodeTable.Keys <= N.PublishedBy(hash, a.project, nodes, emitted).Keys
    ensures F.DocumentLinked(payload.edges, x, y) <==>
            exists key <- edgeTable :: E.RowLinks(N.PublishedBy(hash, a.project, nodes, emitted), edgeTable[key], x, y)
    ensures D.UnresolvedAmong(payload.edges) == {}
  {
    var published := N.PublishedBy(hash, a.project, nodes, emitted);
    forall key | key in nodeTable
      ensures key in published
    {
      LeftNodeIsPublished(a, files, facts, nodeTable, edgeTable, key);
      RowIsPublished(hash, a.project, nodeTable, nodes, emitted, key);
    }
    LeftEdgesLink(a, files, facts, nodeTable, edgeTable, published);
    NothingIsUnresolved(edgeTable, files, keys, published, names);
    LinksArePublished(hash, a.project, edgeTable, files, payload, nodes, emitted, names, keys, x, y);
    forall d | d in payload.edges
      ensures d.body.target.Resolved?
    {
      var key := EdgesSay(hash, a.project, edgeTable, files, payload, nodes, emitted, names, keys, d);
    }
  }
}
