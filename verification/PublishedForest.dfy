/** Containment stays a forest through renaming, resolution and deduplication. */
module PublishedForest {
  import opened Prelude
  import opened EdgeDocuments
  import opened Rows
  import opened Sorting
  import N = NodeDocuments
  import I = NodeIdentities
  import P = Payloads
  import R = Reconcile
  import A = Analyzers
  import K = Keys

  ghost predicate InjectiveMap(published: map<string, string>) {
    forall a <- published, b <- published :: published[a] == published[b] ==> a == b
  }

  /** Distinct published ids make the id map invertible. */
  lemma DistinctIdsInvert(hash: string -> string, project: string, nodes: set<N.StoredNode>, emitted: seq<N.StoredNode>)
    requires N.Keyed(nodes) && Lists(emitted, N.Publishable(nodes)) && I.IdsAreDistinct(hash, project, nodes)
    ensures InjectiveMap(N.PublishedBy(hash, project, nodes, emitted))
  {
    assert forall n <- SetOf(emitted) :: n in N.Publishable(nodes);
    N.PublishedByHolds(hash, project, nodes, emitted);
    var published := N.PublishedBy(hash, project, nodes, emitted);
    forall a, b | a in published && b in published && published[a] == published[b]
      ensures a == b
    {
      var m :| m in emitted && m.id == a;
      var n :| n in emitted && n.id == b;
      assert m in SetOf(emitted) && n in SetOf(emitted);
    }
  }

  ghost predicate DocumentLinked(documents: seq<N.Document<EdgeBody>>, a: string, b: string) {
    exists d <- documents :: d.body.source == a && d.body.target == Resolved(b)
  }

  ghost predicate IsDocumentWalk(documents: seq<N.Document<EdgeBody>>, walk: seq<string>) {
    forall i :: 0 <= i < |walk| - 1 ==> DocumentLinked(documents, walk[i], walk[i + 1])
  }

  ghost predicate RowsOf(rows: seq<StoredEdge>, table: map<string, EdgeRow>) {
    forall e <- rows :: exists id <- table :: table[id] == e.row
  }

  ghost function Stored(published: map<string, string>, id: string): string {
    if key :| key in published && published[key] == id then key else ""
  }

  lemma ResolvedDocument(
    hash: string -> string, published: map<string, string>, names: map<string, string>, e: StoredEdge,
    d: N.Document<EdgeBody>)
    requires DocumentOf(hash, published, names, e) == Some(d) && d.body.target.Resolved?
    ensures e.row.source in published && published[e.row.source] == d.body.source
    ensures e.row.target.Resolved? && e.row.target.id in published && published[e.row.target.id] == d.body.target.id
  {
  }

  lemma StoredInverts(published: map<string, string>, key: string)
    requires InjectiveMap(published) && key in published
    ensures Stored(published, published[key]) == key && published[key] in published.Values
  {
  }

  /** A published link is the image of a stored one. */
  lemma LinksComeFromRows(
    hash: string -> string, published: map<string, string>, names: map<string, string>,
    rows: seq<StoredEdge>, table: map<string, EdgeRow>, a: string, b: string)
    requires InjectiveMap(published) && RowsOf(rows, table)
    requires DocumentLinked(Kept(hash, published, names, rows), a, b)
    ensures Linked(table, Stored(published, a), Stored(published, b))
    ensures a in published.Values && b in published.Values
  {
    KeptIsExact(hash, published, names, rows);
    var d :| d in Kept(hash, published, names, rows) && d.body.source == a && d.body.target == Resolved(b);
    var e :| e in rows && DocumentOf(hash, published, names, e) == Some(d);
    var id :| id in table && table[id] == e.row;
    ResolvedDocument(hash, published, names, e, d);
    StoredInverts(published, e.row.source);
    StoredInverts(published, e.row.target.id);
  }

  ghost function StoredWalk(published: map<string, string>, walk: seq<string>): (w: seq<string>)
    ensures |w| == |walk|
  {
    seq(|walk|, i requires 0 <= i < |walk| => Stored(published, walk[i]))
  }

  lemma StoredWalkIsWalk(
    hash: string -> string, published: map<string, string>, names: map<string, string>,
    rows: seq<StoredEdge>, table: map<string, EdgeRow>, walk: seq<string>)
    requires InjectiveMap(published) && RowsOf(rows, table)
    requires IsDocumentWalk(Kept(hash, published, names, rows), walk)
    ensures IsWalk(table, StoredWalk(published, walk))
  {
    var stored := StoredWalk(published, walk);
    forall i | 0 <= i < |stored| - 1
      ensures Linked(table, stored[i], stored[i + 1])
    {
      StoredStep(hash, published, names, rows, table, walk, i);
    }
  }

  lemma StoredStep(
    hash: string -> string, published: map<string, string>, names: map<string, string>,
    rows: seq<StoredEdge>, table: map<string, EdgeRow>, walk: seq<string>, i: nat)
    requires InjectiveMap(published) && RowsOf(rows, table) && i + 1 < |walk|
    requires IsDocumentWalk(Kept(hash, published, names, rows), walk)
    ensures Linked(table, StoredWalk(published, walk)[i], StoredWalk(published, walk)[i + 1])
  {
    assert DocumentLinked(Kept(hash, published, names, rows), walk[i], walk[i + 1]);
    LinksComeFromRows(hash, published, names, rows, table, walk[i], walk[i + 1]);
  }

  /** No walk along published containment returns to where it began. */
  lemma PublishedContainmentIsAcyclic(
    hash: string -> string, published: map<string, string>, names: map<string, string>,
    rows: seq<StoredEdge>, table: map<string, EdgeRow>, walk: seq<string>)
    requires InjectiveMap(published) && RowsOf(rows, table) && Acyclic(table)
    requires |walk| > 1 && IsDocumentWalk(Kept(hash, published, names, rows), walk)
    ensures walk[0] != walk[|walk| - 1]
  {
    var stored := StoredWalk(published, walk);
    StoredWalkIsWalk(hash, published, names, rows, table, walk);
    assert stored[0] == Stored(published, walk[0]);
    assert stored[|stored| - 1] == Stored(published, walk[|walk| - 1]);
  }

  /** A published node keeps its single container. */
  lemma PublishedParentIsUnique(
    hash: string -> string, published: map<string, string>, names: map<string, string>,
    rows: seq<StoredEdge>, table: map<string, EdgeRow>, a: string, b: string, child: string)
    requires InjectiveMap(published) && RowsOf(rows, table) && OneParent(table)
    requires DocumentLinked(Kept(hash, published, names, rows), a, child)
    requires DocumentLinked(Kept(hash, published, names, rows), b, child)
    ensures a == b
  {
    LinksComeFromRows(hash, published, names, rows, table, a, child);
    LinksComeFromRows(hash, published, names, rows, table, b, child);
    assert Stored(published, a) == Stored(published, b);
    assert a in published.Values && b in published.Values;
  }

  // What a rendered payload publishes.

  /** The rows the edges are read from are rows of the table. */
  lemma {:induction false} EdgeRowsAreRows(
    table: map<string, StoredEdge>, files: map<string, R.FileRow>, keys: seq<string>)
    ensures forall e <- P.EdgeRows(table, files, keys) :: exists key <- table :: table[key] == e
  {
    if keys != [] { EdgeRowsAreRows(table, files, keys[..|keys| - 1]); }
  }

  /** The edge table without what its rows say about their owners. */
  function Bare(table: map<string, StoredEdge>): map<string, EdgeRow> {
    map id | id in table :: table[id].row
  }

  lemma EdgeRowsAreBareRows(table: map<string, StoredEdge>, files: map<string, R.FileRow>, keys: seq<string>)
    ensures RowsOf(P.EdgeRows(table, files, keys), Bare(table))
  {
    EdgeRowsAreRows(table, files, keys);
    forall e | e in P.EdgeRows(table, files, keys)
      ensures exists id <- Bare(table) :: Bare(table)[id] == e.row
    {
      var key :| key in table && table[key] == e;
      assert key in Bare(table) && Bare(table)[key] == e.row;
    }
  }

  lemma SortingKeepsLinks(documents: seq<N.Document<EdgeBody>>, a: string, b: string)
    requires DocumentLinked(SortBy(N.IdNotAfter<EdgeBody>, documents), a, b)
    ensures DocumentLinked(documents, a, b)
  {
    SortKeepsElements(N.IdNotAfter<EdgeBody>, documents);
  }

  /** A payload rendered from tables the passes can leave, with no name that imitates a
      numbered copy of another. */
  ghost predicate IsPublication(
    a: A.Analyzer, files: map<string, R.FileRow>, facts: map<string, Facts>, hash: string -> string,
    nodeTable: map<string, NodeRow>, edgeTable: map<string, StoredEdge>,
    payload: P.Payload, nodes: set<N.StoredNode>, emitted: seq<N.StoredNode>, names: map<string, string>, keys: seq<string>)
  {
    && K.IsDigest(a.hash) && R.Consistent(A.ProfileOf(a), files, facts) && A.IsEdgeTable(facts, Bare(edgeTable))
    && P.NodesRendered(hash, a.project, nodeTable, payload, nodes, emitted)
    && P.EdgesRendered(hash, a.project, edgeTable, files, payload, nodes, emitted, names, keys)
    && Injective(hash) && !I.Collides(nodes)
  }

  /** The ids of a publication can be read back, and its edges are images of rows. */
  lemma PublicationInverts(
    a: A.Analyzer, files: map<string, R.FileRow>, facts: map<string, Facts>, hash: string -> string,
    nodeTable: map<string, NodeRow>, edgeTable: map<string, StoredEdge>,
    payload: P.Payload, nodes: set<N.StoredNode>, emitted: seq<N.StoredNode>, names: map<string, string>, keys: seq<string>)
    requires IsPublication(a, files, facts, hash, nodeTable, edgeTable, payload, nodes, emitted, names, keys)
    ensures InjectiveMap(N.PublishedBy(hash, a.project, nodes, emitted))
    ensures RowsOf(P.EdgeRows(edgeTable, files, keys), Bare(edgeTable))
  {
    P.RowsAreKeyed(nodeTable, nodes);
    I.DistinctIffNoImitation(hash, a.project, nodes);
    DistinctIdsInvert(hash, a.project, nodes, emitted);
    EdgeRowsAreBareRows(edgeTable, files, keys);
  }

  /** End to end: whatever passes led to the tables, the payload rendered from them has
      no containment cycle. */
  lemma PublicationIsAcyclic(
    a: A.Analyzer, files: map<string, R.FileRow>, facts: map<string, Facts>, hash: string -> string,
    nodeTable: map<string, NodeRow>, edgeTable: map<string, StoredEdge>,
    payload: P.Payload, nodes: set<N.StoredNode>, emitted: seq<N.StoredNode>, names: map<string, string>, keys: seq<string>,
    walk: seq<string>)
    requires IsPublication(a, files, facts, hash, nodeTable, edgeTable, payload, nodes, emitted, names, keys)
    requires A.NamesEverything(a) && |walk| > 1 && IsDocumentWalk(payload.edges, walk)
    ensures walk[0] != walk[|walk| - 1]
  {
    PublicationInverts(a, files, facts, hash, nodeTable, edgeTable, payload, nodes, emitted, names, keys);
    A.StoreIsAcyclic(a, files, facts, Bare(edgeTable));
    var published, rows := N.PublishedBy(hash, a.project, nodes, emitted), P.EdgeRows(edgeTable, files, keys);
    forall i | 0 <= i < |walk| - 1
      ensures DocumentLinked(Kept(hash, published, names, rows), walk[i], walk[i + 1])
    {
      SortingKeepsLinks(Kept(hash, published, names, rows), walk[i], walk[i + 1]);
    }
    PublishedContainmentIsAcyclic(hash, published, names, rows, Bare(edgeTable), walk);
  }

  /** End to end again: no node of the payload has two containers. */
  lemma PublicationHasOneParent(
    a: A.Analyzer, files: map<string, R.FileRow>, facts: map<string, Facts>, hash: string -> string,
    nodeTable: map<string, NodeRow>, edgeTable: map<string, StoredEdge>,
    payload: P.Payload, nodes: set<N.StoredNode>, emitted: seq<N.StoredNode>, names: map<string, string>, keys: seq<string>,
    u: string, v: string, child: string)
    requires IsPublication(a, files, facts, hash, nodeTable, edgeTable, payload, nodes, emitted, names, keys)
    requires DocumentLinked(payload.edges, u, child) && DocumentLinked(payload.edges, v, child)
    ensures u == v
  {
    PublicationInverts(a, files, facts, hash, nodeTable, edgeTable, payload, nodes, emitted, names, keys);
    A.StoreHasOneParent(a, files, facts, Bare(edgeTable));
    var published, rows := N.PublishedBy(hash, a.project, nodes, emitted), P.EdgeRows(edgeTable, files, keys);
    SortingKeepsLinks(Kept(hash, published, names, rows), u, child);
    SortingKeepsLinks(Kept(hash, published, names, rows), v, child);
    PublishedParentIsUnique(hash, published, names, rows, Bare(edgeTable), u, v, child);
  }
}
