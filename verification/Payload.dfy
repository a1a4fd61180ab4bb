/** One project's published payload, rendered from its tables. */
module Payloads {
  import opened Prelude
  import opened Rows
  import opened Sorting
  import opened Text
  import Analyzers
  import E = EdgeDocuments
  import N = NodeDocuments
  import I = NodeIdentities
  import R = Reconcile

  datatype Coverage = Coverage(complete: bool, inputFiles: nat, processedFiles: nat, unresolvedReferences: nat)

  datatype Payload = Payload(
    nodes: seq<N.Document<N.NodeBody>>, edges: seq<N.Document<E.EdgeBody>>, coverage: Coverage)

  /** The rows that become nodes, as a set. */
  ghost predicate IsNodeOf(table: map<string, NodeRow>, n: N.StoredNode) {
    n.id in table && N.ReadNode(n.id, table[n.id]) == Some(n)
  }

  method ReadNodes(table: map<string, NodeRow>) returns (rows: seq<N.StoredNode>)
    ensures NoDuplicates(rows) && N.Keyed(SetOf(rows))
    ensures forall n :: n in rows <==> IsNodeOf(table, n)
  {
    rows := [];
    var keys := KeysInOrder(table.Keys);
    for i := 0 to |keys|
      invariant NoDuplicates(rows)
      invariant forall n :: n in rows <==> IsNodeOf(table, n) && n.id in keys[..i]
    {
      assert keys[i] in table && keys[i] !in keys[..i];
      var n := N.ReadNode(keys[i], table[keys[i]]);
      if n.Some? { rows := rows + [n.value]; }
    }
    assert keys[..|keys|] == keys;
    forall a, b | a in SetOf(rows) && b in SetOf(rows) && a.id == b.id
      ensures a == b
    {
      assert IsNodeOf(table, a) && IsNodeOf(table, b);
    }
  }

  /** The edges of files that are not tombstoned, in the order of `keys`. */
  function EdgeRows(table: map<string, E.StoredEdge>, files: map<string, R.FileRow>, keys: seq<string>): seq<E.StoredEdge> {
    if keys == [] then []
    else
      var key := keys[|keys| - 1];
      EdgeRows(table, files, keys[..|keys| - 1])
      + if key in table && table[key].owner in files && !files[table[key].owner].deleted then [table[key]] else []
  }

  method ReadEdges(table: map<string, E.StoredEdge>, files: map<string, R.FileRow>)
    returns (rows: seq<E.StoredEdge>, keys: seq<string>)
    ensures Lists(keys, table.Keys) && Ordered(LessEq, keys)
    ensures rows == EdgeRows(table, files, keys)
  {
    rows := [];
    var listing := KeysInOrder(table.Keys);
    keys := listing;
    for i := 0 to |listing|
      invariant rows == EdgeRows(table, files, listing[..i])
    {
      assert listing[..i + 1][..i] == listing[..i] && listing[i] in table;
      var e := table[listing[i]];
      if e.owner in files && !files[e.owner].deleted { rows := rows + [e]; }
    }
    assert listing[..|listing|] == listing && SetOf(keys) == table.Keys;
  }

  function Inputs(files: map<string, R.FileRow>, language: string -> bool): set<string> {
    set p | p in files && files[p].observed.Some? && !files[p].deleted && language(p)
  }

  function Processed(files: map<string, R.FileRow>, language: string -> bool): set<string> {
    set p | p in Inputs(files, language) && files[p].indexedAt >= files[p].desired
  }

  /** Every stored node's name, published or not. */
  function Names(rows: seq<N.StoredNode>): map<string, string> {
    if rows == [] then map[]
    else Names(rows[..|rows| - 1])[rows[|rows| - 1].id := rows[|rows| - 1].qualifiedName]
  }

  lemma LastIdIsNew(rows: seq<N.StoredNode>)
    requires rows != [] && NoDuplicates(rows) && N.Keyed(SetOf(rows))
    ensures NoDuplicates(rows[..|rows| - 1]) && N.Keyed(SetOf(rows[..|rows| - 1]))
    ensures forall n <- rows[..|rows| - 1] :: n.id != rows[|rows| - 1].id && n in rows
  {
    var init, last := rows[..|rows| - 1], rows[|rows| - 1];
    assert forall n <- SetOf(init) :: n in SetOf(rows);
    forall n | n in init
      ensures n.id != last.id && n in rows
    {
      assert n in SetOf(rows) && last in SetOf(rows);
    }
  }

  lemma {:induction false} NamesHold(rows: seq<N.StoredNode>)
    requires NoDuplicates(rows) && N.Keyed(SetOf(rows))
    ensures forall n <- rows :: n.id in Names(rows) && Names(rows)[n.id] == n.qualifiedName
    ensures forall id <- Names(rows) :: exists n <- rows :: n.id == id
  {
    if rows != [] {
      var init, last := rows[..|rows| - 1], rows[|rows| - 1];
      LastIdIsNew(rows);
      NamesHold(init);
      forall id | id in Names(rows)
        ensures exists n <- rows :: n.id == id
      {
        if id == last.id { assert last in rows; }
        else {
          assert id in Names(init);
          var n :| n in init && n.id == id;
          assert n in rows;
        }
      }
      assert forall n <- rows :: n in init || n == last;
    }
  }

  /** The names by id of a set of rows, and of nothing else. */
  ghost predicate NamesOf(nodes: set<N.StoredNode>, names: map<string, string>) {
    && (forall n <- nodes :: n.id in names && names[n.id] == n.qualifiedName)
    && forall id <- names :: exists n <- nodes :: n.id == id
  }

  /** Both endpoints of an edge are published nodes. */
  ghost predicate Anchored(nodes: seq<N.Document<N.NodeBody>>, d: N.Document<E.EdgeBody>) {
    && (exists n <- nodes :: n.id == d.body.source)
    && (d.body.target.Resolved? ==> exists n <- nodes :: n.id == d.body.target.id)
  }

  /** The publishable rows, numbered and identified in emission order, then sorted by id. */
  ghost predicate NodesRendered(
    hash: string -> string, project: string, table: map<string, NodeRow>,
    payload: Payload, nodes: set<N.StoredNode>, emitted: seq<N.StoredNode>)
  {
    && (forall n :: n in nodes <==> IsNodeOf(table, n))
    && Lists(emitted, N.Publishable(nodes)) && Ordered(N.NotLater, emitted)
    && payload.nodes == SortBy(N.IdNotAfter<N.NodeBody>, N.DocumentsOf(hash, project, nodes, emitted))
  }

  /** The edges of the live rows, in key order, first of each id, then sorted. */
  ghost predicate EdgesRendered(
    hash: string -> string, project: string, table: map<string, E.StoredEdge>, files: map<string, R.FileRow>,
    payload: Payload, nodes: set<N.StoredNode>, emitted: seq<N.StoredNode>, names: map<string, string>, keys: seq<string>)
  {
    && NamesOf(nodes, names)
    && Lists(keys, table.Keys) && Ordered(LessEq, keys)
    && payload.edges == SortBy(N.IdNotAfter<E.EdgeBody>,
                               E.Kept(hash, N.PublishedBy(hash, project, nodes, emitted), names, EdgeRows(table, files, keys)))
  }

  /** The file is observed and not tombstoned. */
  ghost predicate IsInput(row: R.FileRow) {
    row.observed.Some? && !row.deleted
  }

  lemma InputsAreCounted(files: map<string, R.FileRow>, language: string -> bool)
    ensures Inputs(files, language) == set p | p in files && IsInput(files[p]) && language(p)
    ensures Processed(files, language) == set p | p in files && IsInput(files[p]) && language(p) && !files[p].IsDirty()
    ensures |Processed(files, language)| == |Inputs(files, language)| <==>
            forall p <- files :: IsInput(files[p]) && language(p) ==> !files[p].IsDirty()
  {
    var inputs, processed := Inputs(files, language), Processed(files, language);
    assert processed <= inputs;
    SameSizeSameSet(processed, inputs);
    assert forall p <- files :: p in inputs <==> IsInput(files[p]) && language(p);
    assert forall p <- inputs :: p in processed <==> !files[p].IsDirty();
  }

  ghost predicate CoverageCounted(files: map<string, R.FileRow>, language: string -> bool, payload: Payload) {
    && payload.coverage.unresolvedReferences == |E.UnresolvedAmong(payload.edges)|
    && payload.coverage.inputFiles == |set p | p in files && IsInput(files[p]) && language(p)|
    && payload.coverage.processedFiles == |set p | p in files && IsInput(files[p]) && language(p) && !files[p].IsDirty()|
    && (payload.coverage.complete <==> forall p <- files :: IsInput(files[p]) && language(p) ==> !files[p].IsDirty())
  }

  lemma RowsAreKeyed(table: map<string, NodeRow>, nodes: set<N.StoredNode>)
    requires forall n :: n in nodes <==> IsNodeOf(table, n)
    ensures N.Keyed(nodes)
  {
    forall a, b | a in nodes && b in nodes && a.id == b.id
      ensures a == b
    {
      assert IsNodeOf(table, a) && IsNodeOf(table, b);
    }
  }

  lemma NamesAreUnique(nodes: set<N.StoredNode>, a: map<string, string>, b: map<string, string>)
    requires NamesOf(nodes, a) && NamesOf(nodes, b)
    ensures a == b
  {
    assert forall id <- a :: id in b;
    assert forall id <- b :: id in a;
  }

  lemma KeysAreUnique(keys: set<string>, a: seq<string>, b: seq<string>)
    requires Lists(a, keys) && Ordered(LessEq, a) && Lists(b, keys) && Ordered(LessEq, b)
    ensures a == b
  {
    assert forall k :: k in a <==> k in SetOf(a);
    assert forall k :: k in b <==> k in SetOf(b);
    ListingsAreEqualBags(a, b);
    LessEqIsOrder();
    OrderedIsUnique(LessEq, a, b);
  }

  /** The tables determine the payload: two renderings of the same tables have the same
      nodes, edges and coverage, document by document. */
  lemma RenderingIsUnique(
    hash: string -> string, project: string, nodeTable: map<string, NodeRow>, edgeTable: map<string, E.StoredEdge>,
    files: map<string, R.FileRow>, language: string -> bool,
    a: Payload, nodes: set<N.StoredNode>, emitted: seq<N.StoredNode>, names: map<string, string>, keys: seq<string>,
    b: Payload, nodes': set<N.StoredNode>, emitted': seq<N.StoredNode>, names': map<string, string>, keys': seq<string>)
    requires NodesRendered(hash, project, nodeTable, a, nodes, emitted)
    requires EdgesRendered(hash, project, edgeTable, files, a, nodes, emitted, names, keys)
    requires CoverageCounted(files, language, a)
    requires NodesRendered(hash, project, nodeTable, b, nodes', emitted')
    requires EdgesRendered(hash, project, edgeTable, files, b, nodes', emitted', names', keys')
    requires CoverageCounted(files, language, b)
    ensures a == b
  {
    assert nodes == nodes';
    RowsAreKeyed(nodeTable, nodes);
    N.EmissionIsUnique(nodes, emitted, emitted');
    NamesAreUnique(nodes, names, names');
    KeysAreUnique(edgeTable.Keys, keys, keys');
  }

  method Render(
    hash: string -> string, project: string, nodeTable: map<string, NodeRow>, edgeTable: map<string, E.StoredEdge>,
    files: map<string, R.FileRow>, language: string -> bool)
    returns (payload: Payload, ghost nodes: set<N.StoredNode>, ghost emitted: seq<N.StoredNode>,
             ghost names: map<string, string>, ghost keys: seq<string>)
    ensures NodesRendered(hash, project, nodeTable, payload, nodes, emitted)
    ensures EdgesRendered(hash, project, edgeTable, files, payload, nodes, emitted, names, keys)
    ensures CoverageCounted(files, language, payload)
    ensures multiset(payload.nodes) == multiset(N.DocumentsOf(hash, project, nodes, emitted))
    ensures Ordered(N.IdNotAfter<N.NodeBody>, payload.nodes)
    ensures E.StrictlyAscending(payload.edges)
    ensures forall d <- payload.edges :: Anchored(payload.nodes, d)
  {
    var rows := ReadNodes(nodeTable);
    nodes := SetOf(rows);
    var published, documents;
    published, documents, emitted := N.RenderNodes(hash, project, rows);
    var edgeRows;
    edgeRows, keys := ReadEdges(edgeTable, files);
    NamesHold(rows);
    names := Names(rows);
    var edges, unresolved := E.RenderEdges(hash, published, Names(rows), edgeRows);
    PublishedHasDocuments(hash, project, nodes, emitted, published, documents);
    forall d | d in edges
      ensures Anchored(documents, d)
    {
      assert E.WellFormed(published, d);
    }
    var inputs, processed := Inputs(files, language), Processed(files, language);
    InputsAreCounted(files, language);
    payload := Payload(documents, edges, Coverage(|processed| == |inputs|, |inputs|, |processed|, unresolved));
  }

  lemma PublishedHasDocuments(
    hash: string -> string, project: string, nodes: set<N.StoredNode>, emitted: seq<N.StoredNode>,
    published: map<string, string>, documents: seq<N.Document<N.NodeBody>>)
    requires N.Keyed(nodes) && Lists(emitted, N.Publishable(nodes))
    requires published == N.PublishedBy(hash, project, nodes, emitted)
    requires multiset(documents) == multiset(N.DocumentsOf(hash, project, nodes, emitted))
    ensures forall id <- published.Values :: exists n <- documents :: n.id == id
  {
    assert forall n <- SetOf(emitted) :: n in N.Publishable(nodes);
    N.PublishedByHolds(hash, project, nodes, emitted);
    I.DocumentsFollow(hash, project, nodes, emitted);
    forall id | id in published.Values
      ensures exists n <- documents :: n.id == id
    {
      var key :| key in published && published[key] == id;
      var n :| n in emitted && n.id == key;
      var i :| 0 <= i < |emitted| && emitted[i] == n;
      var d := N.DocumentsOf(hash, project, nodes, emitted)[i];
      assert d in multiset(documents);
      assert d in documents && d.id == id;
    }
  }
}
