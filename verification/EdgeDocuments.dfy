/** Published edges: stored rows resolved against the published nodes, identified,
    deduplicated and counted. */
module EdgeDocuments {
  import opened Prelude
  import opened Declarations
  import opened IdentityTuple
  import opened NodeDocuments
  import opened Rows
  import opened Sorting
  import opened Text

  /** One edge row with the path of the file that owns it. */
  datatype StoredEdge = StoredEdge(row: EdgeRow, owner: string)

  datatype EdgeBody = EdgeDocument(
    source: string, target: Target, targetProject: string, kind: string, resolution: Resolution,
    evidence: seq<Evidence>, analyzer: string)

  function ContractEdgeKind(kind: string): Option<string> {
    if kind == "contains" then Some("CONTAINS") else None
  }

  /** One location as compact JSON. */
  function Location(e: Evidence): string {
    "[" + Quote(e.file) + "," + Dec(e.startLine) + "," + Dec(e.endLine) + "," + Quote(e.rule) + "]"
  }

  function Joined(rows: seq<string>): string {
    if |rows| == 0 then "" else rows[0] + if |rows| == 1 then "" else "," + Joined(rows[1..])
  }

  /** The sorted locations, as one JSON array. */
  function EvidenceKey(evidence: seq<Evidence>): string {
    "[" + Joined(SortBy(LessEq, Map(Location, evidence))) + "]"
  }

  /** Listing the evidence in another order gives the same key. */
  lemma EvidenceKeyIgnoresOrder(a: seq<Evidence>, b: seq<Evidence>)
    requires multiset(a) == multiset(b)
    ensures EvidenceKey(a) == EvidenceKey(b)
  {
    MapIgnoresOrder(Location, a, b);
    LessEqIsOrder();
    SortOrders(LessEq, Map(Location, a));
    SortOrders(LessEq, Map(Location, b));
    SortKeepsElements(LessEq, Map(Location, a));
    SortKeepsElements(LessEq, Map(Location, b));
    OrderedIsUnique(LessEq, SortBy(LessEq, Map(Location, a)), SortBy(LessEq, Map(Location, b)));
  }

  function EdgeIdentity(hash: string -> string, source: string, kind: string, target: string, evidence: string): string {
    hash(Encode([source, kind, target, evidence]))
  }

  /** The target form follows what is published, not what the row claims. */
  function TargetOf(published: map<string, string>, names: map<string, string>, e: StoredEdge): Target {
    match e.row.target
    case Resolved(id) =>
      if id in published then Resolved(published[id])
      else Unresolved(if id in names then names[id] else e.owner)
    case Unresolved(name) => Unresolved(name)
  }

  function ResolutionOf(target: Target, stored: Resolution): Resolution {
    if target.Unresolved? then Missing else if stored.Missing? then ExactStatic else stored
  }

  function TargetIdentity(target: Target): string {
    match target
    case Resolved(id) => id
    case Unresolved(name) => name
  }

  function EvidenceOf(e: StoredEdge): seq<Evidence> {
    if e.row.evidence == [] then [Evidence(e.owner, 1, 1, CONTAINS_RULE_ID)] else e.row.evidence
  }

  /** The document of one row, if it supports one. */
  function DocumentOf(
    hash: string -> string, published: map<string, string>, names: map<string, string>, e: StoredEdge)
    : Option<Document<EdgeBody>>
  {
    var kind := ContractEdgeKind(e.row.kind);
    if kind.None? || e.row.source !in published then None
    else
      var source, target := published[e.row.source], TargetOf(published, names, e);
      if target == Unresolved("") then None
      else
        var id := EdgeIdentity(hash, source, kind.value, TargetIdentity(target), EvidenceKey(EvidenceOf(e)));
        Some(Document(id, EdgeDocument(source, target, e.row.targetProject, kind.value,
                                       ResolutionOf(target, e.row.resolution), EvidenceOf(e), e.row.analyzer)))
  }

  lemma EdgeIdIgnoresEvidenceOrder(
    hash: string -> string, published: map<string, string>, names: map<string, string>, e: StoredEdge, evidence: seq<Evidence>)
    requires multiset(evidence) == multiset(e.row.evidence)
    ensures var d := DocumentOf(hash, published, names, e);
            var d' := DocumentOf(hash, published, names, e.(row := e.row.(evidence := evidence)));
            (d.Some? <==> d'.Some?) && (d.Some? ==> d.value.id == d'.value.id)
  {
    assert |evidence| == |multiset(evidence)| == |e.row.evidence|;
    var e' := e.(row := e.row.(evidence := evidence));
    EvidenceKeyIgnoresOrder(evidence, e.row.evidence);
    assert EvidenceKey(EvidenceOf(e')) == EvidenceKey(EvidenceOf(e));
    assert TargetOf(published, names, e') == TargetOf(published, names, e);
  }

  function IdsOf(documents: seq<Document<EdgeBody>>): set<string> {
    set d | d in documents :: d.id
  }

  /** The documents of a list of rows: the first row of each id wins. */
  function Kept(
    hash: string -> string, published: map<string, string>, names: map<string, string>, edges: seq<StoredEdge>)
    : seq<Document<EdgeBody>>
  {
    if edges == [] then []
    else
      var sofar := Kept(hash, published, names, edges[..|edges| - 1]);
      var d := DocumentOf(hash, published, names, edges[|edges| - 1]);
      if d.None? || d.value.id in IdsOf(sofar) then sofar else sofar + [d.value]
  }

  /** What every reader of the contract relies on. */
  predicate WellFormed(published: map<string, string>, d: Document<EdgeBody>) {
    && d.body.source in published.Values
    && d.body.kind == "CONTAINS"
    && (d.body.resolution.Missing? <==> d.body.target.Unresolved?)
    && match d.body.target
       case Resolved(id) => id in published.Values
       case Unresolved(name) => name != ""
  }

  function UnresolvedAmong(documents: seq<Document<EdgeBody>>): set<Document<EdgeBody>> {
    set d | d in documents && d.body.target.Unresolved?
  }

  ghost predicate StrictlyAscending(documents: seq<Document<EdgeBody>>) {
    forall i, j :: 0 <= i < j < |documents| ==> Less(documents[i].id, documents[j].id)
  }

  ghost predicate DistinctIds(documents: seq<Document<EdgeBody>>) {
    forall i, j :: 0 <= i < j < |documents| ==> documents[i].id != documents[j].id
  }

  lemma SortingAscends(documents: seq<Document<EdgeBody>>)
    requires DistinctIds(documents)
    ensures StrictlyAscending(SortBy(IdNotAfter<EdgeBody>, documents))
    ensures forall d :: d in SortBy(IdNotAfter<EdgeBody>, documents) <==> d in documents
  {
    var sorted := SortBy(IdNotAfter<EdgeBody>, documents);
    IdNotAfterIsOrder<EdgeBody>();
    SortOrders(IdNotAfter<EdgeBody>, documents);
    SortKeepsElements(IdNotAfter<EdgeBody>, documents);
    SameMultisetNoDuplicates(documents, sorted);
    assert forall d :: d in sorted <==> d in multiset(sorted);
    assert forall d :: d in documents <==> d in multiset(documents);
    forall i, j | 0 <= i < j < |sorted|
      ensures Less(sorted[i].id, sorted[j].id)
    {
      assert IdNotAfter(sorted[i], sorted[j]) && sorted[i] in documents && sorted[j] in documents;
    }
  }

  /** Publish the edges of one project in row order, the first of each id. */
  method CollectEdges(
    hash: string -> string, published: map<string, string>, names: map<string, string>, edges: seq<StoredEdge>)
    returns (documents: seq<Document<EdgeBody>>, unresolved: nat)
    ensures documents == Kept(hash, published, names, edges)
    ensures unresolved == |UnresolvedAmong(documents)|
  {
    documents, unresolved := [], 0;
    var seen: set<string> := {};
    for i := 0 to |edges|
      invariant documents == Kept(hash, published, names, edges[..i])
      invariant seen == IdsOf(documents)
      invariant unresolved == |UnresolvedAmong(documents)|
    {
      assert edges[..i + 1][..i] == edges[..i];
      var d := DocumentOf(hash, published, names, edges[i]);
      if d.Some? && d.value.id !in seen {
        KeepingOneMore(documents, d.value);
        seen := seen + {d.value.id};
        if d.value.body.target.Unresolved? { unresolved := unresolved + 1; }
        documents := documents + [d.value];
      }
    }
    assert edges[..|edges|] == edges;
  }

  /** Publish the edges of one project, then sort them by id. */
  method RenderEdges(
    hash: string -> string, published: map<string, string>, names: map<string, string>, edges: seq<StoredEdge>)
    returns (documents: seq<Document<EdgeBody>>, unresolved: nat)
    ensures documents == SortBy(IdNotAfter<EdgeBody>, Kept(hash, published, names, edges))
    ensures StrictlyAscending(documents)
    ensures forall d <- documents :: WellFormed(published, d)
    // The coverage count is the number of unresolved edges actually published.
    ensures unresolved == |UnresolvedAmong(documents)|
  {
    var kept;
    kept, unresolved := CollectEdges(hash, published, names, edges);
    KeptIsWellFormed(hash, published, names, edges);
    SortingAscends(kept);
    documents := SortBy(IdNotAfter<EdgeBody>, kept);
    assert UnresolvedAmong(documents) == UnresolvedAmong(kept);
  }

  lemma KeepingOneMore(documents: seq<Document<EdgeBody>>, d: Document<EdgeBody>)
    requires d.id !in IdsOf(documents)
    ensures IdsOf(documents + [d]) == IdsOf(documents) + {d.id}
    ensures |UnresolvedAmong(documents + [d])| ==
            |UnresolvedAmong(documents)| + if d.body.target.Unresolved? then 1 else 0
  {
    assert d !in documents;
    assert UnresolvedAmong(documents + [d]) ==
           UnresolvedAmong(documents) + if d.body.target.Unresolved? then {d} else {};
  }

  lemma DocumentIsWellFormed(
    hash: string -> string, published: map<string, string>, names: map<string, string>, e: StoredEdge)
    ensures var d := DocumentOf(hash, published, names, e); d.Some? ==> WellFormed(published, d.value)
  {
  }

  lemma {:induction false} KeptIsWellFormed(
    hash: string -> string, published: map<string, string>, names: map<string, string>, edges: seq<StoredEdge>)
    ensures DistinctIds(Kept(hash, published, names, edges))
    ensures forall d <- Kept(hash, published, names, edges) :: WellFormed(published, d)
  {
    if edges != [] {
      KeptIsWellFormed(hash, published, names, edges[..|edges| - 1]);
      DocumentIsWellFormed(hash, published, names, edges[|edges| - 1]);
    }
  }

  /** Deduplication loses no id and invents no document. */
  lemma {:induction false} KeptIsExact(
    hash: string -> string, published: map<string, string>, names: map<string, string>, edges: seq<StoredEdge>)
    ensures forall e <- edges :: DocumentOf(hash, published, names, e).Some? ==>
              DocumentOf(hash, published, names, e).value.id in IdsOf(Kept(hash, published, names, edges))
    ensures forall d <- Kept(hash, published, names, edges) ::
              exists e <- edges :: DocumentOf(hash, published, names, e) == Some(d)
  {
    if edges != [] {
      var init := edges[..|edges| - 1];
      KeptIsExact(hash, published, names, init);
      var last := edges[|edges| - 1];
      assert edges == init + [last];
      assert forall e <- edges :: e in init || e == last;
      forall d | d in Kept(hash, published, names, edges)
        ensures exists e <- edges :: DocumentOf(hash, published, names, e) == Some(d)
      {
        if d in Kept(hash, published, names, init) {
          var e :| e in init && DocumentOf(hash, published, names, e) == Some(d);
          assert e in edges;
        } else {
          assert last in edges;
        }
      }
    }
  }
}
