/** What a published edge id stands for, and which links a payload holds. */
module EdgeIdentities {
  import opened Prelude
  import opened EdgeDocuments
  import opened IdentityTuple
  import opened Rows
  import opened Sorting
  import opened Text
  import N = NodeDocuments

  // The evidence key determines the evidence, up to its order.

  lemma QuoteSplits(s: string, r: string, t: string, u: string)
    requires Quote(s) + r == Quote(t) + u
    ensures s == t && r == u
  {
    ElementDecodes(s, r);
    ElementDecodes(t, u);
  }

  lemma DecSplits(m: nat, r: string, n: nat, u: string)
    requires Dec(m) + [','] + r == Dec(n) + [','] + u
    ensures m == n && r == u
  {
    FirstSplit(Dec(m), r, Dec(n), u, ',');
    DecIsInjective(m, n);
  }

  /** The parts of a location after its file. */
  function Lines(e: Evidence, r: string): string {
    Dec(e.startLine) + [','] + (Dec(e.endLine) + [','] + (Quote(e.rule) + ("]" + r)))
  }

  lemma Regroup(a: string, b: string, c: string, d: string, e: string, f: string, g: string, h: string, r: string)
    ensures a + b + c + d + e + f + g + h + "]" + r == a + (b + (c + (d + e + (f + g + (h + ("]" + r))))))
  {
  }

  lemma LocationInPieces(e: Evidence, r: string)
    ensures Location(e) + r == "[" + (Quote(e.file) + ("," + Lines(e, r)))
  {
    Regroup("[", Quote(e.file), ",", Dec(e.startLine), ",", Dec(e.endLine), ",", Quote(e.rule), r);
  }

  lemma TailInPieces(x: string, y: string, c: string)
    requires |c| == 1 && c + x == c + y
    ensures x == y
  {
    assert x == (c + x)[1..] && y == (c + y)[1..];
  }

  /** No location is the beginning of another. */
  lemma LocationSplits(e: Evidence, r: string, f: Evidence, u: string)
    requires Location(e) + r == Location(f) + u
    ensures e == f && r == u
  {
    LocationInPieces(e, r);
    LocationInPieces(f, u);
    TailInPieces(Quote(e.file) + ("," + Lines(e, r)), Quote(f.file) + ("," + Lines(f, u)), "[");
    QuoteSplits(e.file, "," + Lines(e, r), f.file, "," + Lines(f, u));
    TailInPieces(Lines(e, r), Lines(f, u), ",");
    DecSplits(e.startLine, Dec(e.endLine) + [','] + (Quote(e.rule) + ("]" + r)),
              f.startLine, Dec(f.endLine) + [','] + (Quote(f.rule) + ("]" + u)));
    DecSplits(e.endLine, Quote(e.rule) + ("]" + r), f.endLine, Quote(f.rule) + ("]" + u));
    QuoteSplits(e.rule, "]" + r, f.rule, "]" + u);
    TailInPieces(r, u, "]");
  }

  lemma JoinedHead(a: seq<Evidence>) returns (r: string)
    requires a != []
    ensures Joined(Map(Location, a)) == Location(a[0]) + r
    ensures r == if |a| == 1 then "" else "," + Joined(Map(Location, a[1..]))
  {
    r := if |a| == 1 then "" else "," + Joined(Map(Location, a[1..]));
    assert Map(Location, a) == [Location(a[0])] + Map(Location, a[1..]);
    assert Map(Location, a)[1..] == Map(Location, a[1..]);
  }

  /** A list of locations can be read back. */
  lemma {:induction false} JoinedSplits(a: seq<Evidence>, b: seq<Evidence>)
    requires Joined(Map(Location, a)) == Joined(Map(Location, b))
    ensures a == b
  {
    if a != [] && b != [] {
      var r := JoinedHead(a);
      var u := JoinedHead(b);
      LocationSplits(a[0], r, b[0], u);
      assert a == [a[0]] + a[1..] && b == [b[0]] + b[1..];
      if |a| > 1 && |b| > 1 {
        TailInPieces(Joined(Map(Location, a[1..])), Joined(Map(Location, b[1..])), ",");
        JoinedSplits(a[1..], b[1..]);
      }
    } else if a != [] {
      var r := JoinedHead(a);
    } else if b != [] {
      var u := JoinedHead(b);
    }
  }

  /** Two lists of evidence have one key exactly when one is a reordering of the other. */
  lemma EvidenceKeyIdentifies(a: seq<Evidence>, b: seq<Evidence>)
    ensures EvidenceKey(a) == EvidenceKey(b) <==> multiset(a) == multiset(b)
  {
    if multiset(a) == multiset(b) {
      EvidenceKeyIgnoresOrder(a, b);
    } else if EvidenceKey(a) == EvidenceKey(b) {
      var s, t := SortBy(LessEq, Map(Location, a)), SortBy(LessEq, Map(Location, b));
      SortKeepsElements(LessEq, Map(Location, a));
      SortKeepsElements(LessEq, Map(Location, b));
      assert Joined(s) == EvidenceKey(a)[1..|EvidenceKey(a)| - 1];
      assert Joined(t) == EvidenceKey(b)[1..|EvidenceKey(b)| - 1];
      var c := MappedInOrder(Location, a, s);
      var d := MappedInOrder(Location, b, t);
      JoinedSplits(c, d);
      assert false;
    }
  }

  // What an edge id identifies.

  /** The document says of the row what the row says, with its endpoints published. */
  ghost predicate Says(d: N.Document<EdgeBody>, published: map<string, string>, names: map<string, string>, e: StoredEdge) {
    && e.row.kind == "contains" && d.body.kind == "CONTAINS"
    && e.row.source in published && d.body.source == published[e.row.source]
    && (d.body.target.Resolved? <==> e.row.target.Resolved? && e.row.target.id in published)
    && (d.body.target.Resolved? ==> d.body.target.id == published[e.row.target.id])
    && (e.row.target.Unresolved? ==> d.body.target == e.row.target)
    && d.body.targetProject == e.row.targetProject && d.body.analyzer == e.row.analyzer
    && d.body.evidence ==
       (if e.row.evidence == [] then [Evidence(e.owner, 1, 1, "declaration-contains-v1")] else e.row.evidence)
    && (d.body.target.Unresolved? && e.row.target.Resolved? ==>
          d.body.target.name == if e.row.target.id in names then names[e.row.target.id] else e.owner)
    && d.body.resolution ==
       (if d.body.target.Unresolved? then Missing else if e.row.resolution.Missing? then ExactStatic else e.row.resolution)
  }

  /** A row of kind "contains" has a document exactly when its source is published and
      there is something to say of its target. */
  lemma DocumentSays(
    hash: string -> string, published: map<string, string>, names: map<string, string>, e: StoredEdge)
    ensures DocumentOf(hash, published, names, e).Some? ==>
              Says(DocumentOf(hash, published, names, e).value, published, names, e)
    ensures e.row.kind == "contains" && e.row.source in published && e.row.target.Resolved? && e.row.target.id in published ==>
              DocumentOf(hash, published, names, e).Some?
  {
  }

  lemma IdIsOfBody(
    hash: string -> string, published: map<string, string>, names: map<string, string>, e: StoredEdge,
    d: N.Document<EdgeBody>)
    requires DocumentOf(hash, published, names, e) == Some(d)
    ensures d.id == EdgeIdentity(hash, d.body.source, d.body.kind, TargetIdentity(d.body.target), EvidenceKey(d.body.evidence))
  {
  }

  /** Two rows are published under one id exactly when they agree on the published source,
      on the target and on the evidence, in any order.  So dropping repeated ids drops
      repeated statements only. */
  lemma IdsIdentify(
    hash: string -> string, published: map<string, string>, names: map<string, string>, e: StoredEdge, f: StoredEdge,
    d: N.Document<EdgeBody>, g: N.Document<EdgeBody>)
    requires Injective(hash)
    requires DocumentOf(hash, published, names, e) == Some(d) && DocumentOf(hash, published, names, f) == Some(g)
    ensures d.id == g.id <==>
            && d.body.source == g.body.source
            && TargetIdentity(d.body.target) == TargetIdentity(g.body.target)
            && multiset(d.body.evidence) == multiset(g.body.evidence)
  {
    IdIsOfBody(hash, published, names, e, d);
    IdIsOfBody(hash, published, names, f, g);
    EvidenceKeyIdentifies(d.body.evidence, g.body.evidence);
    var a := [d.body.source, d.body.kind, TargetIdentity(d.body.target), EvidenceKey(d.body.evidence)];
    var b := [g.body.source, g.body.kind, TargetIdentity(g.body.target), EvidenceKey(g.body.evidence)];
    if d.id == g.id { EncodeIsInjective(a, b); }
    assert a == b <==> a[0] == b[0] && a[1] == b[1] && a[2] == b[2] && a[3] == b[3];
  }

  // Which links are published.

  /** A published link from one id to another. */
  ghost predicate Links(d: N.Document<EdgeBody>, a: string, b: string) {
    d.body.source == a && d.body.target == Resolved(b)
  }

  /** No row whose target stays unresolved names it by something that is also a published id. */
  ghost predicate NoNameIsAnId(published: map<string, string>, names: map<string, string>, rows: seq<StoredEdge>) {
    forall e <- rows :: TargetOf(published, names, e).Unresolved? ==> TargetOf(published, names, e).name !in published.Values
  }

  ghost predicate RowLinks(published: map<string, string>, e: StoredEdge, a: string, b: string) {
    && e.row.kind == "contains" && e.row.source in published && published[e.row.source] == a
    && e.row.target.Resolved? && e.row.target.id in published && published[e.row.target.id] == b
  }

  /** Deduplication loses no link: two published nodes are linked exactly when some row
      links what they stand for. */
  lemma LinksAreKept(
    hash: string -> string, published: map<string, string>, names: map<string, string>, rows: seq<StoredEdge>,
    a: string, b: string)
    requires Injective(hash) && NoNameIsAnId(published, names, rows)
    ensures (exists d <- Kept(hash, published, names, rows) :: Links(d, a, b))
            <==> exists e <- rows :: RowLinks(published, e, a, b)
  {
    KeptIsExact(hash, published, names, rows);
    if d :| d in Kept(hash, published, names, rows) && Links(d, a, b) {
      var e :| e in rows && DocumentOf(hash, published, names, e) == Some(d);
      DocumentSays(hash, published, names, e);
      assert RowLinks(published, e, a, b);
    }
    if e :| e in rows && RowLinks(published, e, a, b) {
      DocumentSays(hash, published, names, e);
      var d := DocumentOf(hash, published, names, e).value;
      assert d.id in IdsOf(Kept(hash, published, names, rows));
      var k :| k in Kept(hash, published, names, rows) && k.id == d.id;
      var f :| f in rows && DocumentOf(hash, published, names, f) == Some(k);
      IdsIdentify(hash, published, names, e, f, d, k);
      TargetFollows(hash, published, names, f, k);
      assert b in published.Values;
      assert Links(k, a, b);
    }
  }

  lemma TargetFollows(
    hash: string -> string, published: map<string, string>, names: map<string, string>, e: StoredEdge,
    d: N.Document<EdgeBody>)
    requires DocumentOf(hash, published, names, e) == Some(d)
    ensures d.body.target == TargetOf(published, names, e)
  {
  }

  /** Otherwise a link can be lost: a first row whose unresolved target is named like the
      published id takes the id of the second, and the second is dropped. */
  lemma NameShadowsLink(
    hash: string -> string, published: map<string, string>, names: map<string, string>, first: StoredEdge,
    second: StoredEdge, a: string, b: string)
    requires RowLinks(published, second, a, b)
    requires first.row.kind == "contains" && first.row.source == second.row.source
    requires first.row.target == Unresolved(b) && b != "" && EvidenceOf(first) == EvidenceOf(second)
    ensures !exists d <- Kept(hash, published, names, [first, second]) :: Links(d, a, b)
  {
    var d := DocumentOf(hash, published, names, first).value;
    DocumentSays(hash, published, names, first);
    KeepsOne(hash, published, names, first, second);
  }

  lemma KeepsOne(
    hash: string -> string, published: map<string, string>, names: map<string, string>, first: StoredEdge, second: StoredEdge)
    requires var d, e := DocumentOf(hash, published, names, first), DocumentOf(hash, published, names, second);
             d.Some? && e.Some? && d.value.id == e.value.id
    ensures Kept(hash, published, names, [first, second]) == [DocumentOf(hash, published, names, first).value]
  {
    var d := DocumentOf(hash, published, names, first).value;
    assert [first, second][..1] == [first] && [first][..0] == [];
    assert Kept(hash, published, names, [first]) == [d];
    assert d in [d];
  }

  /** Such rows exist: a parent, a child, and a name that is the child's published id. */
  lemma ShadowExists(hash: string -> string, parent: string, child: string, id: string, row: EdgeRow)
    requires parent != child && id != ""
    requires row.source == parent && row.kind == "contains" && row.target == Resolved(child)
    ensures var published := map[parent := parent, child := id];
            var first, second := StoredEdge(row.(target := Unresolved(id)), ""), StoredEdge(row, "");
            && RowLinks(published, second, parent, id)
            && !exists d <- Kept(hash, published, map[], [first, second]) :: Links(d, parent, id)
  {
    NameShadowsLink(hash, map[parent := parent, child := id], map[],
                    StoredEdge(row.(target := Unresolved(id)), ""), StoredEdge(row, ""), parent, id);
  }
}
