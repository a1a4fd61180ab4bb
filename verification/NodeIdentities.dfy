/** When published node ids are distinct, stable and in one order. */
module NodeIdentities {
  import opened Prelude
  import opened Declarations
  import opened IdentityTuple
  import opened NodeDocuments
  import opened Sorting
  import opened Text

  /** All members of a node's group. */
  function Members(nodes: set<StoredNode>, n: StoredNode): set<StoredNode> {
    set m | m in nodes && GroupOf(m) == GroupOf(n)
  }

  function Rank(nodes: set<StoredNode>, n: StoredNode): nat {
    |Earlier(nodes, n)|
  }

  ghost predicate SameSpace(m: StoredNode, n: StoredNode) {
    m.language == n.language && PublishedKind(m) == PublishedKind(n)
  }

  /** A stored name that reads as the i-th copy of another stored name. */
  ghost predicate Imitates(nodes: set<StoredNode>, m: StoredNode, n: StoredNode, i: nat) {
    SameSpace(m, n) && 2 <= i <= |Members(nodes, n)| && m.qualifiedName == n.qualifiedName + "#" + Dec(i)
  }

  ghost predicate Collides(nodes: set<StoredNode>) {
    exists m <- Publishable(nodes), n <- Publishable(nodes), i: nat :: Imitates(nodes, m, n, i)
  }

  ghost predicate IdsAreDistinct(hash: string -> string, project: string, nodes: set<StoredNode>) {
    forall m <- Publishable(nodes), n <- Publishable(nodes) ::
      PublishedId(hash, project, nodes, m) == PublishedId(hash, project, nodes, n) ==> m == n
  }

  lemma BeforeIsTransitive(a: StoredNode, b: StoredNode, c: StoredNode)
    requires Before(a, b) && Before(b, c)
    ensures Before(a, c)
  {
    BeforeIsStrict(a, b);
    BeforeIsStrict(b, c);
    LessIsStrict(a.file, b.file);
    LessIsStrict(b.file, c.file);
    if Less(a.file, b.file) && Less(b.file, c.file) { LessIsTransitive(a.file, b.file, c.file); }
    if Less(a.id, b.id) && Less(b.id, c.id) { LessIsTransitive(a.id, b.id, c.id); }
  }

  /** Inside a group the rank identifies the node. */
  lemma RankIdentifies(nodes: set<StoredNode>, m: StoredNode, n: StoredNode)
    requires Keyed(nodes) && m in nodes && n in nodes && GroupOf(m) == GroupOf(n) && m != n
    ensures Rank(nodes, m) != Rank(nodes, n)
  {
    BeforeIsStrict(m, n);
    var a, b := if Before(m, n) then m else n, if Before(m, n) then n else m;
    BeforeIsStrict(a, a);
    forall x | x in Earlier(nodes, a)
      ensures x in Earlier(nodes, b)
    {
      BeforeIsTransitive(x, a, b);
    }
    SubsetIsSmaller(Earlier(nodes, a), Earlier(nodes, b), a);
  }

  /** Copies are numbered in the order of the source: by file, then by line, then by key. */
  lemma NumberingFollowsSource(nodes: set<StoredNode>, m: StoredNode, n: StoredNode)
    requires Keyed(nodes) && m in nodes && n in nodes && GroupOf(m) == GroupOf(n) && m != n
    ensures Rank(nodes, m) < Rank(nodes, n) <==>
            || Less(m.file, n.file)
            || (m.file == n.file && m.startLine < n.startLine)
            || (m.file == n.file && m.startLine == n.startLine && Less(m.id, n.id))
  {
    BeforeIsStrict(m, n);
    var a, b := if Before(m, n) then m else n, if Before(m, n) then n else m;
    BeforeIsStrict(a, a);
    forall x | x in Earlier(nodes, a)
      ensures x in Earlier(nodes, b)
    {
      BeforeIsTransitive(x, a, b);
    }
    SubsetIsSmaller(Earlier(nodes, a), Earlier(nodes, b), a);
  }

  lemma RankIsBelowSize(nodes: set<StoredNode>, n: StoredNode)
    requires n in nodes
    ensures Rank(nodes, n) < |Members(nodes, n)|
  {
    BeforeIsStrict(n, n);
    SubsetIsSmaller(Earlier(nodes, n), Members(nodes, n), n);
  }

  /** Every rank below the group's size is taken. */
  lemma RankIsTaken(nodes: set<StoredNode>, n: StoredNode, i: nat) returns (m: StoredNode)
    requires Keyed(nodes) && n in nodes && i < |Members(nodes, n)|
    ensures m in Members(nodes, n) && Rank(nodes, m) == i
  {
    var listing := ListingOf(Members(nodes, n));
    var sorted := SortBy(NotAfter, listing);
    NotAfterIsOrder();
    SortOrders(NotAfter, listing);
    SortKeepsElements(NotAfter, listing);
    SameMultisetNoDuplicates(listing, sorted);
    DistinctHaveCardinal(listing);
    assert forall x :: x in sorted <==> x in SetOf(listing);
    m := sorted[i];
    assert m in SetOf(listing);
    IndexIsRank(nodes, sorted, i);
  }

  lemma SameIdSameTuple(hash: string -> string, project: string, nodes: set<StoredNode>, m: StoredNode, n: StoredNode)
    requires Injective(hash) && PublishedId(hash, project, nodes, m) == PublishedId(hash, project, nodes, n)
    ensures SameSpace(m, n) && PublishedName(nodes, m) == PublishedName(nodes, n)
  {
    var a := [project, m.language, PublishedKind(m), PublishedName(nodes, m)];
    var b := [project, n.language, PublishedKind(n), PublishedName(nodes, n)];
    EncodeIsInjective(a, b);
    assert a[1] == b[1] && a[2] == b[2] && a[3] == b[3];
  }

  lemma DecHasNoHash(n: nat)
    ensures '#' !in Dec(n)
  {
    assert !IsDigit('#');
  }

  /** Two nodes of one space with one published name: the same node, or one imitates
      the other. */
  lemma SameNameMeansImitation(nodes: set<StoredNode>, m: StoredNode, n: StoredNode)
    requires Keyed(nodes) && m in Publishable(nodes) && n in Publishable(nodes) && SameSpace(m, n)
    requires PublishedName(nodes, m) == PublishedName(nodes, n) && Rank(nodes, m) <= Rank(nodes, n)
    ensures m == n || Imitates(nodes, m, n, Rank(nodes, n) + 1)
  {
    var p, q := Rank(nodes, m), Rank(nodes, n);
    RankIsBelowSize(nodes, n);
    if p > 0 {
      DecHasNoHash(p + 1);
      DecHasNoHash(q + 1);
      LastSplit(m.qualifiedName, Dec(p + 1), n.qualifiedName, Dec(q + 1), '#');
      DecIsInjective(p + 1, q + 1);
    }
    if m != n && m.qualifiedName == n.qualifiedName { RankIdentifies(nodes, m, n); }
  }

  lemma MemberOfRank(nodes: set<StoredNode>, n: StoredNode, i: nat) returns (m: StoredNode)
    requires Keyed(nodes) && n in Publishable(nodes) && i < |Members(nodes, n)|
    ensures m in Publishable(nodes) && SameSpace(m, n) && Rank(nodes, m) == i
    ensures PublishedName(nodes, m) == Numbered(n.qualifiedName, i)
  {
    m := RankIsTaken(nodes, n, i);
    assert GroupOf(m) == GroupOf(n);
  }

  lemma CollisionRepeatsAnId(hash: string -> string, project: string, nodes: set<StoredNode>)
    requires Keyed(nodes) && Injective(hash) && Collides(nodes)
    ensures !IdsAreDistinct(hash, project, nodes)
  {
    var m, n, i: nat :| m in Publishable(nodes) && n in Publishable(nodes) && Imitates(nodes, m, n, i);
    RankIsBelowSize(nodes, m);
    var m' := MemberOfRank(nodes, m, 0);
    var n' := MemberOfRank(nodes, n, i - 1);
    assert Rank(nodes, m') != Rank(nodes, n');
    assert PublishedId(hash, project, nodes, m') == PublishedId(hash, project, nodes, n');
  }

  /** Published ids are pairwise distinct exactly when no stored name imitates a
      numbered copy of another one in its language and kind. */
  lemma DistinctIffNoImitation(hash: string -> string, project: string, nodes: set<StoredNode>)
    requires Keyed(nodes) && Injective(hash)
    ensures IdsAreDistinct(hash, project, nodes) <==> !Collides(nodes)
  {
    if Collides(nodes) {
      CollisionRepeatsAnId(hash, project, nodes);
    } else {
      forall m, n | m in Publishable(nodes) && n in Publishable(nodes)
                    && PublishedId(hash, project, nodes, m) == PublishedId(hash, project, nodes, n)
        ensures m == n
      {
        SameIdSameTuple(hash, project, nodes, m, n);
        if Rank(nodes, m) <= Rank(nodes, n) { SameNameMeansImitation(nodes, m, n); }
        else { SameNameMeansImitation(nodes, n, m); }
      }
    }
  }

  /** The check the names alone allow: no separator in any of them. */
  lemma NoSeparatorNoCollision(nodes: set<StoredNode>)
    requires forall n <- Publishable(nodes) :: '#' !in n.qualifiedName
    ensures !Collides(nodes)
  {
    forall m, n, i: nat | m in Publishable(nodes) && n in Publishable(nodes)
      ensures !Imitates(nodes, m, n, i)
    {
      assert (n.qualifiedName + "#" + Dec(i))[|n.qualifiedName|] == '#';
    }
  }

  /** Rows of other groups, added or removed, leave a node's id unchanged. */
  lemma OtherGroupsDoNotMatter(
    hash: string -> string, project: string, nodes: set<StoredNode>, more: set<StoredNode>, n: StoredNode)
    requires forall m <- more :: GroupOf(m) != GroupOf(n)
    ensures PublishedId(hash, project, nodes + more, n) == PublishedId(hash, project, nodes, n)
  {
    assert Earlier(nodes + more, n) == Earlier(nodes, n);
  }

  lemma {:induction false} DocumentsFollow(
    hash: string -> string, project: string, nodes: set<StoredNode>, emitted: seq<StoredNode>)
    ensures |DocumentsOf(hash, project, nodes, emitted)| == |emitted|
    ensures forall i :: 0 <= i < |emitted| ==>
              DocumentsOf(hash, project, nodes, emitted)[i] == DocumentOf(hash, project, nodes, emitted[i])
  {
    if emitted != [] {
      DocumentsFollow(hash, project, nodes, emitted[..|emitted| - 1]);
    }
  }

  /** Two renderings of one set of rows are the same documents in the same order,
      whatever order the rows were read in, colliding ids included; the ids ascend
      strictly where they do not collide. */
  lemma RenderingIsDeterministic(
    hash: string -> string, project: string, nodes: set<StoredNode>,
    a: seq<StoredNode>, ds: seq<Document<NodeBody>>, b: seq<StoredNode>, es: seq<Document<NodeBody>>)
    requires Keyed(nodes)
    requires Lists(a, Publishable(nodes)) && Ordered(NotLater, a)
    requires Lists(b, Publishable(nodes)) && Ordered(NotLater, b)
    requires ds == SortBy(IdNotAfter<NodeBody>, DocumentsOf(hash, project, nodes, a))
    requires es == SortBy(IdNotAfter<NodeBody>, DocumentsOf(hash, project, nodes, b))
    ensures ds == es
    ensures IdsAreDistinct(hash, project, nodes) ==> forall i, j :: 0 <= i < j < |ds| ==> Less(ds[i].id, ds[j].id)
  {
    EmissionIsUnique(nodes, a, b);
    if IdsAreDistinct(hash, project, nodes) { DistinctIdsAscend(hash, project, nodes, a, ds); }
  }

  lemma DistinctIdsAscend(
    hash: string -> string, project: string, nodes: set<StoredNode>, a: seq<StoredNode>, ds: seq<Document<NodeBody>>)
    requires IdsAreDistinct(hash, project, nodes) && Lists(a, Publishable(nodes))
    requires ds == SortBy(IdNotAfter<NodeBody>, DocumentsOf(hash, project, nodes, a))
    ensures forall i, j :: 0 <= i < j < |ds| ==> Less(ds[i].id, ds[j].id)
  {
    var da := DocumentsOf(hash, project, nodes, a);
    ListedDocuments(hash, project, nodes, a);
    IdNotAfterIsOrder<NodeBody>();
    SortKeepsElements(IdNotAfter<NodeBody>, da);
    SortOrders(IdNotAfter<NodeBody>, da);
    SameMultisetNoDuplicates(da, ds);
    forall i, j | 0 <= i < j < |ds|
      ensures Less(ds[i].id, ds[j].id)
    {
      assert IdNotAfter(ds[i], ds[j]) && ds[i] in da && ds[j] in da;
    }
  }

  lemma ListedDocuments(hash: string -> string, project: string, nodes: set<StoredNode>, a: seq<StoredNode>)
    requires IdsAreDistinct(hash, project, nodes) && Lists(a, Publishable(nodes))
    ensures var ds := DocumentsOf(hash, project, nodes, a);
            && NoDuplicates(ds)
            && (forall d <- ds, e <- ds :: d.id == e.id ==> d == e)
            && forall d :: d in ds <==> exists n <- Publishable(nodes) :: d == DocumentOf(hash, project, nodes, n)
  {
    DocumentsFollow(hash, project, nodes, a);
    var ds := DocumentsOf(hash, project, nodes, a);
    forall i, j | 0 <= i < |ds| && 0 <= j < |ds| && ds[i].id == ds[j].id
      ensures i == j
    {
      assert a[i] in SetOf(a) && a[j] in SetOf(a);
    }
    forall d
      ensures d in ds <==> exists n <- Publishable(nodes) :: d == DocumentOf(hash, project, nodes, n)
    {
      if d in ds {
        var i :| 0 <= i < |ds| && ds[i] == d;
        assert a[i] in SetOf(a);
      }
      if n :| n in Publishable(nodes) && d == DocumentOf(hash, project, nodes, n) {
        assert n in SetOf(a);
        var i :| 0 <= i < |a| && a[i] == n;
        assert ds[i] == d;
      }
    }
  }

  /** What the contract kind forgets is not kept in the attributes: a struct and a class
      declared alike publish one and the same document. */
  lemma KindIsNotKept(hash: string -> string, o: Origin, d: Declaration)
    requires o.language != "" && Portable(o.file) != ""
    ensures var asStruct := ReadNode(d.key, NodeOf(o, d.(kind := "struct")));
            var asClass := ReadNode(d.key, NodeOf(o, d.(kind := "class")));
            && asStruct.Some? && asClass.Some? && asStruct != asClass
            && asStruct.value.attributes == map[]
            && DocumentOf(hash, o.project, {asStruct.value}, asStruct.value)
               == DocumentOf(hash, o.project, {asClass.value}, asClass.value)
  {
    var m := ReadNode(d.key, NodeOf(o, d.(kind := "struct"))).value;
    var n := ReadNode(d.key, NodeOf(o, d.(kind := "class"))).value;
    BeforeIsStrict(m, m);
    BeforeIsStrict(n, n);
    assert Earlier({m}, m) == {} && Earlier({n}, n) == {};
  }
}
