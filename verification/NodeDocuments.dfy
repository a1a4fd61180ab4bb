/** Published nodes: stored rows grouped, numbered and identified. */
module NodeDocuments {
  import opened Prelude
  import opened Declarations
  import opened IdentityTuple
  import opened Rows
  import opened Sorting
  import opened Text

  datatype StoredNode = StoredNode(
    id: string, kind: string, qualifiedName: string, name: string, language: string, file: string,
    startLine: int, endLine: int, attributes: map<string, string>)

  datatype NodeBody = NodeDocument(
    project: string, kind: string, name: string, qualifiedName: string, language: string, file: string,
    startLine: int, endLine: int, attributes: map<string, string>)

  datatype Document<T> = Document(id: string, body: T)

  /** The contract has fewer kinds than the analyzers; unknown kinds are not published. */
  function ContractNodeKind(kind: string): Option<string> {
    if kind == "namespace" then Some("Namespace")
    else if kind in ["class", "struct", "record", "enum", "default-export"] then Some("Class")
    else if kind == "interface" then Some("Interface")
    else if kind == "method" then Some("Method")
    else if kind == "function" then Some("Function")
    else if kind in ["type-alias", "variable"] then Some("Property")
    else None
  }

  function Line(line: int): (l: int)
    ensures l >= 1
  {
    if line >= 1 then line else 1
  }

  /** One row as read back.  A row without a language or a file is not published. */
  function ReadNode(id: string, row: NodeRow): Option<StoredNode> {
    var b := row.body;
    if b.language == "" || b.file == "" then None
    else
      var qualified := if b.qualifiedName == "" then row.qualifiedName else b.qualifiedName;
      var name := if b.name == "" then LeafName(qualified) else b.name;
      var start, end := Line(b.startLine), Line(b.endLine);
      Some(StoredNode(id, row.kind, qualified, name, b.language, b.file, start, if end > start then end else start,
                      b.attributes))
  }

  datatype Group = Group(language: string, kind: string, name: string)

  function GroupOf(n: StoredNode): Option<Group> {
    var kind := ContractNodeKind(n.kind);
    if kind.Some? then Some(Group(n.language, kind.value, n.qualifiedName)) else None
  }

  /** Source file, then line, then id. */
  predicate Before(a: StoredNode, b: StoredNode) {
    || Less(a.file, b.file)
    || (a.file == b.file && (a.startLine < b.startLine || (a.startLine == b.startLine && Less(a.id, b.id))))
  }

  predicate NotAfter(a: StoredNode, b: StoredNode) {
    !Before(b, a)
  }

  lemma BeforeIsStrict(a: StoredNode, b: StoredNode)
    ensures !(Before(a, b) && Before(b, a))
    ensures a.id != b.id ==> Before(a, b) || Before(b, a)
  {
    LessIsStrict(a.file, b.file);
    LessIsStrict(a.id, b.id);
  }

  lemma NotAfterIsTransitive(a: StoredNode, b: StoredNode, c: StoredNode)
    requires NotAfter(a, b) && NotAfter(b, c)
    ensures NotAfter(a, c)
  {
    LessIsStrict(a.file, b.file);
    LessIsStrict(b.file, c.file);
    LessIsStrict(a.file, c.file);
    if Less(a.file, b.file) && Less(b.file, c.file) { LessIsTransitive(a.file, b.file, c.file); }
    if a.file == b.file == c.file && a.startLine == b.startLine == c.startLine {
      LessIsStrict(a.id, b.id);
      LessIsStrict(b.id, c.id);
      LessIsStrict(a.id, c.id);
      if Less(a.id, b.id) && Less(b.id, c.id) { LessIsTransitive(a.id, b.id, c.id); }
    }
  }

  lemma NotAfterIsOrder()
    ensures IsOrder(NotAfter)
  {
    forall a, b
      ensures NotAfter(a, b) || NotAfter(b, a)
    {
      BeforeIsStrict(a, b);
    }
    forall a, b, c | NotAfter(a, b) && NotAfter(b, c)
      ensures NotAfter(a, c)
    {
      NotAfterIsTransitive(a, b, c);
    }
  }

  /** Language, then contract kind, then name: the order of an ordered map over groups. */
  predicate GroupLess(a: Group, b: Group) {
    || Less(a.language, b.language)
    || (a.language == b.language && (Less(a.kind, b.kind) || (a.kind == b.kind && Less(a.name, b.name))))
  }

  predicate GroupNotAfter(a: Group, b: Group) {
    a == b || GroupLess(a, b)
  }

  lemma GroupLessIsStrict(a: Group, b: Group)
    ensures !(GroupLess(a, b) && GroupLess(b, a)) && !GroupLess(a, a)
    ensures a == b || GroupLess(a, b) || GroupLess(b, a)
  {
    LessIsStrict(a.language, b.language);
    LessIsStrict(a.kind, b.kind);
    LessIsStrict(a.name, b.name);
    LessIsStrict(a.language, a.language);
    LessIsStrict(a.kind, a.kind);
    LessIsStrict(a.name, a.name);
  }

  lemma GroupLessIsTransitive(a: Group, b: Group, c: Group)
    requires GroupLess(a, b) && GroupLess(b, c)
    ensures GroupLess(a, c)
  {
    if Less(a.language, b.language) && Less(b.language, c.language) { LessIsTransitive(a.language, b.language, c.language); }
    if Less(a.kind, b.kind) && Less(b.kind, c.kind) { LessIsTransitive(a.kind, b.kind, c.kind); }
    if Less(a.name, b.name) && Less(b.name, c.name) { LessIsTransitive(a.name, b.name, c.name); }
  }

  lemma GroupNotAfterIsOrder()
    ensures IsOrder(GroupNotAfter)
  {
    forall a, b
      ensures GroupNotAfter(a, b) || GroupNotAfter(b, a)
    {
      GroupLessIsStrict(a, b);
    }
    forall a, b, c | GroupNotAfter(a, b) && GroupNotAfter(b, c)
      ensures GroupNotAfter(a, c)
    {
      if a != b && b != c { GroupLessIsTransitive(a, b, c); }
    }
  }

  function KeyOf(n: StoredNode): Group {
    Group(n.language, PublishedKind(n), n.qualifiedName)
  }

  /** The order in which nodes are numbered and their documents collected. */
  predicate NotLater(a: StoredNode, b: StoredNode) {
    GroupLess(KeyOf(a), KeyOf(b)) || (KeyOf(a) == KeyOf(b) && NotAfter(a, b))
  }

  lemma NotLaterIsOrder()
    ensures IsOrder(NotLater)
  {
    forall a, b
      ensures NotLater(a, b) || NotLater(b, a)
    {
      GroupLessIsStrict(KeyOf(a), KeyOf(b));
      BeforeIsStrict(a, b);
    }
    forall a, b, c | NotLater(a, b) && NotLater(b, c)
      ensures NotLater(a, c)
    {
      if GroupLess(KeyOf(a), KeyOf(b)) && GroupLess(KeyOf(b), KeyOf(c)) {
        GroupLessIsTransitive(KeyOf(a), KeyOf(b), KeyOf(c));
      }
      if NotAfter(a, b) && NotAfter(b, c) { NotAfterIsTransitive(a, b, c); }
    }
  }

  /** A set of rows is emitted in one order only. */
  lemma EmissionIsUnique(nodes: set<StoredNode>, a: seq<StoredNode>, b: seq<StoredNode>)
    requires Keyed(nodes)
    requires Lists(a, Publishable(nodes)) && Ordered(NotLater, a)
    requires Lists(b, Publishable(nodes)) && Ordered(NotLater, b)
    ensures a == b
  {
    assert forall n :: n in a <==> n in SetOf(a);
    assert forall n :: n in b <==> n in SetOf(b);
    ListingsAreEqualBags(a, b);
    NotLaterIsOrder();
    forall m, n | m in a && n in a && NotLater(m, n) && NotLater(n, m)
      ensures m == n
    {
      GroupLessIsStrict(KeyOf(m), KeyOf(n));
      BeforeIsStrict(m, n);
    }
    OrderedIsUnique(NotLater, a, b);
  }

  /** Row ids are primary keys. */
  ghost predicate Keyed(nodes: set<StoredNode>) {
    forall a <- nodes, b <- nodes :: a.id == b.id ==> a == b
  }

  /** The members of a node's group that come before it. */
  function Earlier(nodes: set<StoredNode>, n: StoredNode): set<StoredNode> {
    set m | m in nodes && GroupOf(m) == GroupOf(n) && Before(m, n)
  }

  function Numbered(name: string, position: nat): string {
    if position == 0 then name else name + "#" + Dec(position + 1)
  }

  /** The published name of a node, from the set of rows alone. */
  function PublishedName(nodes: set<StoredNode>, n: StoredNode): string {
    Numbered(n.qualifiedName, |Earlier(nodes, n)|)
  }

  function NodeIdentity(hash: string -> string, project: string, language: string, kind: string, key: string): string {
    hash(Encode([project, language, kind, key]))
  }

  function PublishedKind(n: StoredNode): string {
    var kind := ContractNodeKind(n.kind);
    if kind.Some? then kind.value else ""
  }

  function PublishedId(hash: string -> string, project: string, nodes: set<StoredNode>, n: StoredNode): string {
    NodeIdentity(hash, project, n.language, PublishedKind(n), PublishedName(nodes, n))
  }

  function DocumentOf(hash: string -> string, project: string, nodes: set<StoredNode>, n: StoredNode): Document<NodeBody> {
    Document(PublishedId(hash, project, nodes, n),
             NodeDocument(project, PublishedKind(n), n.name, PublishedName(nodes, n), n.language, n.file,
                          n.startLine, n.endLine, n.attributes))
  }

  /** The id map and the documents after the nodes of `emitted`, in that order. */
  function PublishedBy(hash: string -> string, project: string, nodes: set<StoredNode>, emitted: seq<StoredNode>): map<string, string> {
    if emitted == [] then map[]
    else
      var n := emitted[|emitted| - 1];
      PublishedBy(hash, project, nodes, emitted[..|emitted| - 1])[n.id := PublishedId(hash, project, nodes, n)]
  }

  function DocumentsOf(hash: string -> string, project: string, nodes: set<StoredNode>, emitted: seq<StoredNode>): seq<Document<NodeBody>> {
    if emitted == [] then []
    else DocumentsOf(hash, project, nodes, emitted[..|emitted| - 1]) + [DocumentOf(hash, project, nodes, emitted[|emitted| - 1])]
  }

  predicate IdNotAfter<T>(a: Document<T>, b: Document<T>) {
    LessEq(a.id, b.id)
  }

  lemma IdNotAfterIsOrder<T(!new)>()
    ensures IsOrder<Document<T>>(IdNotAfter<T>)
  {
    LessEqIsOrder();
  }

  /** In an ordered listing of a whole group, a node's index is the number of
      members before it. */
  lemma IndexIsRank(nodes: set<StoredNode>, listing: seq<StoredNode>, i: nat)
    requires Keyed(nodes) && i < |listing|
    requires forall m :: m in listing <==> m in nodes && GroupOf(m) == GroupOf(listing[i])
    requires NoDuplicates(listing)
    requires Ordered(NotAfter, listing)
    ensures |Earlier(nodes, listing[i])| == i
  {
    var n := listing[i];
    forall j | 0 <= j < |listing|
      ensures Before(listing[j], n) <==> j < i
    {
      assert listing[j] in nodes && n in nodes;
      BeforeIsStrict(listing[j], n);
      if j < i { assert NotAfter(listing[j], n); }
      if i < j { assert NotAfter(n, listing[j]); }
    }
    var prefix := listing[..i];
    assert forall m :: m in prefix <==> m in listing && Before(m, n);
    assert Earlier(nodes, n) == SetOf(prefix);
    DistinctHaveCardinal(prefix);
  }

  function Publishable(nodes: set<StoredNode>): set<StoredNode> {
    set n | n in nodes && GroupOf(n).Some?
  }

  ghost predicate IsGrouping(nodes: set<StoredNode>, groups: map<Group, seq<StoredNode>>) {
    && (forall n <- Publishable(nodes) :: GroupOf(n).value in groups && n in groups[GroupOf(n).value])
    && (forall g <- groups :: NoDuplicates(groups[g]) && forall n <- groups[g] :: n in nodes && GroupOf(n) == Some(g))
  }

  method GroupNodes(rows: seq<StoredNode>) returns (groups: map<Group, seq<StoredNode>>)
    requires NoDuplicates(rows)
    ensures IsGrouping(SetOf(rows), groups)
  {
    groups := map[];
    for i := 0 to |rows|
      invariant IsGrouping(SetOf(rows[..i]), groups)
    {
      var n := rows[i];
      assert rows[..i + 1] == rows[..i] + [n];
      assert n !in rows[..i];
      var g := GroupOf(n);
      if g.Some? {
        groups := groups[g.value := (if g.value in groups then groups[g.value] else []) + [n]];
      }
    }
    assert rows[..|rows|] == rows;
  }

  /** Number and identify one group's members. */
  method RenderGroup(
    hash: string -> string, project: string, ghost nodes: set<StoredNode>, g: Group, members: seq<StoredNode>,
    ghost emitted: seq<StoredNode>, published: map<string, string>, documents: seq<Document<NodeBody>>)
    returns (published': map<string, string>, documents': seq<Document<NodeBody>>, listing: seq<StoredNode>)
    requires Keyed(nodes) && NoDuplicates(members)
    requires forall n :: n in members <==> n in nodes && GroupOf(n) == Some(g)
    requires published == PublishedBy(hash, project, nodes, emitted)
    requires documents == DocumentsOf(hash, project, nodes, emitted)
    ensures Lists(listing, SetOf(members)) && Ordered(NotAfter, listing)
    ensures published' == PublishedBy(hash, project, nodes, emitted + listing)
    ensures documents' == DocumentsOf(hash, project, nodes, emitted + listing)
  {
    var sorted := SortGroup(nodes, g, members);
    listing := sorted;
    published', documents' := published, documents;
    ghost var sofar := emitted;
    for position := 0 to |sorted|
      invariant sofar == emitted + listing[..position]
      invariant published' == PublishedBy(hash, project, nodes, sofar)
      invariant documents' == DocumentsOf(hash, project, nodes, sofar)
    {
      published', documents' := RenderMember(hash, project, nodes, g, sorted[position], position, sofar, published', documents');
      AppendOne(emitted, listing, position);
      sofar := sofar + [sorted[position]];
    }
    assert listing[..|sorted|] == listing;
  }

  /** Number and identify one member by its place in its group. */
  method RenderMember(
    hash: string -> string, project: string, ghost nodes: set<StoredNode>, g: Group, n: StoredNode, position: nat,
    ghost sofar: seq<StoredNode>, published: map<string, string>, documents: seq<Document<NodeBody>>)
    returns (published': map<string, string>, documents': seq<Document<NodeBody>>)
    requires GroupOf(n) == Some(g) && |Earlier(nodes, n)| == position
    requires published == PublishedBy(hash, project, nodes, sofar)
    requires documents == DocumentsOf(hash, project, nodes, sofar)
    ensures published' == PublishedBy(hash, project, nodes, sofar + [n])
    ensures documents' == DocumentsOf(hash, project, nodes, sofar + [n])
  {
    var key := if position == 0 then n.qualifiedName else n.qualifiedName + "#" + Dec(position + 1);
    var id := NodeIdentity(hash, project, g.language, g.kind, key);
    MemberRenders(hash, project, nodes, g, n, position);
    EmittedOneMore(hash, project, nodes, sofar, n);
    published' := published[n.id := id];
    documents' := documents + [Document(id, NodeDocument(project, g.kind, n.name, key, n.language, n.file,
                                                         n.startLine, n.endLine, n.attributes))];
  }

  /** A member's published name, kind and id, from its place in its group. */
  lemma MemberRenders(
    hash: string -> string, project: string, nodes: set<StoredNode>, g: Group, n: StoredNode, position: nat)
    requires GroupOf(n) == Some(g) && |Earlier(nodes, n)| == position
    ensures PublishedKind(n) == g.kind && PublishedName(nodes, n) == Numbered(n.qualifiedName, position)
    ensures PublishedId(hash, project, nodes, n) ==
            NodeIdentity(hash, project, g.language, g.kind, Numbered(n.qualifiedName, position))
    ensures DocumentOf(hash, project, nodes, n) ==
            Document(PublishedId(hash, project, nodes, n),
                     NodeDocument(project, g.kind, n.name, Numbered(n.qualifiedName, position), g.language, n.file,
                                  n.startLine, n.endLine, n.attributes))
  {
  }

  lemma AppendOne<T>(s: seq<T>, t: seq<T>, i: nat)
    requires i < |t|
    ensures s + t[..i] + [t[i]] == s + t[..i + 1]
  {
  }

  lemma EmittedOneMore(hash: string -> string, project: string, nodes: set<StoredNode>, emitted: seq<StoredNode>, n: StoredNode)
    ensures PublishedBy(hash, project, nodes, emitted + [n]) ==
            PublishedBy(hash, project, nodes, emitted)[n.id := PublishedId(hash, project, nodes, n)]
    ensures DocumentsOf(hash, project, nodes, emitted + [n]) ==
            DocumentsOf(hash, project, nodes, emitted) + [DocumentOf(hash, project, nodes, n)]
  {
    assert (emitted + [n])[..|emitted|] == emitted;
  }

  /** Sorted members of one whole group: each index is its member's rank. */
  method SortGroup(ghost nodes: set<StoredNode>, g: Group, members: seq<StoredNode>) returns (sorted: seq<StoredNode>)
    requires Keyed(nodes) && NoDuplicates(members)
    requires forall n :: n in members <==> n in nodes && GroupOf(n) == Some(g)
    ensures Lists(sorted, SetOf(members)) && Ordered(NotAfter, sorted)
    ensures forall i :: 0 <= i < |sorted| ==> GroupOf(sorted[i]) == Some(g) && |Earlier(nodes, sorted[i])| == i
  {
    sorted := SortBy(NotAfter, members);
    NotAfterIsOrder();
    SortOrders(NotAfter, members);
    SortKeepsElements(NotAfter, members);
    SameMultisetNoDuplicates(members, sorted);
    forall i | 0 <= i < |sorted|
      ensures GroupOf(sorted[i]) == Some(g) && |Earlier(nodes, sorted[i])| == i
    {
      assert sorted[i] in members;
      IndexIsRank(nodes, sorted, i);
    }
  }

  /** Every stored node, published under a name that depends only on the set of
      rows: any order of the rows gives the same ids. */
  method RenderNodes(hash: string -> string, project: string, rows: seq<StoredNode>)
    returns (published: map<string, string>, documents: seq<Document<NodeBody>>, ghost emitted: seq<StoredNode>)
    requires NoDuplicates(rows) && Keyed(SetOf(rows))
    // Groups in order, each in its own order: one order for one set of rows.
    ensures Lists(emitted, Publishable(SetOf(rows))) && Ordered(NotLater, emitted)
    ensures published == PublishedBy(hash, project, SetOf(rows), emitted)
    ensures documents == SortBy(IdNotAfter<NodeBody>, DocumentsOf(hash, project, SetOf(rows), emitted))
    ensures multiset(documents) == multiset(DocumentsOf(hash, project, SetOf(rows), emitted))
    ensures Ordered(IdNotAfter<NodeBody>, documents)
  {
    ghost var nodes := SetOf(rows);
    var groups := GroupNodes(rows);
    var order := GroupsInOrder(groups.Keys);
    published, documents, emitted := map[], [], [];
    for i := 0 to |order|
      invariant NoDuplicates(emitted) && Ordered(NotLater, emitted)
      invariant forall n :: n in emitted <==> n in Publishable(nodes) && GroupOf(n).value in order[..i]
      invariant published == PublishedBy(hash, project, nodes, emitted)
      invariant documents == DocumentsOf(hash, project, nodes, emitted)
    {
      var g := order[i];
      assert g in groups && g !in order[..i] && order[..i + 1] == order[..i] + [g];
      assert forall n :: n in groups[g] <==> n in nodes && GroupOf(n) == Some(g);
      var listing;
      published, documents, listing := RenderGroup(hash, project, nodes, g, groups[g], emitted, published, documents);
      ExtendListing(emitted, listing, groups[g]);
      ExtendOrder(nodes, order, i, emitted, listing, groups[g]);
      emitted := emitted + listing;
    }
    SortKeepsElements(IdNotAfter<NodeBody>, documents);
    IdNotAfterIsOrder<NodeBody>();
    SortOrders(IdNotAfter<NodeBody>, documents);
    documents := SortBy(IdNotAfter<NodeBody>, documents);
  }

  method GroupsInOrder(keys: set<Group>) returns (s: seq<Group>)
    ensures NoDuplicates(s) && (forall g :: g in s <==> g in keys) && Ordered(GroupNotAfter, s)
  {
    s := Enumerate(keys);
    GroupNotAfterIsOrder();
    SortOrders(GroupNotAfter, s);
    SortKeepsElements(GroupNotAfter, s);
    SameMultisetNoDuplicates(s, SortBy(GroupNotAfter, s));
    s := SortBy(GroupNotAfter, s);
  }

  lemma ExtendOrder(
    nodes: set<StoredNode>, order: seq<Group>, i: nat, emitted: seq<StoredNode>, listing: seq<StoredNode>,
    members: seq<StoredNode>)
    requires i < |order| && NoDuplicates(order) && Ordered(GroupNotAfter, order)
    requires Ordered(NotLater, emitted)
    requires forall n <- emitted :: GroupOf(n).Some? && GroupOf(n).value in order[..i]
    requires Lists(listing, SetOf(members)) && Ordered(NotAfter, listing)
    requires forall n <- members :: GroupOf(n) == Some(order[i])
    ensures Ordered(NotLater, emitted + listing)
  {
    forall n | n in listing
      ensures KeyOf(n) == order[i]
    {
      assert n in SetOf(listing) && n in SetOf(members);
    }
    forall n | n in emitted
      ensures GroupLess(KeyOf(n), order[i])
    {
      var k :| 0 <= k < i && order[..i][k] == GroupOf(n).value;
      assert GroupNotAfter(order[k], order[i]) && order[k] != order[i];
    }
    var all := emitted + listing;
    forall j, k | 0 <= j < k < |all|
      ensures NotLater(all[j], all[k])
    {
      if k < |emitted| { assert NotLater(emitted[j], emitted[k]); }
      else {
        assert listing[k - |emitted|] in listing;
        if j < |emitted| { assert emitted[j] in emitted; }
        else { assert NotAfter(listing[j - |emitted|], listing[k - |emitted|]) && listing[j - |emitted|] in listing; }
      }
    }
  }

  lemma ExtendListing<T>(s: seq<T>, t: seq<T>, members: seq<T>)
    requires NoDuplicates(s) && Lists(t, SetOf(members)) && forall x <- members :: x !in s
    ensures NoDuplicates(s + t)
    ensures forall x :: x in s + t <==> x in s || x in members
  {
    forall x
      ensures x in t <==> x in members
    {
      assert x in SetOf(t) <==> x in SetOf(members);
    }
    forall j, k | 0 <= j < k < |s + t|
      ensures (s + t)[j] != (s + t)[k]
    {
      if |s| <= k { assert t[k - |s|] in t && t[k - |s|] !in s; }
    }
  }

  lemma {:induction false} PublishedByHolds(hash: string -> string, project: string, nodes: set<StoredNode>, emitted: seq<StoredNode>)
    requires Keyed(nodes) && SetOf(emitted) <= nodes
    ensures forall n <- emitted ::
              n.id in PublishedBy(hash, project, nodes, emitted)
              && PublishedBy(hash, project, nodes, emitted)[n.id] == PublishedId(hash, project, nodes, n)
    ensures forall id <- PublishedBy(hash, project, nodes, emitted) :: exists n <- emitted :: n.id == id
  {
    if emitted != [] {
      var init := emitted[..|emitted| - 1];
      assert forall n <- SetOf(emitted) :: n in nodes;
      assert SetOf(init) <= nodes by { assert forall n <- SetOf(init) :: n in SetOf(emitted); }
      PublishedByHolds(hash, project, nodes, init);
      forall n | n in emitted
        ensures n.id in PublishedBy(hash, project, nodes, emitted)
        ensures PublishedBy(hash, project, nodes, emitted)[n.id] == PublishedId(hash, project, nodes, n)
      {
        assert n in SetOf(emitted) && emitted[|emitted| - 1] in SetOf(emitted);
      }
    }
  }

  /** The id map of a set of rows does not depend on the order they came in. */
  lemma OrderDoesNotMatter(
    hash: string -> string, project: string, nodes: set<StoredNode>, a: seq<StoredNode>, b: seq<StoredNode>)
    requires Keyed(nodes) && Lists(a, Publishable(nodes)) && Lists(b, Publishable(nodes))
    ensures PublishedBy(hash, project, nodes, a) == PublishedBy(hash, project, nodes, b)
  {
    PublishedByHolds(hash, project, nodes, a);
    PublishedByHolds(hash, project, nodes, b);
    assert forall n :: n in a <==> n in SetOf(a);
    assert forall n :: n in b <==> n in SetOf(b);
  }
}
