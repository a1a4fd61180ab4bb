/** From the declarations of one file to the facts it owns. */
module Declarations {
  import opened Prelude
  import opened Keys
  import opened Rows
  import opened Text

  datatype Declaration = Declaration(
    kind: string, name: string, path: seq<string>, key: string, startLine: nat, endLine: nat)

  /** Where the declarations come from. */
  datatype Origin = Origin(project: string, language: string, analyzer: string, file: string)

  const CONTAINS_RULE_ID := "declaration-contains-v1"

  function Join(parts: seq<string>, separator: string): string {
    if |parts| == 0 then ""
    else if |parts| == 1 then parts[0]
    else Join(parts[..|parts| - 1], separator) + separator + parts[|parts| - 1]
  }

  function ScopeKey(path: seq<string>, name: string): string {
    Join(path, "/") + "|" + name
  }

  function Scope(d: Declaration): string {
    ScopeKey(d.path, d.name)
  }

  /** The scope key of the enclosing declaration a semantic path names. */
  function ParentScope(d: Declaration): Option<string> {
    if d.path == [] then None else Some(ScopeKey(d.path[..|d.path| - 1], d.path[|d.path| - 1]))
  }

  function Qualify(path: seq<string>, name: string): string {
    if path == [] then name else Join(path, ".") + "." + name
  }

  /** The last component of a qualified name. */
  function LeafName(qualified: string): string {
    if qualified == "" then ""
    else if qualified[|qualified| - 1] in ['.', '/', ':'] then ""
    else LeafName(qualified[..|qualified| - 1]) + [qualified[|qualified| - 1]]
  }

  function Portable(path: string): string {
    if path == "" then "" else [if path[0] == '\\' then '/' else path[0]] + Portable(path[1..])
  }

  function NodeOf(o: Origin, d: Declaration): NodeRow {
    var qualified := Qualify(d.path, d.name);
    NodeRow(d.kind, qualified,
            NodeBody(if d.name == "" then LeafName(qualified) else d.name, qualified, o.language,
                     Portable(o.file), d.startLine, d.endLine, map[]))
  }

  function EdgeId(parent: string, key: string): string {
    parent + "->contains->" + key
  }

  function Contains(o: Origin, parent: string, d: Declaration): EdgeRow {
    EdgeRow(parent, Resolved(d.key), o.project, "contains", ExactStatic,
            [Evidence(Portable(o.file), d.startLine, d.endLine, CONTAINS_RULE_ID)], o.analyzer)
  }

  /** Scope keys to declaration keys.  A later declaration takes over its scope key. */
  function Scopes(ds: seq<Declaration>): map<string, string> {
    if ds == [] then map[]
    else var d := ds[|ds| - 1]; Scopes(ds[..|ds| - 1])[Scope(d) := d.key]
  }

  function NodeList(o: Origin, ds: seq<Declaration>): seq<(string, NodeRow)> {
    if ds == [] then []
    else var d := ds[|ds| - 1]; NodeList(o, ds[..|ds| - 1]) + [(d.key, NodeOf(o, d))]
  }

  function EdgeList(o: Origin, scopes: map<string, string>, ds: seq<Declaration>): seq<(string, EdgeRow)> {
    if ds == [] then []
    else EdgeList(o, scopes, ds[..|ds| - 1]) + EdgeInto(o, scopes, ds[|ds| - 1])
  }

  function EdgeInto(o: Origin, scopes: map<string, string>, d: Declaration): seq<(string, EdgeRow)> {
    var scope := ParentScope(d);
    if scope.Some? && scope.value in scopes then
      var parent := scopes[scope.value];
      [(EdgeId(parent, d.key), Contains(o, parent, d))]
    else []
  }

  /** The first loop: every declaration's key under its scope key. */
  method ScopeTable(ds: seq<Declaration>) returns (scopeOf: map<string, string>)
    ensures scopeOf == Scopes(ds)
  {
    scopeOf := map[];
    for i := 0 to |ds|
      invariant scopeOf == Scopes(ds[..i])
    {
      assert ds[..i + 1][..i] == ds[..i];
      scopeOf := scopeOf[ScopeKey(ds[i].path, ds[i].name) := ds[i].key];
    }
    assert ds[..|ds|] == ds;
  }

  /** The two lists the store is asked to write. */
  method FactsFromDeclarations(o: Origin, ds: seq<Declaration>)
    returns (nodes: seq<(string, NodeRow)>, edges: seq<(string, EdgeRow)>)
    ensures nodes == NodeList(o, ds)
    ensures edges == EdgeList(o, Scopes(ds), ds)
  {
    var scopeOf := ScopeTable(ds);
    nodes, edges := [], [];
    for i := 0 to |ds|
      invariant nodes == NodeList(o, ds[..i])
      invariant edges == EdgeList(o, scopeOf, ds[..i])
    {
      var d := ds[i];
      assert ds[..i + 1][..i] == ds[..i];
      nodes := nodes + [(d.key, NodeOf(o, d))];
      assert EdgeList(o, scopeOf, ds[..i + 1]) == edges + EdgeInto(o, scopeOf, d);
      if d.path != [] {
        var scope := ScopeKey(d.path[..|d.path| - 1], d.path[|d.path| - 1]);
        if scope in scopeOf {
          edges := edges + [(EdgeId(scopeOf[scope], d.key), Contains(o, scopeOf[scope], d))];
        }
      }
    }
    assert ds[..|ds|] == ds;
  }

  function AsMap<V>(rows: seq<(string, V)>): map<string, V> {
    if rows == [] then map[] else AsMap(rows[..|rows| - 1])[rows[|rows| - 1].0 := rows[|rows| - 1].1]
  }

  /** What the file owns once the lists are stored. */
  function FactsOf(o: Origin, ds: seq<Declaration>): Facts {
    Facts(AsMap(NodeList(o, ds)), AsMap(EdgeList(o, Scopes(ds), ds)))
  }

  ghost predicate Distinct(ds: seq<Declaration>) {
    forall i, j :: 0 <= i < j < |ds| ==> ds[i].key != ds[j].key
  }

  ghost predicate Encloses(u: Declaration, v: Declaration) {
    ParentScope(v) == Some(Scope(u))
  }

  lemma {:induction false} ScopesPointAtDeclarations(ds: seq<Declaration>)
    ensures forall s <- Scopes(ds) :: exists u <- ds :: Scope(u) == s && u.key == Scopes(ds)[s]
    ensures forall u <- ds :: Scope(u) in Scopes(ds)
  {
    if ds != [] {
      ScopesPointAtDeclarations(ds[..|ds| - 1]);
      assert ds == ds[..|ds| - 1] + [ds[|ds| - 1]];
    }
  }

  lemma {:induction false} NodesArePresent(o: Origin, ds: seq<Declaration>)
    ensures AsMap(NodeList(o, ds)).Keys == set d | d in ds :: d.key
    ensures forall n <- AsMap(NodeList(o, ds)) :: exists d <- ds :: d.key == n && AsMap(NodeList(o, ds))[n] == NodeOf(o, d)
  {
    if ds != [] {
      NodesArePresent(o, ds[..|ds| - 1]);
      assert ds == ds[..|ds| - 1] + [ds[|ds| - 1]];
    }
  }

  /** The last declaration of its scope key. */
  ghost predicate Owns(ds: seq<Declaration>, u: Declaration) {
    u in ds && Scope(u) in Scopes(ds) && Scopes(ds)[Scope(u)] == u.key
  }

  /** The row is the containment of one declaration in another. */
  ghost predicate Containment(o: Origin, us: seq<Declaration>, vs: seq<Declaration>, id: string, row: EdgeRow) {
    exists u <- us, v <- vs ::
      Owns(us, u) && Encloses(u, v) && id == EdgeId(u.key, v.key) && row == Contains(o, u.key, v)
  }

  lemma AsMapAppend<V>(rows: seq<(string, V)>, row: (string, V))
    ensures AsMap(rows + [row]) == AsMap(rows)[row.0 := row.1]
  {
    assert (rows + [row])[..|rows|] == rows;
  }

  lemma EdgeIsContainment(o: Origin, us: seq<Declaration>, vs: seq<Declaration>, v: Declaration)
    requires v in vs
    ensures |EdgeInto(o, Scopes(us), v)| <= 1
    ensures forall e <- EdgeInto(o, Scopes(us), v) :: Containment(o, us, vs, e.0, e.1)
  {
    ScopesPointAtDeclarations(us);
    var scope, scopes := ParentScope(v), Scopes(us);
    if scope.Some? && scope.value in scopes {
      var u :| u in us && Scope(u) == scope.value && u.key == scopes[scope.value];
      assert Owns(us, u) && Encloses(u, v);
      assert EdgeInto(o, scopes, v) == [(EdgeId(u.key, v.key), Contains(o, u.key, v))];
      assert Containment(o, us, vs, EdgeId(u.key, v.key), Contains(o, u.key, v));
    }
  }

  lemma ContainmentGrows(o: Origin, us: seq<Declaration>, vs: seq<Declaration>, v: Declaration, id: string, row: EdgeRow)
    requires Containment(o, us, vs, id, row)
    ensures Containment(o, us, vs + [v], id, row)
  {
    var u, w :| u in us && w in vs && Owns(us, u) && Encloses(u, w) && id == EdgeId(u.key, w.key)
                && row == Contains(o, u.key, w);
    assert w in vs + [v];
  }

  lemma {:induction false} EdgesAreContainments(o: Origin, us: seq<Declaration>, vs: seq<Declaration>)
    ensures forall e <- AsMap(EdgeList(o, Scopes(us), vs)) ::
              Containment(o, us, vs, e, AsMap(EdgeList(o, Scopes(us), vs))[e])
  {
    if vs != [] {
      var v, init := vs[|vs| - 1], vs[..|vs| - 1];
      EdgesAreContainments(o, us, init);
      EdgeIsContainment(o, us, vs, v);
      assert vs == init + [v];
      var rows, more := EdgeList(o, Scopes(us), init), EdgeInto(o, Scopes(us), v);
      forall e | e in AsMap(rows)
        ensures Containment(o, us, vs, e, AsMap(rows)[e])
      {
        ContainmentGrows(o, us, init, v, e, AsMap(rows)[e]);
      }
      if more == [] {
        assert rows + more == rows;
      } else {
        assert more == [more[0]] && more[0] in more;
        AsMapAppend(rows, more[0]);
      }
    }
  }

  /** Every stored edge is a containment between two declarations of the file. */
  lemma EdgesAreContained(o: Origin, ds: seq<Declaration>, e: string) returns (u: Declaration, v: Declaration)
    requires e in FactsOf(o, ds).edges
    ensures u in ds && v in ds && Owns(ds, u) && Encloses(u, v)
    ensures e == EdgeId(u.key, v.key) && FactsOf(o, ds).edges[e] == Contains(o, u.key, v)
  {
    EdgesAreContainments(o, ds, ds);
    var row := FactsOf(o, ds).edges[e];
    assert Containment(o, ds, ds, e, row);
    u, v :| u in ds && v in ds && Owns(ds, u) && Encloses(u, v) && e == EdgeId(u.key, v.key) && row == Contains(o, u.key, v);
  }

  lemma FactsAreSelfContained(o: Origin, ds: seq<Declaration>)
    ensures SelfContained(FactsOf(o, ds))
  {
    NodesArePresent(o, ds);
    var f := FactsOf(o, ds);
    forall e | e in f.edges
      ensures f.edges[e].source in f.nodes && (f.edges[e].target.Resolved? ==> f.edges[e].target.id in f.nodes)
    {
      var u, v := EdgesAreContained(o, ds, e);
    }
  }

  lemma ParentScopeIsShorter(u: Declaration, v: Declaration)
    requires Encloses(u, v) && v.name != ""
    ensures |Scope(u)| < |Scope(v)|
  {
    assert Join(v.path[..0], "/") == "";
  }

  /** The declaration of a key, and the length of its scope key. */
  ghost function Height(ds: seq<Declaration>, key: string): nat {
    if d :| d in ds && d.key == key then |Scope(d)| else 0
  }

  lemma HeightOf(ds: seq<Declaration>, d: Declaration)
    requires Distinct(ds) && d in ds
    ensures Height(ds, d.key) == |Scope(d)|
  {
  }

  /** Containment has no cycle, whatever the names hold: separators in a name can
      attach a declaration to the wrong parent, never to one of its own children. */
  lemma ContainmentIsAcyclic(o: Origin, ds: seq<Declaration>)
    requires Distinct(ds) && forall d <- ds :: d.name != ""
    ensures Acyclic(FactsOf(o, ds).edges)
  {
    var edges := FactsOf(o, ds).edges;
    var rank := (key: string) => Height(ds, key);
    forall a, b | Linked(edges, a, b)
      ensures rank(a) < rank(b)
    {
      var e :| e in edges && edges[e].source == a && edges[e].target == Resolved(b);
      var u, v := EdgesAreContained(o, ds, e);
      HeightOf(ds, u);
      HeightOf(ds, v);
      ParentScopeIsShorter(u, v);
    }
    RankedIsAcyclic(edges, rank);
  }

  /** A declaration has at most one container. */
  lemma ContainerIsUnique(o: Origin, ds: seq<Declaration>, d: string, e: string)
    requires Distinct(ds)
    requires d in FactsOf(o, ds).edges && e in FactsOf(o, ds).edges
    requires FactsOf(o, ds).edges[d].target == FactsOf(o, ds).edges[e].target
    ensures d == e
  {
    var u, v := EdgesAreContained(o, ds, d);
    var u', v' := EdgesAreContained(o, ds, e);
  }

  lemma {:induction false} LeafOfName(prefix: string, name: string)
    requires (prefix == "" || prefix[|prefix| - 1] in ['.', '/', ':'])
    requires forall c <- name :: c !in ['.', '/', ':']
    ensures LeafName(prefix + name) == name
    decreases |name|
  {
    if name == "" {
      assert prefix + name == prefix;
    } else {
      var n := |name| - 1;
      assert name[n] in name && forall c <- name[..n] :: c in name;
      assert (prefix + name)[..|prefix + name| - 1] == prefix + name[..n];
      LeafOfName(prefix, name[..n]);
      assert name == name[..n] + [name[n]];
    }
  }

  /** A qualified name lists the scopes, and ends in the name. */
  lemma QualifiedName(path: seq<string>, scope: string, name: string)
    ensures Qualify([], name) == name
    ensures Qualify(path + [scope], name) == Qualify(path, scope) + "." + name
    ensures (forall c <- name :: c !in ['.', '/', ':']) ==> LeafName(Qualify(path, name)) == name
  {
    assert (path + [scope])[..|path|] == path;
    if forall c <- name :: c !in ['.', '/', ':'] {
      if path == [] {
        LeafOfName("", name);
        assert "" + name == name;
      } else {
        LeafOfName(Join(path, ".") + ".", name);
      }
    }
  }

  /** A portable path has slashes where the path has either separator. */
  lemma {:induction false} PortablePath(path: string)
    ensures |Portable(path)| == |path|
    ensures forall i | 0 <= i < |path| :: Portable(path)[i] == if path[i] == '\\' then '/' else path[i]
  {
    if path != "" { PortablePath(path[1..]); }
  }

  /** Names that cannot be confused with the separators. */
  predicate Clean(names: seq<string>) {
    forall n <- names :: n != "" && '/' !in n && '|' !in n
  }

  lemma {:induction false} JoinedIsFree(parts: seq<string>)
    requires Clean(parts)
    ensures '|' !in Join(parts, "/") && (Join(parts, "/") == "" <==> parts == [])
    ensures |parts| == 1 ==> '/' !in Join(parts, "/")
    ensures |parts| > 1 ==> '/' in Join(parts, "/")
  {
    if |parts| > 1 {
      JoinedIsFree(parts[..|parts| - 1]);
    }
  }

  lemma {:induction false} JoinIsInjective(a: seq<string>, b: seq<string>)
    requires Clean(a) && Clean(b) && Join(a, "/") == Join(b, "/")
    ensures a == b
  {
    JoinedIsFree(a);
    JoinedIsFree(b);
    if |a| > 1 {
      var m, n := |a| - 1, |b| - 1;
      assert Join(a, "/") == Join(a[..m], "/") + ['/'] + a[m];
      assert Join(b, "/") == Join(b[..n], "/") + ['/'] + b[n];
      LastSplit(Join(a[..m], "/"), a[m], Join(b[..n], "/"), b[n], '/');
      JoinIsInjective(a[..m], b[..n]);
      assert a == a[..m] + [a[m]] && b == b[..n] + [b[n]];
    }
  }

  lemma EnclosesOneLevel(u: Declaration, v: Declaration)
    requires Clean(u.path + [u.name]) && Clean(v.path + [v.name])
    ensures Encloses(u, v) <==> v.path == u.path + [u.name]
  {
    assert forall n <- u.path :: n in u.path + [u.name];
    assert u.name in u.path + [u.name];
    assert forall n <- v.path :: n in v.path + [v.name];
    if v.path != [] {
      var m := |v.path| - 1;
      JoinedIsFree(u.path);
      JoinedIsFree(v.path[..m]);
      if Encloses(u, v) {
        LastSplit(Join(v.path[..m], "/"), v.path[m], Join(u.path, "/"), u.name, '|');
        JoinIsInjective(v.path[..m], u.path);
        assert v.path == v.path[..m] + [v.path[m]];
      }
      if v.path == u.path + [u.name] {
        assert v.path[..m] == u.path;
      }
    }
  }

  lemma {:induction false} EdgeIsListed(o: Origin, scopes: map<string, string>, vs: seq<Declaration>, v: Declaration)
    requires v in vs && ParentScope(v).Some? && ParentScope(v).value in scopes
    ensures EdgeId(scopes[ParentScope(v).value], v.key) in AsMap(EdgeList(o, scopes, vs))
  {
    var last, init := vs[|vs| - 1], vs[..|vs| - 1];
    var rows, more := EdgeList(o, scopes, init), EdgeInto(o, scopes, last);
    if more == [] {
      assert rows + more == rows;
    } else {
      assert more == [more[0]];
      AsMapAppend(rows, more[0]);
    }
    if v != last {
      assert vs == init + [last];
      EdgeIsListed(o, scopes, init, v);
    }
  }

  /** A stored edge joins two declarations exactly when the first is the last one of its
      scope key and that key is the one the second names as its parent. */
  lemma LinkedIffEnclosed(o: Origin, ds: seq<Declaration>, u: Declaration, v: Declaration)
    requires Distinct(ds) && Dashless(ds) && u in ds && v in ds
    ensures Linked(FactsOf(o, ds).edges, u.key, v.key) <==> Owns(ds, u) && Encloses(u, v)
  {
    var edges := FactsOf(o, ds).edges;
    if e :| e in edges && edges[e].source == u.key && edges[e].target == Resolved(v.key) {
      var u', v' := EdgesAreContained(o, ds, e);
      assert u' == u && v' == v;
    }
    if Owns(ds, u) && Encloses(u, v) {
      EdgeIsListed(o, Scopes(ds), ds, v);
      var e := EdgeId(u.key, v.key);
      var u', v' := EdgesAreContained(o, ds, e);
      EdgeIdIsInjective(u.key, v.key, u'.key, v'.key);
      assert edges[e].source == u.key && edges[e].target == Resolved(v.key);
    }
  }

  /** With clean names a stored edge goes from a scope, or rather from its last
      declaration, to exactly the declarations one level in. */
  lemma EdgesDescendOneLevel(o: Origin, ds: seq<Declaration>, u: Declaration, v: Declaration)
    requires Distinct(ds) && Dashless(ds) && u in ds && v in ds
    requires Clean(u.path + [u.name]) && Clean(v.path + [v.name])
    ensures Linked(FactsOf(o, ds).edges, u.key, v.key) <==> Owns(ds, u) && v.path == u.path + [u.name]
  {
    LinkedIffEnclosed(o, ds, u, v);
    EnclosesOneLevel(u, v);
  }

  /** An anonymous scope contributes an empty path element.  So a declaration `u` inside
      one has the scope key of a top-level declaration `w` of the same name, takes it over,
      and becomes the container of what is declared inside `w`, at its own depth. */
  lemma AnonymousScopeCapturesChildren(o: Origin, w: Declaration, v: Declaration, anonymous: Declaration, u: Declaration)
    requires w.path == [] && w.name != "" && v.path == [w.name] && v.name != ""
    requires anonymous.path == [] && u.path == [""] && u.name == w.name
    requires Distinct([w, v, anonymous, u]) && Dashless([w, v, anonymous, u])
    ensures |u.path| == |v.path| && Linked(FactsOf(o, [w, v, anonymous, u]).edges, u.key, v.key)
    ensures !Linked(FactsOf(o, [w, v, anonymous, u]).edges, w.key, v.key)
  {
    var ds := [w, v, anonymous, u];
    assert ds[..3] == [w, v, anonymous] && ds[3] == u;
    assert Scopes(ds) == Scopes([w, v, anonymous])[Scope(u) := u.key];
    assert v.path[..0] == [] && Join([], "/") == "" && Join([""], "/") == "";
    assert Scope(u) == Scope(w) == ParentScope(v).value;
    assert ds[0] == w && ds[1] == v;
    LinkedIffEnclosed(o, ds, u, v);
    LinkedIffEnclosed(o, ds, w, v);
    assert ds[0].key != ds[3].key;
  }

  lemma EdgeIdIsInjective(p: string, k: string, p': string, k': string)
    requires '-' !in p && '-' !in p' && EdgeId(p, k) == EdgeId(p', k')
    ensures p == p' && k == k'
  {
    assert EdgeId(p, k) == p + ['-'] + (">contains->" + k);
    assert EdgeId(p', k') == p' + ['-'] + (">contains->" + k');
    FirstSplit(p, ">contains->" + k, p', ">contains->" + k', '-');
    assert k == (">contains->" + k)[11..] && k' == (">contains->" + k')[11..];
  }

  /** Keys without the arrow's dash. */
  predicate Dashless(ds: seq<Declaration>) {
    forall d <- ds :: '-' !in d.key
  }

  /** Facts of files with disjoint keys are disjoint, edges included. */
  lemma FactsAreDisjoint(o: Origin, ds: seq<Declaration>, o': Origin, ds': seq<Declaration>)
    requires Dashless(ds) && Dashless(ds')
    requires forall d <- ds, d' <- ds' :: d.key != d'.key
    ensures Disjoint(FactsOf(o, ds), FactsOf(o', ds'))
  {
    NodesArePresent(o, ds);
    NodesArePresent(o', ds');
    forall e | e in FactsOf(o, ds).edges && e in FactsOf(o', ds').edges
      ensures false
    {
      var u, v := EdgesAreContained(o, ds, e);
      var u', v' := EdgesAreContained(o', ds', e);
      EdgeIdIsInjective(u.key, v.key, u'.key, v'.key);
    }
  }

  ghost predicate NoRepeats<V>(rows: seq<(string, V)>) {
    forall i, j :: 0 <= i < j < |rows| ==> rows[i].0 != rows[j].0
  }

  lemma {:induction false} NodeKeysDoNotRepeat(o: Origin, ds: seq<Declaration>)
    requires Distinct(ds)
    ensures |NodeList(o, ds)| == |ds| && forall i :: 0 <= i < |ds| ==> NodeList(o, ds)[i].0 == ds[i].key
    ensures NoRepeats(NodeList(o, ds))
  {
    if ds != [] {
      NodeKeysDoNotRepeat(o, ds[..|ds| - 1]);
    }
  }

  lemma {:induction false} EdgeKeysDoNotRepeat(o: Origin, us: seq<Declaration>, vs: seq<Declaration>)
    requires Dashless(us) && Distinct(vs)
    ensures NoRepeats(EdgeList(o, Scopes(us), vs))
    ensures forall r <- EdgeList(o, Scopes(us), vs) ::
              exists p: string, v <- vs :: '-' !in p && r.0 == EdgeId(p, v.key)
  {
    if vs != [] {
      var v := vs[|vs| - 1];
      var init := vs[..|vs| - 1];
      EdgeKeysDoNotRepeat(o, us, init);
      ScopesPointAtDeclarations(us);
      var more := EdgeInto(o, Scopes(us), v);
      var rows := EdgeList(o, Scopes(us), init);
      if more != [] {
        var parent := Scopes(us)[ParentScope(v).value];
        forall i | 0 <= i < |rows|
          ensures rows[i].0 != more[0].0
        {
          assert rows[i] in rows;
          var p, w :| w in init && '-' !in p && rows[i].0 == EdgeId(p, w.key);
          if rows[i].0 == more[0].0 { EdgeIdIsInjective(p, w.key, parent, v.key); }
        }
      }
    }
  }

  lemma {:induction false} NodesAreCounted(o: Origin, ds: seq<Declaration>)
    requires Distinct(ds)
    ensures |AsMap(NodeList(o, ds))| == |ds|
  {
    if ds != [] {
      var init, d := ds[..|ds| - 1], ds[|ds| - 1];
      NodesAreCounted(o, init);
      NodesArePresent(o, init);
      assert forall i | 0 <= i < |init| :: init[i] == ds[i] && ds[i].key != d.key;
    }
  }

  lemma {:induction false} EdgesAreCounted(o: Origin, scopes: map<string, string>, ds: seq<Declaration>)
    ensures |AsMap(EdgeList(o, scopes, ds))| <= |ds|
  {
    if ds != [] {
      var rows, more := EdgeList(o, scopes, ds[..|ds| - 1]), EdgeInto(o, scopes, ds[|ds| - 1]);
      EdgesAreCounted(o, scopes, ds[..|ds| - 1]);
      if more == [] {
        assert rows + more == rows;
      } else {
        assert more == [more[0]];
        AsMapAppend(rows, more[0]);
      }
    }
  }
}
