/** The pinned analyzers as the reconcile loop sees them. */
module Analyzers {
  import opened Prelude
  import opened Declarations
  import opened Keys
  import opened Reconcile
  import opened Rows

  datatype Language = CSharp | TypeScript

  datatype Kind =
    | Namespace | Class | Interface | Struct | Record | Enum | Method
    | Function | TypeAlias | Variable | DefaultExport

  function Spelling(kind: Kind): (s: string)
    ensures s != "" && s != OCCURRENCE
  {
    match kind
    case Namespace => "namespace"
    case Class => "class"
    case Interface => "interface"
    case Struct => "struct"
    case Record => "record"
    case Enum => "enum"
    case Method => "method"
    case Function => "function"
    case TypeAlias => "type-alias"
    case Variable => "variable"
    case DefaultExport => "default-export"
  }

  /** One declaration as scanned: `identity` is what its base key hashes after the
      file and the kind.  An anonymous declaration has no name. */
  datatype Scanned = Scanned(
    kind: Kind, name: Option<string>, path: seq<string>, identity: seq<string>, startLine: nat, endLine: nat)

  /** Scanning is left uninterpreted; it fails when the bytes do not decode or parse. */
  datatype Analyzer = Analyzer(
    language: string -> Option<Language>, scan: (string, string) -> Option<seq<Scanned>>,
    hash: string -> string, project: string, prefix: string)

  function Trimmed(prefix: string): string {
    if prefix != "" && prefix[|prefix| - 1] == '/' then Trimmed(prefix[..|prefix| - 1]) else prefix
  }

  /** Repository-relative path of a project-relative one. */
  function SourcePath(prefix: string, path: string): string {
    if prefix == "" || prefix == "." then path else Trimmed(prefix) + "/" + path
  }

  function Base(a: Analyzer, file: string, s: Scanned): string {
    DeclarationKey(a.hash, file, Spelling(s.kind), s.identity)
  }

  function Bases(a: Analyzer, file: string, ss: seq<Scanned>): seq<string> {
    seq(|ss|, i requires 0 <= i < |ss| => Base(a, file, ss[i]))
  }

  function Declared(a: Analyzer, file: string, ss: seq<Scanned>): (ds: seq<Declaration>)
    ensures |ds| == |ss|
  {
    seq(|ss|, i requires 0 <= i < |ss| =>
      var key := UniqueKey(a.hash, Bases(a, file, ss), i);
      Declaration(Spelling(ss[i].kind), if ss[i].name.Some? then ss[i].name.value else key, ss[i].path, key,
                  ss[i].startLine, ss[i].endLine))
  }

  function OriginOf(a: Analyzer, language: Language, file: string): Origin {
    match language
    case CSharp => Origin(a.project, "csharp", "csharp-declarations-v1", file)
    case TypeScript => Origin(a.project, "typescript", "typescript-declarations-v1", file)
  }

  function AnalyzeFile(a: Analyzer, path: string, bytes: string): Option<Facts> {
    match a.language(path)
    case None => Some(NO_FACTS)
    case Some(language) =>
      var file := SourcePath(a.prefix, path);
      var ss := a.scan(file, bytes);
      if ss.None? then None else Some(FactsOf(OriginOf(a, language, file), Declared(a, file, ss.value)))
  }

  function ProfileOf(a: Analyzer): Profile {
    Profile((path: string) => a.language(path).Some?, (path: string, bytes: string) => AnalyzeFile(a, path, bytes))
  }

  /** The prefix is joined with one slash, whether or not it ends in some. */
  lemma SourcePathJoins(prefix: string, path: string)
    ensures SourcePath("", path) == path && SourcePath(".", path) == path
    ensures prefix != "" && prefix != "." && prefix[|prefix| - 1] != '/' ==> SourcePath(prefix, path) == prefix + "/" + path
    ensures prefix != "" && prefix != "." ==> SourcePath(prefix + "/", path) == SourcePath(prefix, path)
  {
    assert (prefix + "/")[..|prefix|] == prefix;
  }

  lemma SourcePathIsInjective(prefix: string, p: string, q: string)
    requires SourcePath(prefix, p) == SourcePath(prefix, q)
    ensures p == q
  {
    if prefix != "" && prefix != "." {
      var n := |Trimmed(prefix) + "/"|;
      assert p == SourcePath(prefix, p)[n..] && q == SourcePath(prefix, q)[n..];
    }
  }

  lemma BasesAreBases(a: Analyzer, file: string, ss: seq<Scanned>)
    ensures forall b <- Bases(a, file, ss) :: IsBase(a.hash, file, b)
  {
    forall i | 0 <= i < |ss|
      ensures IsBase(a.hash, file, Bases(a, file, ss)[i])
    {
    }
  }

  /** One file's declarations have distinct keys, so the store refuses none of its lists. */
  lemma DeclaredAreDistinct(a: Analyzer, file: string, ss: seq<Scanned>)
    requires IsDigest(a.hash)
    ensures Distinct(Declared(a, file, ss)) && Dashless(Declared(a, file, ss))
    ensures forall d <- Declared(a, file, ss) :: d.key != ""
  {
    BasesAreBases(a, file, ss);
    var bases := Bases(a, file, ss);
    forall i, j | 0 <= i < j < |ss|
      ensures Declared(a, file, ss)[i].key != Declared(a, file, ss)[j].key
    {
      KeysOfAFileAreDistinct(a.hash, file, bases, i, j);
    }
    forall i | 0 <= i < |ss|
      ensures UniqueKey(a.hash, bases, i) != "" && '-' !in UniqueKey(a.hash, bases, i)
    {
      assert bases[i] == Base(a, file, ss[i]);
    }
  }

  lemma DeclaredAreApart(a: Analyzer, file: string, ss: seq<Scanned>, file': string, ss': seq<Scanned>)
    requires IsDigest(a.hash) && file != file'
    ensures forall d <- Declared(a, file, ss), d' <- Declared(a, file', ss') :: d.key != d'.key
  {
    BasesAreBases(a, file, ss);
    BasesAreBases(a, file', ss');
    forall i, j | 0 <= i < |ss| && 0 <= j < |ss'|
      ensures Declared(a, file, ss)[i].key != Declared(a, file', ss')[j].key
    {
      KeysOfFilesAreApart(a.hash, file, Bases(a, file, ss), i, file', Bases(a, file', ss'), j);
    }
  }

  /** What the reconcile loop relies on: analyses stay inside their file, and no two
      files claim one key. */
  lemma AnalysesAreLocal(a: Analyzer)
    requires IsDigest(a.hash)
    ensures Local(ProfileOf(a))
  {
    var profile := ProfileOf(a);
    forall p, b
      ensures StaysInside(profile, p, b)
    {
      if a.language(p).Some? {
        var file := SourcePath(a.prefix, p);
        var ss := a.scan(file, b);
        if ss.Some? { FactsAreSelfContained(OriginOf(a, a.language(p).value, file), Declared(a, file, ss.value)); }
      }
    }
    forall p, b, q, c | p != q
      ensures Apart(profile, p, b, q, c)
    {
      if a.language(p).Some? && a.language(q).Some? && AnalyzeFile(a, p, b).Some? && AnalyzeFile(a, q, c).Some? {
        ScansAreApart(a, p, b, q, c);
      }
    }
  }

  lemma ScansAreApart(a: Analyzer, p: string, b: string, q: string, c: string)
    requires IsDigest(a.hash) && p != q && a.language(p).Some? && a.language(q).Some?
    requires AnalyzeFile(a, p, b).Some? && AnalyzeFile(a, q, c).Some?
    ensures Disjoint(AnalyzeFile(a, p, b).value, AnalyzeFile(a, q, c).value)
  {
    var f, g := SourcePath(a.prefix, p), SourcePath(a.prefix, q);
    if f == g { SourcePathIsInjective(a.prefix, p, q); }
    var ss, tt := a.scan(f, b).value, a.scan(g, c).value;
    DeclaredAreDistinct(a, f, ss);
    DeclaredAreDistinct(a, g, tt);
    DeclaredAreApart(a, f, ss, g, tt);
    FactsAreDisjoint(OriginOf(a, a.language(p).value, f), Declared(a, f, ss),
                     OriginOf(a, a.language(q).value, g), Declared(a, g, tt));
  }

  /** A scanned name is never empty. */
  ghost predicate NamesEverything(a: Analyzer) {
    forall file, b :: a.scan(file, b).Some? ==> forall s <- a.scan(file, b).value :: s.name != Some("")
  }

  lemma AnalysisIsAcyclic(a: Analyzer, p: string, f: Facts)
    requires IsDigest(a.hash) && NamesEverything(a) && FromAnalysis(ProfileOf(a), p, f)
    ensures Acyclic(f.edges) && SelfContained(f)
  {
    if f == NO_FACTS {
      RankedIsAcyclic(f.edges, (key: string) => 0);
    } else {
      var b :| Analyze(ProfileOf(a), p, b) == Some(f);
      AnalysesAreLocal(a);
      assert StaysInside(ProfileOf(a), p, b);
      if a.language(p).Some? {
        var file := SourcePath(a.prefix, p);
        var ss := a.scan(file, b).value;
        var ds := Declared(a, file, ss);
        DeclaredAreDistinct(a, file, ss);
        forall i | 0 <= i < |ds|
          ensures ds[i].name != ""
        {
          assert ss[i] in a.scan(file, b).value && ds[i] in ds;
        }
        ContainmentIsAcyclic(OriginOf(a, a.language(p).value, file), ds);
      }
    }
  }

  /** The edge table holds rows of some file each. */
  ghost predicate IsEdgeTable(facts: map<string, Facts>, edges: map<string, EdgeRow>) {
    forall e <- edges :: HoldsEdge(facts, e, edges[e])
  }

  ghost predicate Separated(facts: map<string, Facts>) {
    && (forall p <- facts :: SelfContained(facts[p]))
    && forall p <- facts, q <- facts :: p != q ==> Disjoint(facts[p], facts[q])
  }

  lemma LinksAreInsideAFile(facts: map<string, Facts>, edges: map<string, EdgeRow>, a: string, b: string)
    returns (q: string)
    requires Separated(facts) && IsEdgeTable(facts, edges) && Linked(edges, a, b)
    ensures q in facts && Linked(facts[q].edges, a, b) && a in facts[q].nodes && b in facts[q].nodes
  {
    var e :| e in edges && edges[e].source == a && edges[e].target == Resolved(b);
    assert HoldsEdge(facts, e, edges[e]);
    q :| q in facts && e in facts[q].edges && facts[q].edges[e] == edges[e];
    assert SelfContained(facts[q]);
  }

  lemma OwnerIsUnique(facts: map<string, Facts>, p: string, q: string, key: string)
    requires Separated(facts) && p in facts && q in facts
    requires key in facts[p].nodes && key in facts[q].nodes
    ensures p == q
  {
    assert p == q || Disjoint(facts[p], facts[q]);
  }

  lemma {:induction false} WalksStayInOneFile(
    facts: map<string, Facts>, edges: map<string, EdgeRow>, walk: seq<string>) returns (p: string)
    requires Separated(facts) && IsEdgeTable(facts, edges)
    requires |walk| > 1 && IsWalk(edges, walk)
    ensures p in facts && IsWalk(facts[p].edges, walk) && walk[|walk| - 1] in facts[p].nodes
  {
    var n := |walk| - 1;
    assert Linked(edges, walk[n - 1], walk[n]);
    p := LinksAreInsideAFile(facts, edges, walk[n - 1], walk[n]);
    if n > 1 {
      PrefixIsWalk(edges, walk);
      var q := WalksStayInOneFile(facts, edges, walk[..n]);
      OwnerIsUnique(facts, p, q, walk[n - 1]);
      ExtendWalk(facts[p].edges, walk);
    }
  }

  lemma PrefixIsWalk(edges: map<string, EdgeRow>, walk: seq<string>)
    requires |walk| > 1 && IsWalk(edges, walk)
    ensures IsWalk(edges, walk[..|walk| - 1])
  {
    var n := |walk| - 1;
    forall i | 0 <= i < n - 1
      ensures Linked(edges, walk[..n][i], walk[..n][i + 1])
    {
      assert Linked(edges, walk[i], walk[i + 1]);
    }
  }

  lemma ExtendWalk(edges: map<string, EdgeRow>, walk: seq<string>)
    requires |walk| > 1 && IsWalk(edges, walk[..|walk| - 1])
    requires Linked(edges, walk[|walk| - 2], walk[|walk| - 1])
    ensures IsWalk(edges, walk)
  {
    var n := |walk| - 1;
    forall i | 0 <= i < n
      ensures Linked(edges, walk[i], walk[i + 1])
    {
      if i < n - 1 { assert Linked(edges, walk[..n][i], walk[..n][i + 1]); }
    }
  }

  /** Containment is acyclic in every store the reconcile loop can leave behind. */
  lemma StoreIsAcyclic(
    a: Analyzer, files: map<string, FileRow>, facts: map<string, Facts>, edges: map<string, EdgeRow>)
    requires IsDigest(a.hash) && NamesEverything(a)
    requires Consistent(ProfileOf(a), files, facts) && IsEdgeTable(facts, edges)
    ensures Separated(facts) && Acyclic(edges)
  {
    AnalysesAreLocal(a);
    forall p | p in facts
      ensures SelfContained(facts[p]) && Acyclic(facts[p].edges)
    {
      assert RowConsistent(ProfileOf(a), p, files[p], facts[p]);
      AnalysisIsAcyclic(a, p, facts[p]);
    }
    forall p, q | p in facts && q in facts && p != q
      ensures Disjoint(facts[p], facts[q])
    {
      assert RowConsistent(ProfileOf(a), p, files[p], facts[p]) && RowConsistent(ProfileOf(a), q, files[q], facts[q]);
      AnalysesDoNotInterfere(ProfileOf(a), p, facts[p], q, facts[q]);
    }
    forall walk | |walk| > 1 && IsWalk(edges, walk)
      ensures walk[0] != walk[|walk| - 1]
    {
      var p := WalksStayInOneFile(facts, edges, walk);
    }
  }

  lemma AnalysisHasOneParent(a: Analyzer, p: string, f: Facts)
    requires IsDigest(a.hash) && FromAnalysis(ProfileOf(a), p, f)
    ensures OneParent(f.edges)
  {
    if f != NO_FACTS {
      var b :| Analyze(ProfileOf(a), p, b) == Some(f);
      if a.language(p).Some? {
        var file := SourcePath(a.prefix, p);
        var ds := Declared(a, file, a.scan(file, b).value);
        var o := OriginOf(a, a.language(p).value, file);
        DeclaredAreDistinct(a, file, a.scan(file, b).value);
        assert f == FactsOf(o, ds);
        forall d, e | d in f.edges && e in f.edges && f.edges[d].target == f.edges[e].target
          ensures d == e
        {
          ContainerIsUnique(o, ds, d, e);
        }
      }
    }
  }

  /** In every store the reconcile loop can leave behind, a node has at most one container. */
  lemma StoreHasOneParent(
    a: Analyzer, files: map<string, FileRow>, facts: map<string, Facts>, edges: map<string, EdgeRow>)
    requires IsDigest(a.hash)
    requires Consistent(ProfileOf(a), files, facts) && IsEdgeTable(facts, edges)
    ensures OneParent(edges)
  {
    AnalysesAreLocal(a);
    forall d, e | d in edges && e in edges && edges[d].target.Resolved? && edges[d].target == edges[e].target
      ensures edges[d].source == edges[e].source
    {
      assert HoldsEdge(facts, d, edges[d]) && HoldsEdge(facts, e, edges[e]);
      var p :| p in facts && d in facts[p].edges && facts[p].edges[d] == edges[d];
      var q :| q in facts && e in facts[q].edges && facts[q].edges[e] == edges[e];
      OneFileOwnsTheTarget(a, files, facts, p, d, q, e);
      assert RowConsistent(ProfileOf(a), p, files[p], facts[p]);
      AnalysisHasOneParent(a, p, facts[p]);
    }
  }

  lemma OneFileOwnsTheTarget(
    a: Analyzer, files: map<string, FileRow>, facts: map<string, Facts>, p: string, d: string, q: string, e: string)
    requires Local(ProfileOf(a)) && Consistent(ProfileOf(a), files, facts)
    requires p in facts && d in facts[p].edges && q in facts && e in facts[q].edges
    requires facts[p].edges[d].target.Resolved? && facts[p].edges[d].target == facts[q].edges[e].target
    ensures p == q
  {
    assert RowConsistent(ProfileOf(a), p, files[p], facts[p]) && RowConsistent(ProfileOf(a), q, files[q], facts[q]);
    AnalysisIsSelfContained(ProfileOf(a), p, facts[p]);
    AnalysisIsSelfContained(ProfileOf(a), q, facts[q]);
    if p != q { AnalysesDoNotInterfere(ProfileOf(a), p, facts[p], q, facts[q]); }
  }

  lemma AnalysisIsSelfContained(profile: Profile, p: string, f: Facts)
    requires Local(profile) && FromAnalysis(profile, p, f)
    ensures SelfContained(f)
  {
    if f != NO_FACTS {
      var b :| Analyze(profile, p, b) == Some(f);
      assert StaysInside(profile, p, b);
    }
  }

  // What a stored file says, field by field.

  /** The row of one scanned declaration. */
  ghost predicate Describes(row: NodeRow, s: Scanned, key: string, language: Language, file: string) {
    && row.kind == Spelling(s.kind)
    && row.qualifiedName == row.body.qualifiedName == Qualify(s.path, if s.name.Some? then s.name.value else key)
    && (s.name.Some? && s.name.value != "" ==> row.body.name == s.name.value)
    && row.body.language == (if language.CSharp? then "csharp" else "typescript")
    && row.body.file == Portable(file)
    && row.body.startLine == s.startLine && row.body.endLine == s.endLine
    && row.body.attributes == map[]
  }

  /** The row of a containment found at a declaration. */
  ghost predicate Contained(a: Analyzer, row: EdgeRow, parent: string, key: string, s: Scanned, language: Language, file: string) {
    && row.source == parent && row.target == Resolved(key)
    && row.targetProject == a.project && row.kind == "contains" && row.resolution == ExactStatic
    && row.evidence == [Evidence(Portable(file), s.startLine, s.endLine, "declaration-contains-v1")]
    && row.analyzer == (if language.CSharp? then "csharp-declarations-v1" else "typescript-declarations-v1")
  }

  lemma ScanIsStored(a: Analyzer, language: Language, file: string, ss: seq<Scanned>, f: Facts, i: nat)
    requires IsDigest(a.hash) && i < |ss| && f == FactsOf(OriginOf(a, language, file), Declared(a, file, ss))
    ensures var key := Declared(a, file, ss)[i].key;
            key in f.nodes && Describes(f.nodes[key], ss[i], key, language, file)
  {
    var ds := Declared(a, file, ss);
    DeclaredAreDistinct(a, file, ss);
    NodesArePresent(OriginOf(a, language, file), ds);
    assert ds[i] in ds;
  }

  lemma EdgeIsDescribed(a: Analyzer, language: Language, file: string, ss: seq<Scanned>, f: Facts, e: string)
    returns (parent: string, i: nat)
    requires f == FactsOf(OriginOf(a, language, file), Declared(a, file, ss)) && e in f.edges
    ensures i < |ss| && e == parent + "->contains->" + Declared(a, file, ss)[i].key
    ensures Contained(a, f.edges[e], parent, Declared(a, file, ss)[i].key, ss[i], language, file)
  {
    var ds := Declared(a, file, ss);
    var u, v := EdgesAreContained(OriginOf(a, language, file), ds, e);
    parent := u.key;
    i :| i < |ds| && ds[i] == v;
  }

  /** After a completed pass a source file's facts are its declarations: the scan of the
      bytes observed, one described node for each, and described containments. */
  lemma SourceFactsAreDeclarations(
    a: Analyzer, observed: map<string, Digest>, facts: map<string, Facts>, p: string)
    requires IsDigest(a.hash) && StoresDeclarations(ProfileOf(a), observed, facts)
    requires p in observed && a.language(p).Some?
    ensures var language, file := a.language(p).value, SourcePath(a.prefix, p);
            var ss := a.scan(file, observed[p].bytes);
            && ss.Some? && facts[p] == FactsOf(OriginOf(a, language, file), Declared(a, file, ss.value))
            && |facts[p].nodes| == |ss.value|
            && (forall i | 0 <= i < |ss.value| ::
                  var key := Declared(a, file, ss.value)[i].key;
                  key in facts[p].nodes && Describes(facts[p].nodes[key], ss.value[i], key, language, file))
            && forall e <- facts[p].edges :: exists parent, i ::
                 0 <= i < |ss.value| && Contained(a, facts[p].edges[e], parent, Declared(a, file, ss.value)[i].key, ss.value[i], language, file)
  {
    var language, file := a.language(p).value, SourcePath(a.prefix, p);
    var ss := a.scan(file, observed[p].bytes).value;
    assert AnalyzeFile(a, p, observed[p].bytes) == Some(facts[p]);
    DeclaredAreCounted(a, language, file, ss, facts[p]);
    forall i | 0 <= i < |ss|
      ensures var key := Declared(a, file, ss)[i].key;
              key in facts[p].nodes && Describes(facts[p].nodes[key], ss[i], key, language, file)
    {
      ScanIsStored(a, language, file, ss, facts[p], i);
    }
    forall e | e in facts[p].edges
      ensures exists parent, i ::
                0 <= i < |ss| && Contained(a, facts[p].edges[e], parent, Declared(a, file, ss)[i].key, ss[i], language, file)
    {
      var parent, i := EdgeIsDescribed(a, language, file, ss, facts[p], e);
    }
  }

  lemma DeclaredAreCounted(a: Analyzer, language: Language, file: string, ss: seq<Scanned>, f: Facts)
    requires IsDigest(a.hash) && f == FactsOf(OriginOf(a, language, file), Declared(a, file, ss))
    ensures |f.nodes| == |ss| && |f.edges| <= |ss|
  {
    var o, ds := OriginOf(a, language, file), Declared(a, file, ss);
    DeclaredAreDistinct(a, file, ss);
    NodesAreCounted(o, ds);
    EdgesAreCounted(o, Scopes(ds), ds);
  }

  predicate IsNameless(s: Scanned) {
    s.path == [] && s.name == Some("")
  }

  predicate IsTaken(n: string, row: NodeRow) {
    n != "" && row.kind != "" && row.qualifiedName != ""
  }

  lemma NodeIsTaken(a: Analyzer, language: Language, file: string, ss: seq<Scanned>, f: Facts, i: nat)
    requires IsDigest(a.hash) && f == FactsOf(OriginOf(a, language, file), Declared(a, file, ss)) && i < |ss|
    ensures var key := Declared(a, file, ss)[i].key;
            key in f.nodes && (IsTaken(key, f.nodes[key]) <==> !IsNameless(ss[i]))
  {
    ScanIsStored(a, language, file, ss, f, i);
    DeclaredAreDistinct(a, file, ss);
    assert Declared(a, file, ss)[i] in Declared(a, file, ss);
  }

  lemma NodesAreDeclared(a: Analyzer, language: Language, file: string, ss: seq<Scanned>, f: Facts, n: string)
    returns (i: nat)
    requires f == FactsOf(OriginOf(a, language, file), Declared(a, file, ss)) && n in f.nodes
    ensures i < |ss| && Declared(a, file, ss)[i].key == n
  {
    var ds := Declared(a, file, ss);
    NodesArePresent(OriginOf(a, language, file), ds);
    var d :| d in ds && d.key == n;
    i :| i < |ds| && ds[i] == d;
  }

  lemma NodesAreTaken(a: Analyzer, language: Language, file: string, ss: seq<Scanned>, f: Facts)
    requires IsDigest(a.hash) && f == FactsOf(OriginOf(a, language, file), Declared(a, file, ss))
    ensures (forall n <- f.nodes :: IsTaken(n, f.nodes[n])) <==> forall s <- ss :: !IsNameless(s)
  {
    if forall s <- ss :: !IsNameless(s) {
      forall n | n in f.nodes
        ensures IsTaken(n, f.nodes[n])
      {
        var i := NodesAreDeclared(a, language, file, ss, f, n);
        NodeIsTaken(a, language, file, ss, f, i);
      }
    } else {
      var i :| 0 <= i < |ss| && IsNameless(ss[i]);
      NodeIsTaken(a, language, file, ss, f, i);
    }
  }

  lemma EdgesAreTaken(a: Analyzer, language: Language, file: string, ss: seq<Scanned>, f: Facts)
    requires f == FactsOf(OriginOf(a, language, file), Declared(a, file, ss))
    ensures forall e <- f.edges ::
              && e != "" && f.edges[e].kind != "" && f.edges[e].source in f.nodes
              && (f.edges[e].target.Unresolved? <==> f.edges[e].resolution.Missing?)
  {
    FactsAreSelfContained(OriginOf(a, language, file), Declared(a, file, ss));
    forall e | e in f.edges
      ensures e != "" && f.edges[e].kind != "" && (f.edges[e].target.Unresolved? <==> f.edges[e].resolution.Missing?)
    {
      var parent, i := EdgeIsDescribed(a, language, file, ss, f, e);
    }
  }

  /** The store takes what the analyzers produce exactly when a file has at most 20000
      declarations and none of them is nameless at the top level. */
  lemma AcceptedExactly(a: Analyzer, language: Language, file: string, ss: seq<Scanned>, f: Facts)
    requires IsDigest(a.hash) && f == FactsOf(OriginOf(a, language, file), Declared(a, file, ss))
    ensures Accepted(f) <==> |ss| <= 20000 && forall s <- ss :: !IsNameless(s)
  {
    DeclaredAreCounted(a, language, file, ss, f);
    NodesAreTaken(a, language, file, ss, f);
    EdgesAreTaken(a, language, file, ss, f);
  }
}
