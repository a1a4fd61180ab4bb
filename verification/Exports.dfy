/** Selected export from one catalog vector, while publishers keep running. */
module Exports {
  import opened Prelude
  import opened Lanes
  import opened Sorting
  import Catalogs

  datatype Refusal =
    | InvalidSelection | CatalogMissing | Unavailable | VectorDisagrees | SearchBudget | NoLongerRetained
    | CatalogMismatch | MemberMismatch | EmptyOrOutside

  datatype Result<+T> = Success(value: T) | Refused(why: Refusal)

  datatype Command = Command(
    projects: seq<string>, nodes: set<string>, edges: set<string>, exact: bool,
    catalog: Option<Manifest>, generations: map<string, Manifest>)

  datatype EdgeRow = EdgeRow(id: string, source: string, target: Option<string>)

  /** How the bytes of the two shards parse into records. */
  datatype Codec = Codec(nodes: string -> seq<string>, edges: string -> seq<EdgeRow>)

  datatype Graph = Graph(nodes: seq<string>, edges: seq<EdgeRow>)

  datatype Artifact = Artifact(catalog: Manifest, vector: map<string, Manifest>, documents: map<string, Graph>)

  const SEARCH_BUDGET := 2048

  predicate VectorMatches(c: Manifest, expected: map<string, Manifest>) {
    c.Catalog? && forall p <- expected :: p in c.pins && c.pins[p].generation == expected[p]
  }

  /** The catalog directory named `c` is there and its manifest hashes to its name. */
  predicate Readable(c: Manifest, catalogs: map<Name, Dir>) {
    Sha(c) in catalogs && HasManifest(catalogs[Sha(c)]) && catalogs[Sha(c)][ManifestFile].manifest == c
  }

  function Retain<T>(s: seq<T>, keep: T -> bool): seq<T> {
    if s == [] then [] else (if keep(s[0]) then [s[0]] else []) + Retain(s[1..], keep)
  }

  lemma {:induction false} RetainKeepsExactly<T>(s: seq<T>, keep: T -> bool, x: T)
    ensures multiset(Retain(s, keep))[x] == if keep(x) then multiset(s)[x] else 0
  {
    if s != [] {
      assert s == [s[0]] + s[1..];
      RetainKeepsExactly(s[1..], keep, x);
    }
  }

  /** The projection of one generation: its records, filtered by the selection. */
  function Projection(cmd: Command, codec: Codec, g: Manifest): Graph {
    var nodes := if NodesShard in g.Files() then codec.nodes(g.Files()[NodesShard]) else [];
    var edges := if EdgesShard in g.Files() then codec.edges(g.Files()[EdgesShard]) else [];
    var nodes := if cmd.nodes == {} then nodes else Retain(nodes, n => n in cmd.nodes);
    var edges := if cmd.nodes == {} then edges
                 else Retain(edges, (e: EdgeRow) => e.source in cmd.nodes && e.target.Some? && e.target.value in cmd.nodes);
    var edges := if cmd.exact || cmd.edges != {} then Retain(edges, (e: EdgeRow) => e.id in cmd.edges) else edges;
    Graph(nodes, edges)
  }

  /** The records of one shard of a generation; an empty role has no shard. */
  function NodeRecords(codec: Codec, g: Manifest): seq<string> {
    if NodesShard in g.Files() then codec.nodes(g.Files()[NodesShard]) else []
  }

  function EdgeRecords(codec: Codec, g: Manifest): seq<EdgeRow> {
    if EdgesShard in g.Files() then codec.edges(g.Files()[EdgesShard]) else []
  }

  predicate WantsNode(cmd: Command, n: string) {
    cmd.nodes == {} || n in cmd.nodes
  }

  predicate WantsEdge(cmd: Command, e: EdgeRow) {
    && (cmd.nodes == {} || (e.source in cmd.nodes && e.target.Some? && e.target.value in cmd.nodes))
    && (cmd.exact || cmd.edges != {} ==> e.id in cmd.edges)
  }

  /** The graph holds the wanted records of the generation, as often as its shards do,
      and no other. */
  ghost predicate CutDown(graph: Graph, cmd: Command, codec: Codec, g: Manifest) {
    && (forall n :: multiset(graph.nodes)[n] == if WantsNode(cmd, n) then multiset(NodeRecords(codec, g))[n] else 0)
    && forall e :: multiset(graph.edges)[e] == if WantsEdge(cmd, e) then multiset(EdgeRecords(codec, g))[e] else 0
  }

  /** The projection is the cut for every command, with and without a selection. */
  lemma ProjectionIsCutDown(cmd: Command, codec: Codec, g: Manifest)
    ensures CutDown(Projection(cmd, codec, g), cmd, codec, g)
  {
    var nodes, edges := NodeRecords(codec, g), EdgeRecords(codec, g);
    var joins := (e: EdgeRow) => e.source in cmd.nodes && e.target.Some? && e.target.value in cmd.nodes;
    var induced := if cmd.nodes == {} then edges else Retain(edges, joins);
    forall n
      ensures multiset(Projection(cmd, codec, g).nodes)[n] == if WantsNode(cmd, n) then multiset(nodes)[n] else 0
    {
      RetainKeepsExactly(nodes, n => n in cmd.nodes, n);
    }
    forall e
      ensures multiset(Projection(cmd, codec, g).edges)[e] == if WantsEdge(cmd, e) then multiset(edges)[e] else 0
    {
      RetainKeepsExactly(edges, joins, e);
      RetainKeepsExactly(induced, (e: EdgeRow) => e.id in cmd.edges, e);
    }
  }

  function Observed(documents: map<string, Graph>): set<string> {
    set p, n | p in documents && n in documents[p].nodes :: n
  }

  function ObservedEdges(documents: map<string, Graph>): set<string> {
    set p, e | p in documents && e in documents[p].edges :: e.id
  }

  /** A node selection keeps exactly the induced subgraph of a generation. */
  lemma ProjectionIsInduced(cmd: Command, codec: Codec, g: Manifest, e: EdgeRow)
    requires cmd.nodes != {} && !cmd.exact && cmd.edges == {}
    requires EdgesShard in g.Files()
    ensures multiset(Projection(cmd, codec, g).edges)[e] ==
            if e.source in cmd.nodes && e.target.Some? && e.target.value in cmd.nodes
            then multiset(codec.edges(g.Files()[EdgesShard]))[e] else 0
  {
    var keep := (e: EdgeRow) => e.source in cmd.nodes && e.target.Some? && e.target.value in cmd.nodes;
    RetainKeepsExactly(codec.edges(g.Files()[EdgesShard]), keep, e);
  }

  lemma RetainedSatisfies<T>(s: seq<T>, keep: T -> bool, x: T)
    requires x in Retain(s, keep)
    ensures x in s && keep(x)
  {
    RetainKeepsExactly(s, keep, x);
    assert x in multiset(Retain(s, keep));
    assert x in multiset(s);
  }

  /** An artifact cut down to selected nodes has no dangling edge endpoint. */
  lemma NoDanglingEndpoint(cmd: Command, codec: Codec, a: Artifact, p: string, e: EdgeRow)
    requires cmd.nodes != {} && cmd.nodes <= Observed(a.documents)
    requires p in a.documents && p in a.vector && a.documents[p] == Projection(cmd, codec, a.vector[p])
    requires e in a.documents[p].edges
    ensures e.target.Some? && e.source in Observed(a.documents) && e.target.value in Observed(a.documents)
  {
    var g := a.vector[p];
    var edges := if EdgesShard in g.Files() then codec.edges(g.Files()[EdgesShard]) else [];
    var keep := (e: EdgeRow) => e.source in cmd.nodes && e.target.Some? && e.target.value in cmd.nodes;
    var induced := Retain(edges, keep);
    if cmd.exact || cmd.edges != {} {
      RetainedSatisfies(induced, (e: EdgeRow) => e.id in cmd.edges, e);
    }
    RetainedSatisfies(edges, keep, e);
  }

  /** The directory trees an exporter reads while publishers keep writing them:
      the catalog lane, and the installed generations of each live lane. */
  class Tree {
    const id: string
    const profile: string
    var pointer: Option<Manifest>
    var catalogs: map<Name, Dir>
    var installed: map<string, map<Name, Dir>>

    constructor (id: string, profile: string, projects: set<string>)
      ensures this.id == id && this.profile == profile
      ensures pointer == None && catalogs == map[] && installed == map p | p in projects :: map[]
    {
      this.id, this.profile := id, profile;
      pointer, catalogs, installed := None, map[], map p | p in projects :: map[];
    }

    /** Publishers run here.  All that is known of them is that a generation once
        installed stays installed and unchanged; the pointer may move freely. */
    method Interfere()
      modifies this
      ensures Grows(old(catalogs), catalogs) && Catalogs.AllGrow(old(installed), installed)
    {
    }
  }

  /** The catalog asked for, or the current one. */
  function Preferred(cmd: Command, pointer: Option<Manifest>): Manifest
    requires pointer.Some?
  {
    if cmd.catalog.Some? then cmd.catalog.value else pointer.value
  }

  predicate Suits(c: Manifest, cmd: Command, catalogs: map<Name, Dir>) {
    Readable(c, catalogs) && (cmd.generations != map[] ==> VectorMatches(c, cmd.generations))
  }

  /** Pick the catalog generation an export reads. */
  method SelectedCatalog(s: Tree, cmd: Command) returns (r: Result<Manifest>)
    modifies s
    ensures Grows(old(s.catalogs), s.catalogs) && Catalogs.AllGrow(old(s.installed), s.installed)
    ensures r.Success? && cmd.generations != map[] ==>
              Readable(r.value, s.catalogs) && VectorMatches(r.value, cmd.generations)
    ensures r.Success? && cmd.catalog.Some? ==> r.value == cmd.catalog.value
    ensures r.Success? && cmd.catalog.None? && cmd.generations == map[] ==> old(s.pointer) == Some(r.value)
    ensures r == Refused(NoLongerRetained) ==>
              && cmd.catalog.None?
              && forall c: Manifest :: old(Readable(c, s.catalogs)) ==> !VectorMatches(c, cmd.generations)
    // Every other refusal names its reason.
    ensures r == Refused(CatalogMissing) ==> old(s.pointer).None?
    ensures r == Refused(Unavailable) ==> old(s.pointer).Some? && !old(Readable(Preferred(cmd, s.pointer), s.catalogs))
    ensures r == Refused(VectorDisagrees) ==> cmd.catalog.Some? && !old(Suits(cmd.catalog.value, cmd, s.catalogs))
    ensures r == Refused(SearchBudget) ==> cmd.catalog.None? && |s.catalogs| > SEARCH_BUDGET
    ensures r.Refused? ==>
              r.why.CatalogMissing? || r.why.Unavailable? || r.why.VectorDisagrees? || r.why.SearchBudget? || r.why.NoLongerRetained?
    // A readable first choice that matches is taken, whatever publishers do meanwhile.
    ensures old(s.pointer).Some? && old(Suits(Preferred(cmd, s.pointer), cmd, s.catalogs)) ==>
              r == Success(old(Preferred(cmd, s.pointer)))
  {
    if s.pointer.None? { return Refused(CatalogMissing); }
    var preferred := if cmd.catalog.Some? then cmd.catalog.value else s.pointer.value;
    if cmd.generations == map[] { return Success(preferred); }
    s.Interfere();
    if Sha(preferred) !in s.catalogs || ManifestFile !in s.catalogs[Sha(preferred)] {
      return Refused(Unavailable);
    }
    if Readable(preferred, s.catalogs) && VectorMatches(preferred, cmd.generations) {
      return Success(preferred);
    }
    if cmd.catalog.Some? { return Refused(VectorDisagrees); }
    s.Interfere();
    r := SearchRetained(s, cmd.generations);
  }

  lemma GrowthKeepsSize(before: map<Name, Dir>, after: map<Name, Dir>)
    requires Grows(before, after)
    ensures |before| <= |after|
  {
    SubsetCardinality(before.Keys, after.Keys);
  }

  /** Search the retained catalogs in directory order. */
  method SearchRetained(s: Tree, expected: map<string, Manifest>) returns (r: Result<Manifest>)
    modifies s
    ensures Grows(old(s.catalogs), s.catalogs) && Catalogs.AllGrow(old(s.installed), s.installed)
    ensures r.Success? ==> Readable(r.value, s.catalogs) && VectorMatches(r.value, expected)
    ensures r.Refused? ==> r.why.SearchBudget? || r.why.NoLongerRetained?
    ensures r == Refused(SearchBudget) ==> |old(s.catalogs)| > SEARCH_BUDGET && |s.catalogs| > SEARCH_BUDGET
    ensures r == Refused(NoLongerRetained) ==>
              forall c: Manifest :: old(Readable(c, s.catalogs)) ==> !VectorMatches(c, expected)
  {
    var entries := Enumerate(s.catalogs.Keys);
    DistinctHaveCardinal(entries);
    for i := 0 to |entries|
      invariant Grows(old(s.catalogs), s.catalogs)
      invariant Catalogs.AllGrow(old(s.installed), s.installed)
      invariant forall c: Manifest :: Sha(c) in entries[..i] && old(Readable(c, s.catalogs)) ==>
          !VectorMatches(c, expected)
    {
      if i >= SEARCH_BUDGET {
        GrowthKeepsSize(old(s.catalogs), s.catalogs);
        return Refused(SearchBudget);
      }
      s.Interfere();
      var entry := entries[i];
      if entry.Sha? {
        var c := entry.document;
        if Readable(c, s.catalogs) && VectorMatches(c, expected) {
          return Success(c);
        }
      }
    }
    assert entries[..|entries|] == entries;
    r := Refused(NoLongerRetained);
  }

  /** `load_pinned_verified`: the exact generation, never a newer pointer, with
      its manifest and every shard checked against its name. */
  method LoadPinned(generations: map<Name, Dir>, g: Manifest) returns (ok: bool)
    ensures ok <==> Sha(g) in generations && Complete(generations[Sha(g)], g)
  {
    if Sha(g) !in generations { return false; }
    var d := generations[Sha(g)];
    if ManifestFile !in d || d[ManifestFile] != Body.Document(g) { return false; }
    var left := g.Files().Keys;
    while left != {}
      invariant left <= g.Files().Keys
      invariant forall p <- g.Files() :: p in left || (p in d && d[p] == Bytes(g.Files()[p]))
    {
      var p :| p in left;
      if p !in d || d[p] != Bytes(g.Files()[p]) { return false; }
      left := left - {p};
    }
    ok := true;
  }

  /** The registered projects an export covers. */
  function Scope(cmd: Command): set<string> {
    if cmd.projects == [] && cmd.generations != map[] then cmd.generations.Keys else set p | p in cmd.projects
  }

  /** One exported member: the pinned generation, complete in its lane, of this
      project and fingerprint, cut down to the selection. */
  ghost predicate Exported(
    g: Manifest, graph: Graph, pin: Pin, p: string, cmd: Command, codec: Codec, id: string, lane: map<Name, Dir>)
  {
    && g == pin.generation
    && Sha(g) in lane && Complete(lane[Sha(g)], g)
    && g.Project? && g.header.solution == id && g.header.project == p && g.header.fingerprint == pin.fingerprint
    && graph == Projection(cmd, codec, g)
  }

  /** The pinned generation is there and is the one the pin describes. */
  ghost predicate IsReady(pin: Pin, p: string, id: string, lane: map<Name, Dir>) {
    var g := pin.generation;
    && Sha(g) in lane && Complete(lane[Sha(g)], g)
    && g.Project? && g.header.solution == id && g.header.project == p && g.header.fingerprint == pin.fingerprint
  }

  ghost predicate AllReady(c: Manifest, scope: set<string>, id: string, installed: map<string, map<Name, Dir>>) {
    c.Catalog? && forall p <- scope :: p in c.pins && p in installed && IsReady(c.pins[p], p, id, installed[p])
  }

  lemma ReadyLater(
    c: Manifest, scope: set<string>, id: string,
    installed: map<string, map<Name, Dir>>, installed': map<string, map<Name, Dir>>)
    requires AllReady(c, scope, id, installed) && Catalogs.AllGrow(installed, installed')
    ensures AllReady(c, scope, id, installed')
  {
    forall p <- scope
      ensures IsReady(c.pins[p], p, id, installed'[p])
    {
      assert Grows(installed[p], installed'[p]);
    }
  }

  /** The vector is the catalog restricted to `scope`, and every member is exported. */
  ghost predicate Faithful(
    a: Artifact, scope: set<string>, cmd: Command, codec: Codec, id: string, installed: map<string, map<Name, Dir>>)
  {
    && a.catalog.Catalog? && a.vector.Keys == scope && a.documents.Keys == scope
    && scope <= a.catalog.pins.Keys && scope <= installed.Keys
    && forall p <- scope ::
         Exported(a.vector[p], a.documents[p], a.catalog.pins[p], p, cmd, codec, id, installed[p])
  }

  lemma FaithfulLater(
    a: Artifact, scope: set<string>, cmd: Command, codec: Codec, id: string,
    installed: map<string, map<Name, Dir>>, installed': map<string, map<Name, Dir>>)
    requires Faithful(a, scope, cmd, codec, id, installed) && Catalogs.AllGrow(installed, installed')
    ensures Faithful(a, scope, cmd, codec, id, installed')
  {
    forall p <- scope
      ensures Exported(a.vector[p], a.documents[p], a.catalog.pins[p], p, cmd, codec, id, installed'[p])
    {
      assert Grows(installed[p], installed'[p]);
    }
  }

  function Extended(a: Artifact, p: string, graph: Graph): Artifact
    requires a.catalog.Catalog? && p in a.catalog.pins
  {
    Artifact(a.catalog, a.vector[p := a.catalog.pins[p].generation], a.documents[p := graph])
  }

  lemma FaithfulExtended(
    a: Artifact, scope: set<string>, cmd: Command, codec: Codec, id: string,
    installed: map<string, map<Name, Dir>>, p: string, graph: Graph)
    requires Faithful(a, scope, cmd, codec, id, installed)
    requires p in a.catalog.pins && p in installed
    requires Exported(a.catalog.pins[p].generation, graph, a.catalog.pins[p], p, cmd, codec, id, installed[p])
    ensures Faithful(Extended(a, p, graph), scope + {p}, cmd, codec, id, installed)
  {
  }

  /** Load one selected member, after whatever publishers did meanwhile. */
  method LoadMember(s: Tree, cmd: Command, codec: Codec, p: string, pin: Pin)
    returns (r: Result<Graph>)
    requires p in s.installed
    modifies s
    ensures Grows(old(s.catalogs), s.catalogs) && Catalogs.AllGrow(old(s.installed), s.installed)
    ensures r.Success? ==> Exported(pin.generation, r.value, pin, p, cmd, codec, s.id, s.installed[p])
    ensures r.Refused? ==> r.why.Unavailable? || r.why.MemberMismatch?
    ensures old(IsReady(pin, p, s.id, s.installed[p])) ==> r.Success?
  {
    ghost var before := s.installed[p];
    s.Interfere();
    assert Grows(before, s.installed[p]);
    var g := pin.generation;
    var ok := LoadPinned(s.installed[p], g);
    if !ok { return Refused(Unavailable); }
    if !(g.Project? && g.header.solution == s.id && g.header.project == p && g.header.fingerprint == pin.fingerprint) {
      return Refused(MemberMismatch);
    }
    r := Success(Projection(cmd, codec, g));
  }

  predicate InScope(p: string, cmd: Command) {
    Scope(cmd) == {} || p in Scope(cmd)
  }

  function Covered(registered: seq<string>, cmd: Command): set<string> {
    set p | p in registered && InScope(p, cmd)
  }

  lemma CoveredStep(registered: seq<string>, i: nat, cmd: Command)
    requires i < |registered|
    ensures Covered(registered[..i + 1], cmd) ==
            Covered(registered[..i], cmd) + if InScope(registered[i], cmd) then {registered[i]} else {}
  {
    assert registered[..i + 1] == registered[..i] + [registered[i]];
  }

  lemma RegisteredAre(registered: seq<string>, projects: set<string>)
    requires forall p :: p in registered <==> p in projects
    ensures (set p | p in registered) == projects
  {
  }

  lemma CoveredAll(registered: seq<string>, projects: set<string>, cmd: Command)
    requires forall p :: p in registered <==> p in projects
    requires Scope(cmd) <= projects
    ensures Covered(registered, cmd) == if Scope(cmd) == {} then projects else Scope(cmd)
  {
  }

  /** Load every selected member of one catalog. */
  method CollectMembers(s: Tree, registered: seq<string>, cmd: Command, codec: Codec, c: Manifest)
    returns (r: Result<Artifact>)
    requires forall p <- registered :: p in s.installed
    requires c.Catalog? && c.pins.Keys == set p | p in registered
    modifies s
    ensures Grows(old(s.catalogs), s.catalogs) && s.installed.Keys == old(s.installed.Keys)
    ensures old(AllReady(c, Covered(registered, cmd), s.id, s.installed)) ==> r.Success?
    ensures r.Success? ==>
              && r.value.catalog == c
              && Faithful(r.value, Covered(registered, cmd), cmd, codec, s.id, s.installed)
    ensures r.Refused? ==> r.why.Unavailable? || r.why.MemberMismatch?
  {
    var a := Artifact(c, map[], map[]);
    ghost var scope: set<string> := {};
    ghost var ready := AllReady(c, Covered(registered, cmd), s.id, s.installed);
    for i := 0 to |registered|
      invariant scope == Covered(registered[..i], cmd)
      invariant a.catalog == c && Faithful(a, scope, cmd, codec, s.id, s.installed)
      invariant Grows(old(s.catalogs), s.catalogs)
      invariant s.installed.Keys == old(s.installed.Keys)
      invariant ready ==> AllReady(c, Covered(registered, cmd), s.id, s.installed)
    {
      var p := registered[i];
      CoveredStep(registered, i, cmd);
      if InScope(p, cmd) {
        ghost var before := s.installed;
        var member := LoadMember(s, cmd, codec, p, c.pins[p]);
        if ready { ReadyLater(c, Covered(registered, cmd), s.id, before, s.installed); }
        if member.Refused? { return Refused(member.why); }
        FaithfulLater(a, scope, cmd, codec, s.id, before, s.installed);
        FaithfulExtended(a, scope, cmd, codec, s.id, s.installed, p, member.value);
        a := Extended(a, p, member.value);
        scope := scope + {p};
      }
    }
    assert registered[..|registered|] == registered;
    r := Success(a);
  }

  /** The selection names projects of the solution, each once, and the requested pairs
      cover exactly it. */
  predicate IsSelection(cmd: Command, projects: set<string>) {
    && (cmd.projects != [] ==> |set p | p in cmd.projects| == |cmd.projects|)
    && Scope(cmd) <= projects
    && (cmd.generations != map[] ==> Scope(cmd) == cmd.generations.Keys)
  }

  predicate IsCatalogOf(c: Manifest, id: string, profile: string, projects: set<string>) {
    c.Catalog? && c.solution == id && c.profile == profile && c.pins.Keys == projects
  }

  /** Every selected record is in some covered member, and something is covered. */
  ghost predicate AllFound(c: Manifest, scope: set<string>, cmd: Command, codec: Codec) {
    && c.Catalog? && scope <= c.pins.Keys && scope != {}
    && (forall n <- cmd.nodes :: exists p <- scope :: n in NodeRecords(codec, c.pins[p].generation))
    && forall id <- cmd.edges ::
         exists p <- scope, e <- EdgeRecords(codec, c.pins[p].generation) :: e.id == id && WantsEdge(cmd, e)
  }

  /** Nothing is in the way of an export from `c`. */
  ghost predicate IsReadyFor(s: Tree, cmd: Command, codec: Codec, c: Manifest)
    reads s
  {
    && Readable(c, s.catalogs) && IsCatalogOf(c, s.id, s.profile, s.installed.Keys)
    && AllReady(c, Chosen(cmd, s.installed.Keys), s.id, s.installed)
    && AllFound(c, Chosen(cmd, s.installed.Keys), cmd, codec)
  }

  /** Nothing is in the way of an export of the first choice. */
  ghost predicate IsExportable(s: Tree, cmd: Command, codec: Codec)
    reads s
  {
    && IsSelection(cmd, s.installed.Keys) && s.pointer.Some?
    && Suits(Preferred(cmd, s.pointer), cmd, s.catalogs) && IsReadyFor(s, cmd, codec, Preferred(cmd, s.pointer))
  }

  /** Growth leaves it so. */
  lemma StillReady(
    s: Tree, cmd: Command, codec: Codec, c: Manifest, catalogs: map<Name, Dir>, installed: map<string, map<Name, Dir>>)
    requires Readable(c, catalogs) && Grows(catalogs, s.catalogs) && Catalogs.AllGrow(installed, s.installed)
    requires IsCatalogOf(c, s.id, s.profile, installed.Keys)
    requires AllReady(c, Chosen(cmd, installed.Keys), s.id, installed)
    requires AllFound(c, Chosen(cmd, installed.Keys), cmd, codec)
    ensures IsReadyFor(s, cmd, codec, c)
  {
    ReadyLater(c, Chosen(cmd, installed.Keys), s.id, installed, s.installed);
  }

  lemma FaithfulIsCutDown(
    a: Artifact, scope: set<string>, cmd: Command, codec: Codec, id: string, installed: map<string, map<Name, Dir>>)
    requires Faithful(a, scope, cmd, codec, id, installed)
    ensures forall p <- scope :: CutDown(a.documents[p], cmd, codec, a.vector[p])
  {
    forall p <- scope
      ensures CutDown(a.documents[p], cmd, codec, a.vector[p])
    {
      assert Exported(a.vector[p], a.documents[p], a.catalog.pins[p], p, cmd, codec, id, installed[p]);
      ProjectionIsCutDown(cmd, codec, a.vector[p]);
    }
  }

  lemma FoundIsObserved(
    a: Artifact, scope: set<string>, cmd: Command, codec: Codec, id: string, installed: map<string, map<Name, Dir>>)
    requires Faithful(a, scope, cmd, codec, id, installed) && AllFound(a.catalog, scope, cmd, codec)
    ensures cmd.nodes <= Observed(a.documents) && cmd.edges <= ObservedEdges(a.documents) && a.vector != map[]
  {
    FaithfulIsCutDown(a, scope, cmd, codec, id, installed);
    forall n | n in cmd.nodes
      ensures n in Observed(a.documents)
    {
      var p :| p in scope && n in NodeRecords(codec, a.catalog.pins[p].generation);
      RecordIsKept(a, scope, cmd, codec, id, installed, p);
      assert n in a.documents[p].nodes;
    }
    forall x | x in cmd.edges
      ensures x in ObservedEdges(a.documents)
    {
      var p, e :| p in scope && e in EdgeRecords(codec, a.catalog.pins[p].generation) && e.id == x && WantsEdge(cmd, e);
      RecordIsKept(a, scope, cmd, codec, id, installed, p);
      assert e in a.documents[p].edges;
    }
    var p :| p in scope;
    assert p in a.vector;
  }

  lemma RecordIsKept(
    a: Artifact, scope: set<string>, cmd: Command, codec: Codec, id: string, installed: map<string, map<Name, Dir>>,
    p: string)
    requires Faithful(a, scope, cmd, codec, id, installed) && p in scope
    ensures forall n <- NodeRecords(codec, a.catalog.pins[p].generation) :: WantsNode(cmd, n) ==> n in a.documents[p].nodes
    ensures forall e <- EdgeRecords(codec, a.catalog.pins[p].generation) :: WantsEdge(cmd, e) ==> e in a.documents[p].edges
  {
    var g := a.catalog.pins[p].generation;
    assert Exported(a.vector[p], a.documents[p], a.catalog.pins[p], p, cmd, codec, id, installed[p]);
    ProjectionIsCutDown(cmd, codec, g);
    forall n | n in NodeRecords(codec, g) && WantsNode(cmd, n)
      ensures n in a.documents[p].nodes
    {
      assert n in multiset(NodeRecords(codec, g));
      assert n in multiset(a.documents[p].nodes);
    }
    forall e | e in EdgeRecords(codec, g) && WantsEdge(cmd, e)
      ensures e in a.documents[p].edges
    {
      assert e in multiset(EdgeRecords(codec, g));
      assert e in multiset(a.documents[p].edges);
    }
  }

  /** The projects a valid selection covers. */
  function Chosen(cmd: Command, projects: set<string>): set<string> {
    if Scope(cmd) == {} then projects else Scope(cmd)
  }

  /** What an artifact of catalog `c` owes its reader. */
  ghost predicate IsExport(
    a: Artifact, c: Manifest, cmd: Command, codec: Codec, id: string, catalogs: map<Name, Dir>,
    installed: map<string, map<Name, Dir>>)
  {
    // One retained catalog, and the vector is it restricted to the scope.
    && a.catalog == c && Readable(c, catalogs)
    && Faithful(a, Chosen(cmd, installed.Keys), cmd, codec, id, installed)
    // Each member's graph holds what its shards hold of the selection.
    && (forall p <- a.documents :: CutDown(a.documents[p], cmd, codec, a.vector[p]))
    // Every selected record was found in it.
    && cmd.nodes <= Observed(a.documents) && cmd.edges <= ObservedEdges(a.documents)
  }

  /** Read a catalog that was selected, and load its selected members. */
  method LoadSelected(s: Tree, registered: seq<string>, cmd: Command, codec: Codec, c: Manifest)
    returns (r: Result<Artifact>)
    requires forall p :: p in registered <==> p in s.installed
    requires IsSelection(cmd, s.installed.Keys)
    modifies s
    ensures s.installed.Keys == old(s.installed.Keys)
    ensures r.Success? ==>
              && r.value.catalog == c && Readable(c, s.catalogs)
              && Faithful(r.value, Chosen(cmd, s.installed.Keys), cmd, codec, s.id, s.installed)
    ensures r.Refused? ==> !r.why.NoLongerRetained?
    ensures old(IsReadyFor(s, cmd, codec, c)) ==> r.Success?
  {
    ghost var ready, catalogs, installed := IsReadyFor(s, cmd, codec, c), s.catalogs, s.installed;
    s.Interfere();
    if ready { StillReady(s, cmd, codec, c, catalogs, installed); }
    if !Readable(c, s.catalogs) { return Refused(Unavailable); }
    RegisteredAre(registered, s.installed.Keys);
    if !(c.Catalog? && c.solution == s.id && c.profile == s.profile && c.pins.Keys == set p | p in registered) {
      return Refused(CatalogMismatch);
    }
    CoveredAll(registered, s.installed.Keys, cmd);
    r := CollectMembers(s, registered, cmd, codec, c);
  }

  /** Export from a catalog that was selected. */
  method ExportFrom(s: Tree, registered: seq<string>, cmd: Command, codec: Codec, c: Manifest)
    returns (r: Result<Artifact>)
    requires forall p :: p in registered <==> p in s.installed
    requires IsSelection(cmd, s.installed.Keys)
    modifies s
    ensures s.installed.Keys == old(s.installed.Keys)
    ensures r.Success? ==> IsExport(r.value, c, cmd, codec, s.id, s.catalogs, s.installed)
    ensures r.Refused? ==> !r.why.NoLongerRetained?
    ensures old(IsReadyFor(s, cmd, codec, c)) ==> r.Success?
  {
    r := LoadSelected(s, registered, cmd, codec, c);
    if r.Success? { r := CheckFound(s, cmd, codec, c, r.value); }
  }

  /** Refuse an artifact that is empty or lacks a selected record. */
  method CheckFound(s: Tree, cmd: Command, codec: Codec, c: Manifest, a: Artifact) returns (r: Result<Artifact>)
    requires a.catalog == c && Readable(c, s.catalogs)
    requires Faithful(a, Chosen(cmd, s.installed.Keys), cmd, codec, s.id, s.installed)
    ensures r.Success? ==> IsExport(r.value, c, cmd, codec, s.id, s.catalogs, s.installed)
    ensures r.Refused? ==> r.why.EmptyOrOutside?
    ensures AllFound(c, Chosen(cmd, s.installed.Keys), cmd, codec) ==> r.Success?
  {
    ghost var scope := Chosen(cmd, s.installed.Keys);
    FaithfulIsCutDown(a, scope, cmd, codec, s.id, s.installed);
    if AllFound(c, scope, cmd, codec) { FoundIsObserved(a, scope, cmd, codec, s.id, s.installed); }
    if a.vector == map[] || exists n <- cmd.nodes :: n !in Observed(a.documents) {
      return Refused(EmptyOrOutside);
    }
    if exists e <- cmd.edges :: e !in ObservedEdges(a.documents) {
      return Refused(EmptyOrOutside);
    }
    r := Success(a);
  }

  /** A read-only export of the selected members of exactly one catalog. */
  method Export(s: Tree, registered: seq<string>, cmd: Command, codec: Codec)
    returns (r: Result<Artifact>)
    requires forall p :: p in registered <==> p in s.installed
    modifies s
    ensures r.Success? ==>
              && IsSelection(cmd, s.installed.Keys)
              // The requested catalog if one was named, and every requested pair is in it.
              && (cmd.catalog.Some? ==> r.value.catalog == cmd.catalog.value)
              && IsExport(r.value, r.value.catalog, cmd, codec, s.id, s.catalogs, s.installed)
              && (forall p <- cmd.generations :: p in r.value.vector && r.value.vector[p] == cmd.generations[p])
    ensures r == Refused(NoLongerRetained) ==>
              forall c: Manifest :: old(Readable(c, s.catalogs)) ==> !VectorMatches(c, cmd.generations)
    // With nothing in its way an export succeeds, whatever publishers do meanwhile.
    ensures old(IsExportable(s, cmd, codec)) ==> r.Success?
  {
    var wanted := Scope(cmd);
    if (cmd.projects != [] && |wanted| != |cmd.projects|) || exists p <- wanted :: p !in s.installed {
      return Refused(InvalidSelection);
    }
    if cmd.generations != map[] && wanted != cmd.generations.Keys {
      return Refused(InvalidSelection);
    }
    ghost var exportable, catalogs, installed := IsExportable(s, cmd, codec), s.catalogs, s.installed;
    var selected := SelectedCatalog(s, cmd);
    if selected.Refused? { return Refused(selected.why); }
    if exportable { StillReady(s, cmd, codec, selected.value, catalogs, installed); }
    r := ExportFrom(s, registered, cmd, codec, selected.value);
  }
}
