/** The migration plan document: what the planner writes and what the loader accepts. */
module MigrationPlan {
  import opened Prelude
  import opened Sorting
  import opened Text

  datatype Digest = Sha256(bytes: string)

  datatype Source = Source(path: string, digest: Digest, size: nat)

  const LEGACY := ".agrimap-agent/knowledge/references/graph"
  const MISSPELLED := ".agrimap-agent/knowledge/references/grahp"
  const TARGET := ".axiom/graph"

  const MAX_FILES := 16384
  const MAX_BYTES := 256 * 1024 * 1024
  const MAX_U64 := 0xFFFF_FFFF_FFFF_FFFF

  predicate Within(path: string, root: string) {
    |root| < |path| && path[..|root| + 1] == root + "/"
  }

  function Suffix(path: string, root: string): string
    requires Within(path, root)
  {
    path[|root| + 1..]
  }

  function Under(root: string, suffix: string): string {
    root + "/" + suffix
  }

  lemma UnderIsWithin(root: string, suffix: string)
    ensures Within(Under(root, suffix), root) && Suffix(Under(root, suffix), root) == suffix
  {
    assert Under(root, suffix)[..|root| + 1] == root + "/";
  }

  lemma SuffixGoesBack(path: string, root: string)
    requires Within(path, root)
    ensures Under(root, Suffix(path, root)) == path
  {
  }

  /** Contents under one root, by suffix. */
  function Hashes(sources: seq<Source>, root: string): map<string, Digest> {
    if sources == [] then map[]
    else
      var s := sources[|sources| - 1];
      var before := Hashes(sources[..|sources| - 1], root);
      if Within(s.path, root) then before[Suffix(s.path, root) := s.digest] else before
  }

  /** What the discovery decides from the contents of the three roots; None is a conflict. */
  datatype Decision = Decision(selected: Option<string>, needed: bool)

  function Decide(a: map<string, Digest>, b: map<string, Digest>, target: map<string, Digest>): Option<Decision> {
    var source := if a != map[] then a else b;
    var selected := if a != map[] then Some(LEGACY) else if b != map[] then Some(MISSPELLED) else None;
    if a != map[] && b != map[] && a != b then None
    else if target != map[] && source != map[] && target != source then None
    else Some(Decision(selected, selected.Some? && target == map[]))
  }

  datatype Write = Write(path: string, source: string)

  datatype Change = Change(destination: string, source: string, after: Digest)

  /** The part of the pure engine's plan the adapter relies on. */
  datatype Engine = Engine(
    solution: string, created: nat, ttl: nat, decision: Option<string>, sources: seq<Source>, writes: seq<Write>)

  datatype Header = Header(schemaVersion: nat, status: string, scope: string, targetLayout: nat, core: string)

  /** Everything the plan digest covers. */
  datatype Body = Body(
    header: Header, solution: string, root: string, created: nat, ttl: nat, sources: seq<Source>,
    selected: Option<string>, needed: bool, changes: seq<Change>, requiredBytes: nat, engine: Option<Engine>)

  /** The digest and the transaction name are taken without collisions: each stands
      for the body it was computed from.  `engine` likewise stands for its digest. */
  datatype Document = Document(body: Body, planDigest: Body, transaction: Body)

  predicate IsPointer(path: string) {
    |path| >= 13 && path[|path| - 13..] == "/current.json"
  }

  /** Immutable files first, then the pointers, each in path order. */
  predicate WriteNotAfter(a: Write, b: Write) {
    if IsPointer(a.path) == IsPointer(b.path) then LessEq(a.path, b.path) else IsPointer(b.path)
  }

  predicate SourceNotAfter(a: Source, b: Source) {
    LessEq(a.path, b.path)
  }

  /** One copy per source of the selected root. */
  function Relocations(sources: seq<Source>, selected: string): seq<Write> {
    if sources == [] then []
    else
      var s := sources[|sources| - 1];
      Relocations(sources[..|sources| - 1], selected)
      + if Within(s.path, selected) then [Write(Under(TARGET, Suffix(s.path, selected)), s.path)] else []
  }

  ghost predicate DistinctPaths(sources: seq<Source>) {
    forall i, j :: 0 <= i < j < |sources| ==> sources[i].path != sources[j].path
  }

  predicate HasDuplicates(sources: seq<Source>) {
    exists i, j :: 0 <= i < j < |sources| && sources[i].path == sources[j].path
  }

  function MakeEngine(b: Body): Option<Engine> {
    if b.selected.Some? && b.selected.value != LEGACY && b.selected.value != MISSPELLED then None
    else if HasDuplicates(b.sources) || b.ttl == 0 then None
    else
      var writes := if b.needed && b.selected.Some? then Relocations(b.sources, b.selected.value) else [];
      Some(Engine(b.solution, b.created, b.ttl, b.selected, SortBy(SourceNotAfter, b.sources), SortBy(WriteNotAfter, writes)))
  }

  /** The digest of the first source of that path. */
  function DigestOf(sources: seq<Source>, path: string): Option<Digest> {
    if sources == [] then None
    else if sources[0].path == path then Some(sources[0].digest)
    else DigestOf(sources[1..], path)
  }

  function DescribeChanges(sources: seq<Source>, writes: seq<Write>): Option<seq<Change>> {
    if writes == [] then Some([])
    else
      var d := DigestOf(sources, writes[0].source);
      var rest := DescribeChanges(sources, writes[1..]);
      if d.None? || rest.None? then None
      else Some([Change(writes[0].path, writes[0].source, d.value)] + rest.value)
  }

  function BytesUnder(sources: seq<Source>, root: string): nat {
    if sources == [] then 0
    else BytesUnder(sources[..|sources| - 1], root)
         + if Within(sources[|sources| - 1].path, root) then sources[|sources| - 1].size else 0
  }

  /** Twice the bytes to copy, in 64 bits. */
  function RequiredBytes(b: Body): Option<nat> {
    var bytes := if b.needed && b.selected.Some? then BytesUnder(b.sources, b.selected.value) else 0;
    if 2 * bytes <= MAX_U64 then Some(2 * bytes) else None
  }

  function Expected(core: string): Header {
    Header(1, "ready", "immutable_graph_import", 2, core)
  }

  /** The loader's checks on a document it has read.  The size of the file it reads
      comes first: see `PlanText.Loads`. */
  predicate Accepts(core: string, d: Document) {
    var b := d.body;
    && b.header == Expected(core)
    && d.planDigest == b && d.transaction == b
    && MakeEngine(b).Some? && b.engine == MakeEngine(b)
    && DescribeChanges(b.sources, MakeEngine(b).value.writes) == Some(b.changes)
    && RequiredBytes(b) == Some(b.requiredBytes)
    && Decide(Hashes(b.sources, LEGACY), Hashes(b.sources, MISSPELLED), Hashes(b.sources, TARGET)) ==
       Some(Decision(b.selected, b.needed))
  }

  /** An accepted document is a function of its sources and its five free fields: the
      decision, the copies, the byte budget and every digest are determined. */
  lemma AcceptedIsDetermined(core: string, d: Document, e: Document)
    requires Accepts(core, d) && Accepts(core, e)
    requires d.body.sources == e.body.sources && d.body.solution == e.body.solution && d.body.root == e.body.root
    requires d.body.created == e.body.created && d.body.ttl == e.body.ttl
    ensures d == e
  {
  }

  /** What the loader asks of the sources: no path twice, a known root, and the decision
      their contents lead to. */
  lemma AcceptedSources(core: string, d: Document)
    requires Accepts(core, d)
    ensures DistinctPaths(d.body.sources) && d.body.ttl > 0
    ensures d.body.selected.Some? ==> d.body.selected.value == LEGACY || d.body.selected.value == MISSPELLED
    ensures d.body.selected.Some? <==>
              Hashes(d.body.sources, LEGACY) != map[] || Hashes(d.body.sources, MISSPELLED) != map[]
    ensures d.body.needed <==> d.body.selected.Some? && Hashes(d.body.sources, TARGET) == map[]
  {
    assert forall i, j :: 0 <= i < j < |d.body.sources| ==> d.body.sources[i].path != d.body.sources[j].path;
  }

  function TotalBytes(sources: seq<Source>): nat {
    if sources == [] then 0 else TotalBytes(sources[..|sources| - 1]) + sources[|sources| - 1].size
  }

  function Suffixes(paths: set<string>, root: string): set<string> {
    set p | p in paths && Within(p, root) :: Suffix(p, root)
  }

  lemma SuffixesAreUnder(paths: set<string>, root: string)
    ensures forall x :: x in Suffixes(paths, root) <==> Under(root, x) in paths
  {
    forall x
      ensures x in Suffixes(paths, root) <==> Under(root, x) in paths
    {
      UnderIsWithin(root, x);
      if x in Suffixes(paths, root) {
        var p :| p in paths && Within(p, root) && Suffix(p, root) == x;
        SuffixGoesBack(p, root);
      }
    }
  }

  /** Contents under one root of the inventory, by suffix. */
  function Normalized(files: map<string, string>, root: string): map<string, Digest> {
    map x | x in Suffixes(files.Keys, root) && Under(root, x) in files :: Sha256(files[Under(root, x)])
  }

  /** One source per inventoried file. */
  ghost predicate Inventories(files: map<string, string>, sources: seq<Source>) {
    && DistinctPaths(sources)
    && (forall s <- sources :: s.path in files && s == Source(s.path, Sha256(files[s.path]), |files[s.path]|))
    && forall p <- files :: exists s <- sources :: s.path == p
  }

  lemma LastIsNew(sources: seq<Source>)
    requires DistinctPaths(sources) && sources != []
    ensures DistinctPaths(sources[..|sources| - 1])
    ensures forall s <- sources[..|sources| - 1] :: s.path != sources[|sources| - 1].path
    ensures forall s :: s in sources <==> s in sources[..|sources| - 1] || s == sources[|sources| - 1]
  {
    var init := sources[..|sources| - 1];
    assert sources == init + [sources[|sources| - 1]];
    forall s | s in init
      ensures s.path != sources[|sources| - 1].path
    {
      var i :| 0 <= i < |init| && init[i] == s;
    }
  }

  lemma {:induction false} HashesHold(sources: seq<Source>, root: string, x: string)
    requires DistinctPaths(sources)
    ensures x in Hashes(sources, root) <==> exists s <- sources :: s.path == Under(root, x)
    ensures forall s <- sources :: s.path == Under(root, x) ==>
              x in Hashes(sources, root) && Hashes(sources, root)[x] == s.digest
  {
    if sources != [] {
      var last := sources[|sources| - 1];
      HashesHold(sources[..|sources| - 1], root, x);
      LastIsNew(sources);
      UnderIsWithin(root, x);
      if Within(last.path, root) { SuffixGoesBack(last.path, root); }
    }
  }

  /** The loader sees in the sources what the planner saw on disk. */
  lemma HashesAreNormalized(files: map<string, string>, sources: seq<Source>, root: string)
    requires Inventories(files, sources)
    ensures Hashes(sources, root) == Normalized(files, root)
  {
    SuffixesAreUnder(files.Keys, root);
    var h, n := Hashes(sources, root), Normalized(files, root);
    forall x
      ensures x in h <==> x in n
      ensures x in h ==> h[x] == n[x]
    {
      HashesHold(sources, root, x);
      if x in h {
        var s :| s in sources && s.path == Under(root, x);
      }
    }
  }

  lemma {:induction false} BudgetBoundsCopies(sources: seq<Source>, root: string)
    ensures BytesUnder(sources, root) <= TotalBytes(sources)
  {
    if sources != [] {
      BudgetBoundsCopies(sources[..|sources| - 1], root);
    }
  }

  lemma {:induction false} RelocationsComeFromSources(sources: seq<Source>, selected: string)
    ensures forall w <- Relocations(sources, selected) ::
              exists s <- sources :: s.path == w.source && Within(w.source, selected) && w.path == Under(TARGET, Suffix(w.source, selected))
    ensures forall s <- sources :: Within(s.path, selected) ==>
              Write(Under(TARGET, Suffix(s.path, selected)), s.path) in Relocations(sources, selected)
  {
    if sources != [] {
      var init, last := sources[..|sources| - 1], sources[|sources| - 1];
      RelocationsComeFromSources(init, selected);
      assert sources == init + [last];
      forall w | w in Relocations(sources, selected)
        ensures exists s <- sources :: s.path == w.source && Within(w.source, selected) && w.path == Under(TARGET, Suffix(w.source, selected))
      {
        if w in Relocations(init, selected) {
          var s :| s in init && s.path == w.source;
          assert s in sources;
        } else {
          assert last in sources;
        }
      }
    }
  }

  lemma {:induction false} DigestOfFinds(sources: seq<Source>, s: Source)
    requires DistinctPaths(sources) && s in sources
    ensures DigestOf(sources, s.path) == Some(s.digest)
  {
    if sources[0] != s {
      var i :| 0 <= i < |sources| && sources[i] == s;
      assert sources[1..][i - 1] == s;
      DigestOfFinds(sources[1..], s);
    }
  }

  lemma {:induction false} ChangesDescribe(sources: seq<Source>, writes: seq<Write>)
    requires DistinctPaths(sources) && forall w <- writes :: exists s <- sources :: s.path == w.source
    ensures DescribeChanges(sources, writes).Some?
  {
    if writes != [] {
      assert writes[0] in writes;
      var s :| s in sources && s.path == writes[0].source;
      DigestOfFinds(sources, s);
      ChangesDescribe(sources, writes[1..]);
    }
  }

  /** The copies of a body: a permutation of its relocations. */
  lemma WritesAreRelocations(b: Body)
    requires MakeEngine(b).Some? && b.needed && b.selected.Some?
    ensures multiset(MakeEngine(b).value.writes) == multiset(Relocations(b.sources, b.selected.value))
    ensures forall w :: w in MakeEngine(b).value.writes <==> w in Relocations(b.sources, b.selected.value)
  {
    SortKeepsElements(WriteNotAfter, Relocations(b.sources, b.selected.value));
  }

  method ListSources(files: map<string, string>) returns (sources: seq<Source>)
    ensures Inventories(files, sources)
  {
    sources := [];
    var paths := KeysInOrder(files.Keys);
    for i := 0 to |paths|
      invariant |sources| == i
      invariant forall k :: 0 <= k < i ==> sources[k] == Source(paths[k], Sha256(files[paths[k]]), |files[paths[k]]|)
    {
      assert paths[i] in files;
      sources := sources + [Source(paths[i], Sha256(files[paths[i]]), |files[paths[i]]|)];
    }
    forall p | p in files
      ensures exists s <- sources :: s.path == p
    {
      var k :| 0 <= k < |paths| && paths[k] == p;
      assert sources[k] in sources;
    }
  }

  lemma PlannedBodyIsComplete(files: map<string, string>, b: Body)
    requires Inventories(files, b.sources) && TotalBytes(b.sources) <= MAX_BYTES && b.ttl > 0
    requires Decide(Normalized(files, LEGACY), Normalized(files, MISSPELLED), Normalized(files, TARGET)) ==
             Some(Decision(b.selected, b.needed))
    ensures MakeEngine(b).Some? && RequiredBytes(b).Some?
    ensures DescribeChanges(b.sources, MakeEngine(b).value.writes).Some?
    ensures Decide(Hashes(b.sources, LEGACY), Hashes(b.sources, MISSPELLED), Hashes(b.sources, TARGET)) ==
            Some(Decision(b.selected, b.needed))
  {
    HashesAreNormalized(files, b.sources, LEGACY);
    HashesAreNormalized(files, b.sources, MISSPELLED);
    HashesAreNormalized(files, b.sources, TARGET);
    if b.needed && b.selected.Some? {
      BudgetBoundsCopies(b.sources, b.selected.value);
      WritesAreRelocations(b);
      RelocationsComeFromSources(b.sources, b.selected.value);
    }
    ChangesDescribe(b.sources, MakeEngine(b).value.writes);
  }
}
