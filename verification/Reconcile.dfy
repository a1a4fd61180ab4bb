/** The resumable, generation-stamped incremental analysis of one project. */
module Reconcile {
  import opened Prelude
  import opened Rows

  /** A content digest, represented by the bytes it hashes: injective by construction. */
  datatype Digest = Sha256(bytes: string)

  /** One row of the file table.  A tombstone has no observed digest. */
  datatype FileRow = FileRow(observed: Option<Digest>, indexed: Option<Digest>, desired: nat, indexedAt: nat, deleted: bool)
  {
    predicate IsDirty() {
      desired > indexedAt
    }
  }

  const MAX_INVENTORY_BATCH := 4096

  /** The analyzers: which paths have a pinned language, and what the declarations
      of a file are.  No facts means the bytes do not decode or do not parse. */
  datatype Profile = Profile(language: string -> bool, declarations: (string, string) -> Option<Facts>)

  function Analyze(profile: Profile, path: string, bytes: string): Option<Facts> {
    if profile.language(path) then profile.declarations(path, bytes) else Some(NO_FACTS)
  }

  /** What every analyzer guarantees: edges stay inside their file, and declaration
      keys, which are digests over the file path too, do not clash across files. */
  ghost predicate Local(profile: Profile) {
    && (forall p, b :: StaysInside(profile, p, b))
    && forall p, b, q, c :: p != q ==> Apart(profile, p, b, q, c)
  }

  ghost predicate StaysInside(profile: Profile, p: string, b: string) {
    var f := Analyze(profile, p, b);
    f.Some? ==> SelfContained(f.value)
  }

  ghost predicate Apart(profile: Profile, p: string, b: string, q: string, c: string) {
    var f, g := Analyze(profile, p, b), Analyze(profile, q, c);
    f.Some? && g.Some? ==> Disjoint(f.value, g.value)
  }

  /** The facts are those of some version of the file. */
  ghost predicate FromAnalysis(profile: Profile, path: string, f: Facts) {
    f == NO_FACTS || exists b :: Analyze(profile, path, b) == Some(f)
  }

  /** The facts are exactly those of the observed bytes. */
  ghost predicate Current(profile: Profile, path: string, observed: Option<Digest>, f: Facts) {
    match observed
    case Some(d) => Analyze(profile, path, d.bytes) == Some(f)
    case None => f == NO_FACTS
  }

  /** What a removal of nodes does to the rows of another file: edges out of them
      cascade away, edges into them become unresolved. */
  function Invalidated(f: Facts, removed: map<string, NodeRow>): Facts {
    f.(edges := map e | e in f.edges && f.edges[e].source !in removed ::
      var target := f.edges[e].target;
      if target.Resolved? && target.id in removed then
        f.edges[e].(target := Unresolved(removed[target.id].qualifiedName), resolution := Missing)
      else f.edges[e])
  }

  lemma InvalidationIsLocal(f: Facts, g: Facts)
    requires SelfContained(f) && Disjoint(f, g)
    ensures Invalidated(f, g.nodes) == f
  {
    assert Invalidated(f, g.nodes).edges == f.edges;
  }

  lemma AnalysesDoNotInterfere(profile: Profile, p: string, f: Facts, q: string, g: Facts)
    requires Local(profile) && p != q && FromAnalysis(profile, p, f) && FromAnalysis(profile, q, g)
    ensures Disjoint(f, g) && Invalidated(f, g.nodes) == f
  {
    if f != NO_FACTS {
      var b :| Analyze(profile, p, b) == Some(f);
      assert StaysInside(profile, p, b);
      if g != NO_FACTS {
        var c :| Analyze(profile, q, c) == Some(g);
        assert Apart(profile, p, b, q, c);
      }
      InvalidationIsLocal(f, g);
    }
  }

  /** One row after an inventory that saw, or did not see, its path. */
  function Advanced(row: Option<FileRow>, seen: Option<Digest>, generation: nat): FileRow
    requires row.Some? || seen.Some?
  {
    match (row, seen)
    case (None, Some(d)) => FileRow(Some(d), None, generation, 0, false)
    case (Some(r), Some(d)) =>
      if r.observed != Some(d) || r.deleted then r.(observed := Some(d), desired := generation, deleted := false) else r
    case (Some(r), None) =>
      if r.deleted then r else r.(observed := None, desired := generation, deleted := true)
  }

  function Lookup<K(==), V>(m: map<K, V>, k: K): Option<V> {
    if k in m then Some(m[k]) else None
  }

  /** What the walk reports of one path: a digest, or that it was seen but is
      excluded, withheld or unreadable. */
  datatype Entry = Readable(digest: Digest) | Unreadable

  /** The observation the inventory is applied with: walked digests, plus the
      stored digest of a known path that was seen but not read. */
  function Observe(known: map<string, Digest>, walk: map<string, Entry>): (observed: map<string, Digest>)
    ensures forall p <- walk :: walk[p].Readable? ==> p in observed && observed[p] == walk[p].digest
    ensures forall p <- walk :: walk[p].Unreadable? ==> Lookup(observed, p) == Lookup(known, p)
    ensures forall p <- observed :: p in walk
  {
    map p | p in walk && (walk[p].Readable? || p in known) ::
      if walk[p].Readable? then walk[p].digest else known[p]
  }

  /** The facts a cold analysis of an observation stores. */
  ghost predicate ColdFacts(profile: Profile, observed: map<string, Digest>, facts: map<string, Facts>) {
    && (forall p <- observed :: p in facts && Analyze(profile, p, observed[p].bytes) == Some(facts[p]))
    && forall p <- facts :: p !in observed ==> facts[p] == NO_FACTS
  }

  /** What the fact tables say of an observation: the declarations of the observed bytes
      for a file of a pinned language, and nothing for any other path. */
  ghost predicate StoresDeclarations(profile: Profile, observed: map<string, Digest>, facts: map<string, Facts>) {
    && (forall p <- observed :: p in facts)
    && forall p <- facts ::
         if p in observed && profile.language(p)
         then profile.declarations(p, observed[p].bytes) == Some(facts[p])
         else facts[p] == NO_FACTS
  }

  lemma ColdStoresDeclarations(profile: Profile, observed: map<string, Digest>, facts: map<string, Facts>)
    requires ColdFacts(profile, observed, facts)
    ensures StoresDeclarations(profile, observed, facts)
  {
  }

  /** The file table after an inventory stamped with `generation`. */
  function AdvancedRows(files: map<string, FileRow>, observed: map<string, Digest>, generation: nat): map<string, FileRow> {
    map p | p in files.Keys + observed.Keys :: Advanced(Lookup(files, p), Lookup(observed, p), generation)
  }

  /** The file table while the rows of `left` are still to be stamped. */
  function Stamped(
    files: map<string, FileRow>, observed: map<string, Digest>, generation: nat, left: set<string>): map<string, FileRow>
  {
    map p | p in files.Keys + observed.Keys && (p in left ==> p in files) ::
      if p in left then files[p] else Advanced(Lookup(files, p), Lookup(observed, p), generation)
  }

  lemma StampedStep(files: map<string, FileRow>, observed: map<string, Digest>, generation: nat, left: set<string>, p: string)
    requires p in left && left <= files.Keys + observed.Keys
    ensures Lookup(Stamped(files, observed, generation, left), p) == Lookup(files, p)
    ensures Stamped(files, observed, generation, left - {p}) ==
            Stamped(files, observed, generation, left)[p := Advanced(Lookup(files, p), Lookup(observed, p), generation)]
  {
  }

  function ChangedRows(files: map<string, FileRow>, rows: map<string, FileRow>): set<string> {
    set p | p in rows && (p !in files || rows[p] != files[p])
  }

  lemma ChangedRowsStep(files: map<string, FileRow>, rows: map<string, FileRow>, p: string, row: FileRow)
    requires Lookup(rows, p) == Lookup(files, p)
    ensures p !in ChangedRows(files, rows)
    ensures ChangedRows(files, rows[p := row]) ==
            ChangedRows(files, rows) + if p !in files || row != files[p] then {p} else {}
  {
  }

  /** The file table after an explicit full rebuild was asked for. */
  function Forced(files: map<string, FileRow>): map<string, FileRow> {
    map p | p in files :: ForcedRow(files[p])
  }

  function ForcedRow(r: FileRow): FileRow {
    if r.observed.None? then r
    else r.(desired := (if r.desired >= r.indexedAt then r.desired else r.indexedAt) + 1)
  }

  /** The fact tables after one file's facts were replaced. */
  function Replaced(facts: map<string, Facts>, path: string, f: Facts): map<string, Facts>
    requires path in facts
  {
    map q | q in facts :: if q == path then f else Invalidated(facts[q], facts[path].nodes)
  }

  function Acked(files: map<string, FileRow>, path: string, generation: nat, hash: Option<Digest>): map<string, FileRow>
    requires path in files
  {
    if files[path].desired != generation then files
    else files[path := files[path].(indexedAt := generation, indexed := hash)]
  }

  datatype Report = Report(generation: nat, queued: nat)

  /** One row of the dirty query. */
  datatype DirtyFile = DirtyFile(path: string, observed: Option<Digest>, desired: nat)

  /** The invariant of the tables: a clean row's facts are those of its observed bytes. */
  ghost predicate Consistent(profile: Profile, files: map<string, FileRow>, facts: map<string, Facts>) {
    && facts.Keys == files.Keys
    && forall p <- files :: RowConsistent(profile, p, files[p], facts[p])
  }

  ghost predicate RowConsistent(profile: Profile, path: string, row: FileRow, f: Facts) {
    && row.indexedAt <= row.desired
    && (row.deleted <==> row.observed.None?)
    && FromAnalysis(profile, path, f)
    && (!row.IsDirty() ==> row.indexed == row.observed && Current(profile, path, row.observed, f))
  }

  function Extended(facts: map<string, Facts>, files: map<string, FileRow>): map<string, Facts> {
    map p | p in files :: if p in facts then facts[p] else NO_FACTS
  }

  lemma AdvancingKeeps(
    profile: Profile, files: map<string, FileRow>, facts: map<string, Facts>, observed: map<string, Digest>, generation: nat)
    requires Consistent(profile, files, facts)
    requires 0 < generation && forall p <- files :: files[p].desired < generation
    ensures Consistent(profile, AdvancedRows(files, observed, generation),
                       Extended(facts, AdvancedRows(files, observed, generation)))
  {
    var rows := AdvancedRows(files, observed, generation);
    forall p | p in rows
      ensures RowConsistent(profile, p, rows[p], Extended(facts, rows)[p])
    {
      assert p in files ==> RowConsistent(profile, p, files[p], facts[p]);
    }
  }

  lemma ForcingKeeps(profile: Profile, files: map<string, FileRow>, facts: map<string, Facts>)
    requires Consistent(profile, files, facts)
    ensures Consistent(profile, Forced(files), facts)
    ensures forall p <- files :: files[p].observed.Some? ==> Forced(files)[p].IsDirty()
  {
    forall p | p in files
      ensures RowConsistent(profile, p, Forced(files)[p], facts[p])
    {
      assert RowConsistent(profile, p, files[p], facts[p]);
    }
  }

  /** Replacing a dirty file's facts touches no other file's facts, so the tables stay
      consistent even when the pass dies before the acknowledgement. */
  lemma ReplacingKeeps(profile: Profile, files: map<string, FileRow>, facts: map<string, Facts>, path: string, f: Facts)
    requires Local(profile) && Consistent(profile, files, facts)
    requires path in files && files[path].IsDirty() && FromAnalysis(profile, path, f)
    ensures Replaced(facts, path, f) == facts[path := f]
    ensures Consistent(profile, files, Replaced(facts, path, f))
  {
    forall q | q in facts && q != path
      ensures Invalidated(facts[q], facts[path].nodes) == facts[q]
    {
      assert RowConsistent(profile, q, files[q], facts[q]) && RowConsistent(profile, path, files[path], facts[path]);
      AnalysesDoNotInterfere(profile, q, facts[q], path, facts[path]);
    }
    forall q | q in files
      ensures RowConsistent(profile, q, files[q], facts[path := f][q])
    {
      assert RowConsistent(profile, q, files[q], facts[q]);
    }
  }

  lemma AckingKeeps(profile: Profile, files: map<string, FileRow>, facts: map<string, Facts>, path: string, hash: Option<Digest>)
    requires Consistent(profile, files, facts)
    requires path in files && Current(profile, path, files[path].observed, facts[path]) && hash == files[path].observed
    ensures Consistent(profile, Acked(files, path, files[path].desired, hash), facts)
    ensures !Acked(files, path, files[path].desired, hash)[path].IsDirty()
  {
    var rows := Acked(files, path, files[path].desired, hash);
    forall q | q in rows
      ensures RowConsistent(profile, q, rows[q], facts[q])
    {
      assert RowConsistent(profile, q, files[q], facts[q]);
    }
  }

  function KnownOf(files: map<string, FileRow>): (known: map<string, Digest>)
    ensures forall p :: p in known <==> p in files && files[p].observed.Some?
  {
    map p | p in files && files[p].observed.Some? :: files[p].observed.value
  }

  predicate SameObserved(before: map<string, FileRow>, after: map<string, FileRow>) {
    before.Keys == after.Keys && forall p <- before :: after[p].observed == before[p].observed
  }

  predicate AllClean(files: map<string, FileRow>) {
    forall p <- files :: !files[p].IsDirty()
  }

  lemma AdvancingObserves(files: map<string, FileRow>, observed: map<string, Digest>, generation: nat)
    requires forall p <- files :: files[p].deleted <==> files[p].observed.None?
    ensures KnownOf(AdvancedRows(files, observed, generation)) == observed
    ensures AdvancedRows(files, observed, generation).Keys == files.Keys + observed.Keys
  {
  }

  /** A clean table is a cold analysis of what it observes. */
  lemma CleanIsCold(profile: Profile, files: map<string, FileRow>, facts: map<string, Facts>)
    requires Consistent(profile, files, facts) && AllClean(files)
    ensures ColdFacts(profile, KnownOf(files), facts)
  {
    forall p | p in files
      ensures Current(profile, p, files[p].observed, facts[p])
    {
      assert RowConsistent(profile, p, files[p], facts[p]);
    }
  }

  /** The rows a publication is rendered from: the union over the files. */
  ghost predicate HoldsNode(facts: map<string, Facts>, id: string, row: NodeRow) {
    exists p <- facts :: id in facts[p].nodes && facts[p].nodes[id] == row
  }

  ghost predicate HoldsEdge(facts: map<string, Facts>, id: string, row: EdgeRow) {
    exists p <- facts :: id in facts[p].edges && facts[p].edges[id] == row
  }

  ghost predicate SameRows(a: map<string, Facts>, b: map<string, Facts>) {
    && (forall id, row :: HoldsNode(a, id, row) <==> HoldsNode(b, id, row))
    && (forall id, row :: HoldsEdge(a, id, row) <==> HoldsEdge(b, id, row))
  }

  /** Two tables that are cold for one observation hold the same rows. */
  lemma ColdRowsAreUnique(profile: Profile, observed: map<string, Digest>, a: map<string, Facts>, b: map<string, Facts>)
    requires ColdFacts(profile, observed, a) && ColdFacts(profile, observed, b)
    ensures SameRows(a, b)
  {
    forall p | p in a || p in b
      ensures p in observed ==> p in a && p in b && a[p] == b[p]
      ensures p !in observed && p in a ==> a[p] == NO_FACTS
      ensures p !in observed && p in b ==> b[p] == NO_FACTS
    {
    }
  }

  /** The disk still holds the observed bytes, and the analyzer takes them. */
  ghost predicate Processable(profile: Profile, d: DirtyFile, now: map<string, string>) {
    match d.observed
    case None => true
    case Some(digest) =>
      && d.path in now && Sha256(now[d.path]) == digest
      && Analyze(profile, d.path, digest.bytes).Some?
      && Accepted(Analyze(profile, d.path, digest.bytes).value)
  }

  /** The inventory would change this row. */
  predicate Differs(row: Option<FileRow>, seen: Option<Digest>) {
    match (row, seen)
    case (None, _) => seen.Some?
    case (Some(r), Some(d)) => r.observed != Some(d) || r.deleted
    case (Some(r), None) => !r.deleted
  }

  /** What makes a pass publish: a row the inventory changes, or a dirty source
      file of a pinned language.  A dirty tombstone is not on the list. */
  ghost predicate NeedsWork(profile: Profile, files: map<string, FileRow>, observed: map<string, Digest>) {
    || (exists p :: p in files.Keys + observed.Keys && Differs(Lookup(files, p), Lookup(observed, p)))
    || exists p <- files :: files[p].IsDirty() && files[p].observed.Some? && profile.language(p)
  }

  /** The inventory would change some row. */
  ghost predicate Changes(files: map<string, FileRow>, observed: map<string, Digest>) {
    exists p :: p in files.Keys + observed.Keys && Differs(Lookup(files, p), Lookup(observed, p))
  }

  /** Every dirty row was dirty before, or is one the inventory changed. */
  predicate DirtyIsNew(before: map<string, FileRow>, after: map<string, FileRow>) {
    forall p <- after :: after[p].IsDirty() ==>
      (p in before && before[p].IsDirty()) || Differs(Lookup(before, p), Lookup(KnownOf(after), p))
  }

  /** No row of `before` became dirty. */
  predicate OnlyCleans(before: map<string, FileRow>, after: map<string, FileRow>) {
    forall p <- after :: after[p].IsDirty() ==> p in before && before[p].IsDirty()
  }

  lemma AdvancingDirties(files: map<string, FileRow>, observed: map<string, Digest>, generation: nat)
    requires 0 < generation && forall p <- files :: files[p].indexedAt <= files[p].desired < generation
    requires forall p <- files :: files[p].deleted <==> files[p].observed.None?
    ensures DirtyIsNew(files, AdvancedRows(files, observed, generation))
    ensures Changes(files, observed) ==> exists p <- AdvancedRows(files, observed, generation) ::
              AdvancedRows(files, observed, generation)[p].IsDirty()
  {
    var rows := AdvancedRows(files, observed, generation);
    AdvancingObserves(files, observed, generation);
    forall p | p in rows && rows[p].IsDirty()
      ensures (p in files && files[p].IsDirty()) || Differs(Lookup(files, p), Lookup(observed, p))
    {
    }
    if p :| p in files.Keys + observed.Keys && Differs(Lookup(files, p), Lookup(observed, p)) {
      assert rows[p].IsDirty();
    }
  }

  lemma StillNew(before: map<string, FileRow>, advanced: map<string, FileRow>, after: map<string, FileRow>)
    requires DirtyIsNew(before, advanced) && OnlyCleans(advanced, after) && KnownOf(after) == KnownOf(advanced)
    ensures DirtyIsNew(before, after)
  {
  }

  lemma ChangedIffDiffers(files: map<string, FileRow>, observed: map<string, Digest>, generation: nat)
    requires forall p <- files :: files[p].desired < generation
    ensures ChangedRows(files, AdvancedRows(files, observed, generation)) ==
            set p | p in files.Keys + observed.Keys && Differs(Lookup(files, p), Lookup(observed, p))
    ensures ChangedRows(files, AdvancedRows(files, observed, generation)) == {} ==>
              AdvancedRows(files, observed, generation) == files
  {
    var rows := AdvancedRows(files, observed, generation);
    if ChangedRows(files, rows) == {} {
      assert forall p <- rows :: p !in ChangedRows(files, rows);
    }
  }

  ghost predicate IsQueued(files: map<string, FileRow>, d: DirtyFile) {
    d.path in files && files[d.path].IsDirty()
    && d == DirtyFile(d.path, files[d.path].observed, files[d.path].desired)
  }

  function Paths(queue: seq<DirtyFile>): set<string> {
    if queue == [] then {} else {queue[0].path} + Paths(queue[1..])
  }

  /** The queue holds current rows of distinct dirty files. */
  ghost predicate Queued(files: map<string, FileRow>, queue: seq<DirtyFile>) {
    queue != [] ==>
      && IsQueued(files, queue[0])
      && queue[0].path !in Paths(queue[1..])
      && Queued(files, queue[1..])
  }

  /** Every dirty file is on the queue. */
  predicate Covers(files: map<string, FileRow>, queue: seq<DirtyFile>) {
    forall p <- files :: files[p].IsDirty() ==> p in Paths(queue)
  }

  lemma {:induction false} QueueSurvivesAck(files: map<string, FileRow>, d: DirtyFile, queue: seq<DirtyFile>)
    requires d.path in files && d.path !in Paths(queue) && Queued(files, queue)
    ensures Queued(Acked(files, d.path, d.desired, d.observed), queue)
  {
    if queue != [] {
      QueueSurvivesAck(files, d, queue[1..]);
    }
  }

  lemma CleaningComposes(a: map<string, FileRow>, b: map<string, FileRow>, c: map<string, FileRow>)
    requires SameObserved(a, b) && OnlyCleans(a, b) && SameObserved(b, c) && OnlyCleans(b, c)
    ensures SameObserved(a, c) && OnlyCleans(a, c)
  {
  }

  lemma QueueAdvances(files: map<string, FileRow>, queue: seq<DirtyFile>)
    requires queue != [] && Queued(files, queue) && Covers(files, queue)
    ensures Queued(Acked(files, queue[0].path, queue[0].desired, queue[0].observed), queue[1..])
    ensures Covers(Acked(files, queue[0].path, queue[0].desired, queue[0].observed), queue[1..])
    ensures SameObserved(files, Acked(files, queue[0].path, queue[0].desired, queue[0].observed))
    ensures OnlyCleans(files, Acked(files, queue[0].path, queue[0].desired, queue[0].observed))
  {
    QueueSurvivesAck(files, queue[0], queue[1..]);
  }

  ghost predicate AllProcessable(profile: Profile, queue: seq<DirtyFile>, disk: nat -> map<string, string>, i: nat)
    decreases |queue|
  {
    queue != [] ==> Processable(profile, queue[0], disk(i)) && AllProcessable(profile, queue[1..], disk, i + 1)
  }

  /** The disk holds exactly the observed bytes. */
  predicate Holds(now: map<string, string>, observed: map<string, Digest>) {
    forall p <- observed :: p in now && Sha256(now[p]) == observed[p]
  }

  ghost predicate Analyzable(profile: Profile, observed: map<string, Digest>) {
    forall p <- observed ::
      Analyze(profile, p, observed[p].bytes).Some? && Accepted(Analyze(profile, p, observed[p].bytes).value)
  }

  ghost predicate Settles(profile: Profile, observed: map<string, Digest>, disk: nat -> map<string, string>) {
    |observed| <= MAX_INVENTORY_BATCH && Analyzable(profile, observed) && forall k: nat :: Holds(disk(k), observed)
  }

  lemma {:induction false} QuietIsProcessable(
    profile: Profile, files: map<string, FileRow>, queue: seq<DirtyFile>, disk: nat -> map<string, string>, i: nat)
    requires Queued(files, queue) && Analyzable(profile, KnownOf(files))
    requires forall k: nat :: Holds(disk(k), KnownOf(files))
    ensures AllProcessable(profile, queue, disk, i)
    decreases |queue|
  {
    if queue != [] {
      QuietIsProcessable(profile, files, queue[1..], disk, i + 1);
      assert Holds(disk(i), KnownOf(files));
    }
  }

  /** How many queued files are sources of a pinned language. */
  function SourceCount(profile: Profile, queue: seq<DirtyFile>): nat {
    if queue == [] then 0 else Counts(profile, queue[0]) + SourceCount(profile, queue[1..])
  }

  function Counts(profile: Profile, d: DirtyFile): nat {
    if d.observed.Some? && profile.language(d.path) then 1 else 0
  }

  lemma {:induction false} CountsSource(profile: Profile, files: map<string, FileRow>, queue: seq<DirtyFile>)
    requires Queued(files, queue)
    ensures Paths(queue) <= files.Keys
    ensures SourceCount(profile, queue) > 0 <==>
            exists p <- Paths(queue) :: files[p].observed.Some? && profile.language(p)
    ensures forall p <- Paths(queue) :: files[p].IsDirty()
  {
    if queue != [] {
      CountsSource(profile, files, queue[1..]);
    }
  }

  /** The pass's own test for new work, in terms of the tables it started from. */
  lemma WorkIsNeeded(profile: Profile, files: map<string, FileRow>, observed: map<string, Digest>, generation: nat, queue: seq<DirtyFile>)
    requires forall p <- files :: files[p].desired < generation
    requires Queued(AdvancedRows(files, observed, generation), queue)
    requires Covers(AdvancedRows(files, observed, generation), queue)
    ensures |ChangedRows(files, AdvancedRows(files, observed, generation))| > 0 || SourceCount(profile, queue) > 0
            <==> NeedsWork(profile, files, observed)
  {
    var rows := AdvancedRows(files, observed, generation);
    ChangedIffDiffers(files, observed, generation);
    CountsSource(profile, rows, queue);
    if ChangedRows(files, rows) != {} {
      var p :| p in ChangedRows(files, rows);
      assert |ChangedRows(files, rows)| > 0;
    }
  }

  /** One attempt at a pass: whether it is a forced full rebuild, what the walk
      saw, what the disk holds at each read, and where it stops. */
  datatype Attempt = Attempt(full: bool, walk: map<string, Entry>, disk: nat -> map<string, string>, script: Script)

  /** The file table a pass takes its inventory against. */
  function Started(files: map<string, FileRow>, a: Attempt): map<string, FileRow> {
    if a.full then Forced(files) else files
  }

  /** From a clean table, a pass without new work stores what was stored. */
  lemma NoWorkNoChange(
    profile: Profile, files: map<string, FileRow>, facts: map<string, Facts>, a: Attempt,
    files': map<string, FileRow>, facts': map<string, Facts>)
    requires Consistent(profile, files, facts) && AllClean(files)
    requires Consistent(profile, files', facts') && AllClean(files')
    requires files'.Keys == files.Keys + KnownOf(files').Keys
    requires !NeedsWork(profile, Started(files, a), KnownOf(files'))
    ensures KnownOf(files') == KnownOf(files) && facts' == facts
  {
    UnchangedKnown(profile, files, facts, a, files');
    SameKnownSameFacts(profile, files, facts, files', facts');
  }

  lemma UnchangedKnown(
    profile: Profile, files: map<string, FileRow>, facts: map<string, Facts>, a: Attempt, files': map<string, FileRow>)
    requires Consistent(profile, files, facts)
    requires files'.Keys == files.Keys + KnownOf(files').Keys
    requires !NeedsWork(profile, Started(files, a), KnownOf(files'))
    ensures KnownOf(files') == KnownOf(files) && files'.Keys == files.Keys
  {
    var base, known := Started(files, a), KnownOf(files');
    assert base.Keys == files.Keys;
    forall p | p in files || p in known
      ensures p in files && Lookup(KnownOf(files), p) == Lookup(known, p)
    {
      assert p in base.Keys + known.Keys && !Differs(Lookup(base, p), Lookup(known, p));
      if p in files {
        assert RowConsistent(profile, p, files[p], facts[p]);
        RowUnchanged(files, a, p, Lookup(known, p));
      }
    }
    SameLookups(KnownOf(files), known);
  }

  lemma RowUnchanged(files: map<string, FileRow>, a: Attempt, p: string, seen: Option<Digest>)
    requires p in files && (files[p].deleted <==> files[p].observed.None?)
    requires !Differs(Some(Started(files, a)[p]), seen)
    ensures Lookup(KnownOf(files), p) == seen
  {
  }

  lemma SameLookups(a: map<string, Digest>, b: map<string, Digest>)
    requires forall p | p in a || p in b :: Lookup(a, p) == Lookup(b, p)
    ensures a == b
  {
  }

  lemma SameObservedSameKnown(before: map<string, FileRow>, after: map<string, FileRow>)
    requires SameObserved(before, after)
    ensures KnownOf(before) == KnownOf(after) && before.Keys == after.Keys
  {
  }

  lemma SameKnownSameFacts(
    profile: Profile, files: map<string, FileRow>, facts: map<string, Facts>,
    files': map<string, FileRow>, facts': map<string, Facts>)
    requires Consistent(profile, files, facts) && AllClean(files)
    requires Consistent(profile, files', facts') && AllClean(files')
    requires KnownOf(files') == KnownOf(files) && files'.Keys == files.Keys
    ensures facts' == facts
  {
    CleanIsCold(profile, files, facts);
    CleanIsCold(profile, files', facts');
    forall p | p in facts
      ensures facts'[p] == facts[p]
    {
      assert p in KnownOf(files) || p !in KnownOf(files);
    }
  }

  predicate FullyRead(walk: map<string, Entry>) {
    forall p <- walk :: walk[p].Readable?
  }

  lemma ReadWalkForgetsHistory(known: map<string, Digest>, walk: map<string, Entry>)
    requires FullyRead(walk)
    ensures Observe(known, walk) == Observe(map[], walk)
  {
  }

  class ProjectStore {
    var files: map<string, FileRow>
    var facts: map<string, Facts>

    constructor ()
      ensures files == map[] && facts == map[]
    {
      files, facts := map[], map[];
    }

    ghost predicate Valid(profile: Profile)
      reads this
    {
      Consistent(profile, files, facts)
    }

    method HighestDesired() returns (highest: nat)
      ensures forall p <- files :: files[p].desired <= highest
      ensures highest == 0 || exists p <- files :: files[p].desired == highest
    {
      highest := 0;
      var left := files.Keys;
      while left != {}
        invariant left <= files.Keys
        invariant forall p <- files :: p in left || files[p].desired <= highest
        invariant highest == 0 || exists p <- files :: files[p].desired == highest
      {
        var p :| p in left;
        left := left - {p};
        if files[p].desired > highest { highest := files[p].desired; }
      }
    }

    /** One transaction: stamp every row the observation changes with a new
        generation, and tombstone the rows it does not list. */
    method ApplyInventory(observed: map<string, Digest>, script: Script)
      returns (o: Outcome<Report>, rest: Script)
      modifies this
      ensures !o.Ok? ==> files == old(files) && facts == old(facts)
      ensures o.Ok? ==>
                && (forall p <- old(files) :: old(files)[p].desired < o.value.generation)
                && files == AdvancedRows(old(files), observed, o.value.generation)
                && 0 < o.value.generation
                && facts == Extended(old(facts), files)
      // The count of queued rows is the number of rows that changed.
      ensures o.Ok? ==> o.value.queued == |ChangedRows(old(files), files)|
      ensures |observed| > MAX_INVENTORY_BATCH ==> !o.Ok?
      ensures |observed| <= MAX_INVENTORY_BATCH ==> RunsOnce(o, script, rest)
    {
      if |observed| > MAX_INVENTORY_BATCH { return Error, script; }
      var highest := HighestDesired();
      var generation := highest + 1;
      var rows, queued := StampRows(observed, generation);
      var event := Next(script);
      rest := Rest(script);
      if event.Halt? { return Stopped(event), rest; }
      facts := Extended(facts, rows);
      files := rows;
      o := Ok(Report(generation, queued));
    }

    method StampRows(observed: map<string, Digest>, generation: nat)
      returns (rows: map<string, FileRow>, queued: nat)
      ensures rows == AdvancedRows(files, observed, generation)
      ensures queued == |ChangedRows(files, rows)|
    {
      rows := files;
      queued := 0;
      var left := files.Keys + observed.Keys;
      while left != {}
        invariant left <= files.Keys + observed.Keys
        invariant rows == Stamped(files, observed, generation, left)
        invariant queued == |ChangedRows(files, rows)|
      {
        var p :| p in left;
        var row := Advanced(Lookup(files, p), Lookup(observed, p), generation);
        StampedStep(files, observed, generation, left, p);
        ChangedRowsStep(files, rows, p, row);
        if p !in files || row != files[p] { queued := queued + 1; }
        rows := rows[p := row];
        left := left - {p};
      }
    }

    /** The explicit full rebuild: every observed row becomes dirty. */
    method ForceFull(script: Script) returns (o: Outcome<()>, rest: Script)
      modifies this`files
      ensures !o.Ok? ==> files == old(files)
      ensures o.Ok? ==> files == Forced(old(files)) && KnownOf(files) == KnownOf(old(files))
      ensures o.Ok? ==> forall p <- files :: files[p].observed.Some? ==> files[p].IsDirty()
      ensures RunsOnce(o, script, rest)
    {
      var event := Next(script);
      rest := Rest(script);
      if event.Halt? { return Stopped(event), rest; }
      files := Forced(files);
      o := Ok(());
    }

    method DirtyFiles() returns (queue: seq<DirtyFile>)
      ensures Queued(files, queue) && Covers(files, queue)
    {
      queue := [];
      var left := set p | p in files && files[p].IsDirty();
      while left != {}
        invariant forall p <- left :: p in files && files[p].IsDirty() && p !in Paths(queue)
        invariant forall p <- files :: files[p].IsDirty() ==> p in left || p in Paths(queue)
        invariant Queued(files, queue)
      {
        var p :| p in left;
        left := left - {p};
        ghost var before := queue;
        queue := [DirtyFile(p, files[p].observed, files[p].desired)] + queue;
        assert queue[1..] == before;
      }
    }

    /** No other file holds a key of `f`. */
    predicate Fresh(path: string, f: Facts)
      reads this
    {
      forall q <- facts :: q != path ==> Disjoint(f, facts[q])
    }

    /** One transaction replacing what a file owns.  It refuses a
        fact set that fails the checks, and a key another file holds. */
    method ReplaceFileFacts(path: string, f: Facts, script: Script)
      returns (o: Outcome<()>, rest: Script)
      requires path in files && facts.Keys == files.Keys
      modifies this`facts
      ensures !o.Ok? ==> facts == old(facts)
      ensures o.Ok? ==> facts == Replaced(old(facts), path, f)
      ensures if Accepted(f) && old(Fresh(path, f)) then RunsOnce(o, script, rest) else !o.Ok?
    {
      if !Accepted(f) { return Error, script; }
      var event := Next(script);
      rest := Rest(script);
      if event.Halt? { return Stopped(event), rest; }
      if !Fresh(path, f) {
        return Error, rest;
      }
      facts := Replaced(facts, path, f);
      o := Ok(());
    }

    /** Conditional on the analysed generation: a newer one keeps the row dirty. */
    method AckGeneration(path: string, generation: nat, hash: Option<Digest>, script: Script)
      returns (o: Outcome<()>, rest: Script)
      requires path in files
      modifies this`files
      ensures !o.Ok? ==> files == old(files)
      ensures o.Ok? ==> files == Acked(old(files), path, generation, hash)
      ensures RunsOnce(o, script, rest)
    {
      var event := Next(script);
      rest := Rest(script);
      if event.Halt? { return Stopped(event), rest; }
      if files[path].desired == generation {
        files := files[path := files[path].(indexedAt := generation, indexed := hash)];
      }
      o := Ok(());
    }

    /** One dirty file: read, compare, analyse, replace, acknowledge. */
    method AnalyzeFile(profile: Profile, d: DirtyFile, now: map<string, string>, script: Script)
      returns (o: Outcome<nat>, rest: Script)
      requires Local(profile) && Valid(profile)
      requires IsQueued(files, d)
      modifies this
      ensures Valid(profile)
      ensures files == old(files) || files == Acked(old(files), d.path, d.desired, d.observed)
      ensures o.Ok? ==> files == Acked(old(files), d.path, d.desired, d.observed)
                        && o.value == Counts(profile, d)
      // Bytes that vanished, changed or do not analyse stop the pass.
      ensures o.Ok? <==> Processable(profile, d, now) && Next(script).Done? && Next(Rest(script)).Done?
      ensures o.Ok? ==> rest == Rest(Rest(script))
    {
      var f := NO_FACTS;
      if d.observed.Some? {
        if d.path !in now || Sha256(now[d.path]) != d.observed.value { return Error, script; }
        var analysis := Analyze(profile, d.path, now[d.path]);
        if analysis.None? { return Error, script; }
        f := analysis.value;
      }
      assert FromAnalysis(profile, d.path, f) && Current(profile, d.path, d.observed, f);
      ReplacingKeeps(profile, files, facts, d.path, f);
      NewFactsAreDisjoint(profile, d.path, f);
      var step;
      step, rest := ReplaceFileFacts(d.path, f, script);
      if !step.Ok? { return if step.Error? then Error else Crashed, rest; }
      AckingKeeps(profile, files, facts, d.path, d.observed);
      step, rest := AckGeneration(d.path, d.desired, d.observed, rest);
      if !step.Ok? { return if step.Error? then Error else Crashed, rest; }
      o := Ok(Counts(profile, d));
    }

    lemma NewFactsAreDisjoint(profile: Profile, path: string, f: Facts)
      requires Local(profile) && Valid(profile) && path in files && FromAnalysis(profile, path, f)
      ensures Fresh(path, f) && SelfContained(f)
    {
      if f != NO_FACTS {
        var b :| Analyze(profile, path, b) == Some(f);
        assert StaysInside(profile, path, b);
      }
      forall q | q in facts && q != path
        ensures Disjoint(f, facts[q])
      {
        assert RowConsistent(profile, q, files[q], facts[q]);
        AnalysesDoNotInterfere(profile, path, f, q, facts[q]);
      }
    }

    /** The analysis loop.  `disk(i)` is what the disk holds at the i-th read. */
    method AnalyzeDirty(profile: Profile, dirty: seq<DirtyFile>, disk: nat -> map<string, string>, script: Script)
      returns (o: Outcome<nat>, rest: Script)
      requires Local(profile) && Valid(profile)
      requires Queued(files, dirty) && Covers(files, dirty)
      modifies this
      ensures Valid(profile)
      ensures SameObserved(old(files), files) && OnlyCleans(old(files), files)
      ensures o.Ok? ==> AllClean(files) && o.value == SourceCount(profile, dirty)
      ensures dirty != [] && Next(script).Halt? ==> !o.Ok?
      ensures script == [] && AllProcessable(profile, dirty, disk, 0) ==> o.Ok?
    {
      var analyzed, i, queue := 0, 0, dirty;
      rest := script;
      while queue != []
        invariant Valid(profile)
        invariant SameObserved(old(files), files) && OnlyCleans(old(files), files)
        invariant |queue| <= |dirty| && (|queue| == |dirty| ==> queue == dirty && rest == script)
        invariant |queue| < |dirty| ==> Next(script).Done?
        invariant Queued(files, queue) && Covers(files, queue)
        invariant analyzed + SourceCount(profile, queue) == SourceCount(profile, dirty)
        invariant script == [] && AllProcessable(profile, dirty, disk, 0) ==> rest == [] && AllProcessable(profile, queue, disk, i)
      {
        QueueAdvances(files, queue);
        ghost var before := files;
        var step;
        step, rest := AnalyzeFile(profile, queue[0], disk(i), rest);
        CleaningComposes(old(files), before, files);
        if !step.Ok? { return if step.Error? then Error else Crashed, rest; }
        analyzed, i, queue := analyzed + step.value, i + 1, queue[1..];
      }
      o := Ok(analyzed);
    }

    /** Observe the tree, stamp the rows it changes and query what is dirty. */
    method TakeInventory(profile: Profile, walk: map<string, Entry>, script: Script)
      returns (o: Outcome<Report>, dirty: seq<DirtyFile>, rest: Script)
      requires Valid(profile)
      modifies this
      ensures Valid(profile)
      ensures !o.Ok? ==> files == old(files) && facts == old(facts)
      ensures old(files.Keys) <= files.Keys
      ensures o.Ok? ==>
                && KnownOf(files) == Observe(old(KnownOf(files)), walk)
                && files.Keys == old(files.Keys) + KnownOf(files).Keys
                && Queued(files, dirty) && Covers(files, dirty)
                && (o.value.queued > 0 || SourceCount(profile, dirty) > 0 <==>
                    NeedsWork(profile, old(files), KnownOf(files)))
      ensures o.Ok? ==> DirtyIsNew(old(files), files) && rest == Rest(script)
      ensures o.Ok? && Changes(old(files), KnownOf(files)) ==> dirty != []
      ensures |Observe(old(KnownOf(files)), walk)| <= MAX_INVENTORY_BATCH ==> RunsOnce(o, script, rest)
    {
      var observed := Observe(KnownOf(files), walk);
      o, rest := ApplyInventory(observed, script);
      dirty := [];
      if !o.Ok? { return; }
      AdvancingKeeps(profile, old(files), old(facts), observed, o.value.generation);
      assert forall p <- old(files) :: RowConsistent(profile, p, old(files)[p], old(facts)[p]);
      AdvancingObserves(old(files), observed, o.value.generation);
      dirty := DirtyFiles();
      WorkIsNeeded(profile, old(files), observed, o.value.generation, dirty);
      AdvancingDirties(old(files), observed, o.value.generation);
    }

    /** The inventory and analysis half of a pass over one project.  The result says
        whether the publication half has new work. */
    method ReconcileProject(profile: Profile, walk: map<string, Entry>, disk: nat -> map<string, string>, script: Script)
      returns (o: Outcome<bool>, rest: Script)
      requires Local(profile) && Valid(profile)
      modifies this
      ensures Valid(profile)
      ensures o.Ok? ==>
                && AllClean(files)
                && KnownOf(files) == Observe(old(KnownOf(files)), walk)
                && files.Keys == old(files.Keys) + KnownOf(files).Keys
                && (o.value <==> NeedsWork(profile, old(files), KnownOf(files)))
                && StoresDeclarations(profile, KnownOf(files), facts)
      ensures old(files.Keys) <= files.Keys
      // A pass over a quiet tree the analyzers accept does complete.
      ensures script == [] && Settles(profile, Observe(old(KnownOf(files)), walk), disk) ==> o.Ok?
      // Once the inventory is applied it stays, wherever the pass stops after it.
      ensures Next(script).Done? && |Observe(old(KnownOf(files)), walk)| <= MAX_INVENTORY_BATCH ==>
                KnownOf(files) == Observe(old(KnownOf(files)), walk) && DirtyIsNew(old(files), files)
      ensures Next(Rest(script)).Halt? && Changes(old(files), Observe(old(KnownOf(files)), walk)) ==> !o.Ok?
    {
      var inventory, dirty;
      inventory, dirty, rest := TakeInventory(profile, walk, script);
      if !inventory.Ok? { return if inventory.Error? then Error else Crashed, rest; }
      ghost var known, advanced := KnownOf(files), files;
      if Settles(profile, known, disk) { QuietIsProcessable(profile, files, dirty, disk, 0); }
      var analyzed;
      analyzed, rest := AnalyzeDirty(profile, dirty, disk, rest);
      SameObservedSameKnown(advanced, files);
      StillNew(old(files), advanced, files);
      if !analyzed.Ok? { return if analyzed.Error? then Error else Crashed, rest; }
      CleanIsCold(profile, files, facts);
      ColdStoresDeclarations(profile, KnownOf(files), facts);
      o := Ok(inventory.value.queued > 0 || analyzed.value > 0);
    }

    method Try(profile: Profile, a: Attempt) returns (o: Outcome<bool>)
      requires Local(profile) && Valid(profile)
      modifies this
      ensures Valid(profile)
      ensures o.Ok? ==>
                && AllClean(files)
                && KnownOf(files) == Observe(old(KnownOf(files)), a.walk)
                && files.Keys == old(files.Keys) + KnownOf(files).Keys
                && (o.value <==> NeedsWork(profile, Started(old(files), a), KnownOf(files)))
      ensures a.script == [] && Settles(profile, Observe(old(KnownOf(files)), a.walk), a.disk) ==> o.Ok?
      ensures !a.full && Next(a.script).Done? && |Observe(old(KnownOf(files)), a.walk)| <= MAX_INVENTORY_BATCH ==>
                KnownOf(files) == Observe(old(KnownOf(files)), a.walk) && DirtyIsNew(old(files), files)
      ensures !a.full && Next(Rest(a.script)).Halt? && Changes(old(files), Observe(old(KnownOf(files)), a.walk)) ==> !o.Ok?
    {
      var script := a.script;
      if a.full {
        ForcingKeeps(profile, files, facts);
        assert KnownOf(Forced(files)) == KnownOf(files);
        var forced;
        forced, script := ForceFull(script);
        if !forced.Ok? { return if forced.Error? then Error else Crashed; }
      }
      o, script := ReconcileProject(profile, a.walk, a.disk, script);
    }

    /** Any number of attempts, each stopping wherever its script says, ended by one
        that completes: the tables are those of a cold analysis. */
    method Resume(profile: Profile, history: seq<Attempt>, final: Attempt) returns (o: Outcome<bool>)
      requires Local(profile) && Valid(profile)
      modifies this
      ensures Valid(profile)
      ensures o.Ok? ==> AllClean(files) && ColdFacts(profile, KnownOf(files), facts)
      ensures o.Ok? ==> StoresDeclarations(profile, KnownOf(files), facts)
      ensures o.Ok? && FullyRead(final.walk) ==> KnownOf(files) == Observe(map[], final.walk)
    {
      for i := 0 to |history|
        invariant Valid(profile)
      {
        o := Try(profile, history[i]);
      }
      ghost var known := KnownOf(files);
      o := Try(profile, final);
      if o.Ok? {
        CleanIsCold(profile, files, facts);
        ColdStoresDeclarations(profile, KnownOf(files), facts);
        if FullyRead(final.walk) { ReadWalkForgetsHistory(known, final.walk); }
      }
    }
  }

  /** Interrupted, forced, resumed: the rows a publication is rendered from are the
      rows an empty database would hold after one pass over the same walk. */
  method ResumedEqualsCold(profile: Profile, warm: ProjectStore, history: seq<Attempt>, final: Attempt, script: Script)
    returns (cold: ProjectStore, done: bool)
    requires Local(profile) && warm.Valid(profile) && FullyRead(final.walk)
    modifies warm
    ensures fresh(cold)
    ensures done ==> SameRows(warm.facts, cold.facts)
  {
    cold := new ProjectStore();
    var a := warm.Resume(profile, history, final);
    var b := cold.Resume(profile, [], final.(full := false, script := script));
    done := a.Ok? && b.Ok?;
    if done {
      ColdRowsAreUnique(profile, KnownOf(warm.files), warm.facts, cold.facts);
    }
  }
}
