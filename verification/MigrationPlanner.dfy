/** Planning an import, and which plans the loader reads. */
module MigrationPlanner {
  import opened IdentityTuple
  import opened MigrationPlan
  import opened PlanText
  import opened Prelude
  import opened Sorting
  import opened Text

  /** What the planner reads besides the three roots.  `key` is the collision key of a
      portable path, `snapshots` the validation of manifests, catalogs and pointers for a
      solution, and `instructions` the contents of AGENTS.md. */
  datatype Surroundings = Surroundings(
    portable: string -> bool, key: string -> Option<string>, snapshots: (map<string, string>, string) -> bool,
    instructions: Option<string>)

  const MARKER := "<!-- agrimap-graph:"

  predicate Mentions(text: string, marker: string) {
    |marker| <= |text| && (text[..|marker|] == marker || (text != "" && Mentions(text[1..], marker)))
  }

  /** The inventory is over its budget, or two of its paths differ in spelling only. */
  ghost predicate InventoryFits(around: Surroundings, files: map<string, string>, sources: seq<Source>) {
    |files| <= MAX_FILES && TotalBytes(sources) <= MAX_BYTES && PathsFit(around, files)
  }

  ghost predicate PathsFit(around: Surroundings, files: map<string, string>) {
    && (forall p <- files :: around.key(p).Some?)
    && forall p <- files, q <- files :: around.key(p) == around.key(q) ==> p == q
  }

  predicate IsLegacyOwned(around: Surroundings) {
    around.instructions.Some? && Mentions(around.instructions.value, MARKER)
  }

  /** Refuse paths that are not portable, or that collide. */
  method CheckAliases(around: Surroundings, sources: seq<Source>) returns (ok: bool)
    requires DistinctPaths(sources)
    ensures ok <==> && (forall s <- sources :: around.key(s.path).Some?)
                    && forall s <- sources, t <- sources :: around.key(s.path) == around.key(t.path) ==> s.path == t.path
  {
    var aliases: set<string> := {};
    for i := 0 to |sources|
      invariant forall k :: 0 <= k < i ==> around.key(sources[k].path).Some?
      invariant aliases == set k | 0 <= k < i && around.key(sources[k].path).Some? :: around.key(sources[k].path).value
      invariant forall j, k :: 0 <= j < k < i ==> around.key(sources[j].path) != around.key(sources[k].path)
    {
      var key := around.key(sources[i].path);
      if key.None? {
        assert sources[i] in sources;
        return false;
      }
      if key.value in aliases {
        var k :| 0 <= k < i && around.key(sources[k].path) == key;
        assert sources[k] in sources && sources[i] in sources && sources[k].path != sources[i].path;
        return false;
      }
      aliases := aliases + {key.value};
    }
    ok := true;
  }

  lemma AliasesAreFiles(around: Surroundings, files: map<string, string>, sources: seq<Source>)
    requires Inventories(files, sources)
    ensures InventoryFits(around, files, sources) <==>
            && |files| <= MAX_FILES && TotalBytes(sources) <= MAX_BYTES
            && (forall s <- sources :: around.key(s.path).Some?)
            && forall s <- sources, t <- sources :: around.key(s.path) == around.key(t.path) ==> s.path == t.path
  {
    forall p | p in files
      ensures exists s <- sources :: s.path == p
    {
    }
  }

  function Discovered(files: map<string, string>): Option<Decision> {
    Decide(Normalized(files, LEGACY), Normalized(files, MISSPELLED), Normalized(files, TARGET))
  }

  /** There are files under the root. */
  ghost predicate HasRoot(files: map<string, string>, root: string) {
    exists x :: Under(root, x) in files
  }

  /** If both roots are there they hold the same files with the same contents. */
  ghost predicate SameContents(files: map<string, string>, r: string, s: string) {
    HasRoot(files, r) && HasRoot(files, s) ==>
      forall x :: && (Under(r, x) in files <==> Under(s, x) in files)
                  && (Under(r, x) in files ==> files[Under(r, x)] == files[Under(s, x)])
  }

  ghost predicate RootsAgree(files: map<string, string>) {
    SameContents(files, LEGACY, MISSPELLED) && SameContents(files, LEGACY, TARGET) && SameContents(files, MISSPELLED, TARGET)
  }

  lemma NormalizedHolds(files: map<string, string>, root: string)
    ensures forall x :: x in Normalized(files, root) <==> Under(root, x) in files
    ensures Normalized(files, root) == map[] <==> !HasRoot(files, root)
  {
    SuffixesAreUnder(files.Keys, root);
    if HasRoot(files, root) {
      var x :| Under(root, x) in files;
      assert x in Normalized(files, root);
    }
    if x :| x in Normalized(files, root) { assert Under(root, x) in files; }
  }

  lemma NormalizedAgree(files: map<string, string>, r: string, s: string)
    ensures SameContents(files, r, s) <==>
            Normalized(files, r) == map[] || Normalized(files, s) == map[] || Normalized(files, r) == Normalized(files, s)
  {
    NormalizedHolds(files, r);
    NormalizedHolds(files, s);
    var a, b := Normalized(files, r), Normalized(files, s);
    if a != map[] && b != map[] {
      if SameContents(files, r, s) {
        forall x
          ensures x in a <==> x in b
          ensures x in a ==> a[x] == b[x]
        {
          assert Under(r, x) in files <==> Under(s, x) in files;
        }
        assert a == b;
      }
      if a == b {
        forall x
          ensures Under(r, x) in files <==> Under(s, x) in files
          ensures Under(r, x) in files ==> files[Under(r, x)] == files[Under(s, x)]
        {
          assert x in a <==> Under(r, x) in files;
          assert x in a ==> a[x] == b[x];
        }
      }
    }
  }

  lemma DecideExactly(a: map<string, Digest>, b: map<string, Digest>, target: map<string, Digest>)
    ensures Decide(a, b, target).Some? <==>
            && (a == map[] || b == map[] || a == b)
            && (a == map[] || target == map[] || a == target)
            && (b == map[] || target == map[] || b == target)
  {
  }

  /** Planning goes ahead exactly when no two of the three roots hold different contents;
      it takes the first root that is there, and moves it unless the target is there. */
  lemma DiscoveredExactly(files: map<string, string>)
    ensures Discovered(files).Some? <==> RootsAgree(files)
    ensures Discovered(files).Some? ==> IsDecision(files, Discovered(files).value)
  {
    NormalizedAgree(files, LEGACY, MISSPELLED);
    NormalizedAgree(files, LEGACY, TARGET);
    NormalizedAgree(files, MISSPELLED, TARGET);
    NormalizedHolds(files, LEGACY);
    NormalizedHolds(files, MISSPELLED);
    NormalizedHolds(files, TARGET);
    DecideExactly(Normalized(files, LEGACY), Normalized(files, MISSPELLED), Normalized(files, TARGET));
  }

  ghost predicate IsDecision(files: map<string, string>, d: Decision) {
    && d.selected == (if HasRoot(files, LEGACY) then Some(LEGACY)
                      else if HasRoot(files, MISSPELLED) then Some(MISSPELLED) else None)
    && (d.needed <==> d.selected.Some? && !HasRoot(files, TARGET))
  }

  /** An unfit solution id, inventory or snapshot, a repository whose instructions own the
      legacy graph, or conflicting contents. */
  ghost predicate IsRefused(around: Surroundings, files: map<string, string>, sources: seq<Source>, solution: string) {
    IsUnfit(around, files, sources, solution) || !RootsAgree(files)
  }

  ghost predicate IsUnfit(around: Surroundings, files: map<string, string>, sources: seq<Source>, solution: string) {
    || !around.portable(solution)
    || !InventoryFits(around, files, sources)
    || !around.snapshots(files, solution)
    || IsLegacyOwned(around)
  }

  /** The document's file has that many characters, and the loader reads it if they fit. */
  ghost predicate LoadsBySize(h: Hexes, d: Document, core: string, size: nat) {
    |DocumentText(h, d)| == size && (Loads(core, h, d) <==> size <= BUDGET)
  }

  /** The checks before the discovery. */
  method Check(around: Surroundings, files: map<string, string>, solution: string, sources: seq<Source>)
    returns (ok: bool)
    requires Inventories(files, sources)
    ensures ok <==> !IsUnfit(around, files, sources, solution)
  {
    if !around.portable(solution) { return false; }
    var distinct := CheckAliases(around, sources);
    AliasesAreFiles(around, files, sources);
    if |files| > MAX_FILES || TotalBytes(sources) > MAX_BYTES || !distinct { return false; }
    if !around.snapshots(files, solution) { return false; }
    ok := !(around.instructions.Some? && Mentions(around.instructions.value, MARKER));
  }

  /** Check, decide from the disk, then describe, budget and seal. */
  method Plan(
    around: Surroundings, ghost h: Hexes, files: map<string, string>, core: string, solution: string, root: string,
    now: nat) returns (d: Option<Document>, sources: seq<Source>)
    requires AreHexes(h)
    ensures Inventories(files, sources)
    ensures d.None? <==> IsRefused(around, files, sources, solution)
    // What the loader recomputes from a planned document agrees with it, so it reads the
    // document exactly when the file is not too long; and how long the file gets follows
    // from the inventory.
    ensures d.Some? ==> Accepts(core, d.value) && d.value.body.sources == sources
    ensures d.Some? ==> d.value.body.solution == solution && d.value.body.root == root && d.value.body.created == now
    ensures d.Some? ==>
              IsDecision(files, Decision(d.value.body.selected, d.value.body.needed)) && Discovered(files).Some?
    ensures d.Some? ==> LoadsBySize(h, d.value, core, PlanSize(core, solution, root, now, sources, Discovered(files).value))
  {
    var listing := ListSources(files);
    sources := listing;
    var fit := Check(around, files, solution, listing);
    if !fit { return None, sources; }
    var decision := Decide(Normalized(files, LEGACY), Normalized(files, MISSPELLED), Normalized(files, TARGET));
    DiscoveredExactly(files);
    if decision.None? { return None, sources; }
    d := Some(Sealed(files, core, solution, root, now, listing, decision.value));
    SealedIsAccepted(files, core, solution, root, now, listing, decision.value);
    SealedLoads(h, files, core, solution, root, now, listing, decision.value);
  }

  /** The document of an inventory and its decision. */
  function Sealed(
    files: map<string, string>, core: string, solution: string, root: string, now: nat, sources: seq<Source>,
    decision: Decision): Document
    requires Inventories(files, sources) && TotalBytes(sources) <= MAX_BYTES
    requires Discovered(files) == Some(decision)
  {
    var draft := Body(Expected(core), solution, root, now, 3600, sources, decision.selected, decision.needed, [], 0, None);
    PlannedBodyIsComplete(files, draft);
    var engine := MakeEngine(draft);
    var body := draft.(engine := engine, changes := DescribeChanges(sources, engine.value.writes).value,
                       requiredBytes := RequiredBytes(draft).value);
    Document(body, body, body)
  }

  /** Describing the draft does not change what the engine makes of it. */
  lemma SealingKeepsEngine(draft: Body, changes: seq<Change>, bytes: nat, engine: Option<Engine>)
    ensures var body := draft.(engine := engine, changes := changes, requiredBytes := bytes);
            MakeEngine(body) == MakeEngine(draft) && RequiredBytes(body) == RequiredBytes(draft)
  {
  }

  lemma SealedIsAccepted(
    files: map<string, string>, core: string, solution: string, root: string, now: nat, sources: seq<Source>,
    decision: Decision)
    requires Inventories(files, sources) && TotalBytes(sources) <= MAX_BYTES
    requires Discovered(files) == Some(decision)
    ensures Accepts(core, Sealed(files, core, solution, root, now, sources, decision))
  {
    var draft := Body(Expected(core), solution, root, now, 3600, sources, decision.selected, decision.needed, [], 0, None);
    PlannedBodyIsComplete(files, draft);
    var body := Sealed(files, core, solution, root, now, sources, decision).body;
    SealingKeepsEngine(draft, body.changes, body.requiredBytes, body.engine);
  }

  lemma SealedLoads(
    h: Hexes, files: map<string, string>, core: string, solution: string, root: string, now: nat, sources: seq<Source>,
    decision: Decision)
    requires AreHexes(h) && Inventories(files, sources) && TotalBytes(sources) <= MAX_BYTES
    requires Discovered(files) == Some(decision)
    ensures LoadsBySize(h, Sealed(files, core, solution, root, now, sources, decision), core,
                        PlanSize(core, solution, root, now, sources, decision))
  {
    SealedIsAccepted(files, core, solution, root, now, sources, decision);
    AcceptedLength(core, h, Sealed(files, core, solution, root, now, sources, decision));
  }

  // Which inventories give a plan that loads: an upper bound.

  function QuotedTotal(sources: seq<Source>): nat {
    if sources == [] then 0 else QuotedTotal(sources[..|sources| - 1]) + |Quote(sources[|sources| - 1].path)|
  }

  lemma {:induction false} DigitsAtMost(n: nat, k: nat)
    requires k > 0 && n < Power(k)
    ensures |Dec(n)| <= k
  {
    if n >= 10 { DigitsAtMost(n / 10, k - 1); }
  }

  /** Ten to that power. */
  function Power(k: nat): nat {
    if k == 0 then 1 else 10 * Power(k - 1)
  }

  lemma SizeIsShort(n: nat)
    requires n <= 2 * MAX_BYTES
    ensures |Dec(n)| <= 9
  {
    assert Power(3) == 1000;
    assert Power(6) == 1000000;
    assert Power(9) == 1000000000;
    DigitsAtMost(n, 9);
  }

  lemma {:induction false} EscapeAppend(a: string, b: string)
    ensures Escape(a + b) == Escape(a) + Escape(b)
  {
    if a == "" {
      assert a + b == b;
    } else {
      assert (a + b)[0] == a[0] && (a + b)[1..] == a[1..] + b;
      EscapeAppend(a[1..], b);
    }
  }

  lemma StartShortens(target: string, root: string, rest: string)
    requires |Escape(target)| <= |Escape(root)|
    ensures |Quote(target + rest)| <= |Quote(root + rest)|
  {
    EscapeAppend(target, rest);
    EscapeAppend(root, rest);
  }

  lemma MovingShortens(target: string, root: string, suffix: string)
    requires IsPlain(target) && |target| <= |root|
    ensures |Quote(Under(target, suffix))| <= |Quote(Under(root, suffix))|
  {
    var rest := "/" + suffix;
    assert Under(target, suffix) == target + rest && Under(root, suffix) == root + rest;
    assert |Escape(target)| <= |Escape(root)| by {
      PlainQuote(target);
      QuoteIsLonger(root);
    }
    StartShortens(target, root, rest);
  }

  lemma {:induction false} SourcesAtMost(sources: seq<Source>)
    requires TotalBytes(sources) <= MAX_BYTES
    ensures SourcesTotal(sources) <= 141 * |sources| + QuotedTotal(sources)
  {
    if sources != [] {
      SourcesAtMost(sources[..|sources| - 1]);
      SizeIsShort(sources[|sources| - 1].size);
    }
  }

  lemma {:induction false} CopiesAtMost(sources: seq<Source>, root: string)
    requires IsPlain(TARGET) && |TARGET| <= |root|
    ensures CopiesTotal(sources, root) <= 196 * |sources| + 2 * QuotedTotal(sources)
    ensures CopiesCount(sources, root) <= |sources|
  {
    if sources != [] {
      var s := sources[|sources| - 1];
      CopiesAtMost(sources[..|sources| - 1], root);
      if Within(s.path, root) {
        SuffixGoesBack(s.path, root);
        MovingShortens(TARGET, root, Suffix(s.path, root));
      }
    }
  }

  lemma RootIsPlain(root: string)
    requires root == LEGACY || root == MISSPELLED
    ensures |Quote(root)| == 43
  {
    assert |root| == 41 && IsPlain(root);
    PlainQuote(root);
  }

  lemma TargetIsShort(target: string, root: string)
    requires target == TARGET && (root == LEGACY || root == MISSPELLED)
    ensures IsPlain(target) && |target| <= |root|
  {
  }

  lemma FixedAtMost(
    core: string, solution: string, root: string, now: nat, required: nat, decision: Decision)
    requires |Dec(required)| <= 9 && (decision.selected.Some? ==> |Quote(decision.selected.value)| == 43)
    ensures FixedSize(core, solution, root, now, required, decision) <=
            |core| + |Quote(solution)| + |Quote(root)| + |Dec(now)| + 613
  {
  }

  ghost predicate SelectsARoot(decision: Decision) {
    decision.selected.Some? ==> decision.selected.value == LEGACY || decision.selected.value == MISSPELLED
  }

  lemma RequiredIsShort(sources: seq<Source>, decision: Decision)
    requires TotalBytes(sources) <= MAX_BYTES
    ensures |Dec(RequiredFor(sources, decision))| <= 9
  {
    if decision.selected.Some? { BudgetBoundsCopies(sources, decision.selected.value); }
    SizeIsShort(RequiredFor(sources, decision));
  }

  lemma CopiesForAtMost(sources: seq<Source>, decision: Decision)
    requires SelectsARoot(decision)
    ensures var (count, total) := CopiesFor(sources, decision);
            count <= |sources| && total <= 196 * |sources| + 2 * QuotedTotal(sources)
  {
    if decision.selected.Some? {
      TargetIsShort(TARGET, decision.selected.value);
      CopiesAtMost(sources, decision.selected.value);
    }
  }

  lemma DecidedFixedAtMost(
    core: string, solution: string, root: string, now: nat, sources: seq<Source>, decision: Decision)
    requires TotalBytes(sources) <= MAX_BYTES && SelectsARoot(decision)
    ensures FixedSize(core, solution, root, now, RequiredFor(sources, decision), decision) <=
            |core| + |Quote(solution)| + |Quote(root)| + |Dec(now)| + 613
  {
    RequiredIsShort(sources, decision);
    if decision.selected.Some? { RootIsPlain(decision.selected.value); }
    FixedAtMost(core, solution, root, now, RequiredFor(sources, decision), decision);
  }

  lemma BlockAtMost(count: nat, total: nat, most: nat, n: nat)
    requires count <= n && total <= most
    ensures BlockSize(count, total, 1) <= most + 2 * n + 4
  {
  }

  lemma DecisionAtMost(
    core: string, solution: string, root: string, now: nat, sources: seq<Source>, decision: Decision)
    requires TotalBytes(sources) <= MAX_BYTES && SelectsARoot(decision)
    ensures PlanSize(core, solution, root, now, sources, decision) <=
            341 * |sources| + 3 * QuotedTotal(sources)
            + |core| + |Quote(solution)| + |Quote(root)| + |Dec(now)| + 621
  {
    var (count, total) := CopiesFor(sources, decision);
    CopiesForAtMost(sources, decision);
    BlockAtMost(count, total, 196 * |sources| + 2 * QuotedTotal(sources), |sources|);
    SourcesAtMost(sources);
    BlockAtMost(|sources|, SourcesTotal(sources), 141 * |sources| + QuotedTotal(sources), |sources|);
    DecidedFixedAtMost(core, solution, root, now, sources, decision);
  }

  /** How long a plan gets at most, from the number of files and the length of their paths. */
  lemma PlanSizeAtMost(
    files: map<string, string>, core: string, solution: string, root: string, now: nat, sources: seq<Source>)
    requires Discovered(files).Some? && TotalBytes(sources) <= MAX_BYTES
    ensures PlanSize(core, solution, root, now, sources, Discovered(files).value) <=
            341 * |sources| + 3 * QuotedTotal(sources)
            + |core| + |Quote(solution)| + |Quote(root)| + |Dec(now)| + 621
  {
    DecisionAtMost(core, solution, root, now, sources, Discovered(files).value);
  }

  // Which do not: a lower bound, and an inventory above the budget.

  lemma {:induction false} SourcesAtLeast(sources: seq<Source>)
    requires forall s <- sources :: 239 <= |s.path|
    ensures 374 * |sources| <= SourcesTotal(sources)
  {
    if sources != [] {
      SourcesAtLeast(sources[..|sources| - 1]);
      QuoteIsLonger(sources[|sources| - 1].path);
    }
  }

  lemma CopyAtLeast(path: string, root: string)
    requires 239 <= |path| && Within(path, root) && |root| <= 41 && |TARGET| == 12
    ensures 649 <= ChangeSize(Under(TARGET, Suffix(path, root)), path)
  {
    QuoteIsLonger(path);
    QuoteIsLonger(Under(TARGET, Suffix(path, root)));
  }

  lemma {:induction false} CopiesAtLeast(sources: seq<Source>, root: string)
    requires forall s <- sources :: 239 <= |s.path| && Within(s.path, root)
    requires |root| <= 41 && |TARGET| == 12
    ensures 649 * |sources| <= CopiesTotal(sources, root) && CopiesCount(sources, root) == |sources|
  {
    if sources != [] {
      CopiesAtLeast(sources[..|sources| - 1], root);
      assert sources[|sources| - 1] in sources;
      CopyAtLeast(sources[|sources| - 1].path, root);
    }
  }

  /** A full import of paths of at least 239 characters takes over a kilobyte a file. */
  lemma PlanSizeAtLeast(core: string, solution: string, root: string, now: nat, sources: seq<Source>, selected: string)
    requires sources != [] && forall s <- sources :: 239 <= |s.path| && Within(s.path, selected)
    requires |selected| <= 41 && |TARGET| == 12
    ensures 1024 * |sources| < PlanSize(core, solution, root, now, sources, Decision(Some(selected), true))
  {
    SourcesAtLeast(sources);
    CopiesAtLeast(sources, selected);
  }

  lemma {:induction false} OneSourcePerFile(files: map<string, string>, sources: seq<Source>)
    requires Inventories(files, sources)
    ensures |sources| == |files|
  {
    if sources == [] {
      assert files == map[];
    } else {
      var init, last := sources[..|sources| - 1], sources[|sources| - 1];
      LastIsNew(sources);
      OneSourcePerFile(files - {last.path}, init);
      assert last.path in files;
      assert files == (files - {last.path})[last.path := files[last.path]];
    }
  }

  lemma {:induction false} SmallFilesFit(sources: seq<Source>, most: nat)
    requires most == 16384 && forall s <- sources :: s.size <= most
    ensures TotalBytes(sources) <= 16384 * |sources|
  {
    if sources != [] {
      assert sources[|sources| - 1] in sources;
      SmallFilesFit(sources[..|sources| - 1], most);
    }
  }

  /** Manifest, two shards and the coverage document: the files of a generation. */
  function FileName(k: nat): (s: string)
    ensures |s| >= 13
  {
    if k == 0 then "manifest.json" else if k == 1 then "nodes/000000.json"
    else if k == 2 then "edges/000000.json" else "coverage.json"
  }

  lemma FileNamesDiffer(j: nat, k: nat)
    requires j < 4 && k < 4 && FileName(j) == FileName(k)
    ensures j == k
  {
    assert FileName(0)[0] == 'm' && FileName(1)[0] == 'n' && FileName(2)[0] == 'e' && FileName(3)[0] == 'c';
  }

  function Member(lane: string, names: nat -> string, i: nat): string {
    lane + names(i / 4) + "/" + FileName(i % 4)
  }

  /** That many generations have distinct names, as long as digests. */
  ghost predicate AreNames(names: nat -> string, n: nat) {
    forall g | 0 <= g < n :: |names(g)| == 64 && forall h | 0 <= h < g :: names(h) != names(g)
  }

  lemma PathParts(lane: string, name: string, j: nat, other: string, k: nat)
    requires |name| == |other| && j < 4 && k < 4
    requires lane + name + "/" + FileName(j) == lane + other + "/" + FileName(k)
    ensures name == other && j == k
  {
    var p, q := lane + name + "/" + FileName(j), lane + other + "/" + FileName(k);
    assert p[|lane|..|lane| + |name|] == name && q[|lane|..|lane| + |name|] == other;
    assert p[|lane| + |name| + 1..] == FileName(j) && q[|lane| + |name| + 1..] == FileName(k);
    FileNamesDiffer(j, k);
  }

  lemma MembersDiffer(lane: string, names: nat -> string, n: nat, i: nat, j: nat)
    requires AreNames(names, n) && j < i < 4 * n
    ensures Member(lane, names, i) != Member(lane, names, j)
  {
    if Member(lane, names, i) == Member(lane, names, j) {
      var g, h := i / 4, j / 4;
      assert h <= g < n;
      PathParts(lane, names(g), i % 4, names(h), j % 4);
    }
  }

  /** The first files of generations of four files each in one lane. */
  function Archive(lane: string, names: nat -> string, contents: string -> string, n: nat): map<string, string> {
    if n == 0 then map[]
    else
      var p := Member(lane, names, n - 1);
      Archive(lane, names, contents, n - 1)[p := contents(p)]
  }

  lemma {:induction false} ArchiveHolds(lane: string, names: nat -> string, contents: string -> string, n: nat, m: nat)
    requires AreNames(names, m) && n <= 4 * m
    ensures |Archive(lane, names, contents, n)| == n
    ensures forall p <- Archive(lane, names, contents, n) ::
              Archive(lane, names, contents, n)[p] == contents(p) && exists i :: 0 <= i < n && p == Member(lane, names, i)
  {
    if n > 0 {
      var before, p := Archive(lane, names, contents, n - 1), Member(lane, names, n - 1);
      ArchiveHolds(lane, names, contents, n - 1, m);
      if p in before {
        var i :| 0 <= i < n - 1 && p == Member(lane, names, i);
        MembersDiffer(lane, names, m, n - 1, i);
      }
    }
  }

  lemma RootsAreApart(path: string)
    ensures Within(path, LEGACY) ==> !Within(path, MISSPELLED) && !Within(path, TARGET)
  {
    assert LEGACY[|LEGACY| - 1] != MISSPELLED[|MISSPELLED| - 1];
    assert LEGACY[2] == MISSPELLED[2] == 'g' && TARGET[2] == 'x';
    assert Within(path, LEGACY) ==> path[|LEGACY| - 1] == (LEGACY + "/")[|LEGACY| - 1] && path[2] == (LEGACY + "/")[2];
    assert Within(path, MISSPELLED) ==> path[|LEGACY| - 1] == (MISSPELLED + "/")[|LEGACY| - 1];
    assert Within(path, TARGET) ==> path[2] == (TARGET + "/")[2];
  }

  /** A repository that only has files under the first root imports them. */
  lemma OnlyLegacyIsImported(files: map<string, string>)
    requires files != map[] && forall p <- files :: Within(p, LEGACY)
    ensures Discovered(files) == Some(Decision(Some(LEGACY), true))
  {
    var p :| p in files;
    assert Suffix(p, LEGACY) in Suffixes(files.Keys, LEGACY);
    SuffixGoesBack(p, LEGACY);
    assert Suffix(p, LEGACY) in Normalized(files, LEGACY);
    forall q | q in files
      ensures !Within(q, MISSPELLED) && !Within(q, TARGET)
    {
      RootsAreApart(q);
    }
    assert Normalized(files, MISSPELLED) == map[] && Normalized(files, TARGET) == map[];
  }

  lemma FourDigits(n: nat)
    requires 1000 <= n < 10000
    ensures |Dec(n)| == 4
  {
    assert |Dec(n / 1000)| == 1 && |Dec(n / 100)| == 2 && |Dec(n / 10)| == 3 by {
      assert n / 100 / 10 == n / 1000 && n / 10 / 10 == n / 100;
    }
  }

  /** There are such names, four digits after sixty zeros for one. */
  lemma NumbersAreNames(zeros: string, names: nat -> string)
    requires |zeros| == 60 && forall g: nat :: names(g) == zeros + Dec(1000 + g)
    ensures AreNames(names, 4096)
  {
    forall g: nat | g < 4096
      ensures |names(g)| == 64 && forall h | 0 <= h < g :: names(h) != names(g)
    {
      FourDigits(1000 + g);
      forall h: nat | h < g
        ensures names(h) != names(g)
      {
        assert names(h)[60..] == Dec(1000 + h) && names(g)[60..] == Dec(1000 + g);
        if names(h) == names(g) { DecIsInjective(1000 + h, 1000 + g); }
      }
    }
  }

  lemma ArchiveIsLong(
    lane: string, names: nat -> string, contents: string -> string, n: nat, files: map<string, string>, p: string)
    requires AreNames(names, n) && Within(lane, LEGACY) && 162 <= |lane|
    requires files == Archive(lane, names, contents, 4 * n) && p in files
    ensures Within(p, LEGACY) && 239 <= |p| && files[p] == contents(p)
  {
    ArchiveHolds(lane, names, contents, 4 * n, n);
    var i :| 0 <= i < 4 * n && p == Member(lane, names, i);
    assert p[..|lane|] == lane;
  }

  lemma ArchiveFits(
    lane: string, names: nat -> string, contents: string -> string, n: nat, files: map<string, string>,
    sources: seq<Source>)
    requires n == 4096 && AreNames(names, n) && Within(lane, LEGACY) && 162 <= |lane|
    requires (forall p :: |contents(p)| <= 16384) && files == Archive(lane, names, contents, 4 * n)
    requires Inventories(files, sources)
    ensures |sources| == |files| == MAX_FILES && TotalBytes(sources) <= MAX_BYTES
    ensures forall s <- sources :: 239 <= |s.path| && Within(s.path, LEGACY)
    ensures Discovered(files) == Some(Decision(Some(LEGACY), true))
  {
    ArchiveHolds(lane, names, contents, 4 * n, n);
    forall p | p in files
      ensures Within(p, LEGACY) && 239 <= |p| && files[p] == contents(p)
    {
      ArchiveIsLong(lane, names, contents, n, files, p);
    }
    OneSourcePerFile(files, sources);
    SmallFilesFit(sources, 16384);
    OnlyLegacyIsImported(files);
  }

  lemma FullImportIsTooLong(
    core: string, solution: string, root: string, now: nat, sources: seq<Source>, selected: string, most: nat)
    requires |sources| == most == MAX_FILES && forall s <- sources :: 239 <= |s.path| && Within(s.path, selected)
    requires selected == LEGACY
    ensures PlanSize(core, solution, root, now, sources, Decision(Some(selected), true)) > BUDGET
  {
    PlanSizeAtLeast(core, solution, root, now, sources, selected);
    assert 1024 * most == BUDGET;
  }

  lemma FittingIsPlanned(
    around: Surroundings, files: map<string, string>, sources: seq<Source>, solution: string)
    requires around.portable(solution) && around.snapshots(files, solution) && !IsLegacyOwned(around)
    requires PathsFit(around, files) && |files| <= MAX_FILES && TotalBytes(sources) <= MAX_BYTES
    requires Discovered(files).Some?
    ensures !IsRefused(around, files, sources, solution)
  {
    DiscoveredExactly(files);
  }

  /** A lane under the first root with generations of small files under long names. */
  ghost predicate IsArchive(
    lane: string, names: nat -> string, contents: string -> string, n: nat, files: map<string, string>, sources: seq<Source>)
  {
    && AreNames(names, n) && Within(lane, LEGACY) && 162 <= |lane| && (forall p :: |contents(p)| <= 16384)
    && files == Archive(lane, names, contents, 4 * n) && Inventories(files, sources)
  }

  lemma ArchiveIsPlanned(
    around: Surroundings, lane: string, names: nat -> string, contents: string -> string, n: nat,
    solution: string, files: map<string, string>, sources: seq<Source>)
    requires n == 4096 && IsArchive(lane, names, contents, n, files, sources)
    requires around.portable(solution) && around.snapshots(files, solution) && !IsLegacyOwned(around)
    requires PathsFit(around, files)
    ensures !IsRefused(around, files, sources, solution)
  {
    ArchiveFits(lane, names, contents, n, files, sources);
    FittingIsPlanned(around, files, sources, solution);
  }

  lemma ArchiveIsTooLong(
    lane: string, names: nat -> string, contents: string -> string, n: nat, core: string,
    solution: string, root: string, now: nat, files: map<string, string>, sources: seq<Source>)
    requires n == 4096 && IsArchive(lane, names, contents, n, files, sources)
    ensures Discovered(files).Some? && PlanSize(core, solution, root, now, sources, Discovered(files).value) > BUDGET
  {
    ArchiveFits(lane, names, contents, n, files, sources);
    FullImportIsTooLong(core, solution, root, now, sources, LEGACY, |sources|);
  }

  /** 4096 generations of such an archive are within the budget of the inventory and planned
      wherever their snapshots are valid and their paths portable; the plan is over the
      loader's budget. */
  lemma PlannedAndNotLoaded(
    around: Surroundings, lane: string, names: nat -> string, contents: string -> string, n: nat, core: string,
    solution: string, root: string, now: nat, files: map<string, string>, sources: seq<Source>)
    requires n == 4096 && IsArchive(lane, names, contents, n, files, sources)
    requires around.portable(solution) && around.snapshots(files, solution) && !IsLegacyOwned(around)
    requires PathsFit(around, files)
    ensures !IsRefused(around, files, sources, solution)
    ensures Discovered(files).Some? && PlanSize(core, solution, root, now, sources, Discovered(files).value) > BUDGET
  {
    ArchiveIsPlanned(around, lane, names, contents, n, solution, files, sources);
    ArchiveIsTooLong(lane, names, contents, n, core, solution, root, now, files, sources);
  }
}
