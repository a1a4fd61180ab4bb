# Axiom-graphd: a verified model of publication, reconciliation and delivery

Axiom-graphd turns source files into content-addressed graph generations and publishes
them into a live lane, a checkpoint lane and a solution catalog, with crashes allowed at
any file or store operation. This project models that pipeline in Dafny and proves what
its readers rely on.

Crashes are modelled by scripts: every disk or store operation consumes one event, which
lets it happen, stops the call with an error, or kills the process, with a torn write or a
half-finished removal where the file system allows one. A postcondition about every script
is a statement about every crash and error point. The publication methods go further: each
has a list of its operations, and succeeds, or has moved a pointer, exactly on the scripts
that get past the operations up to that point (`Prelude.Survives`).

How the files fit together, hardest part first:

- **Publication.** `Lanes` (one lane's staging, generations and pointer, and its recovery),
  `Publication` (both lanes, the intent and the publication rows), `Passes` (whole passes and
  histories), `Catalog` (the member vector), `SolutionRuns` (runs over a whole solution) and
  `Exports` (a concurrent reader). `Freshness` joins publication to the analysis below.
- **Reconciliation.** `Reconcile` is the generation-stamped, resumable analysis loop over the
  file and fact tables. `Keys`, `Declarations` and `Analyzers` build the facts of one file and
  discharge the locality assumption the loop makes about analyses.
- **Payload.** `Rows`, `IdentityTuple` (the JSON identity tuple, sections 5 and 7 of RFC 8259),
  `NodeDocuments`, `NodeIdentities`, `EdgeDocuments`, `EdgeIdentities` and `Payload` render the
  tables into documents; `PublishedForest` and `PublishedRows` say what a payload holds.
- **State machines.** `InstanceLock`, `HintInbox` (and `HintText`), `Telemetry`, `Lifecycle`, `Argv`,
  `DaemonArgv`, the incremental index of the benchmark (`IncrementalIndex`, `CallClosure`,
  and `WorkloadText` and `Workload` for the text it reads) and the migration plan
  (`MigrationPlan`, `PlanText` for the file it is written to, `MigrationPlanner`,
  `MigrationApply`).
- **Foundations.** `Prelude` (scripts and outcomes), `Text` and `Sorting`.

Digests are taken to be free of collisions. Where a document is only ever named by its
SHA-256 the model names it by the document itself; elsewhere a digest is an injective
function, stated as a hypothesis of the lemmas that need it.

## Where the code and its own text disagree

- Recovery is described as completing or discarding a crashed publication
  (`crates/axiom-graphd/src/serve.rs:719-721`). For a lane without a pointer it can instead
  install a sealed `pending-…` directory under that name and point at the manifest's digest,
  which names nothing (`crates/graph-export/src/recovery.rs:177-193`). `Lanes.TrapExactly` gives
  the exact condition, `Passes.RunFromEmpty` says nothing else dangles a pointer, and
  `Passes.DanglingPointer` is a history of two passes whose second one succeeds.
- The lanes "can never disagree" (`crates/axiom-graphd/src/serve.rs:1075-1078`): a publish that
  stops between the two renames leaves (new, old), and only such a one does
  (`Publication.Publish`). No later pass without new work repairs it (`Passes.SplitLanes`).
- A successful pass need not publish what the store holds. A pass without new work and with
  both pointers in place publishes nothing, so a crash between acknowledgement and publication,
  or a deletion whose pass died after its inventory, stays unpublished.
  `Freshness.ServeProject` says exactly when a pass ends fresh;
  `Freshness.AcknowledgedUnpublished` and `Freshness.DeletionGoesUnpublished` are the histories
  that do not.
- If a pass dies between committing its intent and bumping the event sequence, the next pass
  reuses the outbox row, which keeps naming the older generation (`Publication.StaleIntent`).
- The comment on node kinds says the analyzer's own kind is kept in the attributes
  (`crates/axiom-graphd/src/payload.rs:101-104`); the stored attributes are always empty
  (`NodeIdentities.KindIsNotKept`).
- A hint's job is enqueued with a kind no pass completes, and a pending job of the same scope
  makes the next insert a no-op. So one job row per hint holds only for the first hint of a
  project, until an operator cancels that job, and a replay after a lost removal bumps the
  event sequence again exactly then (`HintInbox.ReplayIffRow`, `HintInbox.OneRowPerProject`,
  `HintInbox.CancellationReopens`).
- The rate limit is documented as a sliding window; it is fixed, and the tight bound over any
  interval of its length is one record under twice the per-window maximum
  (`Telemetry.IntervalBound`, `Telemetry.BoundIsMet`).
- The instance lock admits two owners when acquires overlap, on a stale claim and even after a
  clean release (`InstanceLock.OverlapBreaksTheLock`, `InstanceLock.OverlapBreaksCleanRelease`).
- The planner writes plans the loader refuses: it has no limit on the file it writes
  (`crates/axiom/src/migration_runtime.rs:456-460`), and the loader reads none over 16 MiB
  (`crates/axiom/src/migration_runtime.rs:588`). `MigrationPlanner.Plan` says exactly which,
  `MigrationPlanner.PlanSizeAtMost` bounds the length before planning, and
  `MigrationPlanner.PlannedAndNotLoaded` is an inventory within its budgets that is planned and
  cannot be applied.
- A change hint is persisted as "a bounded pending intent"
  (`crates/axiom-graphd/src/hint_runtime.rs:71`). The bound is on the caller's document; the
  intent is longer, and the ingest refuses one over the same limit
  (`crates/axiom-graphd/src/hint_runtime.rs:194-196`). `HintText.AcceptedAndUnreadable` says for
  which documents; such an intent stops every later ingest (`HintInbox.LongIntentBlocks`).

## Model

| member | source | states |
|---|---|---|
| `Lanes.Lane.WriteFile` | crates/graph-export/src/staging.rs:167-190 | a shard or manifest write may be cut before or after truncation; only the named staging directory changes |
| `Lanes.Lane.RemoveTree` | crates/axiom-graphd/src/serve.rs:1241-1246 | a directory removal may stop anywhere; what is left is a subset of the files, never altered bytes |
| `Lanes.Lane.ReplacePointer` | crates/graph-export/src/pointer.rs:174-203 | the pointer moves atomically, and only to the manifest asked for |
| `Lanes.Lane.StageShards` | crates/axiom-graphd/src/serve.rs:1192-1213 | exactly the non-empty roles and the coverage shard are written, each with its own bytes, under the pending name |
| `Lanes.Lane.SealPending` | crates/axiom-graphd/src/serve.rs:1190-1218 | the manifest is derived from the staged bytes; a sealed pending directory is complete for it; nothing else in staging changes |
| `Lanes.Lane.NameByDigest` | crates/axiom-graphd/src/serve.rs:1219-1232 | after sealing, the digest-named staging directory holds the generation; a duplicate is dropped, partially or not |
| `Lanes.Lane.StageGeneration` | crates/axiom-graphd/src/serve.rs:1184-1234 | at every crash point digest-named staging directories are complete, or their generation is already installed; it succeeds exactly on the scripts that get past its operations, and dying before the rename leaves a sealed pending directory; on success the directory, or the installed one, carries each role of the payload in the shard of that role |
| `Lanes.CompleteCarries` | crates/axiom-graphd/src/serve.rs:1190-1218 | a complete directory of a payload holds the node bytes in the node shard, the edge bytes in the edge shard and the coverage bytes in the coverage shard, and its manifest lists a role exactly when it is not empty |
| `Lanes.Lane.InstallGeneration` | crates/axiom-graphd/src/serve.rs:1236-1260 | an installed generation is never rewritten; on success the digest names a complete installed generation |
| `Lanes.Lane.PublishLane` | crates/axiom-graphd/src/serve.rs:1156-1175 | the pointer moves last and only to an installed generation, and has moved exactly when the script gets past its rename |
| `Lanes.FirstSealedIsDigestIfAny` | crates/graph-export/src/recovery.rs:116-121 | in name order a sealed digest-named directory is found before any pending one |
| `Lanes.Lane.InstallStaged` | crates/graph-export/src/recovery.rs:177-193 | recovery moves a directory under its own name but points at the digest of its manifest |
| `Lanes.Lane.Resume` | crates/graph-export/src/recovery.rs:174-203 | recovery takes the planned action and leaves one of exactly the states that action allows; it keeps installed generations and existing pointers, and leaves a resolving pointer unless the trap holds, in which case its success leaves a dangling one; with nothing sealed and no pointer one leftover is discarded |
| `Lanes.TrapExactly` | crates/graph-export/src/recovery.rs:98-137 | recovery can dangle the pointer if and only if there is no pointer, no sealed digest-named staging directory, and a sealed pending directory whose content is not installed |
| `Lanes.PendingIsFree` | crates/axiom-graphd/src/serve.rs:1214-1218 | work under a pending name cannot break what digest-named directories guarantee |
| `Publication.Store.CommitIntent` | crates/graph-store/src/outbox.rs:176-240 | the intent row is durable in one transaction; a new one is unpublished and carries the revision, a row with the same key is kept as it was |
| `Publication.Store.RecordLane` | crates/axiom-graphd/src/serve.rs:1104-1124 | recording a lane adds one publication row, once |
| `Publication.SealBoth` | crates/axiom-graphd/src/serve.rs:1046-1087 | until both lanes are sealed no pointer and no installed generation changes; the phase reached, the outbox and the event sequence are functions of the script, and the intent precedes the second seal |
| `Publication.MoveBoth` | crates/axiom-graphd/src/serve.rs:1089-1101 | the live pointer moves before the checkpoint pointer: (old, old), (new, old) or (new, new), each on exactly known scripts |
| `Publication.RecordBoth` | crates/axiom-graphd/src/serve.rs:1103-1125 | with the generation installed in both lanes, publication rows keep naming installed generations only; the intent is marked published |
| `Publication.MoveAndRecord` | crates/axiom-graphd/src/serve.rs:1089-1134 | past the barrier pointers only move to installed generations, live first, and rows are recorded only after both moved |
| `Publication.Publish` | crates/axiom-graphd/src/serve.rs:1037-1137 | one publish over every crash and error point: (old, new) is impossible; lanes that agreed disagree if and only if it stops between the two renames; sealing failures leave both pointers old; past the barrier the intent names this generation if and only if its key was free or named it already; recorded rows are installed; on success the installed directory of either lane carries the payload role by role |
| `Publication.StaleIntent` | crates/graph-store/src/outbox.rs:176-240 | a publication dying between its intent and the sequence bump leaves its key to the next one: the row ends published, naming the older generation, while both pointers name the newer one |
| `Passes.Recover` | crates/axiom-graphd/src/serve.rs:719-728 | recovering one lane keeps every installed generation and every resolving pointer outside the trap, and a completed recovery leaves exactly an adopted staging directory or the lane as it was |
| `Passes.PublishIfNeeded` | crates/axiom-graphd/src/serve.rs:858-883 | publishing is skipped, and the lanes left alone, exactly without new work and with both pointers present; otherwise both pointers follow from the script |
| `Passes.Pass` | crates/axiom-graphd/src/serve.rs:696-884 | a whole pass keeps both lanes sound; new work or a pointer missing after recovery reaches both lanes; otherwise the lanes are left as recovery made them; nothing is published exactly for a payload without nodes and edges where there was no live pointer |
| `Passes.Run` | crates/axiom-graphd/src/serve.rs:571-670 | over any history of interrupted passes, with the state before each pass recorded, installed generations never change and pointers keep resolving unless some recorded state is the recovery trap; each recorded state follows from the one before by what that pass may do to pointers, installed generations and staging |
| `Passes.RunFromEmpty` | crates/axiom-graphd/src/serve.rs:571-670 | from two new lanes every pointer is absent or resolves after any history, unless a pass began in the trap; a dangling pointer always comes with a directory installed under a pending name, and every manifest staged before a pass was sealed, under that name, by an earlier pass of the history |
| `Passes.StartsAreAuthored` | crates/axiom-graphd/src/serve.rs:571-670 | in a run that begins with nothing staged, what recovery finds sealed was sealed by an earlier pass under its own names |
| `Passes.SplitLanes` | crates/axiom-graphd/src/serve.rs:1089-1101 | from any two lanes that agree a pass dies between the renames, and no later history without new work brings the lanes together |
| `Passes.DanglingPointer` | crates/graph-export/src/recovery.rs:177-193 | two passes over new lanes, the second one successful, that end with a checkpoint pointer to nothing |
| `Freshness.Reanalyse` | crates/axiom-graphd/src/serve.rs:733-814 | the analysis half leaves cold facts, and unchanged ones from a clean store without new work |
| `Freshness.ServeProject` | crates/axiom-graphd/src/serve.rs:696-884 | a successful pass leaves the tables a cold analysis; it ends fresh if it had new work or found a pointer missing, and with both pointers in place if and only if it had new work or they already named what the tables now publish |
| `Freshness.Serve` | crates/axiom-graphd/src/serve.rs:733-884 | after recovery: how far the analysis gets and what the publication half does to both pointers follow from the two scripts |
| `Freshness.AcknowledgedUnpublished` | crates/axiom-graphd/src/serve.rs:858-883 | dying between the last acknowledgement and the first publication step, then a successful pass without work: fresh if and only if the publication is the same |
| `Freshness.DeletionGoesUnpublished` | crates/axiom-graphd/src/serve.rs:858-866 | dying right after an inventory that tombstones rows, then a successful pass: the facts are gone from the store and the lanes still publish them, unless the publication is the same |
| `Catalogs.CollectMembers` | crates/axiom-graphd/src/serve.rs:955-1010 | the member vector is collected if and only if every registered project has a verified generation |
| `Catalogs.BuildCatalog` | crates/axiom-graphd/src/serve.rs:928-1023 | the built vector pins exactly one member per registered project, each installed, of its project, profile and fingerprint; it is complete only if all are; it is built if and only if every project has such a member |
| `Catalogs.InstalledIsVerified` | crates/axiom-graphd/src/serve.rs:979-987 | in a sound lane the member check accepts exactly the installed generations of the project, solution and profile |
| `Catalogs.PublishDocument` | crates/axiom-graphd/src/catalog_runtime.rs:62-88 | the catalog pointer moves last, to an installed generation, at every crash or error point |
| `Catalogs.ClosedUnderGrowth` | crates/axiom-graphd/src/catalog_runtime.rs:185-207 | pins stay installed while project lanes only accrue generations |
| `Catalogs.VerifiedMembersAreInstalled` | crates/axiom-graphd/src/catalog_runtime.rs:185-207 | members that pass the manifest check are pins of installed generations |
| `Catalogs.PublishVector` | crates/axiom-graphd/src/catalog_runtime.rs:62-88 | publishing a vector keeps every retained catalog free of dangling pins |
| `Catalogs.PublishSolutionCatalog` | crates/axiom-graphd/src/serve.rs:920-1023 | after a full or scoped build either the old catalog stays current or a complete new vector replaces it; it is refused only for a missing member, so a scoped build publishes the full vector |
| `SolutionRuns.PassStep` | crates/axiom-graphd/src/serve.rs:608-643 | a pass over one project leaves every other lane and every retained catalog sound |
| `SolutionRuns.CatalogStep` | crates/axiom-graphd/src/serve.rs:644-648 | publishing the catalog leaves every project lane as it was |
| `SolutionRuns.SolutionRun` | crates/axiom-graphd/src/serve.rs:571-651 | in every reachable state each retained catalog pins one installed generation per registered project and the catalog pointer names one of them |
| `SolutionRuns.ScopedPass` | crates/axiom-graphd/src/serve.rs:608-648 | a pass over one project, then the catalog: the new vector pins the generation just published and what was current for every other project; with nothing in the way it gets there |
| `Exports.SelectedCatalog` | crates/axiom-graphd/src/workflow.rs:47-94 | the selected catalog matches the requested vector; a readable first choice that matches is taken; every refusal has its reason, and the no-longer-retained one means no readable retained catalog matched when the search began |
| `Exports.SearchRetained` | crates/axiom-graphd/src/workflow.rs:72-93 | the directory search misses no matching catalog within its budget, while publishers run |
| `Exports.LoadPinned` | crates/graph-export/src/validate.rs:88-100 | a pinned generation loads if and only if its manifest and every shard have the recorded bytes |
| `Exports.Export` | crates/axiom-graphd/src/workflow.rs:96-325 | a successful export is the restriction of one retained catalog, holds every requested pair, and is faithful to the installed generations, under any interleaving with publishers; each member has exactly the selected records of its shards, as often as they hold them; with nothing in its way an export succeeds |
| `Exports.ProjectionIsCutDown` | crates/axiom-graphd/src/workflow.rs:288-309 | for every command the projection keeps, with multiplicity, the selected nodes, and the edges with both endpoints selected and with a selected id where ids are asked for |
| `Exports.RetainKeepsExactly` | crates/axiom-graphd/src/workflow.rs:288-309 | filtering keeps every selected record with its multiplicity and no other |
| `Exports.ProjectionIsInduced` | crates/axiom-graphd/src/workflow.rs:288-305 | a node selection keeps exactly the edges with both endpoints selected |
| `Exports.NoDanglingEndpoint` | crates/axiom-graphd/src/workflow.rs:288-325 | an artifact cut to selected nodes has both endpoints of every edge |
| `Reconcile.ProjectStore.ApplyInventory` | crates/graph-store/src/files.rs:123-300 | one transaction stamps exactly the rows that differ with a generation above all others, tombstones the unlisted ones, and counts them |
| `Reconcile.ProjectStore.StampRows` | crates/graph-store/src/files.rs:214-292 | the loop stamps each row once and the queued count is the number of rows that changed |
| `Reconcile.ProjectStore.ReplaceFileFacts` | crates/graph-store/src/graph_rows.rs:266-405 | one transaction replaces what a file owns, cascades and unresolves edges of other files, or changes nothing |
| `Reconcile.ProjectStore.AckGeneration` | crates/graph-store/src/files.rs:311-359 | an acknowledgement applies only to the generation that was analysed |
| `Reconcile.ProjectStore.ForceFull` | crates/axiom-graphd/src/serve.rs:622-625 | the forced rebuild makes every observed row dirty and observes nothing new |
| `Reconcile.AdvancingKeeps` | crates/graph-store/src/files.rs:214-292 | an inventory never leaves a clean row with facts of other bytes |
| `Reconcile.ForcingKeeps` | crates/axiom-graphd/src/serve.rs:622-625 | neither does the forced rebuild, which dirties every observed row |
| `Reconcile.ReplacingKeeps` | crates/axiom-graphd/src/serve.rs:792-813 | replacing a dirty file touches no other file, so a crash before the acknowledgement loses nothing |
| `Reconcile.AckingKeeps` | crates/graph-store/src/files.rs:311-359 | acknowledging facts of the observed bytes cleans the row and keeps the invariant |
| `Reconcile.AnalysesDoNotInterfere` | crates/graph-store/src/graph_rows.rs:320-345 | removing the nodes of one file leaves the rows of every other analysed file unchanged |
| `Reconcile.QueueAdvances` | crates/axiom-graphd/src/serve.rs:1262-1284 | acknowledging the head leaves the rest of the dirty list exact |
| `Reconcile.ProjectStore.AnalyzeFile` | crates/axiom-graphd/src/serve.rs:757-813 | it succeeds if and only if the bytes are still the observed ones, analyse and are accepted, and both transactions happen |
| `Reconcile.ProjectStore.AnalyzeDirty` | crates/axiom-graphd/src/serve.rs:754-814 | after the loop every row is clean and the count is the number of queued source files |
| `Reconcile.ProjectStore.TakeInventory` | crates/axiom-graphd/src/serve.rs:733-754 | the rows observe exactly the walk, and known digests where an entry could not be read |
| `Reconcile.WorkIsNeeded` | crates/axiom-graphd/src/serve.rs:862 | the test for new work: a row the inventory changes, or a dirty source file; a dirty tombstone is not |
| `Reconcile.ProjectStore.ReconcileProject` | crates/axiom-graphd/src/serve.rs:733-862 | interrupted anywhere the tables stay consistent; completed, every row is clean and every observed file of a pinned language has the declarations of its observed bytes, every other path nothing; over a quiet tree it does complete; an applied inventory stays applied |
| `Reconcile.CleanIsCold` | crates/axiom-graphd/src/serve.rs:754-814 | a clean table is the cold analysis of what it observes |
| `Reconcile.ProjectStore.Resume` | crates/axiom-graphd/src/serve.rs:571-651 | any number of interrupted and forced attempts, ended by one that completes, leaves cold facts: the declarations of the observed bytes |
| `Reconcile.ColdRowsAreUnique` | crates/axiom-graphd/src/serve.rs:816-818 | two cold tables of one observation hold the same node and edge rows |
| `Reconcile.ResumedEqualsCold` | crates/axiom-graphd/src/serve.rs:571-651 | the rows a publication is rendered from equal those of an empty database after one pass |
| `Reconcile.NoWorkNoChange` | crates/axiom-graphd/src/serve.rs:858-866 | from a clean table, a pass without new work stores what was stored |
| `Keys.DeclarationKeyIdentifies` | crates/graph-analyze/src/identity.rs:79-86 | two base keys are equal exactly when file, kind and path are |
| `Keys.CanonicalIsInjective` | crates/graph-analyze/src/identity.rs:47-58 | length-delimited tuples have no concatenation ambiguity |
| `Keys.KeysOfAFileAreDistinct` | crates/graph-analyze/src/identity.rs:145-166 | declaration keys of one file are pairwise distinct, repeated declarations included |
| `Keys.KeysOfFilesAreApart` | crates/graph-analyze/src/identity.rs:120-166 | keys of different files are distinct |
| `Declarations.FactsFromDeclarations` | crates/axiom-graphd/src/serve.rs:1547-1628 | the loops write one node per declaration and one edge per enclosing declaration found |
| `Declarations.FactsAreSelfContained` | crates/axiom-graphd/src/serve.rs:1598-1628 | every stored edge connects two nodes of the same file |
| `Declarations.ContainmentIsAcyclic` | crates/axiom-graphd/src/serve.rs:1598-1636 | containment has no cycle, whatever separators the names hold |
| `Declarations.ContainerIsUnique` | crates/axiom-graphd/src/serve.rs:1598-1628 | a declaration has at most one container |
| `Declarations.EdgesDescendOneLevel` | crates/axiom-graphd/src/serve.rs:1598-1636 | with clean names an edge is stored between two declarations exactly when the first is the last of its scope and one semantic path extends the other by one |
| `Declarations.LinkedIffEnclosed` | crates/axiom-graphd/src/serve.rs:1598-1636 | whatever the names, an edge is stored exactly from the last declaration of a scope key to a declaration that names the key as its parent |
| `Declarations.AnonymousScopeCapturesChildren` | crates/axiom-graphd/src/serve.rs:1598-1636 | in a file with a top-level scope, its member and a namesake inside an anonymous scope, the member is contained in the namesake and not in its own scope |
| `Declarations.QualifiedName` | crates/axiom-graphd/src/serve.rs:1634-1640 | a qualified name lists the scopes in order and its last component is the name |
| `Declarations.PortablePath` | crates/axiom-graphd/src/serve.rs:1448-1450 | a portable path differs from the path in its separators alone |
| `Declarations.FactsAreDisjoint` | crates/axiom-graphd/src/serve.rs:1605 | files with disjoint keys have disjoint nodes and edges |
| `Declarations.EdgeKeysDoNotRepeat` | crates/graph-store/src/graph_rows.rs:439-447 | no edge id repeats, so the store never refuses a file for it |
| `Analyzers.DeclaredAreDistinct` | crates/axiom-graphd/src/serve.rs:1474-1536 | every file the analyzers accept has distinct keys |
| `Analyzers.AnalysesAreLocal` | crates/axiom-graphd/src/serve.rs:1474-1536 | analyses stay inside their file and no two files claim one key, which is what the reconcile loop assumes |
| `Analyzers.StoreIsAcyclic` | crates/axiom-graphd/src/serve.rs:816-818 | containment is acyclic in every store the reconcile loop can leave |
| `Analyzers.StoreHasOneParent` | crates/axiom-graphd/src/serve.rs:816-818 | in every such store a node has at most one container |
| `Analyzers.SourcePathJoins` | crates/axiom-graphd/src/serve.rs:790-797 | a project-relative path is joined to its prefix with one slash, whether or not the prefix ends in some |
| `Analyzers.SourceFactsAreDeclarations` | crates/axiom-graphd/src/serve.rs:1474-1628 | after a completed pass the facts of a source file are its scan: one node per declaration with its kind, names, language, file and lines, and containments with their evidence |
| `Analyzers.AcceptedExactly` | crates/graph-store/src/graph_rows.rs:400-470 | the store takes what an analyzer produces exactly when the file has at most 20000 declarations and none is nameless at the top level |
| `IdentityTuple.RoundTrip` | crates/axiom-graphd/src/payload.rs:137-141 | a JSON parser undoes the identity encoding for every list of strings |
| `IdentityTuple.EncodeIsInjective` | crates/axiom-graphd/src/payload.rs:137-141 | distinct identity tuples have distinct bytes |
| `NodeDocuments.IndexIsRank` | crates/axiom-graphd/src/payload.rs:280-303 | a position in the sorted group is the number of members before it |
| `NodeDocuments.RenderGroup` | crates/axiom-graphd/src/payload.rs:280-322 | one group is numbered by rank and identified by its numbered name |
| `NodeDocuments.RenderNodes` | crates/axiom-graphd/src/payload.rs:265-323 | every publishable node is published once, under an id that is a function of the set of rows, groups and members in one order |
| `NodeDocuments.OrderDoesNotMatter` | crates/axiom-graphd/src/payload.rs:265-323 | any order of the rows gives the same id map |
| `NodeDocuments.EmissionIsUnique` | crates/axiom-graphd/src/payload.rs:263-323 | a set of rows has one order of emission |
| `NodeIdentities.DistinctIffNoImitation` | crates/axiom-graphd/src/payload.rs:294-305 | published ids are pairwise distinct if and only if no stored name reads as a numbered copy of another in its language and kind |
| `NodeIdentities.NoSeparatorNoCollision` | crates/axiom-graphd/src/payload.rs:89-90 | names without the separator never collide |
| `NodeIdentities.NumberingFollowsSource` | crates/axiom-graphd/src/payload.rs:280-289 | copies of a name are numbered by file, then line, then key |
| `NodeIdentities.OtherGroupsDoNotMatter` | crates/axiom-graphd/src/payload.rs:265-305 | rows of other groups leave a published id unchanged |
| `NodeIdentities.RenderingIsDeterministic` | crates/axiom-graphd/src/payload.rs:323 | two renderings of one set of rows are the same documents in the same order, colliding ids included; the ids strictly ascend when they are distinct |
| `NodeIdentities.KindIsNotKept` | crates/axiom-graphd/src/payload.rs:101-117 | the declared kind is not recoverable: a struct and a class declared alike publish the same document, with empty attributes |
| `EdgeDocuments.EvidenceKeyIgnoresOrder` | crates/axiom-graphd/src/payload.rs:176-198 | reordering the evidence gives the same key |
| `EdgeDocuments.EdgeIdIgnoresEvidenceOrder` | crates/axiom-graphd/src/payload.rs:372-386 | and the same edge id |
| `EdgeDocuments.RenderEdges` | crates/axiom-graphd/src/payload.rs:325-413 | ids strictly ascend, every edge is well formed, and the coverage count is the number of unresolved edges published |
| `EdgeDocuments.KeptIsWellFormed` | crates/axiom-graphd/src/payload.rs:341-412 | one target form, unresolved exactly when the target is, endpoints published, no id twice |
| `EdgeDocuments.KeptIsExact` | crates/axiom-graphd/src/payload.rs:387-389 | deduplication loses no id and invents no document |
| `EdgeIdentities.EvidenceKeyIdentifies` | crates/axiom-graphd/src/payload.rs:176-198 | two lists of evidence have one key exactly when one reorders the other |
| `EdgeIdentities.IdsIdentify` | crates/axiom-graphd/src/payload.rs:372-386 | two rows are published under one id exactly when their published source, their target and their bag of evidence agree, so dropping repeated ids drops repeated statements only |
| `EdgeIdentities.LinksAreKept` | crates/axiom-graphd/src/payload.rs:325-413 | two published nodes are linked exactly when some row links what they stand for, unless an unresolved name is also a published id |
| `EdgeIdentities.NameShadowsLink` | crates/axiom-graphd/src/payload.rs:386-389 | and in that case a link can be lost: the row with the name comes first and takes the id |
| `Payloads.ReadEdges` | crates/axiom-graphd/src/payload.rs:534-595 | exactly the edges of files that are not tombstoned, in key order |
| `Payloads.ReadNodes` | crates/axiom-graphd/src/payload.rs:446-506 | the rows read back are exactly those with a language and a file, each once |
| `Payloads.Render` | crates/axiom-graphd/src/payload.rs:257-444 | edges only touch published nodes, the unresolved count is exact, and coverage counts the observed files of a pinned language and those of them that are acknowledged, and is complete exactly when all are |
| `Payloads.RenderingIsUnique` | crates/axiom-graphd/src/payload.rs:257-444 | the tables determine the payload: nodes, edges and coverage, document by document |
| `PublishedForest.DistinctIdsInvert` | crates/axiom-graphd/src/payload.rs:305-307 | distinct published ids make the id map invertible |
| `PublishedForest.PublishedContainmentIsAcyclic` | crates/axiom-graphd/src/payload.rs:325-413 | published containment has no cycle when stored containment has none |
| `PublishedForest.PublishedParentIsUnique` | crates/axiom-graphd/src/payload.rs:325-413 | a published node keeps its single container |
| `PublishedForest.PublicationIsAcyclic` | crates/axiom-graphd/src/payload.rs:257-444 | end to end: the edges of a payload rendered from any store the passes can leave have no containment cycle, unless names imitate numbered copies |
| `PublishedForest.PublicationHasOneParent` | crates/axiom-graphd/src/payload.rs:257-444 | end to end: in the edges of such a payload no node has two containers, unless names imitate numbered copies |
| `PublishedRows.NodesSay` | crates/axiom-graphd/src/payload.rs:446-506 | every published node repeats a stored row: its language, file, lines, name and attributes, under a numbered name |
| `PublishedRows.EdgesSay` | crates/axiom-graphd/src/payload.rs:325-413 | every published edge repeats a row of a live file: its endpoints as published, its evidence, analyzer and target project, and the resolution that follows |
| `PublishedRows.LinksArePublished` | crates/axiom-graphd/src/payload.rs:257-444 | two nodes of a payload are linked exactly when a live row links what they stand for |
| `PublishedRows.KindsArePublished` | crates/axiom-graphd/src/payload.rs:101-117 | the contract has a kind for every kind the analyzers declare |
| `PublishedRows.PublicationIsComplete` | crates/axiom-graphd/src/payload.rs:257-444 | end to end: after a pass that completed every declaration is published, the links are exactly the stored containments, and no reference is unresolved |
| `InstanceLock.SingleWriter` | crates/axiom-graphd/src/instance_lock.rs:94-128 | with serialised acquires at most one live process owns the home, over every run of deaths, errors and pid reuse, and recovery never removes a live claim |
| `InstanceLock.SingleWriterFromBoot` | crates/axiom-graphd/src/instance_lock.rs:94-128 | from boot, whatever claim and record an earlier boot left, at most one live process owns the home |
| `InstanceLock.StepIsSafe` | crates/axiom-graphd/src/instance_lock.rs:94-170 | each system call keeps the pairwise lock invariant |
| `InstanceLock.OrphansAreRespectedForever` | crates/axiom-graphd/src/instance_lock.rs:216-229 | a claim whose owner record is missing is never taken over |
| `InstanceLock.DyingMidwayOrphans` | crates/axiom-graphd/src/instance_lock.rs:161-170 | an owner that dies between its two removals leaves such a claim |
| `InstanceLock.AloneAcquiresExactly` | crates/axiom-graphd/src/instance_lock.rs:94-128 | an uninterrupted acquire gets the home exactly when there is no claim or its recorded owner is dead, and otherwise changes nothing |
| `InstanceLock.OverlapBreaksTheLock` | crates/axiom-graphd/src/instance_lock.rs:108-121 | overlapping acquires on a stale claim make two owners |
| `InstanceLock.OverlapBreaksCleanRelease` | crates/axiom-graphd/src/instance_lock.rs:216-229 | overlapping acquires can make two owners after a clean release, without any crash |
| `IncrementalIndex.GraphIndex.Resolve` | benchmarks/index_workload.py:339-354 | the derived tables are those of the cached files, later paths winning |
| `IncrementalIndex.GraphIndex.Scan` | benchmarks/index_workload.py:294-337 | a scan leaves the mixed view cached and resolved, parses exactly the files whose content was not cached, and fails exactly when a file cannot be read, with the files before it cached |
| `IncrementalIndex.MixedPerFile` | benchmarks/index_workload.py:294-337 | the mixed view holds for each file the content of the last scan that read it, unless a later complete scan was not given it |
| `IncrementalIndex.SameContentsSameIndex` | benchmarks/index_workload.py:437-451 | two resolved indexes over the same contents are the same index |
| `IncrementalIndex.AgreesWithColdIndex` | benchmarks/index_workload.py:294-451 | after any history of scans, failed ones included, a successful pass equals an index built from nothing over the mixed view of that history, and over the disk when nothing is stale |
| `CallClosure.Closure` | benchmarks/index_workload.py:369-386 | closure ends on cyclic graphs and returns exactly the symbols a chain of calls reaches |
| `CallClosure.ClosureOf` | benchmarks/index_workload.py:369-397 | the same over an index a scan left |
| `CallClosure.ClosureOfLastExport` | benchmarks/index_workload.py:550-566 | with the intended call table, the closure of the last export of the n-module project has 4 * n symbols |
| `CallClosure.ClosureOfGenerated` | benchmarks/index_workload.py:339-386 | an index over the parses of the generated modules, beside files that define other functions, resolves to the intended call table, so that closure is the 4 * n functions of the project |
| `WorkloadText.FunctionCalls` | benchmarks/index_workload.py:239-292 | in the line of a function the call expression finds, besides the definition itself, exactly what the generator means it to call |
| `WorkloadText.ParseIsIntended` | benchmarks/index_workload.py:178-292 | parsing the text of a module yields its four definitions in order and the intended calls of each |
| `Workload.NameDetermines` | benchmarks/index_workload.py:173-175 | a generated name determines its project, its module and its function |
| `Workload.ProjectIsIndexed` | benchmarks/index_workload.py:197-228 | every project of the dataset is in the index as its generated modules, and the other projects define other functions |
| `Workload.SymbolsAreIntended` | benchmarks/index_workload.py:527-532 | the symbols extracted are exactly the functions the generator writes |
| `Workload.EdgesAreIntended` | benchmarks/index_workload.py:533-538 | the edges extracted are exactly those the generator means |
| `Workload.IndexDataset` | benchmarks/index_workload.py:519-520 | a first scan of the dataset leaves such an index |
| `Workload.ClosureOfProject` | benchmarks/index_workload.py:550-566 | from text to size: the closure of the last export of a project is its 4 * n functions, whatever other projects the index holds |
| `HintInbox.Inbox.Submit` | crates/axiom-graphd/src/hint_runtime.rs:121-162 | a submission adds one intent or leaves at most its staged file, and never grows the inbox past its limit |
| `HintInbox.Inbox.IngestOne` | crates/axiom-graphd/src/hint_runtime.rs:183-248 | a file is delivered in one transaction and removed after it |
| `HintInbox.Inbox.Ingest` | crates/axiom-graphd/src/hint_runtime.rs:169-251 | files are consumed in name order; on any stop exactly a prefix is gone, and at most one more is delivered; with nothing failing it stops only at a file that fails its checks or a delivery that is refused |
| `HintInbox.ReplayIffRow` | crates/axiom-graphd/src/hint_runtime.rs:214-235 | delivering an intent twice equals delivering it once if and only if its job row was written or found |
| `HintInbox.FirstDelivery` | crates/axiom-graphd/src/hint_runtime.rs:223-235 | a delivery with a row adds one job and one event |
| `HintInbox.IndependentIsUndisputed` | crates/axiom-graphd/src/hint_runtime.rs:205-241 | distinct scopes with nothing pending always get their rows |
| `HintInbox.ResumedIsUninterrupted` | crates/axiom-graphd/src/hint_runtime.rs:169-251 | an ingest that died anywhere, followed by one that completes, equals one uninterrupted ingest if and only if the file it had delivered but not removed, if any, has its row written or found |
| `HintInbox.UndisputedResumes` | crates/axiom-graphd/src/hint_runtime.rs:169-251 | so it does when every request finds or gets its row |
| `HintInbox.OnlyTheFirstTakesEffect` | crates/axiom-graphd/src/hint_runtime.rs:214-235 | of several requests in one intent only the first takes effect |
| `HintInbox.OneRowPerProject` | crates/axiom-graphd/src/serve.rs:671-684 | no pass completes a delivered job, so until an operator cancels it later hints for its project never get a row |
| `HintInbox.CancellationReopens` | crates/axiom-graphd/src/serve.rs:671-684 | after a cancellation the next hint of a scope gets its row if and only if all of its pending jobs were cancelled |
| `HintInbox.RunInbox` | crates/axiom-graphd/src/hint_runtime.rs:108-162 | over any run of submissions and ingests the inbox stays within its limit, staged leftovers are never consumed, and once they fill it no submission is accepted |
| `HintText.IntentIsLonger` | crates/axiom-graphd/src/hint_runtime.rs:121-150 | the intent kept for a document is longer than it by 53 characters, the id and the solution |
| `HintInbox.JsonNames` | crates/axiom-graphd/src/hint_runtime.rs:186-190 | the files an ingest visits are those named after a non-empty id |
| `HintInbox.SubmittedIsAcceptable` | crates/axiom-graphd/src/hint_runtime.rs:190-205 | an intent that was submitted passes the checks of the ingest exactly when its request still does and its text is within the limit |
| `HintInbox.LongIntentBlocks` | crates/axiom-graphd/src/hint_runtime.rs:190-196 | a document accepted near the limit is never ingested, and no ingest completes while its intent is there |
| `Telemetry.Sink.RecordAt` | crates/axiom-graphd/src/telemetry.rs:160-182 | the loop-free writer refines the per-target step and writes at most one line |
| `Telemetry.OutcomeByPlace` | crates/axiom-graphd/src/telemetry.rs:197-230 | the first limit records of a window are written, the next becomes its only notice, the rest are suppressed |
| `Telemetry.IntervalBound` | crates/axiom-graphd/src/telemetry.rs:197-230 | any interval of one window length holds at most 2 * limit + 1 written records per target |
| `Telemetry.BoundIsMet` | crates/axiom-graphd/src/telemetry.rs:204-208 | that bound is met for every limit by an explicit trace: the window is fixed, not sliding |
| `Telemetry.TargetsAreIndependent` | crates/axiom-graphd/src/telemetry.rs:197-230 | a target is treated as if it were alone |
| `Telemetry.OutcomeOfAttempt` | crates/axiom-graphd/src/telemetry.rs:160-182 | so the outcome of an attempt depends only on its own target |
| `MigrationPlanner.Plan` | crates/axiom/src/migration_runtime.rs:118-462 | a planned document agrees with everything the loader recomputes, and the loader reads it if and only if its text is within 16 MiB, a length that follows from the inventory; planning refuses exactly on an unfit solution id, file count, size or colliding path, an invalid snapshot, legacy instructions, or conflicting contents |
| `MigrationPlanner.DiscoveredExactly` | crates/axiom/src/migration_runtime.rs:395-442 | planning goes ahead exactly when no two of the three roots hold different contents; it takes the first legacy root that is there and moves it unless the target is there |
| `PlanText.AcceptedLength` | crates/axiom/src/migration_runtime.rs:456-460 | the length of the file of an accepted document, as a function of its sources, its decision and its free fields |
| `MigrationPlanner.PlanSizeAtMost` | crates/axiom/src/migration_runtime.rs:588-590 | a bound on that length from the number of files and the lengths of their paths, so a condition under which a plan loads |
| `MigrationPlanner.PlanSizeAtLeast` | crates/axiom/src/migration_runtime.rs:588-590 | importing paths of 239 characters or more takes over a kilobyte a file |
| `MigrationPlanner.PlannedAndNotLoaded` | crates/axiom/src/migration_runtime.rs:588-590 | a lane of 4096 generations under long names: planned within the budgets of the inventory, refused by the loader |
| `MigrationPlan.AcceptedIsDetermined` | crates/axiom/src/migration_runtime.rs:576-641 | an accepted document is a function of its sources and its five free fields |
| `MigrationPlan.AcceptedSources` | crates/axiom/src/migration_runtime.rs:576-641 | a document the loader accepts names no path twice, selects a known root or none, and decides what its contents lead to |
| `MigrationPlan.HashesAreNormalized` | crates/axiom/src/migration_runtime.rs:609-618 | the loader sees in the sources what the planner saw on disk |
| `MigrationApply.WritesRelocate` | crates/axiom/src/migration_runtime.rs:309-344 | every copy moves one source of the selected root under the target, and every such source is copied |
| `MigrationApply.ChangesAreCopies` | crates/axiom/src/migration_runtime.rs:487-503 | the changes a plan shows are exactly its copies, each with the digest of the contents copied |
| `MigrationApply.SpaceIsTwiceTheCopies` | crates/axiom/src/migration_runtime.rs:505-524 | the space a plan asks for is twice the bytes its copies write |
| `MigrationApply.RelocationIsInjective` | crates/axiom/src/migration_runtime.rs:326-331 | no two copies share a destination |
| `MigrationApply.RelocationIsComplete` | crates/axiom/src/migration_runtime.rs:309-344 | after all copies the target holds exactly the selected root |
| `MigrationApply.ResumeAcceptsEveryPrefix` | crates/axiom/src/migration_runtime.rs:746-772 | after any prefix of the copies the resume check accepts with a journal |
| `MigrationApply.ResumeRefusesForeignFiles` | crates/axiom/src/migration_runtime.rs:746-772 | it refuses unplanned or changed target files, and any target file without a journal |
| `MigrationApply.PointersComeLast` | crates/migration/src/plan.rs:941-952 | no prefix of the copies holds a pointer without every immutable file |
| `MigrationApply.WriteFile` | crates/axiom/src/migration_runtime.rs:531-540 | an existing file is accepted only with the same bytes |
| `MigrationApply.Apply` | crates/axiom/src/migration_runtime.rs:531-540 | restarting from any prefix reaches a longer prefix, and the whole copy when nothing fails |
| `Argv.Resolve` | crates/axiom/src/cli.rs:766-976 | the token loop refines the resolver function |
| `Argv.RenderingResolves` | crates/axiom/src/cli.rs:766-976 | every rendering of a declared form, in any option order with global options between, resolves to the command that hands the executor of the form exactly the options and values given |
| `Argv.OrderDoesNotMatter` | crates/axiom/src/cli.rs:766-976 | two renderings of a form with the same options mean the same command |
| `Argv.AcceptedIsRendering` | crates/axiom/src/cli.rs:766-976 | apart from the short-circuits (help, version, and global options without a word), an accepted argv is such a rendering, every token consumed |
| `Argv.AcceptedExactly` | crates/axiom/src/cli.rs:766-976 | an argv is accepted if and only if it is a short-circuit or such a rendering |
| `Argv.LongestIsExact` | crates/axiom/src/cli.rs:786-790 | the longest declared path matching the words of a form is that form |
| `DaemonArgv.Scan` | crates/axiom-graphd/src/cli.rs:690-733 | the pass over argv refines its specification |
| `DaemonArgv.RenderingLexes` | crates/axiom-graphd/src/cli.rs:690-733 | every line of flags, words and valued options, in any order, is read back as exactly its pieces |
| `DaemonArgv.LexedIsRendering` | crates/axiom-graphd/src/cli.rs:690-733 | every accepted line is such a rendering, no token left over |
| `DaemonArgv.Tokens.Take` | crates/axiom-graphd/src/cli.rs:568-573 | takes the first value of one option and leaves the values of all others |
| `DaemonArgv.Tokens.TakeAll` | crates/axiom-graphd/src/cli.rs:580-587 | takes every value of one option in argv order |
| `DaemonArgv.Tokens.Finish` | crates/axiom-graphd/src/cli.rs:610-626 | accepts exactly when no word and no value of any option is left |
| `DaemonArgv.ParseBuild` | crates/axiom-graphd/src/cli.rs:794-813 | a build line is accepted exactly when each token is one of its own, given at most once, and means its values |
| `DaemonArgv.OrderOfOptionsDoesNotMatter` | crates/axiom-graphd/src/cli.rs:794-813 | so two lines with the same pieces in another order, words aside, are lexed and parsed to the same command |
| `Lifecycle.ShutdownToken.RequestShutdown` | crates/axiom-graphd/src/lifecycle.rs:139-152 | idempotent: the first request fixes the start of the grace period |
| `Lifecycle.ShutdownToken.Claim` | crates/axiom-graphd/src/lifecycle.rs:159-174 | a claim is refused exactly after shutdown was requested, and the counter is the number of claims held |
| `Lifecycle.ShutdownToken.Release` | crates/axiom-graphd/src/lifecycle.rs:225-245 | releasing twice releases once |
| `Lifecycle.ShutdownToken.Observe` | crates/axiom-graphd/src/lifecycle.rs:183-203 | the drain state follows from the claims held, the grace period and the clock |
| `Lifecycle.GracePeriod` | crates/axiom-graphd/src/lifecycle.rs:183-203 | while claims are held the grace period ends exactly its length after the request and what remains counts down to that instant |
| `Lifecycle.Run` | crates/axiom-graphd/src/lifecycle.rs:139-245 | every state between the actions of a run is a function of the one before: claims and releases of the guards handed out before the run and in it |
| `Lifecycle.OnceRequested` | crates/axiom-graphd/src/lifecycle.rs:139-245 | once shutdown was requested no guard is handed out, claims are only given back and the grace period is never extended |
| `Lifecycle.StopIsFinal` | crates/axiom-graphd/src/lifecycle.rs:139-245 | a stop anywhere in a run fixes the grace period, and what an observer is told after it only moves forward |

## Left out

- The language analyzers, grammar locks and byte spans: scanning is an uninterpreted function from path and bytes to declarations, and only its keys are built here.
- SQL text and SQLite itself: each transaction is one step on maps. `ORDER BY path` in the dirty query is modelled as some order, which the results do not depend on.
- SHA-256, FNV-1a and canonical JSON beyond the identity tuple and the evidence key: digests are collision-free by assumption, including the 64-bit declaration digest.
- Node primary keys are global over a database, while declaration keys hash only the repository-relative path; the model covers one project's tables, so key clashes between repositories are outside it.
- Formats of portable identifiers, digests and paths, and the validation of bindings and project roots.
- The `unsupported-input` entries a pass adds to coverage, and file sizes in a closure report.
- Surrogate pairs in the identity tuple parser: the writer never emits one, and the parser refuses them.
- UTF-8: strings stand for their own bytes or characters where the code measures or compares them.
- Solution guards and the file locks around a catalog publication: a publication is one method call, and the exporter's interference stands for every publisher.
- Deletion of old generations and changes of project membership: the catalog results assume neither happens.
- The walk over the directory tree, symbolic links, ignore rules and permissions: the walk is a map of entries.
- Windows share-mode locking, signals, threads, sleeping and real clocks; liveness of the daemon loop.
- `MigrationApply.Apply`: the engine's journal, staging and cutover are replaced by direct copies in the planned order, so its rollback is not modelled.
- The migration plan is modelled as far as the adapter reads it; the directory walk is not part of this model, and snapshot validation and the portable form of paths are parameters of `MigrationPlanner.Plan`. The text of the version report is a parameter too, and reading a plan's text back is taken to give the same document.
- The transaction name of a migration is a 32-digit prefix of its plan digest; the model takes it, like the digest, to identify the plan.
- `Argv.RenderingResolves`: stated for every well-formed table of forms; that the concrete table of 37 forms is well formed (plain path words, dashed option names, nothing twice) is not written out, and the last step from the options to each command variant is the identity.
- `DaemonArgv.ParseBuild`: the daemon's other verbs take their options the same way; only `build` is written out.
- The benchmark's two expressions are modelled on ASCII text, and its file paths are some function of project and module.
- `Exports.Export`: reading a directory may return its entries in any order, so which of several matching catalogs is picked is left open.
- `InstanceLock.SingleWriter`: the acquire, release and recovery code is given as a transition function per system call rather than as methods, because what is proved is about interleavings.
- Reports, doctor and status output, HTML rendering, host and sibling processes, release and evidence scripts.
- The text of a change hint is modelled as the program writes it, without spaces; what the registry and the source reader answer about a request is a parameter.
