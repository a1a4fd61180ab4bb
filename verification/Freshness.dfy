/** What a pass publishes, from the bytes of the tree to the lane pointers. */
module Freshness {
  import opened Prelude
  import opened Lanes
  import opened Passes
  import opened Publication
  import opened Reconcile
  import opened Rows

  /** How the tables become shards and a manifest header.  Rendering is a function of the
      rows and, for the coverage shard, of the observed files; see the payload modules for
      what it is. */
  datatype Rendering = Rendering(
    payload: (map<string, Facts>, map<string, Digest>) -> Payload, header: map<string, Digest> -> Header)

  function Published(r: Rendering, db: ProjectStore): Manifest
    reads db
  {
    Sealed(r.payload(db.facts, KnownOf(db.files)), r.header(KnownOf(db.files)))
  }

  /** Both lanes point at an installed publication of what the store holds. */
  ghost predicate Fresh(r: Rendering, db: ProjectStore, live: Lane, checkpoint: Lane)
    reads db, live, checkpoint
  {
    && AllClean(db.files)
    && live.pointer == Some(Sealed(r.payload(db.facts, KnownOf(db.files)), r.header(KnownOf(db.files))))
    && checkpoint.pointer == live.pointer
    && Sha(live.pointer.value) in live.generations && Sha(live.pointer.value) in checkpoint.generations
  }

  /** The lanes hold an installed publication `m` of both. */
  predicate Holding(live: Contents, checkpoint: Contents, m: Manifest) {
    && live.pointer == Some(m) && checkpoint.pointer == Some(m)
    && Sha(m) in live.generations && Sha(m) in checkpoint.generations
  }

  lemma FreshIffHolding(r: Rendering, db: ProjectStore, live: Lane, checkpoint: Lane)
    ensures Fresh(r, db, live, checkpoint)
            <==> AllClean(db.files) && Holding(live.State(), checkpoint.State(), Published(r, db))
  {
  }

  /** The analysis half of a pass: cold facts, and from a clean store the same facts
      as before unless there is new work. */
  method Reanalyse(db: ProjectStore, profile: Profile, a: Attempt) returns (o: Outcome<bool>)
    requires Local(profile) && db.Valid(profile)
    modifies db
    ensures db.Valid(profile)
    ensures o.Ok? ==> AllClean(db.files) && ColdFacts(profile, KnownOf(db.files), db.facts)
    ensures o.Ok? ==> KnownOf(db.files) == Observe(old(KnownOf(db.files)), a.walk)
    ensures o.Ok? ==> (o.value <==> NeedsWork(profile, old(Started(db.files, a)), KnownOf(db.files)))
    ensures o.Ok? && !o.value && old(AllClean(db.files)) ==>
              KnownOf(db.files) == old(KnownOf(db.files)) && db.facts == old(db.facts)
    ensures Progresses(profile, a, old(db.files), db.files, o.Ok?)
  {
    ghost var files, facts := db.files, db.facts;
    o := db.Try(profile, a);
    if o.Ok? {
      CleanIsCold(profile, db.files, db.facts);
      if AllClean(files) && !o.value { NoWorkNoChange(profile, files, facts, a, db.files, db.facts); }
    }
  }

  /** How far an attempt gets: over a quiet tree to its end, past its first operation
      with the inventory applied, and stopped by an error at the second. */
  ghost predicate Progresses(
    profile: Profile, a: Attempt, before: map<string, FileRow>, after: map<string, FileRow>, done: bool)
  {
    var observed := Observe(KnownOf(before), a.walk);
    && (a.script == [] && Settles(profile, observed, a.disk) ==> done)
    && (!a.full && Next(a.script).Done? && |observed| <= MAX_INVENTORY_BATCH ==>
          KnownOf(after) == observed && DirtyIsNew(before, after))
    && (!a.full && Next(Rest(a.script)).Halt? && Changes(before, observed) ==> !done)
  }

  function WorkOf(r: Rendering, db: ProjectStore, newWork: bool): Work
    reads db
  {
    Work(r.payload(db.facts, KnownOf(db.files)), r.header(KnownOf(db.files)), newWork)
  }

  /** The publication half, at every crash point and when it succeeds. */
  ghost predicate Publishes(
    work: Work, pass: string, script: Script, o: Outcome<Option<Manifest>>,
    live: Contents, checkpoint: Contents, live': Contents, checkpoint': Contents)
  {
    && Served(work, pass, script, live, checkpoint, live', checkpoint')
    && (o.Ok? ==> Reported(o.value, work, live, checkpoint, live', checkpoint'))
    && (script == [] && Resolves(live.pointer, live.generations) ==> o.Ok?)
  }

  /** A project that has no facts and never had a pointer is not published. */
  method PublishUnlessEmpty(
    store: Store, live: Lane, checkpoint: Lane, project: string, sequence: nat, pass: string,
    before: Option<Manifest>, work: Work, script: Script)
    returns (o: Outcome<Option<Manifest>>, rest: Script)
    requires live != checkpoint && live.Sound() && checkpoint.Sound()
    requires RecordsInstalled(store.published, project, live.generations, checkpoint.generations)
    modifies store, live, checkpoint
    ensures live.Sound() && checkpoint.Sound()
    ensures RecordsInstalled(store.published, project, live.generations, checkpoint.generations)
    ensures if IsEmpty(work.payload) && before.None? then
              o == Ok(None) && live.State() == old(live.State()) && checkpoint.State() == old(checkpoint.State())
            else
              Publishes(work, pass, script, o,
                        old(live.State()), old(checkpoint.State()), live.State(), checkpoint.State())
  {
    if IsEmpty(work.payload) && before.None? { return Ok(None), script; }
    o, rest := PublishIfNeeded(store, live, checkpoint, project, sequence, pass, work, script);
  }

  /** A pass after its recovery: inventory and analysis, then publication.  `analysed`
      says that the first of the two halves ran to its end. */
  method Serve(
    db: ProjectStore, store: Store, live: Lane, checkpoint: Lane, project: string, sequence: nat, pass: string,
    before: Option<Manifest>, profile: Profile, r: Rendering, a: Attempt, script: Script)
    returns (o: Outcome<Option<Manifest>>, analysed: bool, rest: Script)
    requires Local(profile) && db.Valid(profile)
    requires live != checkpoint && live.Sound() && checkpoint.Sound()
    requires RecordsInstalled(store.published, project, live.generations, checkpoint.generations)
    modifies db, store, live, checkpoint
    ensures db.Valid(profile) && live.Sound() && checkpoint.Sound()
    ensures RecordsInstalled(store.published, project, live.generations, checkpoint.generations)
    ensures Progresses(profile, a, old(db.files), db.files, analysed)
    ensures !analysed ==> !o.Ok? && live.State() == old(live.State()) && checkpoint.State() == old(checkpoint.State())
    ensures analysed ==> AllClean(db.files) && ColdFacts(profile, KnownOf(db.files), db.facts)
    ensures analysed ==> KnownOf(db.files) == Observe(old(KnownOf(db.files)), a.walk)
    ensures analysed && old(AllClean(db.files)) && !NeedsWork(profile, old(Started(db.files, a)), KnownOf(db.files)) ==>
              KnownOf(db.files) == old(KnownOf(db.files)) && db.facts == old(db.facts)
    ensures analysed ==>
              if IsEmpty(r.payload(db.facts, KnownOf(db.files))) && before.None? then
                o == Ok(None) && live.State() == old(live.State()) && checkpoint.State() == old(checkpoint.State())
              else
                Publishes(WorkOf(r, db, NeedsWork(profile, old(Started(db.files, a)), KnownOf(db.files))), pass, script, o,
                          old(live.State()), old(checkpoint.State()), live.State(), checkpoint.State())
  {
    rest := script;
    var analysis := Reanalyse(db, profile, a);
    if !analysis.Ok? { return if analysis.Error? then Error else Crashed, false, rest; }
    analysed := true;
    o, rest := PublishUnlessEmpty(store, live, checkpoint, project, sequence, pass, before, WorkOf(r, db, analysis.value), rest);
  }

  /** What a pass whose analysis ran to its end says about the two pointers. */
  lemma ServedOutcome(
    work: Work, pass: string, script: Script, o: Outcome<Option<Manifest>>, before: Option<Manifest>,
    l0: Contents, c0: Contents, l1: Contents, c1: Contents, l2: Contents, c2: Contents)
    requires RecoveredLane(l0, l1) && RecoveredLane(c0, c1) && before == l0.pointer
    requires if IsEmpty(work.payload) && before.None? then o == Ok(None)
             else Publishes(work, pass, script, o, l1, c1, l2, c2)
    ensures o.Ok? && o.value.Some? && (work.newWork || Pointerless(l0) || Pointerless(c0)) ==>
              Holding(l2, c2, Sealed(work.payload, work.header))
    ensures o.Ok? && l0.pointer.Some? && c0.pointer.Some? ==>
              (Holding(l2, c2, Sealed(work.payload, work.header))
               <==> work.newWork || Holding(l0, c0, Sealed(work.payload, work.header)))
    ensures o.Ok? && o.value.Some? && !work.newWork && !Pointerless(l0) && !Pointerless(c0) ==>
              o.value == l2.pointer && RecoveredLane(l0, l2) && RecoveredLane(c0, c2)
    ensures o.Ok? && o.value.None? ==> IsEmpty(work.payload) && l0.pointer.None?
  {
  }

  /** One pass over one project: recovery, inventory and analysis, publication. */
  method ServeProject(
    db: ProjectStore, store: Store, live: Lane, checkpoint: Lane, project: string, pass: string,
    profile: Profile, r: Rendering, a: Attempt, script: Script)
    returns (o: Outcome<Option<Manifest>>, analysed: bool, rest: Script)
    requires Local(profile) && db.Valid(profile)
    requires live != checkpoint && live.Sound() && checkpoint.Sound()
    requires RecordsInstalled(store.published, project, live.generations, checkpoint.generations)
    modifies db, store, live, checkpoint
    // Whatever happens, every store keeps its invariant.
    ensures db.Valid(profile) && live.Sound() && checkpoint.Sound()
    ensures RecordsInstalled(store.published, project, live.generations, checkpoint.generations)
    // A pass that succeeds leaves the tables a cold analysis of the tree would leave.
    ensures o.Ok? ==> analysed
    ensures analysed ==> AllClean(db.files) && ColdFacts(profile, KnownOf(db.files), db.facts)
    ensures analysed ==> KnownOf(db.files) == Observe(old(KnownOf(db.files)), a.walk)
    // With new work, or a pointer that is missing after recovery, it publishes them in
    // both lanes.
    ensures o.Ok? && o.value.Some?
            && (NeedsWork(profile, old(Started(db.files, a)), KnownOf(db.files))
                || old(Pointerless(live.State()) || Pointerless(checkpoint.State()))) ==>
              Fresh(r, db, live, checkpoint)
    // With both pointers in place, those are fresh afterwards exactly when there was
    // new work or they were publications of what the tables hold now.
    ensures o.Ok? && old(live.pointer.Some? && checkpoint.pointer.Some?) ==>
              (Fresh(r, db, live, checkpoint) <==>
               || NeedsWork(profile, old(Started(db.files, a)), KnownOf(db.files))
               || Holding(old(live.State()), old(checkpoint.State()), Published(r, db)))
    // From clean tables that is: exactly when there was new work or they were fresh before.
    ensures o.Ok? && old(live.pointer.Some? && checkpoint.pointer.Some? && AllClean(db.files)) ==>
              (Fresh(r, db, live, checkpoint) <==>
               || NeedsWork(profile, old(Started(db.files, a)), KnownOf(db.files))
               || old(Fresh(r, db, live, checkpoint)))
    // Without new work, and with pointers to be had, it leaves what recovery made of them.
    ensures o.Ok? && o.value.Some? && !NeedsWork(profile, old(Started(db.files, a)), KnownOf(db.files))
            && old(!Pointerless(live.State()) && !Pointerless(checkpoint.State())) ==>
              && o.value == live.pointer && RecoveredLane(old(live.State()), live.State())
              && RecoveredLane(old(checkpoint.State()), checkpoint.State())
    // It publishes nothing at all only for a project that has no facts and never had any.
    ensures o.Ok? && o.value.None? ==> IsEmpty(r.payload(db.facts, KnownOf(db.files))) && old(live.pointer).None?
    // With both pointers in place, recovery does nothing, and each crash point of what
    // follows is accounted for.
    ensures old(live.pointer.Some? && checkpoint.pointer.Some?) ==>
              && Progresses(profile, a, old(db.files), db.files, analysed)
              && if analysed then
                   Publishes(WorkOf(r, db, NeedsWork(profile, old(Started(db.files, a)), KnownOf(db.files))), pass, script, o,
                             old(live.State()), old(checkpoint.State()), live.State(), checkpoint.State())
                 else live.State() == old(live.State()) && checkpoint.State() == old(checkpoint.State())
  {
    var before, sequence := live.pointer, store.eventSeq;
    ghost var l0, c0 := live.State(), checkpoint.State();
    var recovered;
    recovered, rest := RecoverBoth(live, checkpoint, script);
    if !recovered.Ok? { return Relay(recovered), false, rest; }
    ghost var l1, c1, at := live.State(), checkpoint.State(), rest;
    ghost var files := db.files;
    o, analysed, rest := Serve(db, store, live, checkpoint, project, sequence, pass, before, profile, r, a, rest);
    FreshIffHolding(r, db, live, checkpoint);
    if analysed {
      ServedOutcome(WorkOf(r, db, NeedsWork(profile, Started(files, a), KnownOf(db.files))), pass, at, o, before,
                    l0, c0, l1, c1, live.State(), checkpoint.State());
    }
  }

  /** Clean tables need no work while the tree stays as they saw it. */
  lemma CleanNeedsNothing(profile: Profile, files: map<string, FileRow>, facts: map<string, Facts>)
    requires Consistent(profile, files, facts) && AllClean(files)
    ensures !NeedsWork(profile, files, KnownOf(files))
  {
    forall p | p in files.Keys + KnownOf(files).Keys
      ensures !Differs(Lookup(files, p), Lookup(KnownOf(files), p))
    {
      assert RowConsistent(profile, p, files[p], facts[p]);
    }
  }

  /** Rows that an inventory of deletions dirtied are tombstones, which are no work. */
  lemma DeletionsNeedNothing(
    profile: Profile, before: map<string, FileRow>, files: map<string, FileRow>, facts: map<string, Facts>)
    requires Consistent(profile, files, facts)
    requires AllClean(before) && DirtyIsNew(before, files)
    requires forall p <- before :: before[p].deleted <==> before[p].observed.None?
    requires forall p <- KnownOf(files) :: Lookup(KnownOf(before), p) == Some(KnownOf(files)[p])
    ensures !NeedsWork(profile, files, KnownOf(files))
  {
    forall p | p in files
      ensures !Differs(Lookup(files, p), Lookup(KnownOf(files), p))
      ensures files[p].IsDirty() ==> files[p].observed.None?
    {
      assert RowConsistent(profile, p, files[p], facts[p]);
      if files[p].observed.Some? { assert p in KnownOf(files) && p in KnownOf(before); }
    }
  }

  /** Acknowledged and never published: a pass over fresh lanes analyses the changed tree
      and dies before its first publication step.  The next pass over that tree succeeds,
      finds no work, and leaves lanes that are fresh only if the change made no difference
      to what is published. */
  method AcknowledgedUnpublished(
    db: ProjectStore, store: Store, live: Lane, checkpoint: Lane, project: string, pass: string,
    profile: Profile, r: Rendering, a: Attempt)
    returns (o: Outcome<Option<Manifest>>)
    requires Local(profile) && db.Valid(profile)
    requires live != checkpoint && live.Sound() && checkpoint.Sound()
    requires RecordsInstalled(store.published, project, live.generations, checkpoint.generations)
    requires Fresh(r, db, live, checkpoint)
    requires !a.full && a.script == [] && FullyRead(a.walk)
    requires Settles(profile, Observe(KnownOf(db.files), a.walk), a.disk)
    modifies db, store, live, checkpoint
    ensures o == Ok(old(live.pointer))
    ensures AllClean(db.files) && KnownOf(db.files) == Observe(old(KnownOf(db.files)), a.walk)
    ensures Fresh(r, db, live, checkpoint) <==> Published(r, db) == old(Published(r, db))
    ensures r.header(Observe(old(KnownOf(db.files)), a.walk)) != old(r.header(KnownOf(db.files))) ==>
              !Fresh(r, db, live, checkpoint)
  {
    ghost var known := KnownOf(db.files);
    ReadWalkForgetsHistory(known, a.walk);
    ReadWalkForgetsHistory(Observe(known, a.walk), a.walk);
    var analysed, rest;
    o, analysed, rest := ServeProject(db, store, live, checkpoint, project, pass, profile, r, a, DyingAfter(0));
    NothingMoves(WorkOf(r, db, true), old(live.State()), old(checkpoint.State()));
    CleanNeedsNothing(profile, db.files, db.facts);
    o, analysed, rest := ServeProject(db, store, live, checkpoint, project, pass, profile, r, a, []);
  }

  lemma NothingMoves(work: Work, live: Contents, checkpoint: Contents)
    ensures var m := Sealed(work.payload, work.header);
            && !Survives(DyingAfter(0), LiveMovedOps(live, checkpoint, work.payload, m))
            && !Survives(DyingAfter(0), BothMovedOps(live, checkpoint, work.payload, m))
            && !Survives(DyingAfter(0), BarrierOps(live, checkpoint, work.payload, m))
  {
    var m := Sealed(work.payload, work.header);
    DyingExactly(0, LiveMovedOps(live, checkpoint, work.payload, m));
    DyingExactly(0, BothMovedOps(live, checkpoint, work.payload, m));
    DyingExactly(0, BarrierOps(live, checkpoint, work.payload, m));
  }

  /** A deletion that is never published: a pass over fresh lanes dies right after the
      inventory that tombstones rows.  The next pass removes their facts and succeeds, but
      dirty tombstones are no work, so the lanes keep publishing the deleted files. */
  method DeletionGoesUnpublished(
    db: ProjectStore, store: Store, live: Lane, checkpoint: Lane, project: string, pass: string,
    profile: Profile, r: Rendering, a: Attempt)
    returns (o: Outcome<Option<Manifest>>)
    requires Local(profile) && db.Valid(profile)
    requires live != checkpoint && live.Sound() && checkpoint.Sound()
    requires RecordsInstalled(store.published, project, live.generations, checkpoint.generations)
    requires Fresh(r, db, live, checkpoint)
    requires !a.full && a.script == [] && FullyRead(a.walk)
    requires Settles(profile, Observe(KnownOf(db.files), a.walk), a.disk)
    requires forall p <- a.walk :: p in KnownOf(db.files) && a.walk[p] == Readable(KnownOf(db.files)[p])
    requires exists p <- KnownOf(db.files) :: p !in a.walk
    modifies db, store, live, checkpoint
    ensures o == Ok(old(live.pointer))
    ensures AllClean(db.files) && KnownOf(db.files) == Observe(old(KnownOf(db.files)), a.walk)
    ensures forall p <- old(KnownOf(db.files)) :: p !in a.walk && p in db.facts ==> db.facts[p] == NO_FACTS
    ensures Fresh(r, db, live, checkpoint) <==> Published(r, db) == old(Published(r, db))
    ensures r.header(Observe(old(KnownOf(db.files)), a.walk)) != old(r.header(KnownOf(db.files))) ==>
              !Fresh(r, db, live, checkpoint)
  {
    ghost var files, known := db.files, KnownOf(db.files);
    ReadWalkForgetsHistory(known, a.walk);
    ReadWalkForgetsHistory(Observe(known, a.walk), a.walk);
    assert forall p <- files :: RowConsistent(profile, p, files[p], db.facts[p]);
    DeletionChanges(files, a.walk);
    var dying := a.(script := DyingAfter(1));
    var analysed, rest;
    o, analysed, rest := ServeProject(db, store, live, checkpoint, project, pass, profile, r, dying, []);
    DeletionsNeedNothing(profile, files, db.files, db.facts);
    o, analysed, rest := ServeProject(db, store, live, checkpoint, project, pass, profile, r, a, []);
  }

  lemma DeletionChanges(files: map<string, FileRow>, walk: map<string, Entry>)
    requires forall p <- files :: files[p].deleted <==> files[p].observed.None?
    requires exists p <- KnownOf(files) :: p !in walk
    ensures Changes(files, Observe(KnownOf(files), walk))
  {
    var p :| p in KnownOf(files) && p !in walk;
    assert p in files.Keys && Differs(Lookup(files, p), Lookup(Observe(KnownOf(files), walk), p));
  }
}
