/** Whole runs of one solution: passes over its projects, full or scoped, mixed
    with catalog publications, each cut short at any operation. */
module SolutionRuns {
  import opened Prelude
  import opened Lanes
  import opened Publication
  import opened Passes
  import Catalogs

  datatype Step =
    | ProjectPass(project: string, pass: string, work: Work, script: Script)
    | CatalogPass(outcomes: map<string, Option<Manifest>>, script: Script)

  /** Every lane of the solution is its own directory tree. */
  ghost predicate Separate(s: Catalogs.Solution, checkpoints: map<string, Lane>) {
    && checkpoints.Keys == s.lanes.Keys
    && s.catalog !in s.lanes.Values && s.catalog !in checkpoints.Values
    && (forall p <- s.lanes, q <- s.lanes :: s.lanes[p] == s.lanes[q] ==> p == q)
    && (forall p <- s.lanes, q <- s.lanes :: checkpoints[p] == checkpoints[q] ==> p == q)
    && forall p <- s.lanes, q <- s.lanes :: s.lanes[p] != checkpoints[q]
  }

  ghost predicate ProjectSound(store: Store, p: string, live: Lane, checkpoint: Lane)
    reads store, live, checkpoint
  {
    && live.Sound() && checkpoint.Sound()
    && RecordsInstalled(store.published, p, live.generations, checkpoint.generations)
  }

  ghost predicate LanesSound(s: Catalogs.Solution, checkpoints: map<string, Lane>, store: Store)
    requires checkpoints.Keys == s.lanes.Keys
    reads s.lanes.Values, checkpoints.Values, store
  {
    forall p <- s.lanes :: ProjectSound(store, p, s.lanes[p], checkpoints[p])
  }

  ghost predicate AllSound(s: Catalogs.Solution, checkpoints: map<string, Lane>, store: Store)
    requires checkpoints.Keys == s.lanes.Keys
    reads s.lanes.Values, checkpoints.Values, s.catalog, store
  {
    Catalogs.Sound(s) && LanesSound(s, checkpoints, store)
  }

  lemma RecordsOfOthers(
    before: map<(string, Manifest, LaneKind), nat>, after: map<(string, Manifest, LaneKind), nat>, p: string, q: string,
    live: map<Name, Dir>, checkpoint: map<Name, Dir>)
    requires p != q && RecordsInstalled(before, q, live, checkpoint)
    requires forall key <- after :: key.0 == p || key in before
    ensures RecordsInstalled(after, q, live, checkpoint)
  {
  }

  /** What a pass with new work hands to the catalog. */
  ghost predicate Delivered(r: Option<Manifest>, work: Work, before: Option<Manifest>, live: Contents) {
    if r.None? then IsEmpty(work.payload) && before.None?
    else r == Some(Sealed(work.payload, work.header)) && live.pointer == r && Sha(r.value) in live.generations
  }

  /** A pass, as far as the solution is concerned. */
  method LonePass(store: Store, live: Lane, checkpoint: Lane, p: string, pass: string, work: Work, script: Script)
    returns (o: Outcome<Option<Manifest>>)
    requires live != checkpoint && ProjectSound(store, p, live, checkpoint)
    modifies store, live, checkpoint
    ensures ProjectSound(store, p, live, checkpoint) && Grows(old(live.generations), live.generations)
    ensures forall key <- store.published :: key.0 == p || key in old(store.published)
    ensures o.Ok? && work.newWork ==> Delivered(o.value, work, old(live.pointer), live.State())
    ensures script == [] && old(Resolves(live.pointer, live.generations) && !Springs(live.State())) ==> o.Ok?
  {
    var rest;
    o, rest := Pass(store, live, checkpoint, p, pass, work, script);
  }

  /** A pass over one project, beside the others. */
  method OnePass(
    s: Catalogs.Solution, checkpoints: map<string, Lane>, store: Store,
    p: string, pass: string, work: Work, script: Script) returns (o: Outcome<Option<Manifest>>)
    requires Separate(s, checkpoints) && p in s.lanes
    requires forall q <- s.lanes :: ProjectSound(store, q, s.lanes[q], checkpoints[q])
    modifies store, s.lanes[p], checkpoints[p]
    ensures forall q <- s.lanes :: ProjectSound(store, q, s.lanes[q], checkpoints[q])
    ensures Catalogs.States(s) == old(Catalogs.States(s))[p := s.lanes[p].State()]
    ensures Grows(old(s.lanes[p].generations), s.lanes[p].generations)
    ensures o.Ok? && work.newWork ==> Delivered(o.value, work, old(s.lanes[p].pointer), s.lanes[p].State())
    ensures script == [] && old(Resolves(s.lanes[p].pointer, s.lanes[p].generations) && !Springs(s.lanes[p].State())) ==>
              o.Ok?
  {
    ghost var states, published := Catalogs.States(s), store.published;
    o := LonePass(store, s.lanes[p], checkpoints[p], p, pass, work, script);
    forall q <- s.lanes
      ensures ProjectSound(store, q, s.lanes[q], checkpoints[q])
      ensures q != p ==> s.lanes[q].State() == states[q]
    {
      if q != p {
        assert old(ProjectSound(store, q, s.lanes[q], checkpoints[q]));
        RecordsOfOthers(published, store.published, p, q, s.lanes[q].generations, checkpoints[q].generations);
      }
    }
    Catalogs.StatesAre(s, states[p := s.lanes[p].State()]);
  }

  method PassStep(
    s: Catalogs.Solution, checkpoints: map<string, Lane>, store: Store,
    p: string, pass: string, work: Work, script: Script) returns (o: Outcome<Option<Manifest>>)
    requires Separate(s, checkpoints) && AllSound(s, checkpoints, store) && p in s.lanes
    modifies store, s.lanes[p], checkpoints[p]
    ensures AllSound(s, checkpoints, store)
    ensures Catalogs.AllGrow(old(Catalogs.Installed(s)), Catalogs.Installed(s))
    ensures Catalogs.States(s) == old(Catalogs.States(s))[p := s.lanes[p].State()]
    ensures o.Ok? && work.newWork ==> Delivered(o.value, work, old(s.lanes[p].pointer), s.lanes[p].State())
    ensures script == [] && old(Resolves(s.lanes[p].pointer, s.lanes[p].generations) && !Springs(s.lanes[p].State())) ==>
              o.Ok?
  {
    ghost var states, catalogs := Catalogs.States(s), s.catalog.generations;
    Catalogs.StatesAre(s, states);
    assert Catalogs.Closed(catalogs, s.id, s.profile, Catalogs.GenerationsOf(states));
    o := OnePass(s, checkpoints, store, p, pass, work, script);
    assert s.catalog.generations == catalogs;
    SoundAgain(s, states, p);
  }

  lemma SoundAgain(s: Catalogs.Solution, states: map<string, Contents>, p: string)
    requires Catalogs.Closed(s.catalog.generations, s.id, s.profile, Catalogs.GenerationsOf(states))
    requires Resolves(s.catalog.pointer, s.catalog.generations)
    requires p in s.lanes && p in states && Catalogs.States(s) == states[p := s.lanes[p].State()]
    requires Grows(states[p].generations, s.lanes[p].generations)
    ensures Catalogs.AllGrow(Catalogs.GenerationsOf(states), Catalogs.Installed(s)) && Catalogs.Sound(s)
  {
    var after := Catalogs.States(s);
    OneGrows(states, p, s.lanes[p].State());
    Catalogs.StatesAre(s, after);
    Catalogs.ClosedUnderGrowth(
      s.catalog.generations, s.id, s.profile, Catalogs.GenerationsOf(states), Catalogs.GenerationsOf(after));
  }

  lemma OneGrows(states: map<string, Contents>, p: string, after: Contents)
    requires p in states && Grows(states[p].generations, after.generations)
    ensures Catalogs.AllGrow(Catalogs.GenerationsOf(states), Catalogs.GenerationsOf(states[p := after]))
  {
  }

  method CatalogStep(
    s: Catalogs.Solution, checkpoints: map<string, Lane>, store: Store, projects: seq<string>,
    outcomes: map<string, Option<Manifest>>, script: Script) returns (o: Outcome<()>)
    requires forall p :: p in projects <==> p in s.lanes
    requires Separate(s, checkpoints) && AllSound(s, checkpoints, store)
    modifies s.catalog
    ensures AllSound(s, checkpoints, store)
    ensures o.Ok? && projects != [] ==>
              s.catalog.pointer.Some? && Catalogs.IsVector(s.catalog.pointer.value, s, outcomes)
    ensures script == [] && old(Catalogs.HasAllMembers(s, outcomes)) ==> o.Ok?
    ensures Grows(old(s.catalog.generations), s.catalog.generations)
    ensures Catalogs.Installed(s) == old(Catalogs.Installed(s))
    ensures Catalogs.States(s) == old(Catalogs.States(s))
  {
    var rest;
    o, rest := Catalogs.PublishSolutionCatalog(s, projects, outcomes, script);
  }

  lemma GrowthComposes(
    a: map<string, map<Name, Dir>>, b: map<string, map<Name, Dir>>, c: map<string, map<Name, Dir>>)
    requires Catalogs.AllGrow(a, b) && Catalogs.AllGrow(b, c)
    ensures Catalogs.AllGrow(a, c)
  {
    forall p <- a
      ensures Grows(a[p], c[p])
    {
      assert Grows(a[p], b[p]) && Grows(b[p], c[p]);
    }
  }

  lemma CurrentCatalogIsPinned(s: Catalogs.Solution)
    requires Catalogs.Sound(s) && s.catalog.pointer.Some?
    ensures Catalogs.PinsInstalled(s.catalog.pointer.value, s.id, s.profile, Catalogs.Installed(s))
  {
  }

  /** In every reachable state each retained catalog pins exactly one installed
      generation per registered project, and the catalog pointer names one of
      those catalogs. */
  method SolutionRun(
    s: Catalogs.Solution, checkpoints: map<string, Lane>, store: Store, projects: seq<string>, history: seq<Step>)
    requires forall p :: p in projects <==> p in s.lanes
    requires Separate(s, checkpoints) && AllSound(s, checkpoints, store)
    requires forall step <- history :: step.ProjectPass? ==> step.project in s.lanes
    modifies store, s.lanes.Values, checkpoints.Values, s.catalog
    ensures AllSound(s, checkpoints, store)
    // What the exporter relies on: installed generations and catalogs only accrue.
    ensures Grows(old(s.catalog.generations), s.catalog.generations)
    ensures Catalogs.AllGrow(old(Catalogs.Installed(s)), Catalogs.Installed(s))
    ensures s.catalog.pointer.Some? ==>
              Catalogs.PinsInstalled(s.catalog.pointer.value, s.id, s.profile, Catalogs.Installed(s))
  {
    for i := 0 to |history|
      invariant AllSound(s, checkpoints, store)
      invariant Grows(old(s.catalog.generations), s.catalog.generations)
      invariant Catalogs.AllGrow(old(Catalogs.Installed(s)), Catalogs.Installed(s))
    {
      ghost var before := Catalogs.Installed(s);
      match history[i]
      case ProjectPass(p, pass, work, script) =>
        assert history[i] in history;
        var passed := PassStep(s, checkpoints, store, p, pass, work, script);
        GrowthComposes(old(Catalogs.Installed(s)), before, Catalogs.Installed(s));
      case CatalogPass(outcomes, script) =>
        var published := CatalogStep(s, checkpoints, store, projects, outcomes, script);
    }
    if s.catalog.pointer.Some? { CurrentCatalogIsPinned(s); }
  }

  /** The live pointer of a project names an installed generation of it. */
  predicate IsCurrent(id: string, profile: string, p: string, l: Contents) {
    && l.pointer.Some? && Sha(l.pointer.value) in l.generations && l.pointer.value.Project?
    && l.pointer.value.header.solution == id && l.pointer.value.header.project == p
    && l.pointer.value.header.profile == profile
  }

  predicate OthersAreCurrent(id: string, profile: string, p: string, lanes: map<string, Contents>) {
    forall q <- lanes :: q != p ==> IsCurrent(id, profile, q, lanes[q])
  }

  lemma CurrentAreMembers(s: Catalogs.Solution, p: string, g: Manifest)
    requires p in s.lanes && s.lanes[p].pointer == Some(g) && IsCurrent(s.id, s.profile, p, s.lanes[p].State())
    requires OthersAreCurrent(s.id, s.profile, p, Catalogs.States(s))
    requires forall q <- s.lanes :: InstalledSound(s.lanes[q].generations)
    ensures Catalogs.HasAllMembers(s, map[p := Some(g)])
  {
    forall q | q in s.lanes
      ensures s.lanes[q].pointer.Some?
      ensures Catalogs.MemberVerified(s.id, s.profile, q, s.lanes[q].pointer.value, s.lanes[q].generations)
    {
      assert IsCurrent(s.id, s.profile, q, Catalogs.States(s)[q]);
      Catalogs.InstalledIsVerified(s.id, s.profile, q, s.lanes[q].pointer.value, s.lanes[q].generations);
    }
  }

  /** The catalog pins `m` for one project, and for every other one what was current. */
  ghost predicate PinsOneNew(c: Option<Manifest>, p: string, m: Manifest, lanes: map<string, Contents>) {
    && c.Some? && c.value.Catalog? && c.value.pins.Keys == lanes.Keys
    && p in lanes && c.value.pins[p].generation == m
    && forall q <- lanes :: q != p ==> Some(c.value.pins[q].generation) == lanes[q].pointer
  }

  lemma VectorPinsOneNew(s: Catalogs.Solution, c: Manifest, p: string, m: Manifest)
    requires p in s.lanes && Catalogs.IsVector(c, s, map[p := Some(m)])
    ensures PinsOneNew(Some(c), p, m, Catalogs.States(s))
  {
  }

  /** The first half of a scoped pass, and what its outcome gives the catalog. */
  method PassForCatalog(
    s: Catalogs.Solution, checkpoints: map<string, Lane>, store: Store,
    p: string, pass: string, work: Work, script: Script) returns (o: Outcome<Option<Manifest>>)
    requires Separate(s, checkpoints) && AllSound(s, checkpoints, store) && p in s.lanes && work.newWork
    modifies store, s.lanes[p], checkpoints[p]
    ensures AllSound(s, checkpoints, store)
    ensures Catalogs.States(s) == old(Catalogs.States(s))[p := s.lanes[p].State()]
    ensures o.Ok? && o.value.Some? ==> o.value == Some(Sealed(work.payload, work.header))
    ensures o.Ok? && o.value.None? ==> IsEmpty(work.payload) && old(s.lanes[p].pointer).None?
    ensures script == [] && old(Resolves(s.lanes[p].pointer, s.lanes[p].generations) && !Springs(s.lanes[p].State())) ==>
              o.Ok?
    ensures o.Ok? && o.value.Some? && work.header.solution == s.id && work.header.project == p
            && work.header.profile == s.profile && old(OthersAreCurrent(s.id, s.profile, p, Catalogs.States(s))) ==>
              Catalogs.HasAllMembers(s, map[p := o.value])
  {
    o := PassStep(s, checkpoints, store, p, pass, work, script);
    if o.Ok? && o.value.Some? && work.header.solution == s.id && work.header.project == p
       && work.header.profile == s.profile && old(OthersAreCurrent(s.id, s.profile, p, Catalogs.States(s))) {
      forall q | q in s.lanes
        ensures InstalledSound(s.lanes[q].generations)
      {
        assert ProjectSound(store, q, s.lanes[q], checkpoints[q]);
      }
      CurrentAreMembers(s, p, o.value.value);
    }
  }

  /** The second half: one outcome, and the full vector. */
  method CatalogOfOne(
    s: Catalogs.Solution, checkpoints: map<string, Lane>, store: Store, projects: seq<string>,
    p: string, r: Option<Manifest>, script: Script) returns (o: Outcome<()>)
    requires forall q :: q in projects <==> q in s.lanes
    requires Separate(s, checkpoints) && AllSound(s, checkpoints, store) && p in s.lanes
    modifies s.catalog
    ensures AllSound(s, checkpoints, store)
    ensures o.Ok? ==> r.Some? && PinsOneNew(s.catalog.pointer, p, r.value, old(Catalogs.States(s)))
    ensures script == [] && old(Catalogs.HasAllMembers(s, map[p := r])) ==> o.Ok?
  {
    o := CatalogStep(s, checkpoints, store, projects, map[p := r], script);
    if o.Ok? {
      assert p in projects;
      assert Some(s.catalog.pointer.value.pins[p].generation) == r;
      VectorPinsOneNew(s, s.catalog.pointer.value, p, r.value);
    }
  }

  lemma PinsIgnoreOwnLane(c: Option<Manifest>, p: string, m: Manifest, lanes: map<string, Contents>, l: Contents)
    requires p in lanes && PinsOneNew(c, p, m, lanes[p := l])
    ensures PinsOneNew(c, p, m, lanes)
  {
    assert lanes[p := l].Keys == lanes.Keys;
  }

  /** Nothing is in the way of a pass over one project that also publishes the catalog. */
  ghost predicate IsClear(s: Catalogs.Solution, p: string, work: Work)
    requires p in s.lanes
    reads s.lanes.Values
  {
    && (!IsEmpty(work.payload) || s.lanes[p].pointer.Some?)
    && work.header.solution == s.id && work.header.project == p && work.header.profile == s.profile
    && Resolves(s.lanes[p].pointer, s.lanes[p].generations) && !Springs(s.lanes[p].State())
    && OthersAreCurrent(s.id, s.profile, p, Catalogs.States(s))
  }

  /** A pass scoped to one project, then the catalog: the new vector pins the generation
      just published for that project, and for every other one what was current. */
  method ScopedPass(
    s: Catalogs.Solution, checkpoints: map<string, Lane>, store: Store, projects: seq<string>,
    p: string, pass: string, work: Work, script: Script, catalogScript: Script)
    returns (o: Outcome<()>)
    requires forall q :: q in projects <==> q in s.lanes
    requires Separate(s, checkpoints) && AllSound(s, checkpoints, store) && p in s.lanes && work.newWork
    modifies store, s.lanes[p], checkpoints[p], s.catalog
    ensures AllSound(s, checkpoints, store)
    ensures o.Ok? ==> PinsOneNew(s.catalog.pointer, p, Sealed(work.payload, work.header), old(Catalogs.States(s)))
    // It does get there when nothing fails and every other project is published.
    ensures script == [] && catalogScript == [] && old(IsClear(s, p, work)) ==> o.Ok?
  {
    ghost var states := Catalogs.States(s);
    var passed := PassForCatalog(s, checkpoints, store, p, pass, work, script);
    if !passed.Ok? { return if passed.Error? then Error else Crashed; }
    ghost var after := s.lanes[p].State();
    o := CatalogOfOne(s, checkpoints, store, projects, p, passed.value, catalogScript);
    if o.Ok? { PinsIgnoreOwnLane(s.catalog.pointer, p, passed.value.value, states, after); }
  }
}
