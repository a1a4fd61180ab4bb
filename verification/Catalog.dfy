/** The solution catalog pins one generation per registered project. */
module Catalogs {
  import opened Prelude
  import opened Lanes

  /** A registered solution: its live lanes by project id, and its catalog lane. */
  datatype Solution = Solution(id: string, profile: string, lanes: map<string, Lane>, catalog: Lane)

  const COMPLETE := "complete_for_profile"
  const PARTIAL := "partial"

  function CoverageOf(m: Manifest): string {
    if m.Project? then m.header.coverage else m.coverage
  }

  ghost function Installed(s: Solution): (g: map<string, map<Name, Dir>>)
    reads s.lanes.Values
  {
    map p | p in s.lanes :: s.lanes[p].generations
  }

  /** What the disk holds of every live lane. */
  ghost function States(s: Solution): map<string, Contents>
    reads s.lanes.Values
  {
    map p | p in s.lanes :: s.lanes[p].State()
  }

  ghost function GenerationsOf(states: map<string, Contents>): map<string, map<Name, Dir>> {
    map p | p in states :: states[p].generations
  }

  lemma StatesAre(s: Solution, states: map<string, Contents>)
    requires states.Keys == s.lanes.Keys && forall p <- s.lanes :: s.lanes[p].State() == states[p]
    ensures States(s) == states && Installed(s) == GenerationsOf(states)
  {
  }

  /** `c` is a catalog of the solution whose every pin is an installed generation
      of the right project, profile and fingerprint. */
  ghost predicate PinsInstalled(c: Manifest, id: string, profile: string, installed: map<string, map<Name, Dir>>) {
    && c.Catalog? && c.solution == id && c.profile == profile
    && c.pins.Keys == installed.Keys
    && forall p <- c.pins ::
         var g := c.pins[p].generation;
         && Sha(g) in installed[p] && g.Project?
         && g.header.solution == id && g.header.project == p && g.header.profile == profile
         && g.header.fingerprint == c.pins[p].fingerprint
  }

  /** No retained catalog dangles. */
  ghost predicate Closed(
    catalogs: map<Name, Dir>, id: string, profile: string, installed: map<string, map<Name, Dir>>)
  {
    && InstalledSound(catalogs)
    && forall c: Manifest :: Sha(c) in catalogs ==> PinsInstalled(c, id, profile, installed)
  }

  ghost predicate AllGrow(before: map<string, map<Name, Dir>>, after: map<string, map<Name, Dir>>) {
    before.Keys == after.Keys && forall p <- before :: Grows(before[p], after[p])
  }

  /** Publishing into project lanes never breaks a catalog. */
  lemma ClosedUnderGrowth(
    catalogs: map<Name, Dir>, id: string, profile: string,
    installed: map<string, map<Name, Dir>>, installed': map<string, map<Name, Dir>>)
    requires Closed(catalogs, id, profile, installed) && AllGrow(installed, installed')
    ensures Closed(catalogs, id, profile, installed')
  {
    forall c: Manifest | Sha(c) in catalogs
      ensures PinsInstalled(c, id, profile, installed')
    {
      assert PinsInstalled(c, id, profile, installed);
      forall p <- c.pins
        ensures Sha(c.pins[p].generation) in installed'[p]
      {
        assert Grows(installed[p], installed'[p]);
      }
    }
  }

  lemma ClosedAdding(
    catalogs: map<Name, Dir>, catalogs': map<Name, Dir>, c: Manifest, id: string, profile: string,
    installed: map<string, map<Name, Dir>>)
    requires Closed(catalogs, id, profile, installed) && InstalledSound(catalogs')
    requires forall n <- catalogs' :: n in catalogs || n == Sha(c)
    requires PinsInstalled(c, id, profile, installed)
    ensures Closed(catalogs', id, profile, installed)
  {
  }

  /** What publication checks about one member before pinning it: the manifest
      file of the named generation hashes to its name and describes this project. */
  predicate MemberVerified(id: string, profile: string, project: string, g: Manifest, generations: map<Name, Dir>) {
    && Sha(g) in generations
    && HasManifest(generations[Sha(g)]) && generations[Sha(g)][ManifestFile].manifest == g
    && g.Project?
    && g.header.solution == id && g.header.project == project && g.header.profile == profile
  }

  /** The generation that stands for a project: the outcome of this pass if it covered
      the project, and otherwise what its live pointer names. */
  function Named(lane: Lane, outcomes: map<string, Option<Manifest>>, p: string): Option<Manifest>
    reads lane
  {
    if p in outcomes then outcomes[p] else lane.pointer
  }

  /** Every registered project has a generation to pin: the outcome of this pass if it
      covered the project, and otherwise what its live pointer names, and the manifest file
      of that generation is there and describes this project of this solution. */
  ghost predicate HasAllMembers(s: Solution, outcomes: map<string, Option<Manifest>>)
    reads s.lanes.Values
  {
    forall p <- s.lanes ::
      var g := if p in outcomes then outcomes[p] else s.lanes[p].pointer;
      g.Some? && MemberVerified(s.id, s.profile, p, g.value, s.lanes[p].generations)
  }

  /** In a sound lane the check asks for no more than an installed generation of the
      project. */
  lemma InstalledIsVerified(id: string, profile: string, project: string, g: Manifest, generations: map<Name, Dir>)
    requires InstalledSound(generations)
    ensures MemberVerified(id, profile, project, g, generations) <==>
            && Sha(g) in generations && g.Project?
            && g.header.solution == id && g.header.project == project && g.header.profile == profile
  {
    assert Sha(g) in generations ==> Complete(generations[Sha(g)], g);
  }

  ghost predicate IsMember(
    id: string, profile: string, lane: Lane, outcomes: map<string, Option<Manifest>>, p: string, pin: Pin)
    reads lane
  {
    && MemberVerified(id, profile, p, pin.generation, lane.generations)
    && pin.fingerprint == pin.generation.header.fingerprint
    && Some(pin.generation) == Named(lane, outcomes, p)
  }

  /** Collect the member vector: the outcome of a project this pass covered, and
      otherwise the generation its live pointer names. */
  method CollectMembers(s: Solution, projects: seq<string>, outcomes: map<string, Option<Manifest>>)
    returns (o: Outcome<map<string, Pin>>, complete: bool)
    requires forall p <- projects :: p in s.lanes
    ensures !o.Crashed?
    ensures o.Ok? ==>
              && o.value.Keys == (set p | p in projects)
              && forall p <- projects :: IsMember(s.id, s.profile, s.lanes[p], outcomes, p, o.value[p])
    ensures o.Ok? ==> (complete <==> forall p <- projects :: CoverageOf(o.value[p].generation) == COMPLETE)
    // It refuses exactly when some member is missing or does not verify.
    ensures o.Ok? <==> forall p <- projects ::
                         var g := Named(s.lanes[p], outcomes, p);
                         g.Some? && MemberVerified(s.id, s.profile, p, g.value, s.lanes[p].generations)
  {
    var pins: map<string, Pin> := map[];
    complete := true;
    for i := 0 to |projects|
      invariant pins.Keys == set p | p in projects[..i]
      invariant forall p <- projects[..i] :: IsMember(s.id, s.profile, s.lanes[p], outcomes, p, pins[p])
      invariant complete <==> forall p <- projects[..i] :: CoverageOf(pins[p].generation) == COMPLETE
    {
      var p := projects[i];
      assert projects[..i + 1] == projects[..i] + [p];
      var named := Named(s.lanes[p], outcomes, p);
      if named.None? || !MemberVerified(s.id, s.profile, p, named.value, s.lanes[p].generations) {
        assert p in projects;
        return Error, complete;
      }
      var g := named.value;
      complete := complete && CoverageOf(g) == COMPLETE;
      pins := pins[p := Pin(g, g.header.fingerprint)];
    }
    assert projects[..|projects|] == projects;
    o := Ok(pins);
  }

  /** Stage the catalog under its own digest, then, under the guard, install it
      and move the pointer last. */
  method PublishDocument(catalog: Lane, c: Manifest, script: Script) returns (o: Outcome<()>, rest: Script)
    requires InstalledSound(catalog.generations) && c.Catalog?
    modifies catalog
    ensures InstalledSound(catalog.generations) && Grows(old(catalog.generations), catalog.generations)
    ensures forall n <- catalog.generations :: n in old(catalog.generations) || n == Sha(c)
    ensures catalog.pointer == old(catalog.pointer)
            || (catalog.pointer == Some(c) && Sha(c) in catalog.generations)
    ensures o.Ok? ==> catalog.pointer == Some(c) && Sha(c) in catalog.generations
    ensures script == [] ==> o.Ok? && rest == []
  {
    o, rest := StageDocument(catalog, c, script);
    if !o.Ok? { return; }
    o, rest := InstallDocument(catalog, c, rest);
  }

  /** Begin a staging directory named after the catalog and write its document. */
  method StageDocument(catalog: Lane, c: Manifest, script: Script) returns (o: Outcome<()>, rest: Script)
    modifies catalog`staging
    ensures o.Ok? ==>
              Sha(c) in catalog.staging
              && ManifestFile in catalog.staging[Sha(c)] && catalog.staging[Sha(c)][ManifestFile] == Document(c)
    ensures script == [] ==> o.Ok? && rest == []
  {
    var dir := Sha(c);
    var event := Next(script);
    rest := Rest(script);
    if event.Halt? { return Stopped(event), rest; }
    if dir !in catalog.staging {
      catalog.staging := catalog.staging[dir := map[]];
    }
    NothingStops([Strict]);
    o, rest := catalog.WriteFile(dir, ManifestFile, Document(c), rest);
  }

  /** Under the guards, install the staged document and move the pointer last. */
  method InstallDocument(catalog: Lane, c: Manifest, script: Script) returns (o: Outcome<()>, rest: Script)
    requires InstalledSound(catalog.generations) && c.Catalog?
    requires Sha(c) in catalog.staging && Complete(catalog.staging[Sha(c)], c)
    modifies catalog
    ensures InstalledSound(catalog.generations) && Grows(old(catalog.generations), catalog.generations)
    ensures forall n <- catalog.generations :: n in old(catalog.generations) || n == Sha(c)
    ensures catalog.pointer == old(catalog.pointer)
            || (catalog.pointer == Some(c) && Sha(c) in catalog.generations)
    ensures o.Ok? ==> catalog.pointer == Some(c) && Sha(c) in catalog.generations
    ensures script == [] ==> o.Ok? && rest == []
  {
    var dir := Sha(c);
    NothingStops([Strict]);
    NothingStops([Strict] + [Strict]);
    // The admission and data guards are taken in that order.
    var event := Next(script);
    rest := Rest(script);
    if event.Halt? { return Stopped(event), rest; }
    if dir in catalog.generations {
      o, rest := catalog.RemoveTree(dir, rest);
      if !o.Ok? { return; }
    } else {
      event := Next(rest);
      rest := Rest(rest);
      if event.Halt? { return Stopped(event), rest; }
      catalog.generations, catalog.staging :=
        catalog.generations[dir := catalog.staging[dir]], catalog.staging - {dir};
    }
    o, rest := catalog.ReplacePointer(c, rest);
    if !o.Ok? { return; }
    event := Next(rest);
    rest := Rest(rest);
    if event.Halt? { return Stopped(event), rest; }
    o := Ok(());
  }

  /** The member vector of a catalog: what this pass built for the projects it
      covered, and what is current for the rest; complete only if all are. */
  ghost predicate IsVector(c: Manifest, s: Solution, outcomes: map<string, Option<Manifest>>)
    reads s.lanes.Values
  {
    VectorOf(c, s.id, s.profile, States(s), outcomes)
  }

  ghost predicate VectorOf(
    c: Manifest, id: string, profile: string, states: map<string, Contents>, outcomes: map<string, Option<Manifest>>)
  {
    && PinsInstalled(c, id, profile, GenerationsOf(states))
    && (forall p <- states :: Some(c.pins[p].generation) == if p in outcomes then outcomes[p] else states[p].pointer)
    && (c.coverage == COMPLETE <==>
        forall p <- states :: c.pins[p].generation.Project? && c.pins[p].generation.header.coverage == COMPLETE)
  }

  method BuildCatalog(s: Solution, projects: seq<string>, outcomes: map<string, Option<Manifest>>)
    returns (o: Outcome<Manifest>)
    requires forall p :: p in projects <==> p in s.lanes
    ensures !o.Crashed?
    ensures o.Ok? ==> IsVector(o.value, s, outcomes)
    ensures o.Ok? <==> HasAllMembers(s, outcomes)
  {
    var members, complete := CollectMembers(s, projects, outcomes);
    if !members.Ok? { return Error; }
    var c := Catalog(s.id, s.profile, if complete then COMPLETE else PARTIAL, members.value);
    VerifiedMembersAreInstalled(s, c);
    o := Ok(c);
  }

  /** What a catalog lane owes its readers: nothing it retains dangles, and its
      pointer names a retained catalog. */
  ghost predicate Sound(s: Solution)
    reads s.lanes.Values, s.catalog
  {
    && Closed(s.catalog.generations, s.id, s.profile, Installed(s))
    && Resolves(s.catalog.pointer, s.catalog.generations)
  }

  /** Publish the full member vector, also after a pass scoped to some projects:
      either the old catalog stays current or a complete new vector replaces it. */
  method PublishSolutionCatalog(
    s: Solution, projects: seq<string>, outcomes: map<string, Option<Manifest>>, script: Script)
    returns (o: Outcome<()>, rest: Script)
    requires forall p :: p in projects <==> p in s.lanes
    requires s.catalog !in s.lanes.Values && Sound(s)
    modifies s.catalog
    ensures Sound(s)
    ensures Grows(old(s.catalog.generations), s.catalog.generations)
    ensures s.catalog.pointer == old(s.catalog.pointer)
            || (s.catalog.pointer.Some? && IsVector(s.catalog.pointer.value, s, outcomes))
    ensures o.Ok? && projects != [] ==>
              s.catalog.pointer.Some? && IsVector(s.catalog.pointer.value, s, outcomes)
    // It refuses only for a missing member, so a pass scoped to one project publishes too.
    ensures o.Ok? ==> projects == [] || old(HasAllMembers(s, outcomes))
    ensures script == [] && old(HasAllMembers(s, outcomes)) ==> o.Ok?
    ensures projects == [] ==> o.Ok? && s.catalog.pointer == old(s.catalog.pointer)
    ensures States(s) == old(States(s)) && Installed(s) == old(Installed(s))
  {
    rest := script;
    o := Ok(());
    if projects != [] {
      var built := BuildCatalog(s, projects, outcomes);
      if built.Ok? {
        o, rest := PublishVector(s, built.value, outcomes, script);
      } else {
        o := Error;
      }
    }
  }

  method PublishVector(s: Solution, c: Manifest, ghost outcomes: map<string, Option<Manifest>>, script: Script)
    returns (o: Outcome<()>, rest: Script)
    requires s.catalog !in s.lanes.Values && Sound(s)
    requires IsVector(c, s, outcomes)
    modifies s.catalog
    ensures Sound(s) && IsVector(c, s, outcomes)
    ensures Grows(old(s.catalog.generations), s.catalog.generations)
    ensures s.catalog.pointer == old(s.catalog.pointer) || s.catalog.pointer == Some(c)
    ensures o.Ok? ==> s.catalog.pointer == Some(c)
    ensures script == [] ==> o.Ok? && rest == []
    ensures States(s) == old(States(s)) && Installed(s) == old(Installed(s))
  {
    ghost var before, installed, states := s.catalog.generations, Installed(s), States(s);
    StatesAre(s, states);
    o, rest := PublishDocument(s.catalog, c, script);
    forall p | p in s.lanes
      ensures s.lanes[p].State() == states[p]
    {
      assert s.lanes[p] in s.lanes.Values && s.lanes[p] != s.catalog;
    }
    StatesAre(s, states);
    ClosedAdding(before, s.catalog.generations, c, s.id, s.profile, installed);
  }

  lemma VerifiedMembersAreInstalled(s: Solution, c: Manifest)
    requires c.Catalog? && c.solution == s.id && c.profile == s.profile && c.pins.Keys == s.lanes.Keys
    requires forall p <- c.pins ::
               && MemberVerified(s.id, s.profile, p, c.pins[p].generation, s.lanes[p].generations)
               && c.pins[p].fingerprint == c.pins[p].generation.header.fingerprint
    ensures PinsInstalled(c, s.id, s.profile, Installed(s))
  {
  }
}
