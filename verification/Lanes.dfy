/** One publication lane: `.staging`, `generations` and the pointer file.

    Every method takes a script of events and performs one disk operation per
    event, so a postcondition that speaks about every outcome speaks about every
    crash point and every error point of the call. */
module Lanes {
  import opened Prelude

  datatype Header = Header(
    solution: string, project: string, profile: string, fingerprint: string, coverage: string)

  datatype Pin = Pin(generation: Manifest, fingerprint: string)

  /** A sealed document.  SHA-256 is treated as injective, so a digest is
      represented by the document it hashes: a project manifest records the
      bytes of every shard, a catalog records one pinned manifest per project. */
  datatype Manifest =
    | Project(header: Header, files: map<File, string>)
    | Catalog(solution: string, profile: string, coverage: string, pins: map<string, Pin>)
  {
    function Files(): map<File, string> {
      if Project? then files else map[]
    }
  }

  /** A directory name under `.staging` or `generations`.  A lowercase digest
      sorts before every `pending-...` label. */
  datatype Name = Pending(pass: string) | Sha(document: Manifest)

  datatype Body = Bytes(bytes: string) | Document(manifest: Manifest) | Torn

  type Dir = map<File, Body>

  datatype Payload = Payload(nodes: Option<string>, edges: Option<string>, coverage: string)

  /** The shards `stage_generation` publishes: empty roles are left out. */
  function Shards(p: Payload): map<File, string> {
    (if p.nodes.Some? then map[NodesShard := p.nodes.value] else map[])
    + (if p.edges.Some? then map[EdgesShard := p.edges.value] else map[])
    + map[CoverageShard := p.coverage]
  }

  function Sealed(p: Payload, h: Header): Manifest {
    Project(h, Shards(p))
  }

  /** What `validate_generation` accepts, with the directory named after it:
      the manifest is whole and every listed shard has the recorded bytes. */
  ghost predicate Complete(d: Dir, m: Manifest) {
    && ManifestFile in d && d[ManifestFile] == Document(m)
    && forall p <- m.Files() :: p in d && d[p] == Bytes(m.Files()[p])
  }

  /** What a reader finds in the directory of a published payload: each role in the shard
      of that role.  The manifest lists a role exactly when it is not empty. */
  ghost predicate Carries(d: Dir, m: Manifest, p: Payload, h: Header) {
    && m.Project? && m.header == h
    && ManifestFile in d && d[ManifestFile] == Document(m)
    && HasRoles(d, m.files.Keys, p)
  }

  ghost predicate HasRoles(d: Dir, files: set<File>, p: Payload) {
    && (NodesShard in files <==> p.nodes.Some?)
    && (EdgesShard in files <==> p.edges.Some?)
    && CoverageShard in files && ManifestFile !in files
    && (p.nodes.Some? ==> NodesShard in d && d[NodesShard] == Bytes(p.nodes.value))
    && (p.edges.Some? ==> EdgesShard in d && d[EdgesShard] == Bytes(p.edges.value))
    && CoverageShard in d && d[CoverageShard] == Bytes(p.coverage)
  }

  lemma ShardsAreRoles(d: Dir, p: Payload)
    requires forall f <- Shards(p) :: f in d && d[f] == Bytes(Shards(p)[f])
    ensures HasRoles(d, Shards(p).Keys, p)
  {
  }

  lemma CompleteCarries(d: Dir, p: Payload, h: Header)
    requires Complete(d, Sealed(p, h))
    ensures Carries(d, Sealed(p, h), p, h)
  {
    assert forall f <- Shards(p) :: f in d && d[f] == Bytes(Shards(p)[f]);
    ShardsAreRoles(d, p);
  }

  /** A possibly half-removed directory: what manifest it still has is its own. */
  ghost predicate Remnant(d: Dir, m: Manifest) {
    ManifestFile in d ==> d[ManifestFile] == Document(m)
  }

  /** What recovery calls sealed: a manifest file that parses.  The shards are
      not looked at. */
  predicate HasManifest(d: Dir) {
    ManifestFile in d && d[ManifestFile].Document?
  }

  ghost predicate InstalledSound(generations: map<Name, Dir>) {
    forall m: Manifest :: Sha(m) in generations ==> Complete(generations[Sha(m)], m)
  }

  /** The inductive core: a digest-named staging directory is complete, unless
      that generation is already installed and the leftover is being removed. */
  ghost predicate StagingSound(staging: map<Name, Dir>, generations: map<Name, Dir>) {
    forall m: Manifest :: Sha(m) in staging ==>
      && Remnant(staging[Sha(m)], m)
      && (Complete(staging[Sha(m)], m) || Sha(m) in generations)
  }

  /** Installed generations are immutable: nothing disappears, nothing changes. */
  ghost predicate Grows(before: map<Name, Dir>, after: map<Name, Dir>) {
    forall n <- before :: n in after && after[n] == before[n]
  }

  /** Nothing outside `names` was touched. */
  ghost predicate OnlyTouches(before: map<Name, Dir>, after: map<Name, Dir>, names: set<Name>) {
    && (forall n <- before :: n !in names ==> n in after && after[n] == before[n])
    && (forall n <- after :: n !in names ==> n in before)
  }

  /** What an interrupted directory removal can leave: some of the files. */
  ghost predicate Partly(before: Dir, after: Dir) {
    forall p <- after :: p in before && after[p] == before[p]
  }

  /** Directories went away, or lost files. */
  ghost predicate Shrinks(before: map<Name, Dir>, after: map<Name, Dir>) {
    forall n <- after :: n in before && Partly(before[n], after[n])
  }

  /** What manifest a directory has, it had before. */
  ghost predicate Unsealed(before: map<Name, Dir>, after: map<Name, Dir>, n: Name)
    requires n in after
  {
    HasManifest(after[n]) ==> n in before && NoNewManifest(before[n], after[n])
  }

  ghost predicate NoNewManifest(before: Dir, after: Dir) {
    ManifestFile in after ==> ManifestFile in before && after[ManifestFile] == before[ManifestFile]
  }

  /** A pass that may publish `m` writes in two directories, and the one manifest it
      writes is `m`. */
  ghost predicate Stages(before: map<Name, Dir>, after: map<Name, Dir>, pass: string, m: Manifest) {
    forall n <- after ::
      || (n in before && Partly(before[n], after[n]))
      || ((n == Pending(pass) || n == Sha(m)) &&
          (Unsealed(before, after, n) || after[n][ManifestFile] == Document(m)))
  }

  lemma ShrinkingStages(a: map<Name, Dir>, b: map<Name, Dir>, c: map<Name, Dir>, pass: string, m: Manifest)
    ensures Shrinks(a, b) && Stages(b, c, pass, m) ==> Stages(a, c, pass, m)
    ensures Stages(a, b, pass, m) && Shrinks(b, c) ==> Stages(a, c, pass, m)
  {
  }

  ghost predicate Resolves(pointer: Option<Manifest>, generations: map<Name, Dir>) {
    pointer.Some? ==> Sha(pointer.value) in generations
  }

  /** A directory listing in name order: digests come before pending labels. */
  ghost predicate IsListing(listing: seq<Name>, names: set<Name>) {
    && (forall n :: n in names <==> n in listing)
    && forall i, j :: 0 <= i < j < |listing| && listing[j].Sha? ==> listing[i].Sha?
  }

  /** A pointer names an installed generation, or recovery has installed a directory
      under a pending name. */
  ghost predicate Excused(pointer: Option<Manifest>, generations: map<Name, Dir>) {
    Resolves(pointer, generations) || exists pass: string :: Pending(pass) in generations
  }

  ghost predicate HasSealed(staging: map<Name, Dir>) {
    exists n: Name :: n in staging && HasManifest(staging[n])
  }

  ghost predicate HasSealedDigest(staging: map<Name, Dir>) {
    exists m: Manifest :: Sha(m) in staging && HasManifest(staging[Sha(m)])
  }

  /** Recovery finds nothing to do. */
  predicate Quiet(pointer: Option<Manifest>, staging: map<Name, Dir>) {
    pointer.Some? || staging == map[]
  }

  /** `n` was moved into place under its own name and the pointer follows its manifest. */
  ghost predicate Adopted(
    n: Name, staging: map<Name, Dir>, installed: map<Name, Dir>, after: Option<Manifest>, installed': map<Name, Dir>)
  {
    && n in staging && HasManifest(staging[n]) && (n.Sha? || !HasSealedDigest(staging))
    && after == Some(staging[n][ManifestFile].manifest)
    && installed' == if n in installed then installed else installed[n := staging[n]]
  }

  /** What the disk holds of one lane. */
  datatype Contents = Contents(pointer: Option<Manifest>, staging: map<Name, Dir>, generations: map<Name, Dir>)

  /** Everything a recovery that runs to its end can leave. */
  ghost predicate Recovered(
    before: Option<Manifest>, staging: map<Name, Dir>, installed: map<Name, Dir>,
    after: Option<Manifest>, installed': map<Name, Dir>)
  {
    if before.Some? || !HasSealed(staging) then after == before && installed' == installed
    else exists n: Name :: Adopted(n, staging, installed, after, installed')
  }

  datatype Observation = Observation(name: Name, hasManifest: bool)

  datatype RecoveryState = RecoveryState(
    pointer: Option<Manifest>,
    targetPresent: bool,
    pinned: Option<Manifest>,
    staging: seq<Observation>)

  datatype RecoveryAction =
    | Nothing
    | InstallSealed(name: Name)
    | DiscardStaging(name: Name)
    | RestorePinned(generation: Manifest)
    | Report

  function FirstSealed(staging: seq<Observation>): (r: Option<Name>)
    ensures r.Some? ==> Observation(r.value, true) in staging
    ensures r.None? ==> forall o <- staging :: !o.hasManifest
  {
    if staging == [] then None
    else if staging[0].hasManifest then Some(staging[0].name)
    else FirstSealed(staging[1..])
  }

  /** The recovery decision. */
  function PlanRecovery(s: RecoveryState): RecoveryAction {
    if s.pointer.Some? then
      if s.targetPresent then Nothing
      else if s.pinned.Some? && s.pinned != s.pointer then RestorePinned(s.pinned.value)
      else Report
    else
      var sealed := FirstSealed(s.staging);
      if sealed.Some? then InstallSealed(sealed.value)
      else if s.staging != [] then DiscardStaging(s.staging[0].name)
      else if s.pinned.Some? then RestorePinned(s.pinned.value)
      else Nothing
  }

  function Observations(listing: seq<Name>, staging: map<Name, Dir>): (o: seq<Observation>)
    requires forall n <- listing :: n in staging
    ensures |o| == |listing|
    ensures forall i | 0 <= i < |o| :: o[i] == Observation(listing[i], HasManifest(staging[listing[i]]))
  {
    if listing == [] then []
    else [Observation(listing[0], HasManifest(staging[listing[0]]))] + Observations(listing[1..], staging)
  }

  /** The one state recovery turns into a dangling pointer: no pointer yet, and
      the first staged directory with a manifest is still under its pending name
      while its content was never installed. */
  predicate Trap(
    pointer: Option<Manifest>, staging: map<Name, Dir>, generations: map<Name, Dir>, listing: seq<Name>)
    requires forall n <- listing :: n in staging
  {
    && pointer.None?
    && var first := FirstSealed(Observations(listing, staging));
       && first.Some? && first.value.Pending?
       && first.value in staging && HasManifest(staging[first.value])
       && Sha(staging[first.value][ManifestFile].manifest) !in generations
  }

  /** The operations of the calls below, in order. */
  function ShardOps(p: Payload): seq<Op> {
    [Strict] + ShardRole(p.nodes) + ShardRole(p.edges) + [Strict]
  }

  function ShardRole(bytes: Option<string>): seq<Op> {
    if bytes.Some? then [Strict] else []
  }

  lemma ShardsInSequence(script: Script, p: Payload)
    ensures var begin, nodes, edges := [Strict], ShardRole(p.nodes), ShardRole(p.edges);
            && ShardOps(p) == begin + nodes + edges + [Strict]
            && (Survives(script, ShardOps(p)) <==>
                && Survives(script, begin) && Survives(After(script, 1), nodes)
                && Survives(After(script, 1 + |nodes|), edges)
                && Survives(After(script, 1 + |nodes| + |edges|), [Strict]))
  {
    var begin, nodes, edges := [Strict], ShardRole(p.nodes), ShardRole(p.edges);
    InSequence(script, begin + nodes + edges, [Strict]);
    InSequence(script, begin + nodes, edges);
    InSequence(script, begin, nodes);
  }

  function SealOps(p: Payload): seq<Op> {
    ShardOps(p) + [Strict] + [Strict]
  }

  function NameOp(staging: map<Name, Dir>, m: Manifest): Op {
    if Sha(m) in staging then Lenient else Strict
  }

  function StageOps(staging: map<Name, Dir>, p: Payload, m: Manifest): seq<Op> {
    SealOps(p) + [NameOp(staging, m)]
  }

  function InstallOps(generations: map<Name, Dir>, m: Manifest): seq<Op> {
    if Sha(m) in generations then [Lenient] else [Strict] + [Strict]
  }

  /** Up to the rename that moves the pointer, and up to the released guard. */
  function MoveOps(generations: map<Name, Dir>, m: Manifest): seq<Op> {
    [Strict] + InstallOps(generations, m) + ([Strict] + [Strict])
  }

  function LaneOps(generations: map<Name, Dir>, m: Manifest): seq<Op> {
    MoveOps(generations, m) + [Strict]
  }

  /** A complete generation that still has its pending name. */
  ghost predicate HalfSealed(staging: map<Name, Dir>, pass: string, m: Manifest) {
    && Pending(pass) in staging && Complete(staging[Pending(pass)], m)
    && Sha(m) !in staging
  }

  class Lane {
    var staging: map<Name, Dir>
    var generations: map<Name, Dir>
    var pointer: Option<Manifest>

    constructor ()
      ensures staging == map[] && generations == map[] && pointer == None
    {
      staging, generations, pointer := map[], map[], None;
    }

    function State(): Contents
      reads this
    {
      Contents(pointer, staging, generations)
    }

    ghost predicate Sound()
      reads this
    {
      InstalledSound(generations) && StagingSound(staging, generations)
    }

    /** Create or truncate one staged file, write it and flush it. */
    method WriteFile(dir: Name, path: File, body: Body, script: Script)
      returns (o: Outcome<()>, rest: Script)
      requires dir in staging
      modifies this`staging
      ensures OnlyTouches(old(staging), staging, {dir}) && dir in staging
      ensures o.Ok? ==> staging[dir] == old(staging)[dir][path := body]
      ensures !o.Ok? ==>
                staging[dir] == old(staging)[dir] || staging[dir] == old(staging)[dir][path := Torn]
      ensures Runs(o, script, rest, [Strict])
    {
      var event := Next(script);
      rest := Rest(script);
      if event.Halt? {
        if event.torn {
          staging := staging[dir := staging[dir][path := Torn]];
        }
        return Stopped(event), rest;
      }
      staging := staging[dir := staging[dir][path := body]];
      o := Ok(());
    }

    /** `remove_dir_all`: not atomic, so a halt leaves any subset of the files. */
    method RemoveTree(dir: Name, script: Script) returns (o: Outcome<()>, rest: Script)
      requires dir in staging
      modifies this`staging
      ensures o.Ok? ==> staging == old(staging) - {dir}
      ensures !o.Ok? ==>
                && dir in staging && Partly(old(staging)[dir], staging[dir])
                && staging == old(staging)[dir := staging[dir]]
      ensures Runs(o, script, rest, [Strict])
      ensures o == Crashed <==> Next(script).Halt? && Next(script).crash
      ensures rest == Rest(script)
    {
      var event := Next(script);
      rest := Rest(script);
      if event.Halt? {
        staging := staging[dir := map p | p in staging[dir] && p in event.kept :: staging[dir][p]];
        return Stopped(event), rest;
      }
      staging := staging - {dir};
      o := Ok(());
    }

    /** `pointer::replace`: write a temporary file, then rename it over the
        pointer.  Only the rename is visible. */
    method ReplacePointer(m: Manifest, script: Script) returns (o: Outcome<()>, rest: Script)
      modifies this`pointer
      ensures o.Ok? ==> pointer == Some(m)
      ensures !o.Ok? ==> pointer == old(pointer)
      ensures Runs(o, script, rest, [Strict] + [Strict])
    {
      InSequence(script, [Strict], [Strict]);
      var event := Next(script);
      rest := Rest(script);
      if event.Halt? { return Stopped(event), rest; }
      event := Next(rest);
      rest := Rest(rest);
      if event.Halt? { return Stopped(event), rest; }
      pointer := Some(m);
      o := Ok(());
    }

    /** Write the shard of a role, unless the role is empty. */
    method WriteRole(dir: Name, path: File, bytes: Option<string>, script: Script)
      returns (o: Outcome<()>, rest: Script)
      requires dir in staging
      modifies this`staging
      ensures OnlyTouches(old(staging), staging, {dir}) && dir in staging
      ensures path != ManifestFile ==> NoNewManifest(old(staging)[dir], staging[dir])
      ensures o.Ok? ==>
                staging[dir] == if bytes.Some? then old(staging)[dir][path := Bytes(bytes.value)] else old(staging)[dir]
      ensures Runs(o, script, rest, ShardRole(bytes))
    {
      if bytes.None? { return Ok(()), script; }
      o, rest := WriteFile(dir, path, Bytes(bytes.value), script);
    }

    /** `begin`, then write every non-empty role.  The directory is not emptied
        first, so it may hold stale files of any kind, a stale manifest included. */
    method StageShards(pass: string, p: Payload, script: Script)
      returns (o: Outcome<set<File>>, rest: Script)
      modifies this`staging
      ensures OnlyTouches(old(staging), staging, {Pending(pass)})
      ensures Pending(pass) in staging ==> Unsealed(old(staging), staging, Pending(pass))
      ensures o.Ok? ==>
                && o.value == Shards(p).Keys && Pending(pass) in staging
                && forall path <- o.value ::
                     path in staging[Pending(pass)] && staging[Pending(pass)][path] == Bytes(Shards(p)[path])
      ensures o.Ok? ==> HasRoles(staging[Pending(pass)], o.value, p)
      ensures Runs(o, script, rest, ShardOps(p))
    {
      ShardsInSequence(script, p);
      var dir := Pending(pass);
      var event := Next(script);
      rest := Rest(script);
      if event.Halt? { return Stopped(event), rest; }
      if dir !in staging {
        staging := staging[dir := map[]];
      }
      var w;
      w, rest := WriteRole(dir, NodesShard, p.nodes, rest);
      if !w.Ok? { return Relay(w), rest; }
      w, rest := WriteRole(dir, EdgesShard, p.edges, rest);
      if !w.Ok? { return Relay(w), rest; }
      w, rest := WriteFile(dir, CoverageShard, Bytes(p.coverage), rest);
      if !w.Ok? { return Relay(w), rest; }
      o := Ok(Shards(p).Keys);
      ShardsAreRoles(staging[dir], p);
    }

    /** Give a sealed pending directory its digest name, or drop it when that
        generation is already staged; a failure to drop it is ignored. */
    method NameByDigest(pass: string, m: Manifest, script: Script) returns (o: Outcome<()>, rest: Script)
      requires Pending(pass) in staging
      modifies this`staging
      ensures OnlyTouches(old(staging), staging, {Pending(pass), Sha(m)})
      ensures o.Ok? ==> Sha(m) in staging
      ensures Sha(m) in staging ==>
                staging[Sha(m)] == old(if Sha(m) in staging then staging[Sha(m)] else staging[Pending(pass)])
      ensures old(Sha(m) in staging) ==> Sha(m) in staging
      ensures Pending(pass) in staging ==> Partly(old(staging)[Pending(pass)], staging[Pending(pass)])
      ensures !o.Ok? && old(Sha(m) !in staging) ==> staging == old(staging)
      ensures Runs(o, script, rest, [NameOp(old(staging), m)])
    {
      var dir := Pending(pass);
      if Sha(m) in staging {
        var w;
        w, rest := RemoveTree(dir, script);
        if w.Crashed? { return Crashed, rest; }
      } else {
        var event := Next(script);
        rest := Rest(script);
        if event.Halt? { return Stopped(event), rest; }
        staging := (staging - {dir})[Sha(m) := staging[dir]];
      }
      o := Ok(());
    }

    /** Write the shards, re-read them to build the manifest, and write the
        manifest, all under the pending name. */
    method SealPending(pass: string, p: Payload, h: Header, script: Script)
      returns (o: Outcome<Manifest>, rest: Script)
      requires Sound()
      modifies this`staging
      ensures Sound()
      ensures OnlyTouches(old(staging), staging, {Pending(pass)})
      ensures Pending(pass) in staging && HasManifest(staging[Pending(pass)]) ==>
                Unsealed(old(staging), staging, Pending(pass))
                || staging[Pending(pass)][ManifestFile] == Document(Sealed(p, h))
      ensures o.Ok? ==>
                && o.value == Sealed(p, h)
                && Pending(pass) in staging && Complete(staging[Pending(pass)], o.value)
      ensures Runs(o, script, rest, SealOps(p))
    {
      InSequence(script, ShardOps(p) + [Strict], [Strict]);
      InSequence(script, ShardOps(p), [Strict]);
      var dir := Pending(pass);
      var s;
      s, rest := StageShards(pass, p, script);
      PendingIsFree(old(staging), staging, generations, pass);
      if !s.Ok? { return if s.Error? then Error else Crashed, rest; }
      var event := Next(rest);
      rest := Rest(rest);
      if event.Halt? { return Stopped(event), rest; }
      var m := Project(h, map path | path in s.value :: staging[dir][path].bytes);
      assert m.files == Shards(p);
      ManifestCompletes(staging[dir], p, h);
      var w;
      w, rest := WriteFile(dir, ManifestFile, Document(m), rest);
      PendingIsFree(old(staging), staging, generations, pass);
      if !w.Ok? { return Relay(w), rest; }
      o := Ok(m);
    }

    /** Stage and seal one generation, then name its directory by its digest. */
    method StageGeneration(pass: string, p: Payload, h: Header, script: Script)
      returns (o: Outcome<Manifest>, rest: Script)
      requires Sound()
      modifies this`staging
      ensures Sound()
      ensures OnlyTouches(old(staging), staging, {Pending(pass), Sha(Sealed(p, h))})
      ensures Stages(old(staging), staging, pass, Sealed(p, h))
      ensures o.Ok? ==> o.value == Sealed(p, h) && Sha(o.value) in staging
      // The directory carries the payload, unless one that is installed already does.
      ensures o.Ok? ==>
                Carries(if Sha(o.value) in generations then generations[Sha(o.value)] else staging[Sha(o.value)], o.value, p, h)
      // Dying between the manifest and the new name leaves the directory sealed
      // under its pending name.
      ensures Survives(script, SealOps(p)) && !o.Ok? && Sha(Sealed(p, h)) !in old(staging) ==>
                HalfSealed(staging, pass, Sealed(p, h))
      ensures Runs(o, script, rest, StageOps(old(staging), p, Sealed(p, h)))
    {
      InSequence(script, SealOps(p), [NameOp(staging, Sealed(p, h))]);
      o, rest := SealPending(pass, p, h, script);
      if !o.Ok? { return; }
      var m := o.value;
      ghost var written := staging;
      var w;
      w, rest := NameByDigest(pass, m, rest);
      NamingIsSound(written, staging, generations, pass, m);
      if !w.Ok? { return Relay(w), rest; }
      CompleteCarries(if Sha(m) in generations then generations[Sha(m)] else staging[Sha(m)], p, h);
    }

    /** Move the sealed directory into place; an installed generation is never
        rewritten. */
    method InstallGeneration(m: Manifest, script: Script) returns (o: Outcome<()>, rest: Script)
      requires Sound()
      requires Sha(m) in staging
      modifies this`staging, this`generations
      ensures Sound() && Grows(old(generations), generations)
      ensures generations == old(generations) || generations == old(generations)[Sha(m) := old(staging)[Sha(m)]]
      ensures o.Ok? ==> Sha(m) in generations
      ensures OnlyTouches(old(staging), staging, {Sha(m)}) && Shrinks(old(staging), staging)
      ensures Runs(o, script, rest, InstallOps(old(generations), m))
    {
      InSequence(script, [Strict], [Strict]);
      if Sha(m) in generations {
        var w;
        w, rest := RemoveTree(Sha(m), script);
        if w.Crashed? { return Crashed, rest; }
        return Ok(()), rest;
      }
      var event := Next(script);
      rest := Rest(script);
      if event.Halt? { return Stopped(event), rest; }
      event := Next(rest);
      rest := Rest(rest);
      if event.Halt? { return Stopped(event), rest; }
      generations, staging := generations[Sha(m) := staging[Sha(m)]], staging - {Sha(m)};
      o := Ok(());
    }

    /** Under the exclusive guard: install, then move the pointer.  Taking or
        releasing the guard can fail too, the latter after the pointer moved. */
    method PublishLane(m: Manifest, script: Script) returns (o: Outcome<()>, rest: Script)
      requires Sound()
      requires Sha(m) in staging
      modifies this
      ensures Sound() && Grows(old(generations), generations)
      ensures pointer == old(pointer) || (pointer == Some(m) && Sha(m) in generations)
      ensures o.Ok? ==> pointer == Some(m) && Sha(m) in generations
      ensures forall n <- generations :: n in old(generations) || n == Sha(m)
      ensures Shrinks(old(staging), staging)
      // The pointer has moved exactly when the operations up to its rename happened.
      ensures pointer == if Survives(script, MoveOps(old(generations), m)) then Some(m) else old(pointer)
      ensures Runs(o, script, rest, LaneOps(old(generations), m))
    {
      InSequence(script, MoveOps(generations, m), [Strict]);
      InSequence(script, [Strict] + InstallOps(generations, m), [Strict] + [Strict]);
      InSequence(script, [Strict], InstallOps(generations, m));
      var event := Next(script);
      rest := Rest(script);
      if event.Halt? { return Stopped(event), rest; }
      o, rest := InstallGeneration(m, rest);
      if !o.Ok? { return; }
      o, rest := ReplacePointer(m, rest);
      if !o.Ok? { return; }
      event := Next(rest);
      rest := Rest(rest);
      if event.Halt? { return Stopped(event), rest; }
      o := Ok(());
    }

    /** Finish or discard what a crash interrupted, before anything else writes. */
    method Resume(listing: seq<Name>, script: Script) returns (o: Outcome<RecoveryAction>, rest: Script)
      requires Sound()
      requires IsListing(listing, staging.Keys)
      modifies this
      ensures Sound() && Grows(old(generations), generations) && Shrinks(old(staging), staging)
      // The decision is the planned one, and this is all it can leave.
      ensures o.Ok? ==>
                o.value == PlanRecovery(RecoveryState(
                    old(pointer), old(pointer.Some? && Sha(pointer.value) in generations), None,
                    Observations(listing, old(staging))))
      ensures o.Ok? ==> Recovered(old(pointer), old(staging), old(generations), pointer, generations)
      ensures !o.Ok? ==> pointer == old(pointer)
      // With nothing sealed and no pointer, one leftover is discarded.
      ensures o.Ok? && old(pointer.None? && !HasSealed(staging) && staging != map[]) ==>
                exists n :: n in old(staging) && staging == old(staging) - {n}
      // Outside the trap, a pointer that resolved still does, at every crash point.
      ensures !old(Trap(pointer, staging, generations, listing)) && old(Resolves(pointer, generations)) ==>
                Resolves(pointer, generations)
      // In the trap, a recovery that runs to its end leaves a dangling pointer.
      ensures old(Trap(pointer, staging, generations, listing)) && o.Ok? ==>
                pointer.Some? && !Resolves(pointer, generations)
      ensures old(Excused(pointer, generations)) ==> Excused(pointer, generations)
      // A lane with a pointer, or with nothing staged, is left alone.
      ensures old(Quiet(pointer, staging)) ==>
                && o.Ok? && rest == script
                && pointer == old(pointer) && staging == old(staging) && generations == old(generations)
      ensures script == [] ==> o.Ok? && rest == []
    {
      NothingStops([Strict]);
      var present := pointer.Some? && Sha(pointer.value) in generations;
      var state := RecoveryState(pointer, present, None, Observations(listing, staging));
      var action := PlanRecovery(state);
      rest := script;
      FoundIffSealed(listing, staging);
      FirstSealedIsDigestIfAny(listing, staging);
      match action
      case InstallSealed(name) =>
        var w;
        w, rest := InstallStaged(name, rest);
        if !w.Ok? { return Relay(w), rest; }
        assert Adopted(name, old(staging), old(generations), pointer, generations);
        return Ok(action), rest;
      case DiscardStaging(name) =>
        assert listing[0] == name;
        var w;
        w, rest := RemoveTree(name, rest);
        if !w.Ok? { return Relay(w), rest; }
        return Ok(action), rest;
      case _ =>
        return Ok(action), rest;
    }

    /** Recovery's install: move the directory under its own name and point at
        what its manifest says, which is only the same thing for a digest name. */
    method InstallStaged(name: Name, script: Script) returns (o: Outcome<()>, rest: Script)
      requires Sound()
      requires name in staging && HasManifest(staging[name])
      modifies this
      ensures Sound() && Grows(old(generations), generations) && Shrinks(old(staging), staging)
      ensures generations == old(generations) || generations == old(generations)[name := old(staging)[name]]
      ensures o.Ok? ==>
                && pointer == Some(old(staging)[name][ManifestFile].manifest)
                && generations == old(if name in generations then generations else generations[name := staging[name]])
      ensures !o.Ok? ==> pointer == old(pointer)
      ensures script == [] ==> o.Ok? && rest == []
    {
      NothingStops([Strict] + [Strict]);
      rest := script;
      var m := staging[name][ManifestFile].manifest;
      if name !in generations {
        var event := Next(rest);
        rest := Rest(rest);
        if event.Halt? { return Stopped(event), rest; }
        generations, staging := generations[name := staging[name]], staging - {name};
      }
      o, rest := ReplacePointer(m, rest);
    }
  }

  function Relay<T>(o: Outcome<()>): (r: Outcome<T>)
    requires !o.Ok?
    ensures !r.Ok?
  {
    if o.Error? then Error else Crashed
  }

  lemma ManifestCompletes(d: Dir, p: Payload, h: Header)
    requires forall path <- Shards(p).Keys :: path in d && d[path] == Bytes(Shards(p)[path])
    ensures Complete(d[ManifestFile := Document(Sealed(p, h))], Sealed(p, h))
  {
  }

  lemma PendingIsFree(
    before: map<Name, Dir>, after: map<Name, Dir>, generations: map<Name, Dir>, pass: string)
    requires StagingSound(before, generations)
    requires OnlyTouches(before, after, {Pending(pass)})
    ensures StagingSound(after, generations)
  {
    forall m: Manifest | Sha(m) in after
      ensures Remnant(after[Sha(m)], m) && (Complete(after[Sha(m)], m) || Sha(m) in generations)
    {
      assert Sha(m) in before;
    }
  }

  lemma NamingIsSound(
    before: map<Name, Dir>, after: map<Name, Dir>, generations: map<Name, Dir>, pass: string, m: Manifest)
    requires StagingSound(before, generations)
    requires OnlyTouches(before, after, {Pending(pass), Sha(m)})
    requires Pending(pass) in before && Complete(before[Pending(pass)], m)
    requires Sha(m) in after ==>
               after[Sha(m)] == if Sha(m) in before then before[Sha(m)] else before[Pending(pass)]
    ensures StagingSound(after, generations)
  {
    forall n: Manifest | Sha(n) in after
      ensures Remnant(after[Sha(n)], n) && (Complete(after[Sha(n)], n) || Sha(n) in generations)
    {
      if n != m { assert Sha(n) in before; }
    }
  }

  lemma {:induction false} FirstSealedOfPrefix(listing: seq<Name>, staging: map<Name, Dir>, k: nat)
    requires forall n <- listing :: n in staging
    requires k < |listing| && HasManifest(staging[listing[k]])
    ensures var r := FirstSealed(Observations(listing, staging));
            r.Some? && exists i :: 0 <= i <= k && listing[i] == r.value && HasManifest(staging[listing[i]])
  {
    if !HasManifest(staging[listing[0]]) {
      FirstSealedOfPrefix(listing[1..], staging, k - 1);
      assert Observations(listing, staging)[1..] == Observations(listing[1..], staging);
      var i :| 0 <= i <= k - 1 && listing[1..][i] == FirstSealed(Observations(listing[1..], staging)).value;
      assert listing[i + 1] == listing[1..][i];
    }
  }

  lemma FoundIffSealed(listing: seq<Name>, staging: map<Name, Dir>)
    requires IsListing(listing, staging.Keys)
    ensures var r := FirstSealed(Observations(listing, staging));
            && (r.Some? <==> HasSealed(staging))
            && (r.Some? ==> r.value in staging && HasManifest(staging[r.value]))
  {
    var obs := Observations(listing, staging);
    var r := FirstSealed(obs);
    if r.Some? {
      var i :| 0 <= i < |obs| && obs[i] == Observation(r.value, true);
      assert listing[i] == r.value;
    }
    if n: Name :| n in staging && HasManifest(staging[n]) {
      var k :| 0 <= k < |listing| && listing[k] == n;
      assert obs[k].hasManifest && obs[k] in obs;
    }
  }

  /** Digest names sort first, so a sealed digest directory always wins. */
  lemma FirstSealedIsDigestIfAny(listing: seq<Name>, staging: map<Name, Dir>)
    requires IsListing(listing, staging.Keys)
    ensures HasSealedDigest(staging) ==>
              var r := FirstSealed(Observations(listing, staging)); r.Some? && r.value.Sha?
  {
    if m: Manifest :| Sha(m) in staging && HasManifest(staging[Sha(m)]) {
      assert Sha(m) in listing;
      var k :| 0 <= k < |listing| && listing[k] == Sha(m);
      FirstSealedOfPrefix(listing, staging, k);
      var i :| 0 <= i <= k && listing[i] == FirstSealed(Observations(listing, staging)).value;
      assert i == k || listing[i].Sha?;
    }
  }

  /** The recovery trap without the listing: no pointer, no digest-named staging
      directory with a manifest, and a sealed pending directory whose content is
      not installed. */
  ghost predicate TrapShape(
    pointer: Option<Manifest>, staging: map<Name, Dir>, generations: map<Name, Dir>)
  {
    && pointer.None?
    && (forall m: Manifest :: Sha(m) in staging ==> !HasManifest(staging[Sha(m)]))
    && exists pass: string :: IsUnclaimed(pass, staging, generations)
  }

  ghost predicate IsUnclaimed(pass: string, staging: map<Name, Dir>, generations: map<Name, Dir>) {
    && Pending(pass) in staging && HasManifest(staging[Pending(pass)])
    && Sha(staging[Pending(pass)][ManifestFile].manifest) !in generations
  }

  lemma Enumeration(names: set<Name>) returns (listing: seq<Name>)
    ensures forall n :: n in names <==> n in listing
  {
    listing := [];
    if n :| n in names {
      var others := Enumeration(names - {n});
      listing := [n] + others;
    }
  }

  lemma {:induction false} UnsealedPrefixIsSkipped(prefix: seq<Name>, suffix: seq<Name>, staging: map<Name, Dir>)
    requires forall n <- prefix + suffix :: n in staging
    requires forall n <- prefix :: !HasManifest(staging[n])
    requires forall n <- suffix :: n in staging
    ensures FirstSealed(Observations(prefix + suffix, staging)) == FirstSealed(Observations(suffix, staging))
  {
    if prefix == [] {
      assert prefix + suffix == suffix;
    } else {
      assert (prefix + suffix)[1..] == prefix[1..] + suffix;
      assert forall n <- prefix[1..] + suffix :: n in prefix + suffix;
      UnsealedPrefixIsSkipped(prefix[1..], suffix, staging);
      assert (prefix + suffix)[0] in prefix;
      var obs := Observations(prefix + suffix, staging);
      assert obs[1..] == Observations(prefix[1..] + suffix, staging);
    }
  }

  lemma TrapHasShape(
    pointer: Option<Manifest>, staging: map<Name, Dir>, generations: map<Name, Dir>, listing: seq<Name>)
    requires IsListing(listing, staging.Keys) && Trap(pointer, staging, generations, listing)
    ensures TrapShape(pointer, staging, generations)
  {
    FoundIffSealed(listing, staging);
    FirstSealedIsDigestIfAny(listing, staging);
    var first := FirstSealed(Observations(listing, staging)).value;
    assert IsUnclaimed(first.pass, staging, generations);
  }

  /** A name order that lists `pass` before every other pending directory. */
  lemma ListingWithFirst(pass: string, names: set<Name>) returns (digests: seq<Name>, suffix: seq<Name>)
    requires Pending(pass) in names
    ensures IsListing(digests + suffix, names)
    ensures (forall n <- digests :: n.Sha?) && suffix != [] && suffix[0] == Pending(pass)
  {
    digests := Enumeration(set n | n in names && n.Sha?);
    var pending := Enumeration(set n | n in names && n.Pending?);
    suffix := [Pending(pass)] + pending;
    assert forall n <- digests :: n in names && n.Sha?;
    assert forall n <- suffix :: n in names && n.Pending?;
    var listing := digests + suffix;
    assert forall i | 0 <= i < |listing| ::
        if i < |digests| then listing[i] in digests else listing[i] in suffix;
    assert forall n :: n in listing <==> n in digests || n in suffix;
  }

  lemma ShapeSprings(
    pointer: Option<Manifest>, staging: map<Name, Dir>, generations: map<Name, Dir>)
    returns (listing: seq<Name>)
    requires TrapShape(pointer, staging, generations)
    ensures IsListing(listing, staging.Keys) && Trap(pointer, staging, generations, listing)
  {
    var pass :| IsUnclaimed(pass, staging, generations);
    var digests, suffix := ListingWithFirst(pass, staging.Keys);
    listing := digests + suffix;
    assert forall n <- suffix :: n in listing;
    assert forall n <- digests :: n in listing;
    UnsealedPrefixIsSkipped(digests, suffix, staging);
    assert FirstSealed(Observations(suffix, staging)) == Some(Pending(pass));
  }

  /** Some name order springs the trap exactly when the lane has its shape. */
  lemma TrapExactly(pointer: Option<Manifest>, staging: map<Name, Dir>, generations: map<Name, Dir>)
    ensures (exists listing: seq<Name> ::
               IsListing(listing, staging.Keys) && Trap(pointer, staging, generations, listing))
            <==> TrapShape(pointer, staging, generations)
  {
    if listing: seq<Name> :|
      IsListing(listing, staging.Keys) && Trap(pointer, staging, generations, listing)
    {
      TrapHasShape(pointer, staging, generations, listing);
    }
    if TrapShape(pointer, staging, generations) {
      var listing := ShapeSprings(pointer, staging, generations);
    }
  }
}
