/** Passes over one project: recover both lanes, then publish when needed. */
module Passes {
  import opened Prelude
  import opened Lanes
  import opened Publication
  import opened Sorting

  /** What the analysis half of a pass hands to its publication half.
      `newWork` is "the inventory queued something or a file was analysed". */
  datatype Work = Work(payload: Payload, header: Header, newWork: bool)

  function IsEmpty(p: Payload): bool {
    p.nodes.None? && p.edges.None?
  }

  /** Read `.staging` and sort it by name; digests come out first. */
  method ListStaging(lane: Lane) returns (listing: seq<Name>)
    ensures IsListing(listing, lane.staging.Keys)
  {
    var digests := Enumerate(set n | n in lane.staging && n.Sha?);
    var pending := Enumerate(set n | n in lane.staging && n.Pending?);
    assert forall n <- digests :: n.Sha?;
    assert forall n <- pending :: n.Pending?;
    listing := digests + pending;
    assert forall i | 0 <= i < |listing| :: if i < |digests| then listing[i] in digests else listing[i] in pending;
  }

  /** The trap of `Lanes.TrapExactly`, in the state a pass starts from. */
  ghost predicate Springs(l: Contents) {
    TrapShape(l.pointer, l.staging, l.generations)
  }

  /** No pointer, and nothing recovery could make one of. */
  ghost predicate Pointerless(l: Contents) {
    l.pointer.None? && !HasSealed(l.staging)
  }

  /** What one lane's readers are owed across a step: installed generations stay,
      a resolving pointer stays resolving, and only the recovery trap can turn a
      lane without a pointer into one whose pointer dangles.  Trap or not, a
      dangling pointer comes with a directory installed under a pending name. */
  ghost predicate Kept(trapped: bool, before: Contents, after: Contents) {
    && Grows(before.generations, after.generations)
    && (before.pointer.Some? ==> after.pointer.Some?)
    && (!(trapped && before.pointer.None?) && Resolves(before.pointer, before.generations) ==>
          Resolves(after.pointer, after.generations))
    && (Excused(before.pointer, before.generations) ==> Excused(after.pointer, after.generations))
  }

  ghost predicate RecoveredLane(before: Contents, after: Contents) {
    Recovered(before.pointer, before.staging, before.generations, after.pointer, after.generations)
  }

  /** Recover one lane, listing its staging directory in name order. */
  method Recover(lane: Lane, script: Script) returns (o: Outcome<RecoveryAction>, rest: Script)
    requires lane.Sound()
    modifies lane
    ensures lane.Sound()
    ensures Kept(old(Springs(lane.State())), old(lane.State()), lane.State())
    ensures Shrinks(old(lane.staging), lane.staging)
    ensures o.Ok? ==> RecoveredLane(old(lane.State()), lane.State())
    ensures old(lane.pointer).Some? ==> lane.pointer == old(lane.pointer)
    ensures old(Quiet(lane.pointer, lane.staging)) ==> o.Ok? && rest == script && lane.State() == old(lane.State())
    ensures script == [] ==> o.Ok? && rest == []
  {
    var listing := ListStaging(lane);
    if Trap(lane.pointer, lane.staging, lane.generations, listing) {
      TrapHasShape(lane.pointer, lane.staging, lane.generations, listing);
    }
    o, rest := lane.Resume(listing, script);
  }

  /** Publishing is skipped without new work when both lanes have a pointer. */
  predicate Skips(work: Work, live: Contents, checkpoint: Contents) {
    !work.newWork && live.pointer.Some? && checkpoint.pointer.Some?
  }

  /** What the publication half does to the lanes, at every crash and error point. */
  ghost predicate Served(
    work: Work, pass: string, script: Script, live: Contents, checkpoint: Contents, live': Contents, checkpoint': Contents)
  {
    if Skips(work, live, checkpoint) then live' == live && checkpoint' == checkpoint
    else
      var m := Sealed(work.payload, work.header);
      && live'.pointer == (
           if Survives(script, LiveMovedOps(live, checkpoint, work.payload, m)) then Some(m) else live.pointer)
      && checkpoint'.pointer == (
           if Survives(script, BothMovedOps(live, checkpoint, work.payload, m)) then Some(m) else checkpoint.pointer)
      && Moved(live.pointer, live'.pointer, live'.generations, m)
      && Moved(checkpoint.pointer, checkpoint'.pointer, checkpoint'.generations, m)
      && (!Survives(script, BarrierOps(live, checkpoint, work.payload, m)) ==>
            live'.generations == live.generations && checkpoint'.generations == checkpoint.generations)
      && StoppedNaming(live, checkpoint, pass, work.payload, work.header, script, live'.staging, checkpoint'.staging)
  }

  /** What a pass may do to the staging directory of a lane, however it ends: without
      anything to publish it only cleans up. */
  ghost predicate Staged(
    pass: string, work: Work, first: Option<Manifest>, before: map<Name, Dir>, after: map<Name, Dir>)
  {
    if IsEmpty(work.payload) && first.None? then Shrinks(before, after)
    else Stages(before, after, pass, Sealed(work.payload, work.header))
  }

  /** How the publication half succeeds: with the new generation in both lanes, or
      with the published one when it skips. */
  ghost predicate Reported(
    r: Option<Manifest>, work: Work, live: Contents, checkpoint: Contents, live': Contents, checkpoint': Contents)
  {
    && r.Some? && live'.pointer == r && Sha(r.value) in live'.generations
    && (!Skips(work, live, checkpoint) ==>
          && r == Some(Sealed(work.payload, work.header))
          && checkpoint'.pointer == r && Sha(r.value) in checkpoint'.generations)
  }

  /** Publish when there is new work, or when a lane has no pointer yet. */
  method PublishIfNeeded(
    store: Store, live: Lane, checkpoint: Lane, project: string, sequence: nat, pass: string, work: Work, script: Script)
    returns (o: Outcome<Option<Manifest>>, rest: Script)
    requires live != checkpoint && live.Sound() && checkpoint.Sound()
    requires RecordsInstalled(store.published, project, live.generations, checkpoint.generations)
    modifies store, live, checkpoint
    ensures live.Sound() && checkpoint.Sound()
    ensures RecordsInstalled(store.published, project, live.generations, checkpoint.generations)
    ensures forall key <- store.published :: key.0 == project || key in old(store.published)
    ensures Kept(false, old(live.State()), live.State())
    ensures Kept(false, old(checkpoint.State()), checkpoint.State())
    ensures Served(work, pass, script, old(live.State()), old(checkpoint.State()), live.State(), checkpoint.State())
    ensures Stages(old(live.staging), live.staging, pass, Sealed(work.payload, work.header))
    ensures Stages(old(checkpoint.staging), checkpoint.staging, pass, Sealed(work.payload, work.header))
    ensures o.Ok? ==>
              Reported(o.value, work, old(live.State()), old(checkpoint.State()), live.State(), checkpoint.State())
    ensures script == [] && old(Resolves(live.pointer, live.generations)) ==> o.Ok?
  {
    if !work.newWork && live.pointer.Some? && checkpoint.pointer.Some? {
      // The outcome is read back from the published manifest.
      if Sha(live.pointer.value) !in live.generations { return Error, script; }
      return Ok(live.pointer), script;
    }
    var published, phase;
    published, phase, rest :=
      Publish(store, live, checkpoint, project, sequence, pass, work.payload, work.header, script);
    match published
    case Ok(m) => o := Ok(Some(m));
    case Error => o := Error;
    case Crashed => o := Crashed;
  }

  /** The first steps of a pass: recover both lanes. */
  method RecoverBoth(live: Lane, checkpoint: Lane, script: Script) returns (o: Outcome<()>, rest: Script)
    requires live != checkpoint && live.Sound() && checkpoint.Sound()
    modifies live, checkpoint
    ensures live.Sound() && checkpoint.Sound()
    ensures Kept(old(Springs(live.State())), old(live.State()), live.State())
    ensures Kept(old(Springs(checkpoint.State())), old(checkpoint.State()), checkpoint.State())
    ensures Shrinks(old(live.staging), live.staging) && Shrinks(old(checkpoint.staging), checkpoint.staging)
    ensures o.Ok? ==>
              RecoveredLane(old(live.State()), live.State()) && RecoveredLane(old(checkpoint.State()), checkpoint.State())
    ensures old(live.pointer).Some? ==> live.pointer == old(live.pointer)
    ensures old(checkpoint.pointer).Some? ==> checkpoint.pointer == old(checkpoint.pointer)
    ensures old(Quiet(live.pointer, live.staging) && Quiet(checkpoint.pointer, checkpoint.staging)) ==>
              o.Ok? && rest == script && live.State() == old(live.State()) && checkpoint.State() == old(checkpoint.State())
    ensures script == [] ==> o.Ok? && rest == []
  {
    var a;
    a, rest := Recover(live, script);
    if !a.Ok? { return if a.Error? then Error else Crashed, rest; }
    a, rest := Recover(checkpoint, rest);
    if !a.Ok? { return if a.Error? then Error else Crashed, rest; }
    o := Ok(());
  }

  /** What a pass that runs to its end reports and leaves, by the lanes it found. */
  ghost predicate Completed(
    r: Option<Manifest>, work: Work, live: Contents, checkpoint: Contents, live': Contents, checkpoint': Contents)
  {
    if work.payload.nodes.None? && work.payload.edges.None? && live.pointer.None? then r.None?
    else
      && r.Some? && live'.pointer == r && Sha(r.value) in live'.generations
      && if work.newWork || Pointerless(live) || Pointerless(checkpoint) then
           && r == Some(Sealed(work.payload, work.header))
           && checkpoint'.pointer == r && Sha(r.value) in checkpoint'.generations
         else RecoveredLane(live, live') && RecoveredLane(checkpoint, checkpoint')
  }

  /** After recovery: inventory and analysis, then publication, unless the project has no
      facts and never had a pointer. */
  method Finish(
    store: Store, live: Lane, checkpoint: Lane, project: string, sequence: nat, pass: string,
    before: Option<Manifest>, work: Work, script: Script)
    returns (o: Outcome<Option<Manifest>>, rest: Script)
    requires live != checkpoint && live.Sound() && checkpoint.Sound()
    requires RecordsInstalled(store.published, project, live.generations, checkpoint.generations)
    modifies store, live, checkpoint
    ensures live.Sound() && checkpoint.Sound()
    ensures RecordsInstalled(store.published, project, live.generations, checkpoint.generations)
    ensures forall key <- store.published :: key.0 == project || key in old(store.published)
    ensures Kept(false, old(live.State()), live.State())
    ensures Kept(false, old(checkpoint.State()), checkpoint.State())
    ensures old(Skips(work, live.State(), checkpoint.State())) ==>
              live.State() == old(live.State()) && checkpoint.State() == old(checkpoint.State())
    ensures Staged(pass, work, before, old(live.staging), live.staging)
    ensures Staged(pass, work, before, old(checkpoint.staging), checkpoint.staging)
    ensures o.Ok? ==>
              if IsEmpty(work.payload) && before.None? then o.value.None?
              else Reported(o.value, work, old(live.State()), old(checkpoint.State()), live.State(), checkpoint.State())
    ensures !(IsEmpty(work.payload) && before.None?) && Next(script).Done? ==>
              Served(work, pass, Rest(script), old(live.State()), old(checkpoint.State()), live.State(), checkpoint.State())
    ensures script == [] && old(Resolves(live.pointer, live.generations)) ==> o.Ok?
  {
    // The inventory and the analysis run here.
    var event := Next(script);
    rest := Rest(script);
    if event.Halt? { return Stopped(event), rest; }
    if IsEmpty(work.payload) && before.None? {
      return Ok(None), rest;
    }
    o, rest := PublishIfNeeded(store, live, checkpoint, project, sequence, pass, work, rest);
  }

  lemma RecoveryThenReport(
    r: Option<Manifest>, work: Work, l0: Contents, c0: Contents, l1: Contents, c1: Contents, l2: Contents, c2: Contents)
    requires RecoveredLane(l0, l1) && RecoveredLane(c0, c1)
    requires Reported(r, work, l1, c1, l2, c2)
    requires Skips(work, l1, c1) ==> l2 == l1 && c2 == c1
    requires !(IsEmpty(work.payload) && l0.pointer.None?)
    ensures Completed(r, work, l0, c0, l2, c2)
  {
    if Pointerless(l0) || Pointerless(c0) { assert l1.pointer.None? || c1.pointer.None?; }
    if !Pointerless(l0) && !Pointerless(c0) { assert l1.pointer.Some? && c1.pointer.Some?; }
  }

  lemma PassComposes(
    o: Outcome<Option<Manifest>>, pass: string, work: Work,
    l0: Contents, c0: Contents, l1: Contents, c1: Contents, l2: Contents, c2: Contents)
    requires RecoveredLane(l0, l1) && RecoveredLane(c0, c1)
    requires Kept(Springs(l0), l0, l1) && Kept(false, l1, l2) && Kept(Springs(c0), c0, c1) && Kept(false, c1, c2)
    requires Skips(work, l1, c1) ==> l2 == l1 && c2 == c1
    requires Shrinks(l0.staging, l1.staging) && Staged(pass, work, l0.pointer, l1.staging, l2.staging)
    requires Shrinks(c0.staging, c1.staging) && Staged(pass, work, l0.pointer, c1.staging, c2.staging)
    requires o.Ok? ==>
               if IsEmpty(work.payload) && l0.pointer.None? then o.value.None? else Reported(o.value, work, l1, c1, l2, c2)
    ensures Kept(Springs(l0), l0, l2) && Kept(Springs(c0), c0, c2)
    ensures Staged(pass, work, l0.pointer, l0.staging, l2.staging)
    ensures Staged(pass, work, l0.pointer, c0.staging, c2.staging)
    ensures o.Ok? ==> Completed(o.value, work, l0, c0, l2, c2)
  {
    KeptTrans(Springs(l0), false, l0, l1, l2);
    KeptTrans(Springs(c0), false, c0, c1, c2);
    StagingComposes(pass, work, l0.pointer, l0.staging, l1.staging, l2.staging);
    StagingComposes(pass, work, l0.pointer, c0.staging, c1.staging, c2.staging);
    if o.Ok? && !(IsEmpty(work.payload) && l0.pointer.None?) { RecoveryThenReport(o.value, work, l0, c0, l1, c1, l2, c2); }
  }

  /** One pass over one project, from recovery to its outcome. */
  method Pass(store: Store, live: Lane, checkpoint: Lane, project: string, pass: string, work: Work, script: Script)
    returns (o: Outcome<Option<Manifest>>, rest: Script)
    requires live != checkpoint && live.Sound() && checkpoint.Sound()
    requires RecordsInstalled(store.published, project, live.generations, checkpoint.generations)
    modifies store, live, checkpoint
    ensures live.Sound() && checkpoint.Sound()
    ensures RecordsInstalled(store.published, project, live.generations, checkpoint.generations)
    ensures forall key <- store.published :: key.0 == project || key in old(store.published)
    ensures Kept(old(Springs(live.State())), old(live.State()), live.State())
    ensures Kept(old(Springs(checkpoint.State())), old(checkpoint.State()), checkpoint.State())
    // New work, and a pointer that is missing after recovery, are always published to
    // both lanes; otherwise a pass leaves what recovery made of the lanes.
    ensures o.Ok? ==>
              Completed(o.value, work, old(live.State()), old(checkpoint.State()), live.State(), checkpoint.State())
    // Lanes that have their pointers keep them unless there is something to publish.
    ensures old(Skips(work, live.State(), checkpoint.State())) ==>
              live.State() == old(live.State()) && checkpoint.State() == old(checkpoint.State())
    // Staged directories that appear, and manifests in them, are the pass's own.
    ensures Staged(pass, work, old(live.pointer), old(live.staging), live.staging)
    ensures Staged(pass, work, old(live.pointer), old(checkpoint.staging), checkpoint.staging)
    // Where recovery has nothing to do, each crash point is accounted for.
    ensures old(Quiet(live.pointer, live.staging) && Quiet(checkpoint.pointer, checkpoint.staging))
            && !(IsEmpty(work.payload) && old(live.pointer).None?) && Next(script).Done? ==>
              Served(work, pass, Rest(script), old(live.State()), old(checkpoint.State()), live.State(), checkpoint.State())
    ensures script == [] && old(Resolves(live.pointer, live.generations) && !Springs(live.State())) ==> o.Ok?
  {
    var before := live.pointer;
    var sequence := store.eventSeq;
    ghost var l0, c0 := live.State(), checkpoint.State();
    var recovered;
    recovered, rest := RecoverBoth(live, checkpoint, script);
    if !recovered.Ok? {
      ShrinkingIsStaged(pass, work, before, l0.staging, live.staging);
      ShrinkingIsStaged(pass, work, before, c0.staging, checkpoint.staging);
      return Relay(recovered), rest;
    }
    ghost var l1, c1 := live.State(), checkpoint.State();
    o, rest := Finish(store, live, checkpoint, project, sequence, pass, before, work, rest);
    PassComposes(o, pass, work, l0, c0, l1, c1, live.State(), checkpoint.State());
  }

  lemma ShrinkingIsStaged(
    pass: string, work: Work, first: Option<Manifest>, before: map<Name, Dir>, after: map<Name, Dir>)
    requires Shrinks(before, after)
    ensures Staged(pass, work, first, before, after)
  {
  }

  lemma StagingComposes(
    pass: string, work: Work, first: Option<Manifest>, a: map<Name, Dir>, b: map<Name, Dir>, c: map<Name, Dir>)
    requires Shrinks(a, b) && Staged(pass, work, first, b, c)
    ensures Staged(pass, work, first, a, c)
  {
    ShrinkingStages(a, b, c, pass, Sealed(work.payload, work.header));
  }

  lemma KeptTrans(s: bool, t: bool, a: Contents, b: Contents, c: Contents)
    requires Kept(s, a, b) && Kept(t, b, c)
    ensures Kept(s || t, a, c)
  {
  }

  /** Some pass of a history began in the recovery trap. */
  ghost predicate SprungLive(starts: seq<(Contents, Contents)>) {
    exists s <- starts :: Springs(s.0)
  }

  ghost predicate SprungCheckpoint(starts: seq<(Contents, Contents)>) {
    exists s <- starts :: Springs(s.1)
  }

  /** What one pass may do to both lanes. */
  ghost predicate PassRelates(
    step: (string, Work, Script), before: (Contents, Contents), after: (Contents, Contents))
  {
    var (pass, work, script) := step;
    var (l, c) := before;
    && Kept(Springs(l), l, after.0) && Kept(Springs(c), c, after.1)
    && Staged(pass, work, l.pointer, l.staging, after.0.staging)
    && Staged(pass, work, l.pointer, c.staging, after.1.staging)
    && (Skips(work, l, c) ==> after == before)
    && (Quiet(l.pointer, l.staging) && Quiet(c.pointer, c.staging)
        && !(IsEmpty(work.payload) && l.pointer.None?) && Next(script).Done? ==>
          Served(work, pass, Rest(script), l, c, after.0, after.1))
  }

  /** The states before each pass of a history, and the last one, follow one another by
      those passes. */
  ghost predicate IsRun(
    history: seq<(string, Work, Script)>, starts: seq<(Contents, Contents)>, last: (Contents, Contents))
  {
    && |starts| == |history|
    && (starts != [] ==>
          && PassRelates(history[|history| - 1], starts[|starts| - 1], last)
          && IsRun(history[..|history| - 1], starts[..|starts| - 1], starts[|starts| - 1]))
  }

  lemma RunExtends(
    history: seq<(string, Work, Script)>, i: nat, starts: seq<(Contents, Contents)>,
    before: (Contents, Contents), after: (Contents, Contents))
    requires i < |history| && IsRun(history[..i], starts, before) && PassRelates(history[i], before, after)
    ensures IsRun(history[..i + 1], starts + [before], after)
    ensures (starts + [before] + [after])[0] == (starts + [before])[0]
  {
    var longer := starts + [before];
    assert longer[..|starts|] == starts && longer[|starts|] == before;
    assert history[..i + 1][..i] == history[..i] && history[..i + 1][i] == history[i];
  }

  /** Over a whole history, a pointer that resolved still does, unless a pass began in
      the trap. */
  lemma {:induction false} RunKeeps(
    history: seq<(string, Work, Script)>, starts: seq<(Contents, Contents)>, last: (Contents, Contents))
    requires IsRun(history, starts, last)
    ensures Kept(SprungLive(starts), (starts + [last])[0].0, last.0)
    ensures Kept(SprungCheckpoint(starts), (starts + [last])[0].1, last.1)
    decreases |history|
  {
    if starts != [] {
      var init, before := starts[..|starts| - 1], starts[|starts| - 1];
      RunKeeps(history[..|history| - 1], init, before);
      assert starts == init + [before] && (starts + [last])[0] == starts[0];
      KeptTrans(SprungLive(init), Springs(before.0), starts[0].0, before.0, last.0);
      KeptTrans(SprungCheckpoint(init), Springs(before.1), starts[0].1, before.1, last.1);
      SprungOneMore(init, before);
    }
  }

  lemma SprungOneMore(init: seq<(Contents, Contents)>, before: (Contents, Contents))
    ensures SprungLive(init + [before]) <==> SprungLive(init) || Springs(before.0)
    ensures SprungCheckpoint(init + [before]) <==> SprungCheckpoint(init) || Springs(before.1)
  {
    assert forall s <- init :: s in init + [before];
    assert before in init + [before];
  }

  method RunOne(store: Store, live: Lane, checkpoint: Lane, project: string, step: (string, Work, Script))
    requires live != checkpoint && live.Sound() && checkpoint.Sound()
    requires RecordsInstalled(store.published, project, live.generations, checkpoint.generations)
    modifies store, live, checkpoint
    ensures live.Sound() && checkpoint.Sound()
    ensures RecordsInstalled(store.published, project, live.generations, checkpoint.generations)
    ensures PassRelates(step, (old(live.State()), old(checkpoint.State())), (live.State(), checkpoint.State()))
  {
    var o, rest := Pass(store, live, checkpoint, project, step.0, step.1, step.2);
  }

  /** Any history of passes, each with its own work, crash and error points.  `starts`
      holds what the disk held before each of them. */
  method Run(
    store: Store, live: Lane, checkpoint: Lane, project: string, history: seq<(string, Work, Script)>)
    returns (ghost starts: seq<(Contents, Contents)>)
    requires live != checkpoint && live.Sound() && checkpoint.Sound()
    requires RecordsInstalled(store.published, project, live.generations, checkpoint.generations)
    modifies store, live, checkpoint
    ensures live.Sound() && checkpoint.Sound()
    ensures RecordsInstalled(store.published, project, live.generations, checkpoint.generations)
    ensures IsRun(history, starts, (live.State(), checkpoint.State()))
    ensures (starts + [(live.State(), checkpoint.State())])[0] == (old(live.State()), old(checkpoint.State()))
    // Over the whole history, a pointer that resolved still does, unless a pass began
    // in the trap and the lane had no pointer to begin with.
    ensures Kept(SprungLive(starts), old(live.State()), live.State())
    ensures Kept(SprungCheckpoint(starts), old(checkpoint.State()), checkpoint.State())
  {
    starts := [];
    for i := 0 to |history|
      invariant live.Sound() && checkpoint.Sound()
      invariant RecordsInstalled(store.published, project, live.generations, checkpoint.generations)
      invariant IsRun(history[..i], starts, (live.State(), checkpoint.State()))
      invariant (starts + [(live.State(), checkpoint.State())])[0] == (old(live.State()), old(checkpoint.State()))
    {
      ghost var before := (live.State(), checkpoint.State());
      RunOne(store, live, checkpoint, project, history[i]);
      RunExtends(history, i, starts, before, (live.State(), checkpoint.State()));
      starts := starts + [before];
    }
    assert history[..|history|] == history;
    RunKeeps(history, starts, (live.State(), checkpoint.State()));
  }

  /** The directory holds the manifest that pass publishes, under a name of that pass. */
  ghost predicate IsAuthor(step: (string, Work, Script), n: Name, d: Dir) {
    var m := Sealed(step.1.payload, step.1.header);
    HasManifest(d) && d[ManifestFile] == Document(m) && (n == Pending(step.0) || n == Sha(m))
  }

  /** Everything recovery could adopt was sealed by one of these passes. */
  ghost predicate Authored(history: seq<(string, Work, Script)>, staging: map<Name, Dir>) {
    forall n <- staging :: HasManifest(staging[n]) ==> exists step <- history :: IsAuthor(step, n, staging[n])
  }

  lemma PassAuthors(
    history: seq<(string, Work, Script)>, step: (string, Work, Script), first: Option<Manifest>,
    before: map<Name, Dir>, after: map<Name, Dir>)
    requires Authored(history, before) && Staged(step.0, step.1, first, before, after)
    ensures Authored(history + [step], after)
  {
    forall n | n in after && HasManifest(after[n])
      ensures exists s <- history + [step] :: IsAuthor(s, n, after[n])
    {
      if n in before && NoNewManifest(before[n], after[n]) {
        var s :| s in history && IsAuthor(s, n, before[n]);
        assert s in history + [step] && IsAuthor(s, n, after[n]);
      } else {
        assert IsAuthor(step, n, after[n]) && step in history + [step];
      }
    }
  }

  lemma {:induction false} RunAuthors(
    history: seq<(string, Work, Script)>, starts: seq<(Contents, Contents)>, last: (Contents, Contents))
    requires IsRun(history, starts, last)
    requires var first := (starts + [last])[0]; first.0.staging == map[] && first.1.staging == map[]
    ensures Authored(history, last.0.staging) && Authored(history, last.1.staging)
    decreases |history|
  {
    if starts != [] {
      var shorter, init, before := history[..|history| - 1], starts[..|starts| - 1], starts[|starts| - 1];
      var step := history[|history| - 1];
      assert (init + [before])[0] == starts[0] && (starts + [last])[0] == starts[0];
      RunAuthors(shorter, init, before);
      assert history == shorter + [step];
      PassAuthors(shorter, step, before.0.pointer, before.0.staging, last.0.staging);
      PassAuthors(shorter, step, before.0.pointer, before.1.staging, last.1.staging);
    }
  }

  lemma {:induction false} RunPrefix(
    history: seq<(string, Work, Script)>, starts: seq<(Contents, Contents)>, last: (Contents, Contents), k: nat)
    requires IsRun(history, starts, last) && k < |starts|
    ensures IsRun(history[..k], starts[..k], starts[k])
    decreases |history|
  {
    var n := |starts| - 1;
    if k < n {
      RunPrefix(history[..n], starts[..n], starts[n], k);
      assert history[..n][..k] == history[..k] && starts[..n][..k] == starts[..k];
    }
  }

  /** The states of a run that begins with nothing staged hold what its passes sealed:
      before each pass, what the ones before it did. */
  lemma StartsAreAuthored(
    history: seq<(string, Work, Script)>, starts: seq<(Contents, Contents)>, last: (Contents, Contents), k: nat)
    requires IsRun(history, starts, last) && k < |starts|
    requires starts[0].0.staging == map[] && starts[0].1.staging == map[]
    ensures Authored(history[..k], starts[k].0.staging) && Authored(history[..k], starts[k].1.staging)
  {
    RunPrefix(history, starts, last, k);
    assert (starts[..k] + [starts[k]])[0] == starts[0];
    RunAuthors(history[..k], starts[..k], starts[k]);
  }

  /** From two new lanes: after any history every pointer is absent or resolves, unless
      a pass began in the trap.  Even then a dangling pointer comes with a directory
      installed under a pending name. */
  method RunFromEmpty(project: string, history: seq<(string, Work, Script)>)
    returns (store: Store, live: Lane, checkpoint: Lane, ghost starts: seq<(Contents, Contents)>)
    ensures fresh(store) && fresh(live) && fresh(checkpoint)
    ensures IsRun(history, starts, (live.State(), checkpoint.State()))
    ensures starts != [] ==> starts[0] == (Contents(None, map[], map[]), Contents(None, map[], map[]))
    ensures live.pointer.None? || Sha(live.pointer.value) in live.generations || SprungLive(starts)
    ensures checkpoint.pointer.None? || Sha(checkpoint.pointer.value) in checkpoint.generations || SprungCheckpoint(starts)
    ensures Excused(live.pointer, live.generations) && Excused(checkpoint.pointer, checkpoint.generations)
    // A directory that springs the trap was sealed, under its pending name, by an earlier
    // pass of the history.
    ensures forall k | 0 <= k < |starts| ::
              Authored(history[..k], starts[k].0.staging) && Authored(history[..k], starts[k].1.staging)
  {
    store := new Store();
    live := new Lane();
    checkpoint := new Lane();
    starts := Run(store, live, checkpoint, project, history);
    forall k | 0 <= k < |starts|
      ensures Authored(history[..k], starts[k].0.staging) && Authored(history[..k], starts[k].1.staging)
    {
      StartsAreAuthored(history, starts, (live.State(), checkpoint.State()), k);
    }
  }

  /** Two lanes that agree can be made to disagree for good: the pass with new work dies
      between the two renames, and no later pass without new work, complete or not,
      brings the lanes together again. */
  method SplitLanes(
    store: Store, live: Lane, checkpoint: Lane, project: string, pass: string, work: Work,
    later: seq<(string, Work, Script)>)
    requires live != checkpoint && live.Sound() && checkpoint.Sound()
    requires RecordsInstalled(store.published, project, live.generations, checkpoint.generations)
    requires live.pointer.Some? && live.pointer == checkpoint.pointer
    requires work.newWork && Some(Sealed(work.payload, work.header)) != live.pointer
    requires forall step <- later :: !step.1.newWork
    modifies store, live, checkpoint
    ensures live.pointer == Some(Sealed(work.payload, work.header)) && Sha(live.pointer.value) in live.generations
    ensures checkpoint.pointer == old(checkpoint.pointer)
    ensures live.pointer != checkpoint.pointer
  {
    ghost var l, c, m := live.State(), checkpoint.State(), Sealed(work.payload, work.header);
    var n := |LiveMovedOps(live.State(), checkpoint.State(), work.payload, Sealed(work.payload, work.header))|;
    DyingExactly(n, LiveMovedOps(l, c, work.payload, m));
    DyingExactly(n, BothMovedOps(l, c, work.payload, m));
    assert Rest(DyingAfter(n + 1)) == DyingAfter(n);
    var o, rest := Pass(store, live, checkpoint, project, pass, work, DyingAfter(n + 1));
    for i := 0 to |later|
      invariant live.Sound() && checkpoint.Sound()
      invariant RecordsInstalled(store.published, project, live.generations, checkpoint.generations)
      invariant live.pointer == Some(m) && Sha(m) in live.generations && checkpoint.pointer == old(checkpoint.pointer)
    {
      assert later[i] in later;
      o, rest := Pass(store, live, checkpoint, project, later[i].0, later[i].1, later[i].2);
    }
  }

  lemma StageLengths(l: Contents, c: Contents, p: Payload, m: Manifest)
    ensures |BarrierOps(l, c, p, m)| == |BumpOps(l, p, m) + SealOps(p)| + 1
  {
  }

  /** What recovery can adopt after that first pass. */
  lemma OnlyTheseAreStaged(live: map<Name, Dir>, checkpoint: map<Name, Dir>, pass: string, m: Manifest)
    requires OnlyTouches(map[], live, {Pending(pass), Sha(m)}) && StagingSound(live, map[]) && Sha(m) in live
    requires OnlyTouches(map[], checkpoint, {Pending(pass), Sha(m)}) && HalfSealed(checkpoint, pass, m)
    ensures HasSealed(live) && HasSealedDigest(live) && HasSealed(checkpoint)
    ensures forall n <- live :: n.Sha? ==> n == Sha(m)
    ensures live[Sha(m)][ManifestFile] == Document(m)
    ensures checkpoint.Keys == {Pending(pass)} && checkpoint[Pending(pass)][ManifestFile] == Document(m)
  {
    assert Complete(live[Sha(m)], m);
  }

  /** A first pass over new lanes that dies on renaming the sealed checkpoint directory. */
  method DieNaming(store: Store, live: Lane, checkpoint: Lane, project: string, pass: string, work: Work)
    requires live != checkpoint && live.State() == Contents(None, map[], map[]) && checkpoint.State() == live.State()
    requires RecordsInstalled(store.published, project, live.generations, checkpoint.generations)
    requires work.newWork && !IsEmpty(work.payload)
    modifies store, live, checkpoint
    ensures live.Sound() && checkpoint.Sound()
    ensures RecordsInstalled(store.published, project, live.generations, checkpoint.generations)
    ensures live.pointer.None? && live.generations == map[] && checkpoint.pointer.None? && checkpoint.generations == map[]
    ensures var m := Sealed(work.payload, work.header);
            && OnlyTouches(map[], live.staging, {Pending(pass), Sha(m)}) && Sha(m) in live.staging
            && OnlyTouches(map[], checkpoint.staging, {Pending(pass), Sha(m)})
            && HalfSealed(checkpoint.staging, pass, m)
  {
    ghost var l, c, m := live.State(), checkpoint.State(), Sealed(work.payload, work.header);
    var n := |BumpOps(live.State(), work.payload, Sealed(work.payload, work.header)) + SealOps(work.payload)|;
    StageLengths(l, c, work.payload, m);
    DyingExactly(n, BumpOps(l, work.payload, m) + SealOps(work.payload));
    DyingExactly(n, BarrierOps(l, c, work.payload, m));
    DyingExactly(n, LiveMovedOps(l, c, work.payload, m));
    DyingExactly(n, BothMovedOps(l, c, work.payload, m));
    assert Rest(DyingAfter(n + 1)) == DyingAfter(n);
    var o, rest := Pass(store, live, checkpoint, project, pass, work, DyingAfter(n + 1));
  }

  /** The trap is reachable: the second pass succeeds, without new work, and leaves the
      checkpoint pointer dangling. */
  method DanglingPointer(project: string, pass: string, work: Work)
    returns (store: Store, live: Lane, checkpoint: Lane, o: Outcome<Option<Manifest>>)
    requires work.newWork && !IsEmpty(work.payload)
    ensures fresh(store) && fresh(live) && fresh(checkpoint)
    ensures o == Ok(Some(Sealed(work.payload, work.header)))
    ensures live.pointer == o.value && Sha(o.value.value) in live.generations
    ensures checkpoint.pointer == o.value && Sha(o.value.value) !in checkpoint.generations
  {
    store := new Store();
    live := new Lane();
    checkpoint := new Lane();
    DieNaming(store, live, checkpoint, project, pass, work);
    OnlyTheseAreStaged(live.staging, checkpoint.staging, pass, Sealed(work.payload, work.header));
    var rest;
    o, rest := Pass(store, live, checkpoint, project, pass, work.(newWork := false), []);
  }
}
