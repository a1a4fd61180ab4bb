/** One publication moves the live lane and the checkpoint lane of a project. */
module Publication {
  import opened Prelude
  import opened Lanes

  datatype LaneKind = LiveLane | CheckpointLane

  datatype Intent = Intent(revision: nat, generation: Manifest, published: bool)

  /** The outbox after an intent was committed: a row with the same key is kept. */
  function WithIntent(
    outbox: map<(string, nat), Intent>, revisions: nat, project: string, sequence: nat, m: Manifest)
    : map<(string, nat), Intent>
  {
    if (project, sequence) in outbox then outbox
    else outbox[(project, sequence) := Intent(revisions, m, false)]
  }

  /** The publication tables of one solution.  An outbox row is keyed by the
      project and the event sequence, which both its id and its idempotency key
      spell out. */
  class Store {
    var eventSeq: nat
    var revisions: nat
    var outbox: map<(string, nat), Intent>
    var published: map<(string, Manifest, LaneKind), nat>

    constructor ()
      ensures eventSeq == 0 && revisions == 0 && outbox == map[] && published == map[]
    {
      eventSeq, revisions, outbox, published := 0, 0, map[], map[];
    }

    /** One transaction: a revision row, and the intent unless its key exists. */
    method CommitIntent(project: string, sequence: nat, m: Manifest, script: Script)
      returns (o: Outcome<()>, rest: Script)
      modifies this`revisions, this`outbox
      ensures !o.Ok? ==> revisions == old(revisions) && outbox == old(outbox)
      ensures o.Ok? ==>
                && revisions == old(revisions) + 1
                && outbox == WithIntent(old(outbox), old(revisions), project, sequence, m)
                && (project, sequence) in outbox
                && ((project, sequence) !in old(outbox) ==> outbox[(project, sequence)] == Intent(old(revisions), m, false))
                && forall key <- old(outbox) :: key in outbox && outbox[key] == old(outbox)[key]
      ensures Runs(o, script, rest, [Strict])
    {
      var event := Next(script);
      rest := Rest(script);
      if event.Halt? { return Stopped(event), rest; }
      if (project, sequence) !in outbox {
        outbox := outbox[(project, sequence) := Intent(revisions, m, false)];
      }
      revisions := revisions + 1;
      o := Ok(());
    }

    method BumpEventSeq(script: Script) returns (o: Outcome<()>, rest: Script)
      modifies this`eventSeq
      ensures eventSeq == old(eventSeq) + if o.Ok? then 1 else 0
      ensures Runs(o, script, rest, [Strict])
    {
      var event := Next(script);
      rest := Rest(script);
      if event.Halt? { return Stopped(event), rest; }
      eventSeq := eventSeq + 1;
      o := Ok(());
    }

    method MarkPublished(project: string, sequence: nat, script: Script) returns (o: Outcome<()>, rest: Script)
      modifies this`outbox
      ensures o.Ok? ==>
                && (project, sequence) in old(outbox)
                && outbox == old(outbox)[(project, sequence) := old(outbox)[(project, sequence)].(published := true)]
      ensures !o.Ok? ==> outbox == old(outbox)
      ensures old((project, sequence) in outbox) ==> Runs(o, script, rest, [Strict])
    {
      var event := Next(script);
      rest := Rest(script);
      if event.Halt? { return Stopped(event), rest; }
      if (project, sequence) !in outbox { return Error, rest; }
      outbox := outbox[(project, sequence) := outbox[(project, sequence)].(published := true)];
      o := Ok(());
    }

    /** `INSERT OR IGNORE`, taking the revision of the outbox row. */
    method RecordLane(project: string, sequence: nat, m: Manifest, lane: LaneKind, script: Script)
      returns (o: Outcome<()>, rest: Script)
      modifies this`published
      ensures o.Ok? && (project, sequence) in outbox ==> (project, m, lane) in published
      ensures published == old(published)
              || ((project, sequence) in outbox && (project, m, lane) !in old(published)
                  && published == old(published)[(project, m, lane) := outbox[(project, sequence)].revision])
      ensures Runs(o, script, rest, [Strict])
    {
      var event := Next(script);
      rest := Rest(script);
      if event.Halt? { return Stopped(event), rest; }
      if (project, sequence) in outbox && (project, m, lane) !in published {
        published := published[(project, m, lane) := outbox[(project, sequence)].revision];
      }
      o := Ok(());
    }
  }

  /** Every recorded publication names a generation its lane has installed. */
  ghost predicate RecordsInstalled(
    published: map<(string, Manifest, LaneKind), nat>, project: string,
    live: map<Name, Dir>, checkpoint: map<Name, Dir>)
  {
    forall key <- published :: key.0 == project ==>
      Sha(key.1) in (if key.2.LiveLane? then live else checkpoint)
  }

  /** How far a publication got. */
  datatype Phase =
    | SealingLive | RecordingIntent | SealingCheckpoint | MovingLive | MovingCheckpoint | Recording

  predicate BeforeBarrier(phase: Phase) {
    phase.SealingLive? || phase.RecordingIntent? || phase.SealingCheckpoint?
  }

  /** The operations up to a durable intent, the bumped sequence, the checkpoint
      lane's manifest, and the barrier. */
  function IntentOps(live: Contents, p: Payload, m: Manifest): seq<Op> {
    StageOps(live.staging, p, m) + [Strict]
  }

  function BumpOps(live: Contents, p: Payload, m: Manifest): seq<Op> {
    IntentOps(live, p, m) + [Strict]
  }

  function BarrierOps(live: Contents, checkpoint: Contents, p: Payload, m: Manifest): seq<Op> {
    BumpOps(live, p, m) + StageOps(checkpoint.staging, p, m)
  }

  /** Up to the moved live pointer, up to the moved checkpoint pointer, and all. */
  function LiveMovedOps(live: Contents, checkpoint: Contents, p: Payload, m: Manifest): seq<Op> {
    BarrierOps(live, checkpoint, p, m) + MoveOps(live.generations, m)
  }

  function BothMovedOps(live: Contents, checkpoint: Contents, p: Payload, m: Manifest): seq<Op> {
    BarrierOps(live, checkpoint, p, m) + (LaneOps(live.generations, m) + MoveOps(checkpoint.generations, m))
  }

  function BothOps(live: Contents, checkpoint: Contents, m: Manifest): seq<Op> {
    LaneOps(live.generations, m) + LaneOps(checkpoint.generations, m)
  }

  function RecordOps(): seq<Op> {
    [Strict] + [Strict] + [Strict]
  }

  function PublishOps(live: Contents, checkpoint: Contents, p: Payload, m: Manifest): seq<Op> {
    BarrierOps(live, checkpoint, p, m) + (BothOps(live, checkpoint, m) + RecordOps())
  }

  lemma SealingInSequence(script: Script, live: Contents, checkpoint: Contents, p: Payload, m: Manifest)
    ensures var staged := After(script, |StageOps(live.staging, p, m)|);
            var bumped := After(script, |BumpOps(live, p, m)|);
            && After(script, |IntentOps(live, p, m)|) == Rest(staged)
            && bumped == Rest(Rest(staged))
            && After(script, |BarrierOps(live, checkpoint, p, m)|)
               == After(bumped, |StageOps(checkpoint.staging, p, m)|)
            && (Survives(script, IntentOps(live, p, m))
                <==> Survives(script, StageOps(live.staging, p, m)) && Survives(staged, [Strict]))
            && (Survives(script, BumpOps(live, p, m))
                <==> Survives(script, IntentOps(live, p, m)) && Survives(Rest(staged), [Strict]))
            && (Survives(script, BumpOps(live, p, m) + SealOps(p))
                <==> Survives(script, BumpOps(live, p, m)) && Survives(bumped, SealOps(p)))
            && (Survives(script, BarrierOps(live, checkpoint, p, m))
                <==> Survives(script, BumpOps(live, p, m)) && Survives(bumped, StageOps(checkpoint.staging, p, m)))
  {
    InSequence(script, StageOps(live.staging, p, m), [Strict]);
    InSequence(script, IntentOps(live, p, m), [Strict]);
    InSequence(script, BumpOps(live, p, m), SealOps(p));
    InSequence(script, BumpOps(live, p, m), StageOps(checkpoint.staging, p, m));
  }

  /** Seal the live lane, commit the intent, then seal the checkpoint lane. */
  method SealBoth(
    store: Store, live: Lane, checkpoint: Lane, project: string, sequence: nat, pass: string,
    p: Payload, h: Header, script: Script)
    returns (o: Outcome<Manifest>, phase: Phase, rest: Script)
    requires live != checkpoint && live.Sound() && checkpoint.Sound()
    modifies store`revisions, store`outbox, store`eventSeq, live`staging, checkpoint`staging
    ensures live.Sound() && checkpoint.Sound()
    ensures BeforeBarrier(phase)
    // The phase it stopped in, the intent and the sequence follow from the script.
    ensures phase.SealingLive? <==> !Survives(script, StageOps(old(live.staging), p, Sealed(p, h)))
    ensures phase.SealingCheckpoint? <==> Survives(script, BumpOps(old(live.State()), p, Sealed(p, h)))
    ensures store.outbox ==
            if Survives(script, IntentOps(old(live.State()), p, Sealed(p, h)))
            then WithIntent(old(store.outbox), old(store.revisions), project, sequence, Sealed(p, h))
            else old(store.outbox)
    ensures phase.SealingCheckpoint? ==> (project, sequence) in store.outbox
    ensures store.eventSeq == old(store.eventSeq) + if phase.SealingCheckpoint? then 1 else 0
    ensures o.Ok? ==>
              && o.value == Sealed(p, h)
              && Sha(o.value) in live.staging && Sha(o.value) in checkpoint.staging
    ensures StoppedNaming(old(live.State()), old(checkpoint.State()), pass, p, h, script, live.staging, checkpoint.staging)
    ensures Stages(old(live.staging), live.staging, pass, Sealed(p, h))
    ensures Stages(old(checkpoint.staging), checkpoint.staging, pass, Sealed(p, h))
    ensures Runs(o, script, rest, BarrierOps(old(live.State()), old(checkpoint.State()), p, Sealed(p, h)))
  {
    SealingInSequence(script, live.State(), checkpoint.State(), p, Sealed(p, h));
    phase := SealingLive;
    o, rest := live.StageGeneration(pass, p, h, script);
    if !o.Ok? { return; }
    var m := o.value;

    phase := RecordingIntent;
    var w;
    w, rest := store.CommitIntent(project, sequence, m, rest);
    if !w.Ok? { return Relay(w), phase, rest; }
    w, rest := store.BumpEventSeq(rest);
    if !w.Ok? { return Relay(w), phase, rest; }

    phase := SealingCheckpoint;
    var c;
    c, rest := checkpoint.StageGeneration(pass, p, h, rest);
    if !c.Ok? { return c, phase, rest; }
    // Publishing divergent lanes is refused.
    if c.value != m { return Error, phase, rest; }
  }

  /** A publication that stops on naming the checkpoint generation leaves the live
      generation sealed under its digest and the checkpoint one under its pending name. */
  ghost predicate StoppedNaming(
    live: Contents, checkpoint: Contents, pass: string, p: Payload, h: Header, script: Script,
    liveStaging: map<Name, Dir>, checkpointStaging: map<Name, Dir>)
  {
    var m := Sealed(p, h);
    Survives(script, BumpOps(live, p, m) + SealOps(p)) && Sha(m) !in checkpoint.staging
    && !Survives(script, BarrierOps(live, checkpoint, p, m)) ==>
      && Sha(m) in liveStaging && OnlyTouches(live.staging, liveStaging, {Pending(pass), Sha(m)})
      && HalfSealed(checkpointStaging, pass, m)
      && OnlyTouches(checkpoint.staging, checkpointStaging, {Pending(pass), Sha(m)})
  }

  /** The publication barrier: live first, then checkpoint. */
  method MoveBoth(live: Lane, checkpoint: Lane, m: Manifest, script: Script)
    returns (o: Outcome<()>, phase: Phase, rest: Script)
    requires live != checkpoint && live.Sound() && checkpoint.Sound()
    requires Sha(m) in live.staging && Sha(m) in checkpoint.staging
    modifies live, checkpoint
    ensures live.Sound() && checkpoint.Sound()
    ensures Grows(old(live.generations), live.generations)
    ensures Grows(old(checkpoint.generations), checkpoint.generations)
    ensures Moved(old(live.pointer), live.pointer, live.generations, m)
    ensures Moved(old(checkpoint.pointer), checkpoint.pointer, checkpoint.generations, m)
    ensures phase == if o.Ok? then Recording else if phase.MovingLive? then MovingLive else MovingCheckpoint
    ensures phase.MovingLive? ==> checkpoint.pointer == old(checkpoint.pointer)
    ensures !phase.MovingLive? ==> live.pointer == Some(m) && Sha(m) in live.generations
    ensures o.Ok? ==> checkpoint.pointer == Some(m) && Sha(m) in checkpoint.generations
    ensures live.pointer ==
            if Survives(script, MoveOps(old(live.generations), m)) then Some(m) else old(live.pointer)
    ensures checkpoint.pointer ==
            if Survives(script, LaneOps(old(live.generations), m) + MoveOps(old(checkpoint.generations), m))
            then Some(m) else old(checkpoint.pointer)
    ensures Shrinks(old(live.staging), live.staging) && Shrinks(old(checkpoint.staging), checkpoint.staging)
    ensures Runs(o, script, rest, BothOps(old(live.State()), old(checkpoint.State()), m))
  {
    InSequence(script, LaneOps(live.generations, m), MoveOps(checkpoint.generations, m));
    InSequence(script, LaneOps(live.generations, m), LaneOps(checkpoint.generations, m));
    phase := MovingLive;
    o, rest := live.PublishLane(m, script);
    if !o.Ok? { return; }
    phase := MovingCheckpoint;
    o, rest := checkpoint.PublishLane(m, rest);
    if !o.Ok? { return; }
    phase := Recording;
  }

  /** A pointer stayed where it was, or names the installed generation `m`. */
  ghost predicate Moved(
    before: Option<Manifest>, after: Option<Manifest>, generations: map<Name, Dir>, m: Manifest)
  {
    after == before || (after == Some(m) && Sha(m) in generations)
  }

  lemma RecordsStay(
    published: map<(string, Manifest, LaneKind), nat>, project: string,
    live: map<Name, Dir>, checkpoint: map<Name, Dir>, live': map<Name, Dir>, checkpoint': map<Name, Dir>)
    requires RecordsInstalled(published, project, live, checkpoint)
    requires Grows(live, live') && Grows(checkpoint, checkpoint')
    ensures RecordsInstalled(published, project, live', checkpoint')
  {
  }

  /** Mark the intent published and record one row per lane, both of which have it
      installed. */
  method RecordBoth(
    store: Store, project: string, sequence: nat, m: Manifest, script: Script,
    ghost live: map<Name, Dir>, ghost checkpoint: map<Name, Dir>)
    returns (o: Outcome<()>, rest: Script)
    requires (project, sequence) in store.outbox
    requires RecordsInstalled(store.published, project, live, checkpoint) && Sha(m) in live && Sha(m) in checkpoint
    modifies store`outbox, store`published
    ensures RecordsInstalled(store.published, project, live, checkpoint)
    ensures store.outbox == if Survives(script, [Strict]) then old(WithPublished(store.outbox, project, sequence)) else old(store.outbox)
    ensures forall key <- store.published ::
              key in old(store.published) || key == (project, m, LiveLane) || key == (project, m, CheckpointLane)
    ensures o.Ok? ==>
              && (project, m, LiveLane) in store.published && (project, m, CheckpointLane) in store.published
              && store.outbox == old(WithPublished(store.outbox, project, sequence))
    ensures Runs(o, script, rest, RecordOps())
  {
    InSequence(script, [Strict] + [Strict], [Strict]);
    InSequence(script, [Strict], [Strict]);
    o, rest := store.MarkPublished(project, sequence, script);
    if !o.Ok? { return; }
    o, rest := store.RecordLane(project, sequence, m, LiveLane, rest);
    if !o.Ok? { return; }
    o, rest := store.RecordLane(project, sequence, m, CheckpointLane, rest);
  }

  function WithPublished(outbox: map<(string, nat), Intent>, project: string, sequence: nat): map<(string, nat), Intent>
    requires (project, sequence) in outbox
  {
    outbox[(project, sequence) := outbox[(project, sequence)].(published := true)]
  }

  /** Past the barrier: move both pointers, then record the publication. */
  method MoveAndRecord(
    store: Store, live: Lane, checkpoint: Lane, project: string, sequence: nat, m: Manifest, script: Script)
    returns (o: Outcome<()>, phase: Phase, rest: Script)
    requires live != checkpoint && live.Sound() && checkpoint.Sound()
    requires Sha(m) in live.staging && Sha(m) in checkpoint.staging
    requires RecordsInstalled(store.published, project, live.generations, checkpoint.generations)
    requires (project, sequence) in store.outbox
    modifies store`outbox, store`published, live, checkpoint
    ensures live.Sound() && checkpoint.Sound()
    ensures Grows(old(live.generations), live.generations)
    ensures Grows(old(checkpoint.generations), checkpoint.generations)
    ensures RecordsInstalled(store.published, project, live.generations, checkpoint.generations)
    ensures forall key <- store.published :: key.0 == project || key in old(store.published)
    ensures Moved(old(live.pointer), live.pointer, live.generations, m)
    ensures Moved(old(checkpoint.pointer), checkpoint.pointer, checkpoint.generations, m)
    ensures !BeforeBarrier(phase)
    ensures phase.MovingLive? ==> checkpoint.pointer == old(checkpoint.pointer)
    ensures !phase.MovingLive? ==> live.pointer == Some(m)
    ensures phase.Recording? ==> checkpoint.pointer == Some(m)
    ensures live.pointer ==
            if Survives(script, MoveOps(old(live.generations), m)) then Some(m) else old(live.pointer)
    ensures checkpoint.pointer ==
            if Survives(script, LaneOps(old(live.generations), m) + MoveOps(old(checkpoint.generations), m))
            then Some(m) else old(checkpoint.pointer)
    ensures store.outbox == old(store.outbox) || store.outbox == old(WithPublished(store.outbox, project, sequence))
    ensures o.Ok? ==>
              && phase.Recording?
              && Sha(m) in live.generations && Sha(m) in checkpoint.generations
              && (project, m, LiveLane) in store.published && (project, m, CheckpointLane) in store.published
              && store.outbox[(project, sequence)].published
    ensures Shrinks(old(live.staging), live.staging) && Shrinks(old(checkpoint.staging), checkpoint.staging)
    ensures Runs(o, script, rest, BothOps(old(live.State()), old(checkpoint.State()), m) + RecordOps())
  {
    InSequence(script, BothOps(live.State(), checkpoint.State(), m), RecordOps());
    o, phase, rest := MoveBoth(live, checkpoint, m, script);
    RecordsStay(store.published, project, old(live.generations), old(checkpoint.generations),
                live.generations, checkpoint.generations);
    if o.Ok? {
      o, rest := RecordBoth(store, project, sequence, m, rest, live.generations, checkpoint.generations);
    }
  }

  lemma MovingInSequence(script: Script, live: Contents, checkpoint: Contents, p: Payload, m: Manifest)
    ensures var barrier := BarrierOps(live, checkpoint, p, m);
            var sealed := After(script, |barrier|);
            && (Survives(script, LiveMovedOps(live, checkpoint, p, m))
                <==> Survives(script, barrier) && Survives(sealed, MoveOps(live.generations, m)))
            && (Survives(script, BothMovedOps(live, checkpoint, p, m))
                <==> && Survives(script, barrier)
                     && Survives(sealed, LaneOps(live.generations, m) + MoveOps(checkpoint.generations, m)))
            && (Survives(script, PublishOps(live, checkpoint, p, m))
                <==> Survives(script, barrier) && Survives(sealed, BothOps(live, checkpoint, m) + RecordOps()))
            && After(script, |PublishOps(live, checkpoint, p, m)|)
               == After(sealed, |BothOps(live, checkpoint, m) + RecordOps()|)
    ensures Survives(script, BothMovedOps(live, checkpoint, p, m)) ==>
              Survives(script, LiveMovedOps(live, checkpoint, p, m))
  {
    var barrier := BarrierOps(live, checkpoint, p, m);
    var sealed := After(script, |barrier|);
    InSequence(script, barrier, MoveOps(live.generations, m));
    InSequence(script, barrier, LaneOps(live.generations, m) + MoveOps(checkpoint.generations, m));
    InSequence(script, barrier, BothOps(live, checkpoint, m) + RecordOps());
    InSequence(sealed, LaneOps(live.generations, m), MoveOps(checkpoint.generations, m));
    InSequence(sealed, MoveOps(live.generations, m), [Strict]);
  }

  /** The barrier lies past the bumped sequence, which lies past the intent. */
  lemma BarrierIsLate(script: Script, live: Contents, checkpoint: Contents, p: Payload, m: Manifest)
    requires Survives(script, BarrierOps(live, checkpoint, p, m))
    ensures Survives(script, BumpOps(live, p, m)) && Survives(script, IntentOps(live, p, m))
  {
    SealingInSequence(script, live, checkpoint, p, m);
  }

  /** Stage, seal and publish one generation in both lanes. */
  method Publish(
    store: Store, live: Lane, checkpoint: Lane, project: string, sequence: nat, pass: string,
    p: Payload, h: Header, script: Script)
    returns (o: Outcome<Manifest>, phase: Phase, rest: Script)
    requires live != checkpoint && live.Sound() && checkpoint.Sound()
    requires RecordsInstalled(store.published, project, live.generations, checkpoint.generations)
    modifies store, live, checkpoint
    ensures live.Sound() && checkpoint.Sound()
    ensures Grows(old(live.generations), live.generations)
    ensures Grows(old(checkpoint.generations), checkpoint.generations)
    ensures RecordsInstalled(store.published, project, live.generations, checkpoint.generations)
    ensures forall key <- store.published :: key.0 == project || key in old(store.published)
    // Nothing a reader can see changes before both lanes are sealed.
    ensures BeforeBarrier(phase)
            <==> !Survives(script, BarrierOps(old(live.State()), old(checkpoint.State()), p, Sealed(p, h)))
    ensures BeforeBarrier(phase) ==>
              && !o.Ok?
              && live.pointer == old(live.pointer) && checkpoint.pointer == old(checkpoint.pointer)
              && live.generations == old(live.generations) && checkpoint.generations == old(checkpoint.generations)
    ensures StoppedNaming(old(live.State()), old(checkpoint.State()), pass, p, h, script, live.staging, checkpoint.staging)
    ensures Stages(old(live.staging), live.staging, pass, Sealed(p, h))
    ensures Stages(old(checkpoint.staging), checkpoint.staging, pass, Sealed(p, h))
    // Each pointer has moved exactly when the script gets past the operations up to
    // its rename: (old, old), (new, old) or (new, new), and never (old, new).
    ensures live.pointer ==
            if Survives(script, LiveMovedOps(old(live.State()), old(checkpoint.State()), p, Sealed(p, h)))
            then Some(Sealed(p, h)) else old(live.pointer)
    ensures checkpoint.pointer ==
            if Survives(script, BothMovedOps(old(live.State()), old(checkpoint.State()), p, Sealed(p, h)))
            then Some(Sealed(p, h)) else old(checkpoint.pointer)
    ensures Moved(old(live.pointer), live.pointer, live.generations, Sealed(p, h))
    ensures Moved(old(checkpoint.pointer), checkpoint.pointer, checkpoint.generations, Sealed(p, h))
    ensures checkpoint.pointer != old(checkpoint.pointer) ==> live.pointer == Some(Sealed(p, h))
    ensures phase.MovingLive? ==> checkpoint.pointer == old(checkpoint.pointer)
    ensures phase.MovingCheckpoint? || phase.Recording? ==> live.pointer == Some(Sealed(p, h))
    ensures phase.Recording? ==> checkpoint.pointer == Some(Sealed(p, h))
    // Two lanes that agreed disagree exactly when it stops between the two renames.
    ensures old(live.pointer == checkpoint.pointer) ==>
              (live.pointer != checkpoint.pointer <==>
               && old(live.pointer) != Some(Sealed(p, h))
               && Survives(script, LiveMovedOps(old(live.State()), old(checkpoint.State()), p, Sealed(p, h)))
               && !Survives(script, BothMovedOps(old(live.State()), old(checkpoint.State()), p, Sealed(p, h))))
    // The intent, once committed, names this generation unless the key was taken by
    // another one; past the barrier it is durable and the sequence has moved.
    ensures !Survives(script, IntentOps(old(live.State()), p, Sealed(p, h))) ==> store.outbox == old(store.outbox)
    ensures old((project, sequence) in store.outbox) ==>
              && (project, sequence) in store.outbox
              && store.outbox[(project, sequence)].generation == old(store.outbox[(project, sequence)].generation)
    ensures Survives(script, IntentOps(old(live.State()), p, Sealed(p, h))) ==>
              && (project, sequence) in store.outbox
              && (store.outbox[(project, sequence)].generation == Sealed(p, h)
                  <==> (project, sequence) !in old(store.outbox)
                       || old(store.outbox)[(project, sequence)].generation == Sealed(p, h))
    ensures store.eventSeq == old(store.eventSeq)
                              + if Survives(script, BumpOps(old(live.State()), p, Sealed(p, h))) then 1 else 0
    ensures !BeforeBarrier(phase) ==> (project, sequence) in store.outbox && store.eventSeq == old(store.eventSeq) + 1
    ensures o.Ok? ==>
              && o.value == Sealed(p, h) && phase.Recording?
              && Sha(o.value) in live.generations && Sha(o.value) in checkpoint.generations
              && Carries(live.generations[Sha(o.value)], o.value, p, h)
              && Carries(checkpoint.generations[Sha(o.value)], o.value, p, h)
              && (project, o.value, LiveLane) in store.published
              && (project, o.value, CheckpointLane) in store.published
              && store.outbox[(project, sequence)].published
    ensures Runs(o, script, rest, PublishOps(old(live.State()), old(checkpoint.State()), p, Sealed(p, h)))
    ensures script == [] ==> o.Ok? && rest == []
  {
    MovingInSequence(script, live.State(), checkpoint.State(), p, Sealed(p, h));
    NothingStops(PublishOps(live.State(), checkpoint.State(), p, Sealed(p, h)));
    o, phase, rest := SealBoth(store, live, checkpoint, project, sequence, pass, p, h, script);
    if !o.Ok? { return; }
    BarrierIsLate(script, old(live.State()), old(checkpoint.State()), p, Sealed(p, h));
    ghost var l, c := live.staging, checkpoint.staging;
    var m := o.value;
    var w;
    w, phase, rest := MoveAndRecord(store, live, checkpoint, project, sequence, m, rest);
    ShrinkingStages(old(live.staging), l, live.staging, pass, m);
    ShrinkingStages(old(checkpoint.staging), c, checkpoint.staging, pass, m);
    if !w.Ok? { return Relay(w), phase, rest; }
    CompleteCarries(live.generations[Sha(m)], p, h);
    CompleteCarries(checkpoint.generations[Sha(m)], p, h);
  }

  /** A stale intent: a publication that dies between committing its intent and bumping
      the sequence leaves its key to the next one, which keeps the row as it is.  The row
      is then marked published although both pointers name another generation. */
  method StaleIntent(
    store: Store, live: Lane, checkpoint: Lane, project: string, pass: string, p: Payload, q: Payload, h: Header)
    requires live != checkpoint && live.Sound() && checkpoint.Sound()
    requires RecordsInstalled(store.published, project, live.generations, checkpoint.generations)
    requires (project, store.eventSeq) !in store.outbox
    modifies store, live, checkpoint
    ensures live.pointer == Some(Sealed(q, h)) && checkpoint.pointer == Some(Sealed(q, h))
    ensures store.eventSeq == old(store.eventSeq) + 1
    ensures var key := (project, old(store.eventSeq));
            && key in store.outbox && store.outbox[key].published
            && store.outbox[key].generation == Sealed(p, h)
  {
    var l, c, m := live.State(), checkpoint.State(), Sealed(p, h);
    var script := DyingAfter(|IntentOps(l, p, m)|);
    DyingExactly(|IntentOps(l, p, m)|, IntentOps(l, p, m));
    DyingExactly(|IntentOps(l, p, m)|, BumpOps(l, p, m));
    var o, phase, rest := Publish(store, live, checkpoint, project, store.eventSeq, pass, p, h, script);
    assert BeforeBarrier(phase) by {
      if Survives(script, BarrierOps(l, c, p, m)) { BarrierIsLate(script, l, c, p, m); }
    }
    o, phase, rest := Publish(store, live, checkpoint, project, store.eventSeq, pass, q, h, []);
  }
}
