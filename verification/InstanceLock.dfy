/** The create-exclusive instance lock, one system call per step, with any number of
    processes that acquire, fail, hold, release, die and reuse process ids. */
module InstanceLock {
  import opened Prelude

  type Pid = nat

  /** Where a live process stands.  `Checking` remembers the pid it read. */
  datatype Phase =
    | Idle
    | Trying                 // about to create the lock file
    | Contending             // that failed; about to read the owner record
    | Checking(owner: Pid)   // about to ask whether that pid is alive
    | Removing               // it is not; about to remove the lock file
    | Retrying               // about to create the lock file again
    | Created                // about to write the record through the handle
    | Written                // about to truncate the owner record
    | Recording              // about to write the owner record
    | Holding
    | Releasing              // the owner record is dealt with; the lock file is next

  /** `lock` says that the lock file exists; `record` is the readable owner record. */
  datatype State = State(procs: map<Pid, Phase>, lock: bool, record: Option<Pid>)

  datatype Op =
    | Spawn(p: Pid)
    | Die(p: Pid)
    | Start(p: Pid)
    | Advance(p: Pid)
    | Fail(p: Pid)           // the pending call returns an error

  predicate Acquiring(phase: Phase) {
    !phase.Idle? && !phase.Holding? && !phase.Releasing?
  }

  /** The process created the lock file and has not given it up. */
  predicate Claims(phase: Phase) {
    phase.Created? || phase.Written? || phase.Recording? || phase.Holding? || phase.Releasing?
  }

  function To(s: State, p: Pid, phase: Phase): State {
    s.(procs := s.procs[p := phase])
  }

  /** The pending call of `p` succeeds, or takes its refusal branch. */
  function Advanced(s: State, p: Pid): State
    requires p in s.procs
  {
    match s.procs[p]
    case Idle => s
    case Trying => if s.lock then To(s, p, Contending) else To(s, p, Created).(lock := true)
    case Contending => if s.record.Some? then To(s, p, Checking(s.record.value)) else To(s, p, Idle)
    case Checking(owner) => if owner in s.procs then To(s, p, Idle) else To(s, p, Removing)
    case Removing => if s.lock then To(s, p, Retrying).(lock := false) else To(s, p, Idle)
    case Retrying => if s.lock then To(s, p, Idle) else To(s, p, Created).(lock := true)
    case Created => To(s, p, Written)
    case Written => To(s, p, Recording).(record := None)
    case Recording => To(s, p, Holding).(record := Some(p))
    case Holding => To(s, p, Releasing).(record := None)
    case Releasing => To(s, p, Idle).(lock := false)
  }

  /** An error of the first create goes on to recovery, as if the file had existed; any
      other error gives up an acquire where it stands; a release ignores it and goes on. */
  function Failed(s: State, p: Pid): State
    requires p in s.procs
  {
    match s.procs[p]
    case Trying => To(s, p, Contending)
    case Holding => To(s, p, Releasing)
    case _ => To(s, p, Idle)
  }

  function Do(s: State, op: Op): State {
    match op
    case Spawn(p) => if p in s.procs then s else To(s, p, Idle)
    case Die(p) => s.(procs := s.procs - {p})
    case Start(p) => if p in s.procs && s.procs[p].Idle? then To(s, p, Trying) else s
    case Advance(p) => if p in s.procs then Advanced(s, p) else s
    case Fail(p) => if p in s.procs then Failed(s, p) else s
  }

  function Run(s: State, ops: seq<Op>): State
    decreases |ops|
  {
    if ops == [] then s else Run(Do(s, ops[0]), ops[1..])
  }

  predicate Quiet(s: State) {
    forall p <- s.procs :: !Acquiring(s.procs[p])
  }

  /** No acquire starts while another one is under way. */
  predicate Serialised(s: State, ops: seq<Op>)
    decreases |ops|
  {
    ops != [] ==> (ops[0].Start? ==> Quiet(s)) && Serialised(Do(s, ops[0]), ops[1..])
  }

  ghost predicate AtMostOneOwner(s: State) {
    forall p <- s.procs, q <- s.procs :: s.procs[p].Holding? && s.procs[q].Holding? ==> p == q
  }

  ghost predicate Unclaimed(s: State) {
    forall p <- s.procs :: !Claims(s.procs[p])
  }

  /** What serialised acquires keep, for any two live processes. */
  predicate PairSafe(s: State, p: Pid, q: Pid)
    requires p in s.procs && q in s.procs
  {
    var a, b := s.procs[p], s.procs[q];
    && (Acquiring(a) && Acquiring(b) ==> p == q)
    && (Claims(a) && Claims(b) ==> p == q)
    && (Claims(a) ==> s.lock)
    && (a.Holding? ==> s.record == Some(p))
    && (a.Releasing? ==> s.record.None? || s.record == Some(p))
    && (a.Checking? && Claims(b) ==> q == a.owner)
    && (a.Removing? || a.Retrying? ==> !Claims(b))
  }

  ghost predicate Safe(s: State) {
    forall p <- s.procs, q <- s.procs :: PairSafe(s, p, q)
  }

  lemma AdvancingIsSafe(s: State, p: Pid)
    requires Safe(s) && p in s.procs
    ensures Safe(Advanced(s, p))
  {
    var t := Advanced(s, p);
    forall x, y | x in t.procs && y in t.procs
      ensures PairSafe(t, x, y)
    {
      assert PairSafe(s, x, y) && PairSafe(s, y, x) && PairSafe(s, p, x) && PairSafe(s, x, p);
      assert PairSafe(s, p, y) && PairSafe(s, y, p) && PairSafe(s, p, p);
    }
  }

  lemma StepIsSafe(s: State, op: Op)
    requires Safe(s) && (op.Start? ==> Quiet(s))
    ensures Safe(Do(s, op))
  {
    if op.Advance? && op.p in s.procs {
      AdvancingIsSafe(s, op.p);
    } else {
      var t := Do(s, op);
      forall x, y | x in t.procs && y in t.procs
        ensures PairSafe(t, x, y)
      {
        assert x in s.procs && y in s.procs ==> PairSafe(s, x, y);
        assert x in s.procs && op.p in s.procs ==> PairSafe(s, x, op.p) && PairSafe(s, op.p, x);
        assert y in s.procs && op.p in s.procs ==> PairSafe(s, y, op.p) && PairSafe(s, op.p, y);
      }
    }
  }

  /** Whatever a previous boot left in the files, whoever dies and whichever pids are
      reused: serialised acquires never make two owners, and recovery never removes
      the lock file of a live claimant. */
  lemma {:induction false} SingleWriter(s: State, ops: seq<Op>)
    requires Safe(s) && Serialised(s, ops)
    ensures Safe(Run(s, ops)) && AtMostOneOwner(Run(s, ops))
    ensures forall p <- Run(s, ops).procs :: Run(s, ops).procs[p].Removing? ==> Unclaimed(Run(s, ops))
    decreases |ops|
  {
    if ops == [] {
      forall p, q | p in s.procs && q in s.procs
        ensures s.procs[p].Holding? && s.procs[q].Holding? ==> p == q
        ensures s.procs[p].Removing? ==> !Claims(s.procs[q])
      {
        assert PairSafe(s, p, q);
      }
    } else {
      StepIsSafe(s, ops[0]);
      SingleWriter(Do(s, ops[0]), ops[1..]);
    }
  }

  lemma BootIsSafe(lock: bool, record: Option<Pid>)
    ensures Safe(State(map[], lock, record))
  {
  }

  /** From boot: whatever claim and record an earlier boot left, and no process yet. */
  lemma SingleWriterFromBoot(lock: bool, record: Option<Pid>, ops: seq<Op>)
    requires Serialised(State(map[], lock, record), ops)
    ensures AtMostOneOwner(Run(State(map[], lock, record), ops))
  {
    BootIsSafe(lock, record);
    SingleWriter(State(map[], lock, record), ops);
  }

  /** A claim that lost its readable record: its owner died between two steps. */
  ghost predicate Orphaned(s: State) {
    && s.lock && s.record.None? && Unclaimed(s)
    && forall p <- s.procs :: !s.procs[p].Checking? && !s.procs[p].Removing? && !s.procs[p].Retrying?
  }

  /** Nobody ever takes such a claim over, serialised or not. */
  lemma {:induction false} OrphansAreRespectedForever(s: State, ops: seq<Op>)
    requires Orphaned(s)
    ensures Orphaned(Run(s, ops)) && forall p <- Run(s, ops).procs :: !Run(s, ops).procs[p].Holding?
    decreases |ops|
  {
    if ops != [] {
      assert Orphaned(Do(s, ops[0]));
      OrphansAreRespectedForever(Do(s, ops[0]), ops[1..]);
    }
  }

  /** An owner that dies between removing its record and removing its lock file, or
      before its first record is written, leaves an orphan. */
  lemma DyingMidwayOrphans(s: State, p: Pid)
    requires Safe(s) && p in s.procs && s.record.None?
    requires s.procs[p].Releasing? || s.procs[p].Recording?
    requires forall q <- s.procs :: !s.procs[q].Checking?
    ensures Orphaned(Do(s, Die(p)))
  {
    forall q | q in s.procs && q != p
      ensures !Claims(s.procs[q]) && !s.procs[q].Removing? && !s.procs[q].Retrying?
    {
      assert PairSafe(s, p, q) && PairSafe(s, q, p);
    }
    assert PairSafe(s, p, p);
  }

  function Steps(p: Pid, n: nat): seq<Op> {
    if n == 0 then [] else [Advance(p)] + Steps(p, n - 1)
  }

  lemma {:induction false} RunAppend(s: State, a: seq<Op>, b: seq<Op>)
    ensures Run(s, a + b) == Run(Run(s, a), b)
    decreases |a|
  {
    if a == [] {
      assert a + b == b;
    } else {
      assert (a + b)[0] == a[0] && (a + b)[1..] == a[1..] + b;
      RunAppend(Do(s, a[0]), a[1..], b);
    }
  }

  /** A claim whose recorded owner is dead: three calls decide to remove it. */
  lemma Decides(s: State, p: Pid)
    requires p in s.procs && s.procs[p].Trying? && s.lock && s.record.Some? && s.record.value !in s.procs
    ensures Run(s, Steps(p, 3)) == To(s, p, Removing)
  {
    var s1 := To(s, p, Contending);
    var s2 := To(s1, p, Checking(s.record.value));
    assert Run(s2, Steps(p, 1)) == To(s2, p, Removing) == To(s, p, Removing);
    assert Run(s1, Steps(p, 2)) == Run(s2, Steps(p, 1));
    assert Run(s, Steps(p, 3)) == Run(s1, Steps(p, 2));
  }

  /** A process that created the lock file owns it three calls later. */
  lemma Finishes(s: State, p: Pid)
    requires p in s.procs && s.procs[p].Created?
    ensures Run(s, Steps(p, 3)) == To(s, p, Holding).(record := Some(p))
  {
    var s1 := To(s, p, Written);
    var s2 := To(s1, p, Recording).(record := None);
    assert Run(s2, Steps(p, 1)) == To(s2, p, Holding).(record := Some(p)) == To(s, p, Holding).(record := Some(p));
    assert Run(s1, Steps(p, 2)) == Run(s2, Steps(p, 1));
    assert Run(s, Steps(p, 3)) == Run(s1, Steps(p, 2));
  }

  /** A process that decided to remove a claim removes whatever is there by then. */
  lemma TakesOver(s: State, p: Pid)
    requires p in s.procs && s.procs[p].Removing? && s.lock
    ensures Run(s, Steps(p, 5)) == To(s, p, Holding).(record := Some(p))
  {
    var s1 := To(s, p, Retrying).(lock := false);
    var s2 := To(s1, p, Created).(lock := true);
    Finishes(s2, p);
    assert To(s2, p, Holding) == To(s, p, Holding);
    assert Run(s1, Steps(p, 4)) == Run(s2, Steps(p, 3));
    assert Run(s, Steps(p, 5)) == Run(s1, Steps(p, 4));
  }

  lemma {:induction false} StepsAppend(p: Pid, m: nat, n: nat)
    ensures Steps(p, m) + Steps(p, n) == Steps(p, m + n)
  {
    if m > 0 {
      StepsAppend(p, m - 1, n);
      assert Steps(p, m) + Steps(p, n) == [Advance(p)] + (Steps(p, m - 1) + Steps(p, n));
    } else {
      assert Steps(p, m) + Steps(p, n) == Steps(p, n);
    }
  }

  lemma StaleIsTakenOver(s: State, p: Pid, m: nat, n: nat)
    requires m == 3 && n == 5
    requires p in s.procs && s.procs[p].Trying? && s.lock && s.record.Some? && s.record.value !in s.procs
    ensures Run(s, Steps(p, m + n)) == To(s, p, Holding).(record := Some(p))
  {
    StepsAppend(p, m, n);
    RunAppend(s, Steps(p, m), Steps(p, n));
    Decides(s, p);
    TakesOver(To(s, p, Removing), p);
    assert To(To(s, p, Removing), p, Holding) == To(s, p, Holding);
  }

  /** An acquire that nothing interrupts gets the home exactly when there is no claim, or
      the recorded owner of the claim is dead: in four calls, or in eight.  Otherwise it
      gives up after three and leaves everything as it was. */
  lemma AloneAcquiresExactly(s: State, p: Pid, free: nat, stale: nat, refused: nat)
    requires p in s.procs && s.procs[p].Trying? && free == 4 && stale == 8 && refused == 3
    ensures !s.lock ==>
              Run(s, Steps(p, free)) == To(s, p, Holding).(lock := true, record := Some(p))
    ensures s.lock && s.record.Some? && s.record.value !in s.procs ==>
              Run(s, Steps(p, stale)) == To(s, p, Holding).(record := Some(p))
    ensures s.lock && (s.record.None? || s.record.value in s.procs) ==>
              Run(s, Steps(p, refused)) == To(s, p, Idle)
  {
    if !s.lock {
      TakesFree(s, p);
    } else if s.record.Some? && s.record.value !in s.procs {
      StaleIsTakenOver(s, p, 3, 5);
    } else {
      RefusedAlone(s, p);
    }
  }

  lemma RefusedAlone(s: State, p: Pid)
    requires p in s.procs && s.procs[p].Trying? && s.lock && (s.record.None? || s.record.value in s.procs)
    ensures Run(s, Steps(p, 3)) == To(s, p, Idle)
  {
    var s1 := To(s, p, Contending);
    var s2 := if s.record.Some? then To(s1, p, Checking(s.record.value)) else To(s1, p, Idle);
    assert s2.procs[p := Idle] == s.procs[p := Idle];
    assert Run(s2, Steps(p, 1)) == To(s, p, Idle);
    assert Run(s1, Steps(p, 2)) == Run(s2, Steps(p, 1));
    assert Run(s, Steps(p, 3)) == Run(s1, Steps(p, 2));
  }

  /** Overlapping acquires on a stale claim make two owners: one process decides to
      remove the claim, another takes it over, and the first removes that one. */
  lemma OverlapBreaksTheLock(a: Pid, b: Pid, dead: Pid)
    requires a != b && dead != a && dead != b
    ensures var s := State(map[a := Trying, b := Trying], true, Some(dead));
            !AtMostOneOwner(Run(s, Steps(a, 3) + (Steps(b, 3) + (Steps(b, 5) + Steps(a, 5)))))
  {
    var s := State(map[a := Trying, b := Trying], true, Some(dead));
    RunAppend(s, Steps(a, 3), Steps(b, 3) + (Steps(b, 5) + Steps(a, 5)));
    Decides(s, a);
    var s1 := To(s, a, Removing);
    RunAppend(s1, Steps(b, 3), Steps(b, 5) + Steps(a, 5));
    Decides(s1, b);
    var s2 := To(s1, b, Removing);
    RunAppend(s2, Steps(b, 5), Steps(a, 5));
    TakesOver(s2, b);
    var s3 := To(s2, b, Holding).(record := Some(b));
    TakesOver(s3, a);
    var s4 := To(s3, a, Holding).(record := Some(a));
    assert s4.procs[a].Holding? && s4.procs[b].Holding?;
  }

  /** No crash is needed: a process that read the owner's pid before a clean release
      and asks about it after the owner has exited removes the next owner's claim. */
  lemma OverlapBreaksCleanRelease(a: Pid, b: Pid, c: Pid)
    requires a != b && a != c && b != c
    ensures var s := State(map[a := Holding, b := Trying, c := Trying], true, Some(a));
            var release := [Advance(a), Advance(a), Die(a)];
            !AtMostOneOwner(Run(s, Steps(b, 2) + (release + (Steps(c, 4) + ([Advance(b)] + Steps(b, 5))))))
  {
    var s4 := State(map[b := Checking(a), c := Holding], true, Some(c));
    var last := [Advance(b)] + Steps(b, 5);
    NextOwnerComes(a, b, c, last);
    RunAppend(s4, [Advance(b)], Steps(b, 5));
    var s5 := To(s4, b, Removing);
    assert Run(s4, [Advance(b)]) == s5;
    TakesOver(s5, b);
    var s6 := To(s5, b, Holding).(record := Some(b));
    assert s6.procs[b].Holding? && s6.procs[c].Holding?;
  }

  /** `b` reads the pid of `a` and goes on to ask about it. */
  lemma ReadsOwner(s: State, b: Pid)
    requires b in s.procs && s.procs[b].Trying? && s.lock && s.record.Some?
    ensures Run(s, Steps(b, 2)) == To(s, b, Checking(s.record.value))
  {
    var s1 := To(s, b, Contending);
    assert Run(s1, Steps(b, 1)) == To(s1, b, Checking(s.record.value)) == To(s, b, Checking(s.record.value));
    assert Run(s, Steps(b, 2)) == Run(s1, Steps(b, 1));
  }

  /** A process that finds no lock file owns it four calls later. */
  lemma TakesFree(s: State, c: Pid)
    requires c in s.procs && s.procs[c].Trying? && !s.lock
    ensures Run(s, Steps(c, 4)) == To(s, c, Holding).(lock := true, record := Some(c))
  {
    var s1 := To(s, c, Created).(lock := true);
    Finishes(s1, c);
    assert Run(s, Steps(c, 4)) == Run(s1, Steps(c, 3));
  }

  /** `b` reads the pid of `a`, `a` releases and exits, `c` becomes the owner. */
  lemma NextOwnerComes(a: Pid, b: Pid, c: Pid, last: seq<Op>)
    requires a != b && a != c && b != c
    ensures var s := State(map[a := Holding, b := Trying, c := Trying], true, Some(a));
            var release := [Advance(a), Advance(a), Die(a)];
            Run(s, Steps(b, 2) + (release + (Steps(c, 4) + last))) ==
            Run(State(map[b := Checking(a), c := Holding], true, Some(c)), last)
  {
    var s := State(map[a := Holding, b := Trying, c := Trying], true, Some(a));
    var release := [Advance(a), Advance(a), Die(a)];
    RunAppend(s, Steps(b, 2), release + (Steps(c, 4) + last));
    ReadsOwner(s, b);
    var s1 := To(s, b, Checking(a));
    RunAppend(s1, release, Steps(c, 4) + last);
    Releases(s1, a);
    var s2 := State(map[b := Checking(a), c := Trying], false, None);
    assert s1.procs - {a} == s2.procs;
    RunAppend(s2, Steps(c, 4), last);
    TakesFree(s2, c);
    assert s2.procs[c := Holding] == map[b := Checking(a), c := Holding];
  }

  lemma Releases(s: State, p: Pid)
    requires p in s.procs && s.procs[p].Holding?
    ensures Run(s, [Advance(p), Advance(p), Die(p)]) == State(s.procs - {p}, false, None)
  {
    var s1 := To(s, p, Releasing).(record := None);
    var s2 := To(s1, p, Idle).(lock := false);
    assert s2.procs - {p} == s.procs - {p};
    assert [Advance(p), Advance(p), Die(p)][1..] == [Advance(p), Die(p)];
    assert [Advance(p), Die(p)][1..] == [Die(p)];
    assert Run(s2, [Die(p)]) == Do(s2, Die(p));
    assert Run(s1, [Advance(p), Die(p)]) == Run(s2, [Die(p)]);
  }
}
