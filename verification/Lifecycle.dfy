/** The shutdown token and its claims.  Each call is one critical section. */
module Lifecycle {
  import opened Prelude
  import opened Sorting

  datatype ShutdownRequest = Requested(deadline: nat) | AlreadyRequested(deadline: nat)

  datatype DrainState = Running | Draining(inFlight: nat, remaining: nat) | Drained | DeadlineExpired(inFlight: nat)

  class ClaimGuard {
    const token: ShutdownToken
    var released: bool

    constructor (token: ShutdownToken)
      ensures this.token == token && !released
    {
      this.token, released := token, false;
    }
  }

  class ShutdownToken {
    const deadline: nat
    var requestedAt: Option<nat>
    var inFlight: nat
    /** The claims not yet released. */
    ghost var held: set<ClaimGuard>

    constructor (deadline: nat)
      ensures this.deadline == deadline && requestedAt == None && held == {} && Valid()
    {
      this.deadline, requestedAt, inFlight, held := deadline, None, 0, {};
    }

    /** The counter is the number of claims held. */
    ghost predicate Valid()
      reads this, held
    {
      inFlight == |held| && forall g <- held :: g.token == this && !g.released
    }

    /** Idempotent: the first request fixes the instant the grace period starts. */
    method RequestShutdown(now: nat) returns (r: ShutdownRequest)
      requires Valid()
      modifies this`requestedAt
      ensures Valid()
      ensures old(requestedAt).None? ==> requestedAt == Some(now) && r == Requested(deadline)
      ensures old(requestedAt).Some? ==> requestedAt == old(requestedAt) && r == AlreadyRequested(deadline)
    {
      match requestedAt
      case Some(_) => r := AlreadyRequested(deadline);
      case None =>
        requestedAt := Some(now);
        r := Requested(deadline);
    }

    method Claim() returns (g: Option<ClaimGuard>)
      requires Valid()
      modifies this`inFlight, this`held
      ensures Valid()
      ensures g.None? <==> requestedAt.Some?
      ensures g.None? ==> held == old(held)
      ensures g.Some? ==> fresh(g.value) && held == old(held) + {g.value}
    {
      if requestedAt.Some? { return None; }
      var guard := new ClaimGuard(this);
      inFlight := inFlight + 1;
      held := held + {guard};
      g := Some(guard);
    }

    /** Releasing twice, by hand and then on drop, releases once. */
    method Release(g: ClaimGuard)
      requires Valid() && g.token == this && (g.released || g in held)
      modifies this`inFlight, this`held, g
      ensures Valid() && g.released && held == old(held) - {g}
    {
      if g.released { return; }
      g.released := true;
      held := held - {g};
      if inFlight > 0 { inFlight := inFlight - 1; }
    }

    method Observe(now: nat) returns (d: DrainState)
      requires Valid()
      ensures d == DrainOf(requestedAt, deadline, |held|, now)
    {
      if requestedAt.None? { return Running; }
      if inFlight == 0 { return Drained; }
      var elapsed := if now >= requestedAt.value then now - requestedAt.value else 0;
      if elapsed >= deadline { return DeadlineExpired(inFlight); }
      d := Draining(inFlight, deadline - elapsed);
    }
  }

  function DrainOf(requestedAt: Option<nat>, deadline: nat, held: nat, now: nat): DrainState {
    if requestedAt.None? then Running
    else if held == 0 then Drained
    else
      var elapsed := if now >= requestedAt.value then now - requestedAt.value else 0;
      if elapsed >= deadline then DeadlineExpired(held) else Draining(held, deadline - elapsed)
  }

  /** While claims are held the grace period ends exactly `deadline` after the request, and
      what remains of it counts down to that instant. */
  lemma GracePeriod(requestedAt: nat, deadline: nat, held: nat, now: nat)
    requires held > 0
    ensures requestedAt + deadline <= now ==> DrainOf(Some(requestedAt), deadline, held, now) == DeadlineExpired(held)
    ensures requestedAt <= now < requestedAt + deadline ==>
              DrainOf(Some(requestedAt), deadline, held, now) == Draining(held, requestedAt + deadline - now)
    ensures now < requestedAt && deadline > 0 ==> DrainOf(Some(requestedAt), deadline, held, now) == Draining(held, deadline)
    ensures DrainOf(Some(requestedAt), deadline, 0, now) == Drained && DrainOf(None, deadline, held, now) == Running
  {
  }

  /** What the pool of workers does to the token. */
  datatype Action = Stop(now: nat) | Start | Finish(index: nat)

  ghost predicate Tracked(token: ShutdownToken, guards: seq<ClaimGuard>)
    reads token, guards
  {
    forall g <- guards :: g.token == token && (g.released || g in token.held)
  }

  /** The token between two actions, and how many guards were handed out by then. */
  datatype Snapshot = Snapshot(requestedAt: Option<nat>, held: set<ClaimGuard>, issued: nat)

  /** What one action does, `guards` being all guards handed out in the end. */
  ghost predicate Steps(guards: seq<ClaimGuard>, before: Snapshot, action: Action, after: Snapshot) {
    match action
    case Stop(now) =>
      after == before.(requestedAt := if before.requestedAt.None? then Some(now) else before.requestedAt)
    case Start =>
      if before.requestedAt.Some? then after == before
      else
        && before.issued < |guards| && guards[before.issued] !in before.held
        && after == Snapshot(None, before.held + {guards[before.issued]}, before.issued + 1)
    case Finish(k) =>
      && before.issued <= |guards|
      && after == before.(held := if k < before.issued then before.held - {guards[k]} else before.held)
  }

  /** One action on the token and the guards handed out so far. */
  method Act(token: ShutdownToken, guards: seq<ClaimGuard>, action: Action) returns (guards': seq<ClaimGuard>)
    requires token.Valid() && Tracked(token, guards)
    modifies token, set g | g in guards
    ensures token.Valid() && Tracked(token, guards')
    ensures |guards| <= |guards'| && guards'[..|guards|] == guards
    ensures forall g <- guards' :: g in guards || fresh(g)
    ensures Steps(guards', Snapshot(old(token.requestedAt), old(token.held), |guards|), action,
                  Snapshot(token.requestedAt, token.held, |guards'|))
  {
    guards' := guards;
    match action
    case Stop(now) =>
      var r := token.RequestShutdown(now);
    case Start =>
      var g := token.Claim();
      if g.Some? { guards' := guards + [g.value]; }
    case Finish(k) =>
      if k < |guards| { token.Release(guards[k]); }
  }

  ghost predicate IsTrace(guards: seq<ClaimGuard>, trace: seq<Snapshot>, actions: seq<Action>) {
    && |trace| == |actions| + 1
    && forall i :: 0 <= i < |actions| ==> Steps(guards, trace[i], actions[i], trace[i + 1])
  }

  lemma StepsLater(guards: seq<ClaimGuard>, more: seq<ClaimGuard>, before: Snapshot, action: Action, after: Snapshot)
    requires Steps(guards, before, action, after)
    requires |guards| <= |more| && more[..|guards|] == guards
    ensures Steps(more, before, action, after)
  {
    assert forall k :: 0 <= k < |guards| ==> more[k] == more[..|guards|][k];
  }

  /** Any run of the pool over the guards handed out before it and during it.  Every
      state in between is accounted for. */
  method Run(token: ShutdownToken, given: seq<ClaimGuard>, actions: seq<Action>)
    returns (guards: seq<ClaimGuard>, ghost trace: seq<Snapshot>)
    requires token.Valid() && Tracked(token, given)
    modifies token, set g | g in given
    ensures token.Valid() && Tracked(token, guards)
    ensures IsTrace(guards, trace, actions)
    ensures trace[0] == Snapshot(old(token.requestedAt), old(token.held), |given|)
    ensures trace[|actions|] == Snapshot(token.requestedAt, token.held, |guards|)
  {
    guards := given;
    trace := [Snapshot(token.requestedAt, token.held, |given|)];
    for i := 0 to |actions|
      invariant token.Valid() && Tracked(token, guards)
      invariant forall g <- guards :: g in given || fresh(g)
      invariant |trace| == i + 1 && trace[0] == Snapshot(old(token.requestedAt), old(token.held), |given|)
      invariant trace[i] == Snapshot(token.requestedAt, token.held, |guards|)
      invariant forall j :: 0 <= j < i ==> Steps(guards, trace[j], actions[j], trace[j + 1])
    {
      ghost var before := guards;
      guards := Act(token, guards, actions[i]);
      forall j | 0 <= j < i
        ensures Steps(guards, trace[j], actions[j], trace[j + 1])
      {
        StepsLater(before, guards, trace[j], actions[j], trace[j + 1]);
      }
      trace := trace + [Snapshot(token.requestedAt, token.held, |guards|)];
    }
  }

  /** From the first request on, wherever in the run it comes: no guard is handed out,
      claims are only given back, and the grace period is never extended. */
  lemma {:induction false} OnceRequested(
    guards: seq<ClaimGuard>, trace: seq<Snapshot>, actions: seq<Action>, i: nat, j: nat)
    requires IsTrace(guards, trace, actions) && i <= j <= |actions|
    requires trace[i].requestedAt.Some?
    ensures trace[j].requestedAt == trace[i].requestedAt
    ensures trace[j].issued == trace[i].issued && trace[j].held <= trace[i].held
  {
    if i < j {
      OnceRequested(guards, trace, actions, i, j - 1);
      assert Steps(guards, trace[j - 1], actions[j - 1], trace[j - 1 + 1]);
    }
  }

  /** A stop anywhere in a run, and everything the pool does after it: the first stop
      fixes the grace period, and what an observer is told only moves forward. */
  lemma StopIsFinal(
    guards: seq<ClaimGuard>, trace: seq<Snapshot>, actions: seq<Action>, i: nat, j: nat, deadline: nat, now: nat, now': nat)
    requires IsTrace(guards, trace, actions) && i < j <= |actions| && actions[i].Stop? && now <= now'
    ensures trace[j].requestedAt == if trace[i].requestedAt.Some? then trace[i].requestedAt else Some(actions[i].now)
    ensures trace[j].issued == trace[i].issued && trace[j].held <= trace[i].held
    ensures var before, after := DrainOf(trace[i + 1].requestedAt, deadline, |trace[i + 1].held|, now),
                                 DrainOf(trace[j].requestedAt, deadline, |trace[j].held|, now');
            && !before.Running? && !after.Running?
            && (before.Drained? ==> after.Drained?)
            && (before.DeadlineExpired? ==> !after.Draining?)
  {
    assert Steps(guards, trace[i], actions[i], trace[i + 1]);
    OnceRequested(guards, trace, actions, i + 1, j);
    SubsetCardinality(trace[j].held, trace[i + 1].held);
    DrainMovesForward(trace[j].requestedAt.value, deadline, |trace[i + 1].held|, now, |trace[j].held|, now');
  }

  /** The drain state only moves forward: a drained token stays drained while claims
      only shrink, and an expired deadline stays expired until they are gone. */
  lemma DrainMovesForward(requestedAt: nat, deadline: nat, held: nat, now: nat, held': nat, now': nat)
    requires held' <= held && now <= now'
    ensures DrainOf(Some(requestedAt), deadline, held, now).Drained? ==>
              DrainOf(Some(requestedAt), deadline, held', now').Drained?
    ensures DrainOf(Some(requestedAt), deadline, held, now).DeadlineExpired? ==>
              !DrainOf(Some(requestedAt), deadline, held', now').Draining?
  {
  }
}
