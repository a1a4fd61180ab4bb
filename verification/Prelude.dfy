/** Result types shared by every module of the model. */
module Prelude {

  datatype Option<+T> = None | Some(value: T)

  /** How a call that touches the disk or the store ended.

      `Error` is an error the caller sees; `Crashed` means the process died
      inside the call, so nothing after it ran. */
  datatype Outcome<+T> = Ok(value: T) | Error | Crashed

  /** The files of a generation directory: `manifest.json`,
      `nodes/000000.json`, `edges/000000.json` and `coverage.json`. */
  datatype File = ManifestFile | NodesShard | EdgesShard | CoverageShard

  /** What the world does at one disk or store operation.

      `Done` performs it.  `Halt` stops the call there, either with an error or
      with a crash.  `torn` says that a file write got as far as truncating its
      target, and `kept` names the files a directory removal had not reached. */
  datatype Event = Done | Halt(crash: bool, torn: bool, kept: set<File>)

  /** A script gives one event per operation; past its end everything succeeds.
      Quantifying over scripts quantifies over every crash and error point. */
  type Script = seq<Event>

  function Next(script: Script): Event {
    if script == [] then Done else script[0]
  }

  function Rest(script: Script): Script {
    if script == [] then [] else script[1..]
  }

  function Stopped<T>(event: Event): (o: Outcome<T>)
    requires event.Halt?
    ensures !o.Ok?
  {
    if event.crash then Crashed else Error
  }

  /** What an operation makes of an error: most stop the call, a failed clean-up
      is ignored.  A crash stops everything. */
  datatype Op = Strict | Lenient

  predicate Stops(event: Event, op: Op) {
    event.Halt? && (event.crash || op.Strict?)
  }

  /** Operations `ops`, performed in order on the events of the script, all get
      past.  Every call states its outcome as an exact condition of this form. */
  predicate Survives(script: Script, ops: seq<Op>) {
    ops == [] || (!Stops(Next(script), ops[0]) && Survives(Rest(script), ops[1..]))
  }

  /** The events left after `n` operations. */
  function After(script: Script, n: nat): Script {
    if n <= |script| then script[n..] else []
  }

  /** A call that performs `ops`: it succeeds exactly when the script gets past all
      of them, and then leaves the events after them. */
  ghost predicate Runs<T>(o: Outcome<T>, script: Script, rest: Script, ops: seq<Op>) {
    && (o.Ok? <==> Survives(script, ops))
    && (o.Ok? ==> rest == After(script, |ops|))
  }

  /** A call that performs one operation. */
  predicate RunsOnce<T>(o: Outcome<T>, script: Script, rest: Script) {
    && (o.Ok? <==> Next(script).Done?)
    && (o.Ok? ==> rest == Rest(script))
  }

  lemma {:induction false} InSequence(script: Script, a: seq<Op>, b: seq<Op>)
    ensures Survives(script, a + b) <==> Survives(script, a) && Survives(After(script, |a|), b)
    ensures After(script, |a + b|) == After(After(script, |a|), |b|)
  {
    if a == [] {
      assert a + b == b;
    } else {
      assert (a + b)[1..] == a[1..] + b;
      InSequence(Rest(script), a[1..], b);
    }
  }

  /** The process dies after `n` operations. */
  function DyingAfter(n: nat): (script: Script)
    ensures |script| == n + 1
    ensures Next(script) == if n == 0 then Halt(true, false, {}) else Done
  {
    if n == 0 then [Halt(true, false, {})] else [Done] + DyingAfter(n - 1)
  }

  lemma {:induction false} DyingExactly(n: nat, ops: seq<Op>)
    ensures Survives(DyingAfter(n), ops) <==> |ops| <= n
  {
    if ops != [] && n > 0 {
      assert Rest(DyingAfter(n)) == DyingAfter(n - 1);
      DyingExactly(n - 1, ops[1..]);
    }
  }

  lemma {:induction false} NothingStops(ops: seq<Op>)
    ensures Survives([], ops) && After([], |ops|) == []
  {
    if ops != [] { NothingStops(ops[1..]); }
  }

  /** A digest without collisions. */
  ghost predicate Injective(hash: string -> string) {
    forall a, b :: hash(a) == hash(b) ==> a == b
  }
}
