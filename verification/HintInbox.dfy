/** The durable inbox of change hints, and its delivery into the job queue. */
module HintInbox {
  import opened HintText
  import opened Prelude
  import opened Sorting
  import opened Text

  const LIMIT := 4096

  /** A file of the inbox.  `Opaque` stands for bytes that are no intent. */
  datatype Entry = Opaque | Document(intent: Intent)

  datatype Job = Job(solution: string, kind: string, scope: string, pending: bool, target: nat)

  const RECONCILE := "RECONCILE"

  /** The job table and the event sequence of each registered solution. */
  datatype Db = Db(jobs: map<string, Job>, events: map<string, nat>)

  /** The partial unique index over pending jobs. */
  predicate HasPending(db: Db, solution: string, scope: string) {
    exists id <- db.jobs ::
      var j := db.jobs[id]; j.pending && j.solution == solution && j.kind == RECONCILE && j.scope == scope
  }

  predicate IsFor(r: Request, solution: string, project: string) {
    r.solution == solution && r.project == project
  }

  /** `INSERT OR IGNORE`: a pending job of the same scope makes it a no-op. */
  function Enqueued(db: Db, id: string, r: Request, target: nat): Db {
    if id in db.jobs || HasPending(db, r.solution, r.project) then db
    else db.(jobs := db.jobs[id := Job(r.solution, RECONCILE, r.project, true, target)])
  }

  function Bumped(db: Db, solution: string): Db
    requires solution in db.events
  {
    db.(events := db.events[solution := db.events[solution] + 1])
  }

  /** One intent's transaction.  None is an error that rolls it back. */
  function Delivered(db: Db, id: string, requests: seq<Request>): Option<Db>
    decreases |requests|
  {
    if requests == [] then Some(db)
    else
      var r := requests[0];
      if id in db.jobs then Delivered(db, id, requests[1..])
      else if r.solution !in db.events then None
      else
        var bumped := Bumped(db, r.solution);
        Delivered(Enqueued(bumped, id, r, bumped.events[r.solution]), id, requests[1..])
  }

  function Suffixed(id: string): string {
    id + ".json"
  }

  /** The extension is `json`; a bare `.json` has none. */
  predicate IsJson(name: string) {
    |name| > 5 && name[|name| - 5..] == ".json"
  }

  /** The names an ingest visits are those of intents with an id. */
  lemma JsonNames(name: string)
    ensures IsJson(name) <==> exists id :: id != "" && name == Suffixed(id)
  {
    if IsJson(name) {
      var id := name[..|name| - 5];
      assert name == Suffixed(id) && id != "";
    }
    if id :| id != "" && name == Suffixed(id) {
      assert name[|name| - 5..] == ".json";
    }
  }

  /** The checks a file passes before its transaction begins. */
  predicate Acceptable(valid: Request -> bool, name: string, entry: Entry) {
    && entry.Document?
    && IsReadable(entry.intent)
    && name == Suffixed(entry.intent.id)
    && 0 < |entry.intent.requests| <= LIMIT
    && forall r <- entry.intent.requests :: valid(r)
  }

  /** The intents of a listing of names, delivered in order. */
  function DeliveredAll(files: map<string, Entry>, db: Db, names: seq<string>): Option<Db> {
    if names == [] then Some(db)
    else
      var name := names[|names| - 1];
      var before := DeliveredAll(files, db, names[..|names| - 1]);
      if before.None? || name !in files || files[name].Opaque? then None
      else Delivered(before.value, files[name].intent.id, files[name].intent.requests)
  }

  /** The files an ingest visits, in the order of their names. */
  ghost predicate IsQueue(files: map<string, Entry>, names: seq<string>) {
    && NoDuplicates(names) && Ordered(LessEq, names)
    && forall n :: n in names <==> n in files && IsJson(n)
  }

  function Without(files: map<string, Entry>, names: seq<string>): map<string, Entry> {
    map n | n in files && n !in names :: files[n]
  }

  class Inbox {
    var files: map<string, Entry>
    var db: Db

    /** Stage the intent beside its final name, then rename.  The caller has verified
        the request; a crash leaves at most the staged file. */
    method Submit(id: string, request: Request, script: Script) returns (o: Outcome<()>, rest: Script)
      modifies this`files
      ensures |old(files)| >= LIMIT ==> o.Error? && files == old(files)
      ensures |files| <= |old(files)| || |files| <= LIMIT
      ensures script == [] && |old(files)| < LIMIT && (id + ".next") !in old(files) ==> o.Ok? && rest == []
      // A file staged under the same id is in the way for good.
      ensures (id + ".next") in old(files) ==> !o.Ok? && files == old(files)
      ensures o.Ok? ==> files == Without(old(files), [id + ".next"])[Suffixed(id) := Document(Intent(id, [request]))]
      ensures !o.Ok? ==> files == old(files) || files == old(files)[id + ".next" := Opaque]
                         || files == old(files)[id + ".next" := Document(Intent(id, [request]))]
    {
      if |files| >= LIMIT { return Error, script; }
      var staged := id + ".next";
      var event := Next(script);
      rest := Rest(script);
      if event.Halt? || staged in files { return if event.Halt? then Stopped(event) else Error, rest; }
      ghost var before := files;
      files := files[staged := Opaque];
      event := Next(rest);
      rest := Rest(rest);
      if event.Halt? { return Stopped(event), rest; }
      var intent := Document(Intent(id, [request]));
      files := files[staged := intent];
      event := Next(rest);
      rest := Rest(rest);
      if event.Halt? { return Stopped(event), rest; }
      RenamingKeepsSize(before, staged, Suffixed(id), intent);
      files := (files - {staged})[Suffixed(id) := intent];
      o := Ok(());
    }

    method ListQueue() returns (names: seq<string>)
      ensures IsQueue(files, names)
    {
      var all := KeysInOrder(files.Keys);
      names := [];
      for i := 0 to |all|
        invariant NoDuplicates(names) && Ordered(LessEq, names)
        invariant forall n :: n in names <==> n in all[..i] && IsJson(n)
      {
        assert all[..i + 1] == all[..i] + [all[i]];
        if IsJson(all[i]) {
          PrefixPrecedes(all, i);
          names := names + [all[i]];
        }
      }
      assert all[..|all|] == all;
    }

    /** Check, deliver and remove one file: the checks, a transaction, the removal. */
    method IngestOne(valid: Request -> bool, name: string, script: Script)
      returns (o: Outcome<()>, rest: Script, ghost committed: bool)
      requires name in files
      modifies this
      ensures o.Ok? ==> committed && files == old(files) - {name}
      ensures !o.Ok? ==> files == old(files)
      ensures committed ==>
                && Acceptable(valid, name, old(files)[name])
                && Delivered(old(db), old(files)[name].intent.id, old(files)[name].intent.requests) == Some(db)
      ensures !committed ==> db == old(db)
      // With nothing failing it stops for nothing else.
      ensures script == [] ==>
                && rest == []
                && (o.Ok? <==> Acceptable(valid, name, old(files)[name])
                               && Delivered(old(db), old(files)[name].intent.id, old(files)[name].intent.requests).Some?)
    {
      rest, committed := script, false;
      if !Acceptable(valid, name, files[name]) { return Error, rest, false; }
      var intent := files[name].intent;
      var event := Next(rest);
      rest := Rest(rest);
      var after := Delivered(db, intent.id, intent.requests);
      if event.Halt? || after.None? { return if event.Halt? then Stopped(event) else Error, rest, false; }
      db := after.value;
      committed := true;
      event := Next(rest);
      rest := Rest(rest);
      if event.Halt? { return Stopped(event), rest, true; }
      files := files - {name};
      o := Ok(());
    }

    /** Consume the inbox.  `names` is the queue, `delivered` how many of its intents
        are in the database and `consumed` how many files are gone. */
    method Ingest(valid: Request -> bool, script: Script)
      returns (o: Outcome<nat>, rest: Script, ghost names: seq<string>, ghost delivered: nat, ghost consumed: nat)
      modifies this
      ensures |old(files)| > LIMIT ==> o.Error? && files == old(files) && db == old(db)
      ensures |old(files)| <= LIMIT ==> Ingested(old(files), old(db), names, delivered, consumed, files, db)
      ensures |old(files)| <= LIMIT && o.Ok? ==> o.value == |names| == consumed
      // A file that fails its checks stops the ingest in front of it.
      ensures |old(files)| <= LIMIT && o.Ok? ==> AllAcceptable(valid, old(files), names)
      ensures |old(files)| <= LIMIT ==> AllAcceptable(valid, old(files), names[..consumed])
      // With nothing failing that is all that stops it.
      ensures |old(files)| <= LIMIT && script == []
              && AllAcceptable(valid, old(files), names) && DeliveredAll(old(files), old(db), names).Some? ==>
                o.Ok?
    {
      rest, names, delivered, consumed := script, [], 0, 0;
      o := Error;
      if |files| <= LIMIT {
        var queue := ListQueue();
        names := queue;
        o, rest, delivered, consumed := IngestQueue(valid, queue, script);
      }
    }

    method IngestQueue(valid: Request -> bool, queue: seq<string>, script: Script)
      returns (o: Outcome<nat>, rest: Script, ghost delivered: nat, ghost consumed: nat)
      requires IsQueue(files, queue)
      modifies this
      ensures Ingested(old(files), old(db), queue, delivered, consumed, files, db)
      ensures o.Ok? ==> o.value == |queue| == consumed
      ensures o.Ok? ==> AllAcceptable(valid, old(files), queue)
      ensures consumed <= |queue| && AllAcceptable(valid, old(files), queue[..consumed])
      ensures script == [] && AllAcceptable(valid, old(files), queue) && DeliveredAll(old(files), old(db), queue).Some? ==> o.Ok?
    {
      o, rest, delivered, consumed := Ok(0), script, 0, 0;
      for i := 0 to |queue|
        invariant Ingested(old(files), old(db), queue, delivered, consumed, files, db)
        invariant consumed == delivered == i && o == Ok(i)
        invariant AllAcceptable(valid, old(files), queue[..i])
        invariant script == [] ==> rest == []
      {
        if DeliveredAll(old(files), old(db), queue).Some? { NextIsDelivered(old(files), old(db), queue, i); }
        QueueHead(old(files), queue, i);
        AcceptOneMore(valid, old(files), queue, i);
        IngestedOneMore(old(files), old(db), queue, i, files, db);
        var step;
        ghost var committed;
        step, rest, committed := IngestOne(valid, queue[i], rest);
        if committed { delivered := delivered + 1; }
        if !step.Ok? {
          o := if step.Error? then Error else Crashed;
          break;
        }
        consumed := consumed + 1;
        o := Ok(i + 1);
      }
      assert queue[..|queue|] == queue;
    }
  }

  /** Where a whole queue can be delivered, so can each of its files after those before. */
  lemma {:induction false} NextIsDelivered(files: map<string, Entry>, db: Db, names: seq<string>, i: nat)
    requires DeliveredAll(files, db, names).Some? && i < |names|
    ensures DeliveredAll(files, db, names[..i]).Some? && names[i] in files && files[names[i]].Document?
    ensures Delivered(DeliveredAll(files, db, names[..i]).value, files[names[i]].intent.id, files[names[i]].intent.requests).Some?
  {
    var n := |names| - 1;
    if i < n {
      NextIsDelivered(files, db, names[..n], i);
      assert names[..n][..i] == names[..i];
    }
  }

  ghost predicate AllAcceptable(valid: Request -> bool, files: map<string, Entry>, names: seq<string>) {
    forall n <- names :: n in files && Acceptable(valid, n, files[n])
  }

  lemma AcceptOneMore(valid: Request -> bool, files: map<string, Entry>, queue: seq<string>, i: nat)
    requires i < |queue| && queue[i] in files && AllAcceptable(valid, files, queue[..i])
    ensures Acceptable(valid, queue[i], files[queue[i]]) ==> AllAcceptable(valid, files, queue[..i + 1])
  {
    assert queue[..i + 1] == queue[..i] + [queue[i]];
  }

  /** From the first `i` intents, delivering the next one, then removing its file. */
  lemma IngestedOneMore(files: map<string, Entry>, db: Db, names: seq<string>, i: nat, files': map<string, Entry>, db': Db)
    requires Ingested(files, db, names, i, i, files', db') && i < |names|
    ensures names[i] in files' && files'[names[i]] == files[names[i]]
    ensures files'[names[i]].Document? ==>
            var intent := files'[names[i]].intent;
            var after := Delivered(db', intent.id, intent.requests);
            after.Some? ==>
              && Ingested(files, db, names, i + 1, i, files', after.value)
              && Ingested(files, db, names, i + 1, i + 1, files' - {names[i]}, after.value)
  {
    QueueHead(files, names, i);
  }

  /** `consumed` files are gone and the intents of `delivered` are in the database. */
  ghost predicate Ingested(
    files: map<string, Entry>, db: Db, names: seq<string>, delivered: nat, consumed: nat, files': map<string, Entry>, db': Db)
  {
    && IsQueue(files, names)
    && consumed <= delivered <= consumed + 1 && delivered <= |names|
    && files' == Without(files, names[..consumed])
    && DeliveredAll(files, db, names[..delivered]) == Some(db')
  }

  lemma RenamingKeepsSize(before: map<string, Entry>, staged: string, final: string, intent: Entry)
    requires staged !in before && |before| < LIMIT
    ensures |(before[staged := intent] - {staged})[final := intent]| <= LIMIT
    ensures before[staged := intent] - {staged} == before
  {
    assert before[staged := intent] - {staged} == before;
  }

  lemma PrefixPrecedes(all: seq<string>, i: nat)
    requires i < |all| && Ordered(LessEq, all) && NoDuplicates(all)
    ensures forall n <- all[..i] :: LessEq(n, all[i]) && n != all[i]
  {
  }

  lemma QueueHead(files: map<string, Entry>, names: seq<string>, i: nat)
    requires IsQueue(files, names) && i < |names|
    ensures names[i] in Without(files, names[..i]) && Without(files, names[..i])[names[i]] == files[names[i]]
    ensures Without(files, names[..i]) - {names[i]} == Without(files, names[..i + 1])
    ensures names[..i + 1][..i] == names[..i] && names[..i + 1] == names[..i] + [names[i]]
  {
    assert names[i] in names;
  }

  /** A one-request intent's transaction. */
  function DeliveredOne(db: Db, id: string, r: Request): Option<Db> {
    if id in db.jobs then Some(db)
    else if r.solution !in db.events then None
    else
      var bumped := Bumped(db, r.solution);
      Some(if HasPending(db, r.solution, r.project) then bumped
           else bumped.(jobs := db.jobs[id := Job(r.solution, RECONCILE, r.project, true, bumped.events[r.solution])]))
  }

  lemma PendingIgnoresEvents(db: Db, events: map<string, nat>, s: string, p: string)
    ensures HasPending(db.(events := events), s, p) <==> HasPending(db, s, p)
  {
  }

  lemma SingleRequest(db: Db, id: string, r: Request)
    ensures Delivered(db, id, [r]) == DeliveredOne(db, id, r)
  {
    assert [r][1..] == [];
    assert forall d: Db :: Delivered(d, id, []) == Some(d);
    if r.solution in db.events {
      PendingIgnoresEvents(db, Bumped(db, r.solution).events, r.solution, r.project);
    }
  }

  /** The guard under which a delivery writes its own job row. */
  predicate GetsRow(db: Db, id: string, r: Request) {
    r.solution in db.events && (id in db.jobs || !HasPending(db, r.solution, r.project))
  }

  /** Delivering a one-request intent twice, because the first removal was lost, equals
      delivering it once exactly when the first delivery wrote, or found, its row.  A
      pending job of the same scope swallows the row, and then the replay bumps the
      event sequence again. */
  lemma ReplayIffRow(db: Db, id: string, r: Request)
    requires r.solution in db.events
    ensures var once := Delivered(db, id, [r]);
            once.Some? && (Delivered(once.value, id, [r]) == once <==> GetsRow(db, id, r))
  {
    SingleRequest(db, id, r);
    var once := DeliveredOne(db, id, r).value;
    SingleRequest(once, id, r);
    PendingIgnoresEvents(db, Bumped(db, r.solution).events, r.solution, r.project);
    if id !in db.jobs && HasPending(db, r.solution, r.project) {
      assert DeliveredOne(once, id, r).value.events[r.solution] == once.events[r.solution] + 1;
    }
  }

  /** A first delivery with a row: one new row, one bump, nothing else. */
  lemma FirstDelivery(db: Db, id: string, r: Request)
    requires id !in db.jobs && GetsRow(db, id, r)
    ensures Delivered(db, id, [r]) ==
            Some(Db(db.jobs[id := Job(r.solution, RECONCILE, r.project, true, db.events[r.solution] + 1)],
                    db.events[r.solution := db.events[r.solution] + 1]))
  {
    SingleRequest(db, id, r);
  }

  /** Every intent of the queue has one request and gets its row at its turn. */
  ghost predicate Undisputed(files: map<string, Entry>, db: Db, names: seq<string>) {
    names != [] ==>
      var init, name := names[..|names| - 1], names[|names| - 1];
      && Undisputed(files, db, init)
      && name in files && files[name].Document? && |files[name].intent.requests| == 1
      && DeliveredAll(files, db, init).Some?
      && GetsRow(DeliveredAll(files, db, init).value, files[name].intent.id, files[name].intent.requests[0])
  }

  /** Checkable before the ingest: one request per intent, registered solutions, and
      no scope pending or hinted twice. */
  predicate Independent(files: map<string, Entry>, db: Db, names: seq<string>) {
    && (forall n <- names ::
          && n in files && files[n].Document? && |files[n].intent.requests| == 1
          && files[n].intent.requests[0].solution in db.events
          && !HasPending(db, files[n].intent.requests[0].solution, files[n].intent.requests[0].project))
    && forall i, j :: 0 <= i < j < |names| ==>
         var r := files[names[j]].intent.requests[0];
         !IsFor(files[names[i]].intent.requests[0], r.solution, r.project)
  }

  lemma DeliveryPends(db: Db, id: string, r: Request, s: string, p: string)
    requires r.solution in db.events
    ensures var after := DeliveredOne(db, id, r).value;
            after.events.Keys == db.events.Keys
            && (HasPending(after, s, p) ==> HasPending(db, s, p) || IsFor(r, s, p))
  {
  }

  lemma {:induction false} IndependentIsUndisputed(files: map<string, Entry>, db: Db, names: seq<string>)
    requires Independent(files, db, names)
    ensures Undisputed(files, db, names) && DeliveredAll(files, db, names).Some?
    ensures DeliveredAll(files, db, names).value.events.Keys == db.events.Keys
    ensures forall s, p :: HasPending(DeliveredAll(files, db, names).value, s, p) ==>
              HasPending(db, s, p) || exists n <- names :: IsFor(files[n].intent.requests[0], s, p)
  {
    if names != [] {
      var init, name := names[..|names| - 1], names[|names| - 1];
      IndependentIsUndisputed(files, db, init);
      var before, intent := DeliveredAll(files, db, init).value, files[name].intent;
      var r := intent.requests[0];
      assert name in names && intent.requests == [r];
      forall n | n in init
        ensures files[n].intent.requests[0] != r
      {
        var i :| 0 <= i < |init| && init[i] == n;
        assert names[i] == n;
      }
      assert !HasPending(before, r.solution, r.project);
      SingleRequest(before, intent.id, r);
      forall s, p
        ensures HasPending(DeliveredOne(before, intent.id, r).value, s, p) ==>
                  HasPending(before, s, p) || IsFor(r, s, p)
      {
        DeliveryPends(before, intent.id, r, s, p);
      }
    }
  }

  lemma {:induction false} DeliveredInTwo(files: map<string, Entry>, db: Db, a: seq<string>, b: seq<string>)
    requires DeliveredAll(files, db, a).Some?
    ensures DeliveredAll(files, db, a + b) == DeliveredAll(files, DeliveredAll(files, db, a).value, b)
  {
    if b == [] {
      assert a + b == a;
    } else {
      DeliveredInTwo(files, db, a, b[..|b| - 1]);
      assert (a + b)[..|a + b| - 1] == a + b[..|b| - 1];
    }
  }

  lemma {:induction false} UndisputedPrefix(files: map<string, Entry>, db: Db, names: seq<string>, k: nat)
    requires Undisputed(files, db, names) && k <= |names|
    ensures Undisputed(files, db, names[..k])
    decreases |names|
  {
    if k == |names| {
      assert names[..k] == names;
    } else {
      UndisputedPrefix(files, db, names[..|names| - 1], k);
      assert names[..|names| - 1][..k] == names[..k];
    }
  }

  lemma {:induction false} SameFilesSameDelivery(files: map<string, Entry>, files': map<string, Entry>, db: Db, names: seq<string>)
    requires forall n <- names :: n in files && n in files' && files[n] == files'[n]
    ensures DeliveredAll(files, db, names) == DeliveredAll(files', db, names)
  {
    if names != [] {
      SameFilesSameDelivery(files, files', db, names[..|names| - 1]);
    }
  }

  lemma RestOfQueue(files: map<string, Entry>, names: seq<string>, consumed: nat, names': seq<string>)
    requires IsQueue(files, names) && consumed <= |names|
    requires IsQueue(Without(files, names[..consumed]), names')
    ensures names' == names[consumed..]
    ensures forall n <- names' :: n in files && n in Without(files, names[..consumed])
  {
    var tail := names[consumed..];
    assert names == names[..consumed] + tail;
    forall n
      ensures n in tail <==> n in names'
    {
      if n in tail {
        var k :| 0 <= k < |tail| && tail[k] == n;
        assert names[consumed + k] == n && n in names;
        assert n !in names[..consumed];
      }
      if n in names' { assert n in names; }
    }
    assert NoDuplicates(tail) by {
      forall j, k | 0 <= j < k < |tail| ensures tail[j] != tail[k] { assert names[consumed + j] != names[consumed + k]; }
    }
    ListingsAreEqualBags(tail, names');
    LessEqIsOrder();
    OrderedIsUnique(LessEq, tail, names');
  }

  // Two databases that differ in how far their event sequences got.

  /** The same job rows, save for the event each waits for. */
  predicate RowsAgree(a: Db, b: Db) {
    && a.jobs.Keys == b.jobs.Keys && a.events.Keys == b.events.Keys
    && forall id <- a.jobs :: a.jobs[id].(target := 0) == b.jobs[id].(target := 0)
  }

  ghost predicate SameLag(a: Db, b: Db, a': Db, b': Db)
    requires RowsAgree(a, b)
  {
    && RowsAgree(a', b') && a'.events.Keys == a.events.Keys
    && forall s <- a.events :: b'.events[s] + a.events[s] == b.events[s] + a'.events[s]
  }

  lemma PendingAgrees(a: Db, b: Db, s: string, p: string)
    requires RowsAgree(a, b)
    ensures HasPending(a, s, p) <==> HasPending(b, s, p)
  {
    forall id | id in a.jobs
      ensures a.jobs[id].(target := 0) == b.jobs[id].(target := 0)
    {
    }
    if id :| id in a.jobs && a.jobs[id].pending && a.jobs[id].solution == s
             && a.jobs[id].kind == RECONCILE && a.jobs[id].scope == p {
      assert id in b.jobs;
    }
    if id :| id in b.jobs && b.jobs[id].pending && b.jobs[id].solution == s
             && b.jobs[id].kind == RECONCILE && b.jobs[id].scope == p {
      assert id in a.jobs;
    }
  }

  /** One request keeps two such databases as far apart as they were. */
  lemma RequestKeepsLag(a: Db, b: Db, id: string, r: Request)
    requires RowsAgree(a, b)
    ensures DeliveredOne(a, id, r).None? <==> DeliveredOne(b, id, r).None?
    ensures DeliveredOne(a, id, r).Some? ==> SameLag(a, b, DeliveredOne(a, id, r).value, DeliveredOne(b, id, r).value)
  {
    PendingAgrees(a, b, r.solution, r.project);
  }

  lemma OneThenRest(db: Db, id: string, requests: seq<Request>)
    requires requests != []
    ensures Delivered(db, id, requests) ==
            var d := DeliveredOne(db, id, requests[0]);
            if d.None? then None else Delivered(d.value, id, requests[1..])
  {
    var r := requests[0];
    if r.solution in db.events { PendingIgnoresEvents(db, Bumped(db, r.solution).events, r.solution, r.project); }
  }

  lemma {:induction false} DeliveryKeepsLag(a: Db, b: Db, id: string, requests: seq<Request>)
    requires RowsAgree(a, b)
    ensures Delivered(a, id, requests).None? <==> Delivered(b, id, requests).None?
    ensures Delivered(a, id, requests).Some? ==>
              SameLag(a, b, Delivered(a, id, requests).value, Delivered(b, id, requests).value)
    decreases |requests|
  {
    if requests != [] {
      OneThenRest(a, id, requests);
      OneThenRest(b, id, requests);
      RequestKeepsLag(a, b, id, requests[0]);
      var a', b' := DeliveredOne(a, id, requests[0]), DeliveredOne(b, id, requests[0]);
      if a'.Some? { DeliveryKeepsLag(a'.value, b'.value, id, requests[1..]); }
    }
  }

  lemma {:induction false} QueueKeepsLag(files: map<string, Entry>, a: Db, b: Db, names: seq<string>)
    requires RowsAgree(a, b)
    ensures DeliveredAll(files, a, names).None? <==> DeliveredAll(files, b, names).None?
    ensures DeliveredAll(files, a, names).Some? ==>
              SameLag(a, b, DeliveredAll(files, a, names).value, DeliveredAll(files, b, names).value)
  {
    if names != [] {
      var init, name := names[..|names| - 1], names[|names| - 1];
      QueueKeepsLag(files, a, b, init);
      var a', b' := DeliveredAll(files, a, init), DeliveredAll(files, b, init);
      if a'.Some? && name in files && files[name].Document? {
        DeliveryKeepsLag(a'.value, b'.value, files[name].intent.id, files[name].intent.requests);
      }
    }
  }

  /** A request that a pending job of its scope swallows. */
  predicate IsSwallowed(db: Db, r: Request) {
    r.solution in db.events && HasPending(db, r.solution, r.project)
  }

  /** An intent without a row after its transaction had all its requests swallowed. */
  lemma {:induction false} NoRowMeansSwallowed(db: Db, id: string, requests: seq<Request>)
    requires Delivered(db, id, requests).Some? && id !in Delivered(db, id, requests).value.jobs
    ensures Delivered(db, id, requests).value.jobs == db.jobs
    ensures Delivered(db, id, requests).value.events.Keys == db.events.Keys
    ensures forall r <- requests :: IsSwallowed(db, r)
    decreases |requests|
  {
    if requests != [] {
      OneThenRest(db, id, requests);
      var r, next := requests[0], DeliveredOne(db, id, requests[0]).value;
      if id in next.jobs { SkippedRequests(next, id, requests[1..]); }
      NoRowMeansSwallowed(next, id, requests[1..]);
      forall q | q in requests
        ensures IsSwallowed(db, q)
      {
        if q != r {
          assert q in requests[1..] && IsSwallowed(next, q);
          PendingIgnoresEvents(db, next.events, q.solution, q.project);
          assert next == db.(events := next.events);
        }
      }
    }
  }

  /** Delivering swallowed requests only moves the event sequences, the first one's surely. */
  lemma {:induction false} SwallowedOnlyBump(db: Db, id: string, requests: seq<Request>)
    requires id !in db.jobs && forall r <- requests :: IsSwallowed(db, r)
    ensures Delivered(db, id, requests).Some? && RowsAgree(db, Delivered(db, id, requests).value)
    ensures forall s <- db.events :: db.events[s] <= Delivered(db, id, requests).value.events[s]
    ensures requests != [] ==>
              db.events[requests[0].solution] < Delivered(db, id, requests).value.events[requests[0].solution]
    decreases |requests|
  {
    if requests != [] {
      OneThenRest(db, id, requests);
      var r := requests[0];
      assert r in requests;
      var next := DeliveredOne(db, id, r).value;
      assert next == Bumped(db, r.solution);
      forall q | q in requests[1..]
        ensures IsSwallowed(next, q)
      {
        assert q in requests;
        PendingIgnoresEvents(db, next.events, q.solution, q.project);
      }
      SwallowedOnlyBump(next, id, requests[1..]);
    }
  }

  /** Delivering an intent again, right after its transaction, changes nothing exactly
      when the intent has its row by then, or asks for nothing. */
  predicate IsSettled(db: Db, intent: Intent) {
    intent.id in db.jobs || intent.requests == []
  }

  predicate IsSettledFile(files: map<string, Entry>, name: string, db: Db) {
    name in files && files[name].Document? && IsSettled(db, files[name].intent)
  }

  /** What each of the two runs still has to deliver to what was delivered. */
  lemma RemainingWork(
    files: map<string, Entry>, db: Db, names: seq<string>, delivered: nat, consumed: nat,
    files': map<string, Entry>, db': Db, names': seq<string>)
    requires Ingested(files, db, names, delivered, consumed, files', db') && IsQueue(files', names')
    ensures DeliveredAll(files', db', names') == DeliveredAll(files, db', names[consumed..])
    ensures DeliveredAll(files, db, names) == DeliveredAll(files, db', names[delivered..])
  {
    assert DeliveredAll(files', db', names') == DeliveredAll(files, db', names[consumed..]) by {
      RestOfQueue(files, names, consumed, names');
      SameFilesSameDelivery(files, files', db', names');
    }
    SplitDelivery(files, db, names, delivered, db');
  }

  lemma SplitDelivery(files: map<string, Entry>, db: Db, names: seq<string>, k: nat, db': Db)
    requires k <= |names| && DeliveredAll(files, db, names[..k]) == Some(db')
    ensures DeliveredAll(files, db, names) == DeliveredAll(files, db', names[k..])
  {
    assert names == names[..k] + names[k..];
    DeliveredInTwo(files, db, names[..k], names[k..]);
  }

  /** An ingest that died anywhere, followed by one that completes, leaves the database
      one uninterrupted ingest would have left, if and only if no removal was lost or the
      intent whose removal was lost is settled. */
  lemma ResumedIsUninterrupted(
    files: map<string, Entry>, db: Db, names: seq<string>, delivered: nat, consumed: nat,
    files': map<string, Entry>, db': Db, names': seq<string>, db'': Db)
    requires Ingested(files, db, names, delivered, consumed, files', db')
    requires IsQueue(files', names') && DeliveredAll(files', db', names') == Some(db'')
    ensures DeliveredAll(files, db, names) == Some(db'') <==>
            delivered == consumed || IsSettledFile(files, names[consumed], db')
  {
    RemainingWork(files, db, names, delivered, consumed, files', db', names');
    if delivered == consumed + 1 {
      ReplayedTail(files, db, names, consumed, db', names[consumed + 1..]);
      ReplayThenTail(files, db', names, consumed);
    }
  }

  lemma ReplayThenTail(files: map<string, Entry>, db: Db, names: seq<string>, k: nat)
    requires k < |names| && names[k] in files && files[names[k]].Document?
    requires Delivered(db, files[names[k]].intent.id, files[names[k]].intent.requests).Some?
    ensures DeliveredAll(files, db, names[k..]) ==
            DeliveredAll(files, Delivered(db, files[names[k]].intent.id, files[names[k]].intent.requests).value, names[k + 1..])
  {
    HeadAndTail(names, k);
    OneNameDelivered(files, db, names[k]);
    DeliveredInTwo(files, db, [names[k]], names[k + 1..]);
  }

  /** The tail after a replayed intent, against the tail alone. */
  lemma ReplayedTail(files: map<string, Entry>, db: Db, names: seq<string>, k: nat, db': Db, tail: seq<string>)
    requires k < |names| && DeliveredAll(files, db, names[..k + 1]) == Some(db')
    ensures names[k] in files && files[names[k]].Document?
    ensures var intent := files[names[k]].intent;
            var again := Delivered(db', intent.id, intent.requests);
            && again.Some?
            && (DeliveredAll(files, again.value, tail).Some? ==>
                  (DeliveredAll(files, again.value, tail) == DeliveredAll(files, db', tail)
                   <==> IsSettled(db', intent)))
  {
    var sofar := names[..k + 1];
    assert sofar[..k] == names[..k] && sofar[k] == names[k];
    var before, intent := DeliveredAll(files, db, names[..k]).value, files[names[k]].intent;
    assert Delivered(before, intent.id, intent.requests) == Some(db');
    if intent.id in db'.jobs {
      SkippedRequests(db', intent.id, intent.requests);
    } else {
      NoRowMeansSwallowed(before, intent.id, intent.requests);
      forall r | r in intent.requests
        ensures IsSwallowed(db', r)
      {
        assert IsSwallowed(before, r) && db' == before.(events := db'.events);
        PendingIgnoresEvents(before, db'.events, r.solution, r.project);
      }
      SwallowedOnlyBump(db', intent.id, intent.requests);
      var again := Delivered(db', intent.id, intent.requests).value;
      QueueKeepsLag(files, db', again, tail);
    }
  }

  /** In an undisputed queue every intent is settled once it is delivered, so there an
      interruption anywhere leaves no trace. */
  lemma UndisputedResumes(
    files: map<string, Entry>, db: Db, names: seq<string>, delivered: nat, consumed: nat,
    files': map<string, Entry>, db': Db, names': seq<string>, db'': Db)
    requires Ingested(files, db, names, delivered, consumed, files', db') && Undisputed(files, db, names)
    requires IsQueue(files', names') && DeliveredAll(files', db', names') == Some(db'')
    ensures DeliveredAll(files, db, names) == Some(db'')
  {
    ResumedIsUninterrupted(files, db, names, delivered, consumed, files', db', names', db'');
    if delivered == consumed + 1 { LastIsSettled(files, db, names, consumed, db'); }
  }

  lemma HeadAndTail<T>(s: seq<T>, k: nat)
    requires k < |s|
    ensures s[k..] == [s[k]] + s[k + 1..]
  {
  }

  lemma LastIsSettled(files: map<string, Entry>, db: Db, names: seq<string>, k: nat, db': Db)
    requires k < |names| && Undisputed(files, db, names)
    requires DeliveredAll(files, db, names[..k + 1]) == Some(db')
    ensures IsSettledFile(files, names[k], db')
  {
    var sofar := names[..k + 1];
    UndisputedPrefix(files, db, names, k + 1);
    assert sofar[..k] == names[..k] && sofar[k] == names[k];
    var before := DeliveredAll(files, db, names[..k]).value;
    var intent := files[names[k]].intent;
    assert intent.requests == [intent.requests[0]];
    SingleRequest(before, intent.id, intent.requests[0]);
  }

  lemma OneNameDelivered(files: map<string, Entry>, db: Db, name: string)
    requires name in files && files[name].Document?
    ensures DeliveredAll(files, db, [name]) == Delivered(db, files[name].intent.id, files[name].intent.requests)
  {
    assert [name][..0] == [];
  }

  /** A later request of one intent is skipped once an earlier one wrote the row. */
  lemma {:induction false} OnlyTheFirstTakesEffect(db: Db, id: string, r: Request, more: seq<Request>)
    requires GetsRow(db, id, r)
    ensures Delivered(db, id, [r] + more) == Delivered(db, id, [r])
  {
    assert ([r] + more)[1..] == more && [r][1..] == [];
    if id in db.jobs {
      SkippedRequests(db, id, more);
    } else {
      FirstDelivery(db, id, r);
      SkippedRequests(Delivered(db, id, [r]).value, id, more);
    }
  }

  lemma {:induction false} SkippedRequests(db: Db, id: string, requests: seq<Request>)
    requires id in db.jobs
    ensures Delivered(db, id, requests) == Some(db)
    decreases |requests|
  {
    if requests != [] {
      SkippedRequests(db, id, requests[1..]);
    }
  }

  /** What happens to the job table while the daemon runs: intents are delivered,
      completed passes mark the jobs of three kinds, and an operator cancels jobs. */
  datatype Event = Deliver(id: string, r: Request) | PassCompleted(solution: string) | Cancelled(ids: set<string>)

  function MarkSucceeded(db: Db, solution: string): Db {
    db.(jobs := map id | id in db.jobs ::
      var j := db.jobs[id];
      if j.solution == solution && j.kind in ["reconcile-dirty", "reconcile-project", "analyze-full"]
      then j.(pending := false) else j)
  }

  function MarkCancelled(db: Db, ids: set<string>): Db {
    db.(jobs := map id | id in db.jobs :: if id in ids then db.jobs[id].(pending := false) else db.jobs[id])
  }

  function After(db: Db, event: Event): Db {
    match event
    case Deliver(id, r) => var d := DeliveredOne(db, id, r); if d.Some? then d.value else db
    case PassCompleted(solution) => MarkSucceeded(db, solution)
    case Cancelled(ids) => MarkCancelled(db, ids)
  }

  function AfterAll(db: Db, events: seq<Event>): Db {
    if events == [] then db else After(AfterAll(db, events[..|events| - 1]), events[|events| - 1])
  }

  predicate IsPendingHint(db: Db, id: string, s: string, p: string) {
    id in db.jobs && db.jobs[id].pending && db.jobs[id].kind == RECONCILE
    && db.jobs[id].solution == s && db.jobs[id].scope == p
  }

  /** One event takes the pending job of a scope away exactly when it cancels it. */
  lemma PendingUnlessCancelled(db: Db, event: Event, id: string, s: string, p: string)
    requires IsPendingHint(db, id, s, p)
    ensures IsPendingHint(After(db, event), id, s, p) <==> !(event.Cancelled? && id in event.ids)
  {
  }

  lemma NoSecondRow(db: Db, event: Event, id: string, s: string, p: string)
    requires IsPendingHint(db, id, s, p)
    ensures forall j <- After(db, event).jobs ::
              j in db.jobs || !(After(db, event).jobs[j].solution == s && After(db, event).jobs[j].scope == p)
  {
    assert HasPending(db, s, p);
  }

  /** No pass completes a delivered hint's job.  So from the first hint for a project on,
      and until an operator cancels that job, no later hint for the project gets a row. */
  lemma {:induction false} OneRowPerProject(db: Db, events: seq<Event>, id: string, s: string, p: string)
    requires IsPendingHint(db, id, s, p)
    requires forall e <- events :: e.Cancelled? ==> id !in e.ids
    ensures IsPendingHint(AfterAll(db, events), id, s, p)
    ensures forall j <- AfterAll(db, events).jobs ::
              j in db.jobs || !(AfterAll(db, events).jobs[j].solution == s && AfterAll(db, events).jobs[j].scope == p)
    decreases |events|
  {
    if events != [] {
      var init, last := events[..|events| - 1], events[|events| - 1];
      assert last in events && forall e <- init :: e in events;
      OneRowPerProject(db, init, id, s, p);
      PendingUnlessCancelled(AfterAll(db, init), last, id, s, p);
      NoSecondRow(AfterAll(db, init), last, id, s, p);
      RowsKeepTheirScope(AfterAll(db, init), last);
    }
  }

  /** Cancelling what is pending for a scope lets exactly its next hint have a row. */
  lemma CancellationReopens(db: Db, ids: set<string>, r: Request, id: string)
    requires r.solution in db.events && id !in db.jobs
    ensures GetsRow(After(db, Cancelled(ids)), id, r)
            <==> forall j :: IsPendingHint(db, j, r.solution, r.project) ==> j in ids
  {
    var s, p := r.solution, r.project;
    var after := After(db, Cancelled(ids));
    if j :| IsPendingHint(db, j, s, p) && j !in ids {
      assert j in after.jobs && after.jobs[j] == db.jobs[j];
    }
    if HasPending(after, s, p) {
      var j :| j in after.jobs && after.jobs[j].pending && after.jobs[j].solution == s
                && after.jobs[j].kind == RECONCILE && after.jobs[j].scope == p;
      assert IsPendingHint(db, j, s, p) && j !in ids;
    }
  }

  lemma RowsKeepTheirScope(db: Db, event: Event)
    ensures forall id <- db.jobs :: id in After(db, event).jobs
              && After(db, event).jobs[id].solution == db.jobs[id].solution
              && After(db, event).jobs[id].scope == db.jobs[id].scope
  {
  }

  // The inbox over a whole run.

  datatype Action = Submitting(id: string, request: Request, script: Script) | Ingesting(script: Script)

  /** What a submission that died before its rename leaves behind. */
  predicate IsStaged(name: string) {
    |name| >= 5 && name[|name| - 5..] == ".next"
  }

  /** Nothing staged was touched. */
  ghost predicate KeepsStaged(before: map<string, Entry>, after: map<string, Entry>) {
    forall n <- before :: IsStaged(n) ==> n in after && after[n] == before[n]
  }

  function StagedOf(files: map<string, Entry>): set<string> {
    set n | n in files && IsStaged(n)
  }

  lemma SubmittingKeepsStaged(before: map<string, Entry>, after: map<string, Entry>, id: string, request: Request)
    requires (id + ".next") in before ==> after == before
    requires || after == before
             || after == before[id + ".next" := Opaque]
             || after == before[id + ".next" := Document(Intent(id, [request]))]
             || after == Without(before, [id + ".next"])[Suffixed(id) := Document(Intent(id, [request]))]
    ensures KeepsStaged(before, after)
  {
    assert Suffixed(id)[|Suffixed(id)| - 5..] == ".json" && ".json"[1] != ".next"[1];
    assert !IsStaged(Suffixed(id));
  }

  lemma IngestingKeepsStaged(before: map<string, Entry>, names: seq<string>, consumed: nat)
    requires IsQueue(before, names) && consumed <= |names|
    ensures KeepsStaged(before, Without(before, names[..consumed]))
    ensures |Without(before, names[..consumed])| <= |before|
  {
    var after := Without(before, names[..consumed]);
    forall n | n in before && IsStaged(n)
      ensures n in after
    {
      assert ".json"[1] != ".next"[1];
      assert n in names[..consumed] ==> n in names;
    }
    assert after.Keys <= before.Keys;
    SubsetCardinality(after.Keys, before.Keys);
  }

  /** Over any run of submissions and ingests the inbox stays within its limit.  What an
      interrupted submission staged is never consumed, so it counts for ever: once that
      fills the limit, no submission is accepted any more. */
  method RunInbox(inbox: Inbox, valid: Request -> bool, actions: seq<Action>) returns (accepted: nat)
    modifies inbox
    ensures |inbox.files| <= |old(inbox.files)| || |inbox.files| <= LIMIT
    ensures KeepsStaged(old(inbox.files), inbox.files)
    ensures |StagedOf(old(inbox.files))| >= LIMIT ==> accepted == 0
  {
    accepted := 0;
    for i := 0 to |actions|
      invariant |inbox.files| <= |old(inbox.files)| || |inbox.files| <= LIMIT
      invariant KeepsStaged(old(inbox.files), inbox.files)
      invariant |StagedOf(old(inbox.files))| >= LIMIT ==> accepted == 0
    {
      ghost var before := inbox.files;
      FullOfStaged(old(inbox.files), before);
      match actions[i]
      case Submitting(id, request, script) =>
        var o, rest := inbox.Submit(id, request, script);
        SubmittingKeepsStaged(before, inbox.files, id, request);
        if o.Ok? { accepted := accepted + 1; }
      case Ingesting(script) =>
        var o, rest, names, delivered, consumed := inbox.Ingest(valid, script);
        if |before| <= LIMIT { IngestingKeepsStaged(before, names, consumed); }
    }
  }

  lemma FullOfStaged(first: map<string, Entry>, files: map<string, Entry>)
    requires KeepsStaged(first, files)
    ensures |StagedOf(first)| <= |files|
  {
    assert StagedOf(first) <= files.Keys;
    SubsetCardinality(StagedOf(first), files.Keys);
  }

  // From a submission to its ingest.

  /** A submitted intent passes every check of the ingest, if its request still does and
      its text is not too long. */
  lemma SubmittedIsAcceptable(valid: Request -> bool, id: string, r: Request)
    requires id != ""
    ensures IsJson(Suffixed(id))
    ensures Acceptable(valid, Suffixed(id), Document(Intent(id, [r]))) <==>
            valid(r) && |DocumentText(r)| + |IdentityTuple.Quote(id)| + |IdentityTuple.Quote(r.solution)| + 53 <= MAX_HINT_DOCUMENT_BYTES
  {
    IntentIsLonger(id, r);
    assert Suffixed(id)[|Suffixed(id)| - 5..] == ".json";
    assert [r][0] == r && forall x <- [r] :: x == r;
  }

  lemma UnacceptableStays(
    valid: Request -> bool, files: map<string, Entry>, db: Db, names: seq<string>, delivered: nat, consumed: nat,
    files': map<string, Entry>, db': Db, name: string)
    requires Ingested(files, db, names, delivered, consumed, files', db')
    requires name in files && IsJson(name) && AllAcceptable(valid, files, names[..consumed]) && !Acceptable(valid, name, files[name])
    ensures name in files' && files'[name] == files[name] && !AllAcceptable(valid, files, names)
  {
    assert name in names;
    assert name !in names[..consumed];
  }

  /** An accepted document whose intent is too long is never ingested, and no later ingest
      completes while its intent is there, whatever is submitted after it. */
  method LongIntentBlocks(inbox: Inbox, valid: Request -> bool, id: string, r: Request, actions: seq<Action>)
    returns (o: Outcome<()>, completed: bool)
    requires id != "" && |inbox.files| < LIMIT && (id + ".next") !in inbox.files
    requires |DocumentText(r)| <= MAX_HINT_DOCUMENT_BYTES
             && MAX_HINT_DOCUMENT_BYTES < |DocumentText(r)| + |IdentityTuple.Quote(id)| + |IdentityTuple.Quote(r.solution)| + 53
    requires forall a <- actions :: a.Submitting? ==> a.id != id
    modifies inbox
    ensures o.Ok? && !completed
    ensures Suffixed(id) in inbox.files && inbox.files[Suffixed(id)] == Document(Intent(id, [r]))
  {
    var rest;
    o, rest := inbox.Submit(id, r, []);
    SubmittedIsAcceptable(valid, id, r);
    completed := false;
    for i := 0 to |actions|
      invariant Suffixed(id) in inbox.files && inbox.files[Suffixed(id)] == Document(Intent(id, [r]))
      invariant !completed
    {
      ghost var before := inbox.files;
      match actions[i]
      case Submitting(other, request, script) =>
        assert actions[i] in actions;
        OtherNames(id, other);
        var accepted;
        accepted, rest := inbox.Submit(other, request, script);
      case Ingesting(script) =>
        ghost var db := inbox.db;
        var done, after, names, delivered, consumed := inbox.Ingest(valid, script);
        if |before| <= LIMIT {
          UnacceptableStays(valid, before, db, names, delivered, consumed, inbox.files, inbox.db, Suffixed(id));
        }
        completed := completed || done.Ok?;
    }
  }

  lemma OtherNames(id: string, other: string)
    requires id != other
    ensures Suffixed(id) != Suffixed(other) && Suffixed(id) != other + ".next"
  {
    assert Suffixed(id)[..|Suffixed(id)| - 5] == id && Suffixed(other)[..|Suffixed(other)| - 5] == other;
    assert Suffixed(id)[|Suffixed(id)| - 4] == 'j' && (other + ".next")[|other + ".next"| - 4] == 'n';
  }
}
