/** Copying a migration's files, and the check a resumed copy passes. */
module MigrationApply {
  import opened Prelude
  import opened MigrationPlan
  import opened Sorting
  import opened Text

  /** The repository after a list of copies. */
  function Copied(files: map<string, string>, writes: seq<Write>): map<string, string> {
    if writes == [] then files
    else
      var before := Copied(files, writes[..|writes| - 1]);
      var w := writes[|writes| - 1];
      if w.source in files then before[w.path := files[w.source]] else before
  }

  /** The check before a resumed apply: with a journal, every file under the target
      root must be a planned copy with its planned digest; without one, there is none. */
  predicate ResumeAccepts(journal: bool, b: Body, writes: seq<Write>, files: map<string, string>) {
    forall p <- files :: Within(p, TARGET) ==>
      journal && exists w <- writes :: w.path == p && DigestOf(b.sources, w.source) == Some(Sha256(files[p]))
  }

  /** An accepted plan that migrates, over the repository it was made from. */
  ghost predicate Ready(core: string, d: Document, files: map<string, string>) {
    && Accepts(core, d) && d.body.needed && d.body.selected.Some?
    && Inventories(files, d.body.sources)
  }

  function Writes(b: Body): seq<Write>
    requires MakeEngine(b).Some?
  {
    MakeEngine(b).value.writes
  }

  /** What a planned copy is: one source of the selected root, moved under the target. */
  ghost predicate IsRelocation(b: Body, w: Write) {
    b.selected.Some? && Within(w.source, b.selected.value) && w.path == Under(TARGET, Suffix(w.source, b.selected.value))
  }

  lemma WritesRelocate(core: string, d: Document, files: map<string, string>)
    requires Ready(core, d, files)
    ensures forall w <- Writes(d.body) :: IsRelocation(d.body, w) && w.source in files
                                          && DigestOf(d.body.sources, w.source) == Some(Sha256(files[w.source]))
    ensures forall p <- files :: Within(p, d.body.selected.value) ==>
              Write(Under(TARGET, Suffix(p, d.body.selected.value)), p) in Writes(d.body)
    ensures forall p <- files :: !Within(p, TARGET)
  {
    var b := d.body;
    WritesAreRelocations(b);
    RelocationsComeFromSources(b.sources, b.selected.value);
    forall w | w in Writes(b)
      ensures IsRelocation(b, w) && w.source in files && DigestOf(b.sources, w.source) == Some(Sha256(files[w.source]))
    {
      var s :| s in b.sources && s.path == w.source;
      DigestOfFinds(b.sources, s);
    }
    forall p | p in files
      ensures Within(p, b.selected.value) ==> Write(Under(TARGET, Suffix(p, b.selected.value)), p) in Writes(b)
      ensures !Within(p, TARGET)
    {
      var s :| s in b.sources && s.path == p;
      NothingUnderTarget(b.sources, s);
    }
  }

  lemma NothingUnderTarget(sources: seq<Source>, s: Source)
    requires DistinctPaths(sources) && s in sources && Hashes(sources, TARGET) == map[]
    ensures !Within(s.path, TARGET)
  {
    if Within(s.path, TARGET) {
      HashesHold(sources, TARGET, Suffix(s.path, TARGET));
      SuffixGoesBack(s.path, TARGET);
    }
  }

  lemma {:induction false} DescribedAre(sources: seq<Source>, writes: seq<Write>)
    requires DescribeChanges(sources, writes).Some?
    ensures var changes := DescribeChanges(sources, writes).value;
            && |changes| == |writes|
            && forall i | 0 <= i < |changes| ::
                 && changes[i].destination == writes[i].path && changes[i].source == writes[i].source
                 && DigestOf(sources, writes[i].source) == Some(changes[i].after)
  {
    if writes != [] {
      DescribedAre(sources, writes[1..]);
      assert forall i | 1 <= i < |writes| :: writes[i] == writes[1..][i - 1];
    }
  }

  /** The changes a plan shows are its copies: each takes a file of the selected root to its
      place under the target, with the digest of the file's contents. */
  lemma ChangesAreCopies(core: string, d: Document, files: map<string, string>)
    requires Ready(core, d, files)
    ensures |d.body.changes| == |Writes(d.body)|
    ensures forall c <- d.body.changes ::
              && c.source in files && Within(c.source, d.body.selected.value)
              && c.destination == Under(TARGET, Suffix(c.source, d.body.selected.value))
              && c.after == Sha256(files[c.source])
    ensures forall p <- files :: Within(p, d.body.selected.value) ==> exists c <- d.body.changes :: c.source == p
  {
    WritesRelocate(core, d, files);
    DescribedAre(d.body.sources, Writes(d.body));
    forall c | c in d.body.changes
      ensures IsRelocation(d.body, Write(c.destination, c.source)) && c.source in files && c.after == Sha256(files[c.source])
    {
      var i :| 0 <= i < |d.body.changes| && d.body.changes[i] == c;
      assert Writes(d.body)[i] in Writes(d.body);
    }
    forall p | p in files && Within(p, d.body.selected.value)
      ensures exists c <- d.body.changes :: c.source == p
    {
      var w := Write(Under(TARGET, Suffix(p, d.body.selected.value)), p);
      var i :| 0 <= i < |Writes(d.body)| && Writes(d.body)[i] == w;
      assert d.body.changes[i] in d.body.changes && d.body.changes[i].source == p;
    }
  }

  /** How many bytes a list of copies writes. */
  function Volume(files: map<string, string>, writes: seq<Write>): nat {
    if writes == [] then 0
    else (if writes[0].source in files then |files[writes[0].source]| else 0) + Volume(files, writes[1..])
  }

  lemma {:induction false} VolumeAppend(files: map<string, string>, a: seq<Write>, b: seq<Write>)
    ensures Volume(files, a + b) == Volume(files, a) + Volume(files, b)
  {
    if a == [] {
      assert a + b == b;
    } else {
      assert (a + b)[0] == a[0] && (a + b)[1..] == a[1..] + b;
      VolumeAppend(files, a[1..], b);
    }
  }

  lemma VolumeWithout(files: map<string, string>, b: seq<Write>, j: nat)
    requires j < |b|
    ensures Volume(files, b) == Volume(files, b[..j] + b[j + 1..]) + if b[j].source in files then |files[b[j].source]| else 0
  {
    var tail := b[j..];
    assert b == b[..j] + tail && tail[0] == b[j] && tail[1..] == b[j + 1..];
    VolumeAppend(files, b[..j], tail);
    VolumeAppend(files, b[..j], tail[1..]);
  }

  lemma {:induction false} VolumeIgnoresOrder(files: map<string, string>, a: seq<Write>, b: seq<Write>)
    requires multiset(a) == multiset(b)
    ensures Volume(files, a) == Volume(files, b)
  {
    if a == [] {
      SameMembers(a, b);
    } else {
      var j := TakeHead(a, b);
      VolumeIgnoresOrder(files, a[1..], b[..j] + b[j + 1..]);
      VolumeWithout(files, b, j);
    }
  }

  lemma {:induction false} VolumeOfRelocations(files: map<string, string>, sources: seq<Source>, root: string)
    requires forall s <- sources :: s.path in files && s.size == |files[s.path]|
    ensures Volume(files, Relocations(sources, root)) == BytesUnder(sources, root)
  {
    if sources != [] {
      var init, s := sources[..|sources| - 1], sources[|sources| - 1];
      VolumeOfRelocations(files, init, root);
      if Within(s.path, root) {
        var w := Write(Under(TARGET, Suffix(s.path, root)), s.path);
        VolumeAppend(files, Relocations(init, root), [w]);
        assert s in sources && [w][1..] == [] && Volume(files, [w]) == s.size;
        assert Relocations(sources, root) == Relocations(init, root) + [w];
      } else {
        assert Relocations(sources, root) == Relocations(init, root);
      }
    }
  }

  /** The space a plan asks for is twice what its copies write. */
  lemma SpaceIsTwiceTheCopies(core: string, d: Document, files: map<string, string>)
    requires Ready(core, d, files)
    ensures d.body.requiredBytes == 2 * Volume(files, Writes(d.body))
  {
    WritesAreRelocations(d.body);
    VolumeIgnoresOrder(files, Writes(d.body), Relocations(d.body.sources, d.body.selected.value));
    VolumeOfRelocations(files, d.body.sources, d.body.selected.value);
  }

  /** Relocation is one to one: two copies with one destination are one copy. */
  lemma RelocationIsInjective(b: Body, v: Write, w: Write)
    requires IsRelocation(b, v) && IsRelocation(b, w) && v.path == w.path
    ensures v == w
  {
    UnderIsWithin(TARGET, Suffix(v.source, b.selected.value));
    UnderIsWithin(TARGET, Suffix(w.source, b.selected.value));
    SuffixGoesBack(v.source, b.selected.value);
    SuffixGoesBack(w.source, b.selected.value);
  }

  /** What a list of relocations leaves: the old files, and each copy under the target. */
  lemma {:induction false} CopiedHolds(b: Body, files: map<string, string>, writes: seq<Write>)
    requires forall w <- writes :: IsRelocation(b, w) && w.source in files
    requires forall p <- files :: !Within(p, TARGET)
    ensures forall p :: !Within(p, TARGET) ==> (p in Copied(files, writes) <==> p in files)
    ensures forall p <- files :: p in Copied(files, writes) && Copied(files, writes)[p] == files[p]
    ensures forall p <- Copied(files, writes) :: Within(p, TARGET) ==> exists w <- writes :: w.path == p
    ensures forall w <- writes :: w.path in Copied(files, writes) && Copied(files, writes)[w.path] == files[w.source]
  {
    if writes != [] {
      var init, last := writes[..|writes| - 1], writes[|writes| - 1];
      assert writes == init + [last];
      CopiedHolds(b, files, init);
      UnderIsWithin(TARGET, Suffix(last.source, b.selected.value));
      forall w | w in writes
        ensures w.path in Copied(files, writes) && Copied(files, writes)[w.path] == files[w.source]
      {
        if w != last && w.path == last.path { RelocationIsInjective(b, w, last); }
      }
    }
  }

  /** After any prefix of the copies, with a journal, the resume check accepts. */
  lemma ResumeAcceptsEveryPrefix(core: string, d: Document, files: map<string, string>, k: nat)
    requires Ready(core, d, files) && k <= |Writes(d.body)|
    ensures ResumeAccepts(true, d.body, Writes(d.body), Copied(files, Writes(d.body)[..k]))
  {
    var writes := Writes(d.body);
    WritesRelocate(core, d, files);
    CopiedHolds(d.body, files, writes[..k]);
    var after := Copied(files, writes[..k]);
    forall p | p in after && Within(p, TARGET)
      ensures exists w <- writes :: w.path == p && DigestOf(d.body.sources, w.source) == Some(Sha256(after[p]))
    {
      var w :| w in writes[..k] && w.path == p;
      assert w in writes;
    }
  }

  /** It refuses a target file the plan does not name, a planned one whose bytes
      differ, and any target file when there is no journal. */
  lemma ResumeRefusesForeignFiles(b: Body, writes: seq<Write>, files: map<string, string>, journal: bool, p: string)
    requires p in files && Within(p, TARGET)
    requires !journal || forall w <- writes :: w.path == p ==> DigestOf(b.sources, w.source) != Some(Sha256(files[p]))
    ensures !ResumeAccepts(journal, b, writes, files)
  {
  }

  lemma WriteOrderIsOrder()
    ensures IsOrder(WriteNotAfter)
  {
    LessEqIsOrder();
  }

  /** No prefix holds a pointer without every immutable file: readers of the target
      lane never follow a pointer into a half-copied generation. */
  lemma PointersComeLast(core: string, d: Document, k: nat, i: nat, w: Write)
    requires Accepts(core, d) && i < k <= |Writes(d.body)| && IsPointer(Writes(d.body)[i].path)
    requires w in Writes(d.body) && !IsPointer(w.path)
    ensures w in Writes(d.body)[..k]
  {
    var b := d.body;
    var copies := if b.needed && b.selected.Some? then Relocations(b.sources, b.selected.value) else [];
    WriteOrderIsOrder();
    SortOrders(WriteNotAfter, copies);
    var writes := Writes(b);
    var j :| 0 <= j < |writes| && writes[j] == w;
    assert i < j ==> WriteNotAfter(writes[i], writes[j]);
    assert writes[..k][j] == w;
  }

  /** The adapter's writer: an existing file must already hold the bytes. */
  method WriteFile(files: map<string, string>, path: string, bytes: string, script: Script)
    returns (o: Outcome<map<string, string>>, rest: Script)
    ensures o.Ok? ==> o.value == files[path := bytes]
    ensures path in files && files[path] != bytes ==> !o.Ok?
    ensures script == [] && (path in files ==> files[path] == bytes) ==> o.Ok? && rest == []
  {
    if path in files {
      return if files[path] == bytes then Ok(files) else Error, script;
    }
    var event := Next(script);
    rest := Rest(script);
    if event.Halt? { return Stopped(event), rest; }
    o := Ok(files[path := bytes]);
  }

  /** Copy every planned file, in order, from whatever prefix is already there. */
  method Apply(core: string, d: Document, ghost original: map<string, string>, ghost k: nat, files: map<string, string>, script: Script)
    returns (files': map<string, string>, complete: bool, ghost done: nat)
    requires Ready(core, d, original) && k <= |Writes(d.body)|
    requires files == Copied(original, Writes(d.body)[..k])
    ensures k <= done <= |Writes(d.body)| && files' == Copied(original, Writes(d.body)[..done])
    ensures complete ==> done == |Writes(d.body)|
    ensures script == [] ==> complete
  {
    WritesRelocate(core, d, original);
    files', complete, done := CopyFrom(d.body, original, Writes(d.body), k, files, script);
  }

  method CopyFrom(
    b: Body, ghost original: map<string, string>, writes: seq<Write>, ghost k: nat, files: map<string, string>, script: Script)
    returns (files': map<string, string>, complete: bool, ghost done: nat)
    requires k <= |writes| && files == Copied(original, writes[..k])
    requires forall w <- writes :: IsRelocation(b, w) && w.source in original
    requires forall p <- original :: !Within(p, TARGET)
    ensures k <= done <= |writes| && files' == Copied(original, writes[..done])
    ensures complete ==> done == |writes|
    ensures script == [] ==> complete
  {
    files', done, complete := files, k, false;
    var rest := script;
    for i := 0 to |writes|
      invariant k <= done <= |writes| && i <= done && (done == k || done == i)
      invariant files' == Copied(original, writes[..done])
      invariant script == [] ==> rest == []
    {
      var step;
      step, rest := CopyOne(b, original, writes, done, i, files', rest);
      if !step.Ok? { return; }
      files' := step.value;
      if i >= done { done := i + 1; }
    }
    complete := true;
  }

  method CopyOne(
    b: Body, ghost original: map<string, string>, writes: seq<Write>, ghost done: nat, i: nat, files: map<string, string>, script: Script)
    returns (o: Outcome<map<string, string>>, rest: Script)
    requires i < |writes| && i <= done <= |writes|
    requires forall w <- writes :: IsRelocation(b, w) && w.source in original
    requires forall p <- original :: !Within(p, TARGET)
    requires files == Copied(original, writes[..done])
    ensures o.Ok? ==> o.value == Copied(original, writes[..if i < done then done else i + 1])
    ensures script == [] ==> o.Ok? && rest == []
  {
    var w := writes[i];
    CopiedHolds(b, original, writes[..done]);
    CopyingOneMore(b, original, writes, done, i);
    o, rest := WriteFile(files, w.path, files[w.source], script);
  }

  /** Copying the next file, or one already copied. */
  lemma CopyingOneMore(b: Body, original: map<string, string>, writes: seq<Write>, done: nat, i: nat)
    requires i < |writes| && done <= |writes| && i <= done
    requires forall w <- writes :: IsRelocation(b, w) && w.source in original
    requires forall p <- original :: !Within(p, TARGET)
    ensures var sofar := Copied(original, writes[..done]);
            var w := writes[i];
            && (i < done ==> sofar[w.path := original[w.source]] == sofar)
            && (i == done ==> sofar[w.path := original[w.source]] == Copied(original, writes[..i + 1]))
            && (w.path in sofar ==> sofar[w.path] == original[w.source])
  {
    CopiedHolds(b, original, writes[..done]);
    var w := writes[i];
    var sofar := Copied(original, writes[..done]);
    UnderIsWithin(TARGET, Suffix(w.source, b.selected.value));
    if i < done { assert writes[..done][i] == w; }
    if i == done { assert writes[..i + 1][..i] == writes[..i]; }
    if w.path in sofar {
      var v :| v in writes[..done] && v.path == w.path;
      RelocationIsInjective(b, v, w);
    }
  }

  /** When every file is copied, the target holds exactly the selected root. */
  lemma RelocationIsComplete(core: string, d: Document, files: map<string, string>)
    requires Ready(core, d, files)
    ensures Normalized(Copied(files, Writes(d.body)), TARGET) == Normalized(files, d.body.selected.value)
  {
    var b, writes := d.body, Writes(d.body);
    var after, root := Copied(files, writes), b.selected.value;
    WritesRelocate(core, d, files);
    CopiedHolds(b, files, writes);
    SuffixesAreUnder(after.Keys, TARGET);
    SuffixesAreUnder(files.Keys, root);
    forall x
      ensures x in Normalized(after, TARGET) <==> x in Normalized(files, root)
      ensures x in Normalized(files, root) ==> after[Under(TARGET, x)] == files[Under(root, x)]
    {
      UnderIsWithin(TARGET, x);
      UnderIsWithin(root, x);
      if x in Normalized(after, TARGET) {
        var w :| w in writes && w.path == Under(TARGET, x);
        UnderIsWithin(TARGET, Suffix(w.source, root));
        SuffixGoesBack(w.source, root);
      }
      if x in Normalized(files, root) {
        assert Write(Under(TARGET, x), Under(root, x)) in writes;
      }
    }
  }
}
