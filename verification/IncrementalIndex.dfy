/** The digest-keyed incremental index, its cold oracle, and closure over calls. */
module IncrementalIndex {
  import opened Prelude
  import opened Sorting
  import opened Text

  datatype Digest = Sha256(bytes: string)

  /** What one file defines, in order, and the names each of its bodies calls. */
  datatype Parsed = Parsed(definitions: seq<string>, calls: map<string, set<string>>)

  /** The name is defined by `path`, and by no later path. */
  ghost predicate LastDefines(symbols: map<string, seq<string>>, name: string, path: string) {
    path in symbols && name in symbols[path] && forall q <- symbols :: name in symbols[q] ==> LessEq(q, path)
  }

  ghost predicate LastCalls(rawCalls: map<string, map<string, set<string>>>, caller: string, path: string) {
    path in rawCalls && caller in rawCalls[path] && forall q <- rawCalls :: caller in rawCalls[q] ==> LessEq(q, path)
  }

  /** The symbol table: every defined name, at its last file in path order. */
  ghost predicate IsSymbolTable(symbols: map<string, seq<string>>, table: map<string, string>) {
    && (forall name <- table :: LastDefines(symbols, name, table[name]))
    && forall path <- symbols, name <- symbols[path] :: name in table
  }

  function Known(caller: string, names: set<string>, known: set<string>): set<string> {
    set n | n in names && n in known && n != caller
  }

  /** The call table: every caller, as its last file in path order calls. */
  ghost predicate IsCallTable(
    rawCalls: map<string, map<string, set<string>>>, known: set<string>, table: map<string, set<string>>)
  {
    && (forall caller <- table :: exists path :: LastCalls(rawCalls, caller, path)
                                                  && table[caller] == Known(caller, rawCalls[path][caller], known))
    && forall path <- rawCalls, caller <- rawCalls[path] :: caller in table
  }

  function Reached(calls: map<string, set<string>>, known: set<string>): set<string> {
    set c, n | c in calls && n in Known(c, calls[c], known) :: n
  }

  function EdgeTable(rawCalls: map<string, map<string, set<string>>>, known: set<string>): map<string, set<string>> {
    map p | p in rawCalls :: Reached(rawCalls[p], known)
  }

  lemma SymbolTableIsUnique(symbols: map<string, seq<string>>, a: map<string, string>, b: map<string, string>)
    requires IsSymbolTable(symbols, a) && IsSymbolTable(symbols, b)
    ensures a == b
  {
    assert forall name <- a :: LastDefines(symbols, name, a[name]) && name in b;
    assert forall name <- b :: LastDefines(symbols, name, b[name]) && name in a;
    forall name | name in a
      ensures a[name] == b[name]
    {
      LessIsStrict(a[name], b[name]);
    }
  }

  lemma CallTableIsUnique(
    rawCalls: map<string, map<string, set<string>>>, known: set<string>, a: map<string, set<string>>, b: map<string, set<string>>)
    requires IsCallTable(rawCalls, known, a) && IsCallTable(rawCalls, known, b)
    ensures a == b
  {
    CallersAreDefined(rawCalls, known, a, b);
    CallersAreDefined(rawCalls, known, b, a);
    forall caller | caller in a
      ensures a[caller] == b[caller]
    {
      var p :| LastCalls(rawCalls, caller, p) && a[caller] == Known(caller, rawCalls[p][caller], known);
      var q :| LastCalls(rawCalls, caller, q) && b[caller] == Known(caller, rawCalls[q][caller], known);
      LessIsStrict(p, q);
    }
  }

  /** A caller of some file is resolved as its last file calls. */
  lemma CallerResolves(
    rawCalls: map<string, map<string, set<string>>>, known: set<string>, table: map<string, set<string>>,
    caller: string, p: string) returns (q: string)
    requires IsCallTable(rawCalls, known, table) && p in rawCalls && caller in rawCalls[p]
    ensures caller in table && LastCalls(rawCalls, caller, q)
    ensures table[caller] == Known(caller, rawCalls[q][caller], known)
  {
    q :| LastCalls(rawCalls, caller, q) && table[caller] == Known(caller, rawCalls[q][caller], known);
  }

  lemma CallersAreDefined(
    rawCalls: map<string, map<string, set<string>>>, known: set<string>, a: map<string, set<string>>, b: map<string, set<string>>)
    requires IsCallTable(rawCalls, known, a) && IsCallTable(rawCalls, known, b)
    ensures a.Keys <= b.Keys
  {
    forall caller | caller in a
      ensures caller in b
    {
      var p :| LastCalls(rawCalls, caller, p);
    }
  }

  function Restricted<V>(m: map<string, V>, keys: seq<string>): map<string, V> {
    map k | k in m && k in keys :: m[k]
  }

  function Overlay(base: map<string, string>, names: seq<string>, path: string): map<string, string> {
    base + map n | n in names :: path
  }

  lemma OverlayOneMore(base: map<string, string>, names: seq<string>, j: nat, path: string)
    requires j < |names|
    ensures Overlay(base, names[..j + 1], path) == Overlay(base, names[..j], path)[names[j] := path]
  {
    assert names[..j + 1] == names[..j] + [names[j]];
  }

  function Resolutions(calls: map<string, set<string>>, known: set<string>): map<string, set<string>> {
    map c | c in calls :: Known(c, calls[c], known)
  }

  lemma RestrictedToAll<V>(m: map<string, V>, paths: seq<string>)
    requires forall k :: k in paths <==> k in m
    ensures Restricted(m, paths[..|paths|]) == m
  {
    assert paths[..|paths|] == paths;
  }

  lemma RestrictedOneMore<V>(m: map<string, V>, paths: seq<string>, i: nat)
    requires i < |paths| && Ordered(LessEq, paths) && paths[i] in m
    ensures Restricted(m, paths[..i + 1]) == Restricted(m, paths[..i])[paths[i] := m[paths[i]]]
    ensures forall q <- Restricted(m, paths[..i]) :: LessEq(q, paths[i])
  {
    assert paths[..i + 1] == paths[..i] + [paths[i]];
    forall q | q in paths[..i]
      ensures LessEq(q, paths[i])
    {
      var k :| 0 <= k < i && paths[k] == q;
    }
  }

  lemma SymbolsOfOneMore(symbols: map<string, seq<string>>, paths: seq<string>, i: nat, base: map<string, string>)
    requires i < |paths| && Ordered(LessEq, paths) && paths[i] in symbols
    requires IsSymbolTable(Restricted(symbols, paths[..i]), base)
    ensures IsSymbolTable(Restricted(symbols, paths[..i + 1]), Overlay(base, symbols[paths[i]], paths[i]))
  {
    RestrictedOneMore(symbols, paths, i);
    SymbolsWithLast(Restricted(symbols, paths[..i]), paths[i], symbols[paths[i]], base);
  }

  lemma SymbolsWithLast(symbols: map<string, seq<string>>, path: string, names: seq<string>, base: map<string, string>)
    requires IsSymbolTable(symbols, base) && forall q <- symbols :: LessEq(q, path)
    requires path in symbols ==> symbols[path] == names
    ensures IsSymbolTable(symbols[path := names], Overlay(base, names, path))
  {
    var table := Overlay(base, names, path);
    forall name | name in table
      ensures LastDefines(symbols[path := names], name, table[name])
    {
      if name !in names { assert LastDefines(symbols, name, base[name]); }
    }
  }

  lemma CallsOfOneMore(
    rawCalls: map<string, map<string, set<string>>>, paths: seq<string>, i: nat, known: set<string>, base: map<string, set<string>>)
    requires i < |paths| && Ordered(LessEq, paths) && paths[i] in rawCalls
    requires IsCallTable(Restricted(rawCalls, paths[..i]), known, base)
    ensures IsCallTable(Restricted(rawCalls, paths[..i + 1]), known, base + Resolutions(rawCalls[paths[i]], known))
    ensures EdgeTable(Restricted(rawCalls, paths[..i + 1]), known) ==
            EdgeTable(Restricted(rawCalls, paths[..i]), known)[paths[i] := Reached(rawCalls[paths[i]], known)]
  {
    RestrictedOneMore(rawCalls, paths, i);
    CallsWithLast(Restricted(rawCalls, paths[..i]), paths[i], rawCalls[paths[i]], known, base);
  }

  lemma CallsWithLast(
    rawCalls: map<string, map<string, set<string>>>, path: string, calls: map<string, set<string>>, known: set<string>,
    base: map<string, set<string>>)
    requires IsCallTable(rawCalls, known, base) && forall q <- rawCalls :: LessEq(q, path)
    requires path in rawCalls ==> rawCalls[path] == calls
    ensures IsCallTable(rawCalls[path := calls], known, base + Resolutions(calls, known))
  {
    var after, table := rawCalls[path := calls], base + Resolutions(calls, known);
    forall caller | caller in table
      ensures exists p :: LastCalls(after, caller, p) && table[caller] == Known(caller, after[p][caller], known)
    {
      if caller in calls {
        assert LastCalls(after, caller, path);
      } else {
        var p :| LastCalls(rawCalls, caller, p) && base[caller] == Known(caller, rawCalls[p][caller], known);
        assert LastCalls(after, caller, p);
      }
    }
  }

  /** The contents a scan leaves indexed: stale files keep what was last scanned. */
  function View(before: map<string, Digest>, files: seq<string>, disk: map<string, string>, stale: set<string>): map<string, Digest> {
    map p | p in files && (if p in stale then p in before else p in disk) ::
      if p in stale then before[p] else Sha256(disk[p])
  }

  /** Files whose content the index has not seen. */
  function DirtyFiles(before: map<string, Digest>, files: seq<string>, disk: map<string, string>, stale: set<string>): set<string> {
    set p | p in files && p !in stale && p in disk && (p !in before || before[p] != Sha256(disk[p]))
  }

  /** The digests after the reads, before the vanished files are dropped. */
  function Updated(before: map<string, Digest>, files: seq<string>, disk: map<string, string>, stale: set<string>): map<string, Digest> {
    before + map p | p in files && p !in stale && p in disk :: Sha256(disk[p])
  }

  function Vanished(digests: map<string, Digest>, files: seq<string>): set<string> {
    set p | p in digests && p !in files
  }

  lemma RemovingLeavesView(before: map<string, Digest>, files: seq<string>, disk: map<string, string>, stale: set<string>)
    requires forall p <- files :: p in stale || p in disk
    ensures var after := Updated(before, files, disk, stale);
            after - Vanished(after, files) == View(before, files, disk, stale)
  {
  }

  /** How many files a scan gets through before one that cannot be read. */
  function Readable(files: seq<string>, disk: map<string, string>, stale: set<string>): (n: nat)
    ensures n <= |files|
    ensures forall p <- files[..n] :: p in stale || p in disk
    ensures n < |files| ==> files[n] !in stale && files[n] !in disk
  {
    if files == [] || (files[0] !in stale && files[0] !in disk) then 0
    else
      var n := Readable(files[1..], disk, stale);
      assert files[..n + 1] == [files[0]] + files[1..][..n];
      n + 1
  }

  lemma StopsHere(files: seq<string>, disk: map<string, string>, stale: set<string>, i: nat)
    requires i <= Readable(files, disk, stale) && i < |files| && files[i] !in stale && files[i] !in disk
    ensures Readable(files, disk, stale) == i
  {
    var n := Readable(files, disk, stale);
    forall k | 0 <= k < n
      ensures files[k] in stale || files[k] in disk
    {
      assert files[..n][k] in files[..n];
    }
  }

  lemma AllReadable(files: seq<string>, disk: map<string, string>, stale: set<string>)
    ensures Readable(files, disk, stale) == |files| <==> forall p <- files :: p in stale || p in disk
  {
    var n := Readable(files, disk, stale);
    if n == |files| { assert files[..n] == files; }
    else { assert files[n] in files; }
  }

  lemma DigestsOfContents(digests: map<string, Digest>)
    ensures (map p | p in Contents(digests) :: Sha256(Contents(digests)[p])) == digests
  {
  }

  datatype Pass = Pass(files: seq<string>, disk: map<string, string>, stale: set<string>)
  {
    /** The files the scan reads or skips before it stops. */
    function Reached(): seq<string> {
      files[..Readable(files, disk, stale)]
    }

    predicate Completes() {
      Readable(files, disk, stale) == |files|
    }
  }

  /** The digests a scan leaves, whether it completes or stops at an unreadable file. */
  function Scanned(before: map<string, Digest>, pass: Pass): map<string, Digest> {
    if pass.Completes() then View(before, pass.files, pass.disk, pass.stale)
    else Updated(before, pass.Reached(), pass.disk, pass.stale)
  }

  /** The mixed view after a history of scans. */
  function Mixed(before: map<string, Digest>, history: seq<Pass>): map<string, Digest> {
    if history == [] then before
    else Scanned(Mixed(before, history[..|history| - 1]), history[|history| - 1])
  }

  /** What one scan means for one file: its content if the scan read it, nothing if a
      complete scan was not given it, and otherwise what it was. */
  function LastSeen(before: Option<Digest>, pass: Pass, p: string): Option<Digest> {
    if p in pass.Reached() && p !in pass.stale then
      (if p in pass.disk then Some(Sha256(pass.disk[p])) else None)
    else if pass.Completes() && p !in pass.files then None
    else before
  }

  function LastSeenOver(before: Option<Digest>, history: seq<Pass>, p: string): Option<Digest> {
    if history == [] then before
    else LastSeen(LastSeenOver(before, history[..|history| - 1], p), history[|history| - 1], p)
  }

  function Lookup(m: map<string, Digest>, p: string): Option<Digest> {
    if p in m then Some(m[p]) else None
  }

  lemma ScannedPerFile(before: map<string, Digest>, pass: Pass, p: string)
    ensures Lookup(Scanned(before, pass), p) == LastSeen(Lookup(before, p), pass, p)
  {
    assert pass.Completes() ==> pass.Reached() == pass.files;
  }

  /** The mixed view holds, file by file, the content of the last scan that read the
      file, unless a later complete scan was not given it. */
  lemma {:induction false} MixedPerFile(before: map<string, Digest>, history: seq<Pass>, p: string)
    ensures Lookup(Mixed(before, history), p) == LastSeenOver(Lookup(before, p), history, p)
  {
    if history != [] {
      MixedPerFile(before, history[..|history| - 1], p);
      ScannedPerFile(Mixed(before, history[..|history| - 1]), history[|history| - 1], p);
    }
  }

  function NeedsParse(digests: map<string, Digest>, path: string, bytes: string): bool {
    path !in digests || digests[path] != Sha256(bytes)
  }

  lemma SkippedFile(before: map<string, Digest>, files: seq<string>, i: nat, disk: map<string, string>, stale: set<string>)
    requires i < |files| && (files[i] in stale || files[i] !in disk)
    ensures Updated(before, files[..i + 1], disk, stale) == Updated(before, files[..i], disk, stale)
    ensures DirtyFiles(before, files[..i + 1], disk, stale) == DirtyFiles(before, files[..i], disk, stale)
  {
    assert files[..i + 1] == files[..i] + [files[i]];
  }

  /** What reading the next file adds. */
  lemma OneMoreFile(before: map<string, Digest>, files: seq<string>, i: nat, disk: map<string, string>, stale: set<string>)
    requires i < |files| && files[i] !in stale && files[i] in disk
    ensures Updated(before, files[..i + 1], disk, stale) ==
            Updated(before, files[..i], disk, stale)[files[i] := Sha256(disk[files[i]])]
    ensures DirtyFiles(before, files[..i + 1], disk, stale) == DirtyFiles(before, files[..i], disk, stale) +
            if NeedsParse(Updated(before, files[..i], disk, stale), files[i], disk[files[i]]) then {files[i]} else {}
    ensures NeedsParse(Updated(before, files[..i], disk, stale), files[i], disk[files[i]]) ==>
              files[i] !in DirtyFiles(before, files[..i], disk, stale)
  {
    assert files[..i + 1] == files[..i] + [files[i]];
  }

  class GraphIndex {
    const parse: string -> Parsed
    var digests: map<string, Digest>
    var symbols: map<string, seq<string>>
    var rawCalls: map<string, map<string, set<string>>>
    var edges: map<string, set<string>>
    var callees: map<string, set<string>>
    var symbolFile: map<string, string>

    constructor (parse: string -> Parsed)
      ensures this.parse == parse && digests == map[] && Cached() && Resolved()
    {
      this.parse := parse;
      digests, symbols, rawCalls, edges, callees, symbolFile := map[], map[], map[], map[], map[], map[];
    }

    /** Every cached file holds the parse of the content its digest names. */
    ghost predicate Cached()
      reads this
    {
      && symbols.Keys == digests.Keys && rawCalls.Keys == digests.Keys
      && forall p <- digests ::
           symbols[p] == parse(digests[p].bytes).definitions && rawCalls[p] == parse(digests[p].bytes).calls
    }

    /** The derived tables are those of the cached files. */
    ghost predicate Resolved()
      reads this
    {
      && IsSymbolTable(symbols, symbolFile)
      && IsCallTable(rawCalls, symbolFile.Keys, callees)
      && edges == EdgeTable(rawCalls, symbolFile.Keys)
    }

    /** The symbol table, later files over earlier ones. */
    method ResolveSymbols()
      modifies this`symbolFile
      ensures IsSymbolTable(symbols, symbolFile)
    {
      symbolFile := map[];
      var paths := KeysInOrder(symbols.Keys);
      for i := 0 to |paths|
        invariant IsSymbolTable(Restricted(symbols, paths[..i]), symbolFile)
      {
        SymbolsOfOneMore(symbols, paths, i, symbolFile);
        Define(symbols[paths[i]], paths[i]);
      }
      RestrictedToAll(symbols, paths);
    }

    method Define(names: seq<string>, path: string)
      modifies this`symbolFile
      ensures symbolFile == Overlay(old(symbolFile), names, path)
    {
      for j := 0 to |names|
        invariant symbolFile == Overlay(old(symbolFile), names[..j], path)
      {
        OverlayOneMore(old(symbolFile), names, j, path);
        symbolFile := symbolFile[names[j] := path];
      }
      assert names[..|names|] == names;
    }

    /** The call table and each file's reachable names. */
    method ResolveCalls()
      modifies this`callees, this`edges
      ensures IsCallTable(rawCalls, symbolFile.Keys, callees)
      ensures edges == EdgeTable(rawCalls, symbolFile.Keys)
    {
      var known := symbolFile.Keys;
      callees, edges := map[], map[];
      var paths := KeysInOrder(rawCalls.Keys);
      for i := 0 to |paths|
        invariant IsCallTable(Restricted(rawCalls, paths[..i]), known, callees)
        invariant edges == EdgeTable(Restricted(rawCalls, paths[..i]), known)
      {
        CallsOfOneMore(rawCalls, paths, i, known, callees);
        ResolvePath(paths[i], rawCalls[paths[i]], known);
      }
      RestrictedToAll(rawCalls, paths);
    }

    method ResolvePath(path: string, calls: map<string, set<string>>, known: set<string>)
      modifies this`callees, this`edges
      ensures callees == old(callees) + Resolutions(calls, known)
      ensures edges == old(edges)[path := Reached(calls, known)]
    {
      var reachable := ResolveFile(calls, known);
      edges := edges[path := reachable];
    }

    method ResolveFile(calls: map<string, set<string>>, known: set<string>) returns (reachable: set<string>)
      modifies this`callees
      ensures callees == old(callees) + Resolutions(calls, known)
      ensures reachable == Reached(calls, known)
    {
      reachable := {};
      var left := calls.Keys;
      ghost var done: set<string> := {};
      while left != {}
        invariant left + done == calls.Keys && left !! done
        invariant callees == old(callees) + map c | c in calls && c in done :: Known(c, calls[c], known)
        invariant reachable == set c, n | c in calls && c in done && n in Known(c, calls[c], known) :: n
      {
        var caller :| caller in left;
        left := left - {caller};
        done := done + {caller};
        var resolved := Known(caller, calls[caller], known);
        callees := callees[caller := resolved];
        reachable := reachable + resolved;
      }
      assert done == calls.Keys;
    }

    method Resolve()
      modifies this`symbolFile, this`callees, this`edges
      ensures Resolved()
    {
      ResolveSymbols();
      ResolveCalls();
    }

    /** Read, hash, and parse one file unless its content is cached. */
    method ReadFile(path: string, bytes: string) returns (parsed: bool)
      requires Cached()
      modifies this`digests, this`symbols, this`rawCalls
      ensures Cached()
      ensures digests == old(digests)[path := Sha256(bytes)]
      ensures parsed == NeedsParse(old(digests), path, bytes)
    {
      var digest := Sha256(bytes);
      parsed := path !in digests || digests[path] != digest;
      if parsed {
        var p := parse(bytes);
        digests := digests[path := digest];
        symbols := symbols[path := p.definitions];
        rawCalls := rawCalls[path := p.calls];
      }
    }

    /** The first half of a scan.  A file that cannot be read ends it there, with the
        files before it cached. */
    method ReadFiles(files: seq<string>, disk: map<string, string>, stale: set<string>)
      returns (ok: bool, parsed: nat, ghost reached: nat)
      requires Cached()
      modifies this`digests, this`symbols, this`rawCalls
      ensures Cached()
      ensures reached == Readable(files, disk, stale) && (ok <==> reached == |files|)
      ensures digests == Updated(old(digests), files[..reached], disk, stale)
      ensures parsed == |DirtyFiles(old(digests), files[..reached], disk, stale)|
    {
      ok, parsed, reached := true, 0, Readable(files, disk, stale);
      for i := 0 to |files|
        invariant Cached()
        invariant i <= reached
        invariant digests == Updated(old(digests), files[..i], disk, stale)
        invariant parsed == |DirtyFiles(old(digests), files[..i], disk, stale)|
      {
        assert files[..i + 1] == files[..i] + [files[i]];
        if files[i] in stale {
          SkippedFile(old(digests), files, i, disk, stale);
        } else {
          if files[i] !in disk {
            StopsHere(files, disk, stale, i);
            return false, parsed, i;
          }
          OneMoreFile(old(digests), files, i, disk, stale);
          var changed := ReadFile(files[i], disk[files[i]]);
          if changed { parsed := parsed + 1; }
        }
      }
    }

    method DropVanished(files: seq<string>)
      requires Cached()
      modifies this`digests, this`symbols, this`rawCalls
      ensures Cached()
      ensures digests == old(digests) - Vanished(old(digests), files)
    {
      var removed := Vanished(digests, files);
      digests, symbols, rawCalls := digests - removed, symbols - removed, rawCalls - removed;
    }

    /** One incremental pass.  `stale` files are taken for unchanged without a look. */
    method Scan(files: seq<string>, disk: map<string, string>, stale: set<string>)
      returns (ok: bool, parsed: nat)
      requires Cached()
      modifies this
      ensures Cached()
      ensures ok <==> forall p <- files :: p in stale || p in disk
      ensures ok <==> Pass(files, disk, stale).Completes()
      ensures digests == Scanned(old(digests), Pass(files, disk, stale))
      ensures ok ==> Resolved()
      // Exactly the files whose content was not cached are parsed.
      ensures ok ==> parsed == |DirtyFiles(old(digests), files, disk, stale)|
    {
      ghost var reached;
      ok, parsed, reached := ReadFiles(files, disk, stale);
      AllReadable(files, disk, stale);
      if !ok { return; }
      assert files[..|files|] == files;
      RemovingLeavesView(old(digests), files, disk, stale);
      DropVanished(files);
      Resolve();
    }
  }

  predicate SameIndex(a: GraphIndex, b: GraphIndex)
    reads a, b
  {
    && a.digests == b.digests && a.symbols == b.symbols && a.rawCalls == b.rawCalls
    && a.symbolFile == b.symbolFile && a.callees == b.callees && a.edges == b.edges
  }

  /** Two resolved indexes over the same contents are the same index. */
  lemma SameContentsSameIndex(a: GraphIndex, b: GraphIndex)
    requires a.parse == b.parse && a.Cached() && b.Cached() && a.Resolved() && b.Resolved()
    requires a.digests == b.digests
    ensures SameIndex(a, b)
  {
    SymbolTableIsUnique(a.symbols, a.symbolFile, b.symbolFile);
    CallTableIsUnique(a.rawCalls, a.symbolFile.Keys, a.callees, b.callees);
  }

  function Contents(view: map<string, Digest>): map<string, string> {
    map p | p in view :: view[p].bytes
  }

  /** A cold index over given contents. */
  method FreshIndex(parse: string -> Parsed, contents: map<string, string>) returns (cold: GraphIndex)
    ensures fresh(cold) && cold.parse == parse && cold.Cached() && cold.Resolved()
    ensures cold.digests == map p | p in contents :: Sha256(contents[p])
  {
    cold := new GraphIndex(parse);
    var files := KeysInOrder(contents.Keys);
    var ok, parsed := cold.Scan(files, contents, {});
  }

  lemma AgreesWithContents(index: GraphIndex, cold: GraphIndex)
    requires index.parse == cold.parse && index.Cached() && cold.Cached() && index.Resolved() && cold.Resolved()
    requires cold.digests == map p | p in Contents(index.digests) :: Sha256(Contents(index.digests)[p])
    ensures SameIndex(index, cold)
  {
    assert cold.digests == index.digests;
    SameContentsSameIndex(index, cold);
  }

  lemma FreshView(before: map<string, Digest>, files: seq<string>, disk: map<string, string>)
    ensures View(before, files, disk, {}) == OnDisk(files, disk)
  {
  }

  function OnDisk(files: seq<string>, disk: map<string, string>): map<string, Digest> {
    map p | p in files && p in disk :: Sha256(disk[p])
  }

  method RunPasses(index: GraphIndex, history: seq<Pass>)
    requires index.Cached()
    modifies index
    ensures index.Cached()
    ensures index.digests == Mixed(old(index.digests), history)
  {
    for i := 0 to |history|
      invariant index.Cached()
      invariant index.digests == Mixed(old(index.digests), history[..i])
    {
      var ok, parsed := index.Scan(history[i].files, history[i].disk, history[i].stale);
      assert history[..i + 1][..i] == history[..i];
    }
    assert history[..|history|] == history;
  }

  /** After any history of scans, edits, removals and failed scans, a pass that
      succeeds leaves exactly the index a cold build makes of the mixed view: the
      disk, except that stale files keep the content they were last scanned with. */
  method AgreesWithColdIndex(index: GraphIndex, history: seq<Pass>, last: Pass)
    returns (cold: GraphIndex, ok: bool)
    requires index.Cached()
    modifies index
    ensures index.Cached() && index.digests == Mixed(old(index.digests), history + [last])
    ensures ok <==> last.Completes()
    // `cold` was built from nothing over the mixed view.
    ensures fresh(cold) && cold.parse == index.parse && cold.Cached() && cold.Resolved()
    ensures cold.digests == Mixed(old(index.digests), history + [last])
    ensures ok ==> SameIndex(index, cold)
    // With nothing stale the view is the disk itself.
    ensures ok && last.stale == {} ==> index.digests == OnDisk(last.files, last.disk)
  {
    RunPasses(index, history);
    ghost var before := index.digests;
    assert (history + [last])[..|history|] == history;
    var parsed;
    ok, parsed := index.Scan(last.files, last.disk, last.stale);
    cold := FreshIndex(index.parse, Contents(index.digests));
    DigestsOfContents(index.digests);
    if ok {
      AgreesWithContents(index, cold);
      if last.stale == {} { FreshView(before, last.files, last.disk); }
    }
  }
}
