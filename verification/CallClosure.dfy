/** Closure over resolved calls, and its size on the generated workload. */
module CallClosure {
  import opened Sorting
  import I = IncrementalIndex

  function CalleesOf(callees: map<string, set<string>>, symbol: string): set<string> {
    if symbol in callees then callees[symbol] else {}
  }

  /** A chain of calls from one symbol to another. */
  ghost predicate Chain(callees: map<string, set<string>>, from: string, walk: seq<string>, to: string)
    decreases |walk|
  {
    if walk == [] then from == to
    else walk[0] in CalleesOf(callees, from) && Chain(callees, walk[0], walk[1..], to)
  }

  ghost predicate Reachable(callees: map<string, set<string>>, from: string, to: string) {
    exists walk :: Chain(callees, from, walk, to)
  }

  lemma {:induction false} ChainExtends(callees: map<string, set<string>>, from: string, walk: seq<string>, mid: string, to: string)
    requires Chain(callees, from, walk, mid) && to in CalleesOf(callees, mid)
    ensures Chain(callees, from, walk + [to], to)
    decreases |walk|
  {
    if walk == [] {
      assert Chain(callees, to, [], to);
      assert [to][1..] == [];
    } else {
      ChainExtends(callees, walk[0], walk[1..], mid, to);
      assert (walk + [to])[1..] == walk[1..] + [to];
    }
  }

  lemma ReachableExtends(callees: map<string, set<string>>, from: string, mid: string, to: string)
    requires Reachable(callees, from, mid) && to in CalleesOf(callees, mid)
    ensures Reachable(callees, from, to)
  {
    var walk :| Chain(callees, from, walk, mid);
    ChainExtends(callees, from, walk, mid, to);
  }

  lemma {:induction false} ClosedContainsChains(callees: map<string, set<string>>, closed: set<string>, from: string, walk: seq<string>, to: string)
    requires from in closed && forall s <- closed :: CalleesOf(callees, s) <= closed
    requires Chain(callees, from, walk, to)
    ensures to in closed
    decreases |walk|
  {
    if walk != [] {
      ClosedContainsChains(callees, closed, walk[0], walk[1..], to);
    }
  }

  /** Queue the callees of one symbol that were not seen yet. */
  method Visit(callees: set<string>, seen: set<string>, queue: seq<string>)
    returns (seen': set<string>, queue': seq<string>)
    ensures seen' == seen + callees
    ensures forall s :: s in queue' <==> s in queue || (s in callees && s !in seen)
    ensures seen' == seen ==> queue' == queue
  {
    seen', queue' := seen, queue;
    var left := callees;
    ghost var done: set<string> := {};
    while left != {}
      invariant done + left == callees && done !! left
      invariant seen' == seen + done
      invariant forall s :: s in queue' <==> s in queue || (s in done && s !in seen)
      invariant seen' == seen ==> queue' == queue
    {
      var callee :| callee in left;
      left := left - {callee};
      done := done + {callee};
      if callee !in seen' {
        seen' := seen' + {callee};
        queue' := queue' + [callee];
      }
    }
  }

  /** Breadth-first closure.  It ends on cyclic call graphs because a symbol enters
      the queue once, and finds exactly the symbols a chain of calls reaches. */
  method Closure(callees: map<string, set<string>>, known: set<string>, target: string)
    returns (found: bool, symbols: set<string>)
    requires forall s <- callees :: callees[s] <= known
    ensures found <==> target in known
    ensures found ==> forall s :: s in symbols <==> Reachable(callees, target, s)
    ensures !found ==> symbols == {}
  {
    if target !in known { return false, {}; }
    var seen, queue := {target}, [target];
    assert Chain(callees, target, [], target);
    while queue != []
      invariant target in seen && seen <= known
      invariant forall s <- queue :: s in seen
      invariant forall s <- seen :: Reachable(callees, target, s)
      invariant forall s <- seen :: s in queue || CalleesOf(callees, s) <= seen
      decreases |known - seen|, |queue|
    {
      var current := queue[0];
      CalleesAreReachable(callees, target, current);
      assert queue == [current] + queue[1..];
      var seen', queue' := Visit(CalleesOf(callees, current), seen, queue[1..]);
      GrowthShrinksRest(known, seen, seen');
      seen, queue := seen', queue';
    }
    ClosedContainsReachable(callees, seen, target);
    return true, seen;
  }

  lemma ResolvedCallsAreKnown(index: I.GraphIndex)
    requires index.Resolved()
    ensures forall s <- index.callees :: index.callees[s] <= index.symbolFile.Keys
  {
    forall s | s in index.callees
      ensures index.callees[s] <= index.symbolFile.Keys
    {
      var p :| I.LastCalls(index.rawCalls, s, p)
               && index.callees[s] == I.Known(s, index.rawCalls[p][s], index.symbolFile.Keys);
    }
  }

  /** Closure over an index a scan left behind. */
  method ClosureOf(index: I.GraphIndex, target: string) returns (found: bool, symbols: set<string>)
    requires index.Resolved()
    ensures found <==> target in index.symbolFile
    ensures found ==> forall s :: s in symbols <==> Reachable(index.callees, target, s)
  {
    ResolvedCallsAreKnown(index);
    found, symbols := Closure(index.callees, index.symbolFile.Keys, target);
  }

  lemma GrowthShrinksRest(known: set<string>, seen: set<string>, seen': set<string>)
    requires seen <= seen' <= known
    ensures seen == seen' || |known - seen'| < |known - seen|
  {
    if seen != seen' {
      var s :| s in seen' && s !in seen;
      SubsetIsSmaller(known - seen', known - seen, s);
    }
  }

  lemma CalleesAreReachable(callees: map<string, set<string>>, from: string, mid: string)
    requires Reachable(callees, from, mid)
    ensures forall s <- CalleesOf(callees, mid) :: Reachable(callees, from, s)
  {
    forall s | s in CalleesOf(callees, mid)
      ensures Reachable(callees, from, s)
    {
      ReachableExtends(callees, from, mid, s);
    }
  }

  lemma ClosedContainsReachable(callees: map<string, set<string>>, closed: set<string>, from: string)
    requires from in closed && forall s <- closed :: CalleesOf(callees, s) <= closed
    ensures forall s :: Reachable(callees, from, s) ==> s in closed
  {
    forall s | Reachable(callees, from, s)
      ensures s in closed
    {
      var walk :| Chain(callees, from, walk, s);
      ClosedContainsChains(callees, closed, from, walk, s);
    }
  }

  /** The four functions of one generated module. */
  datatype Symbol = Fn00(m: nat) | Fn01(m: nat) | Fn02(m: nat) | Export(m: nat)

  /** What the generator means each function to call. */
  function Intended(s: Symbol): set<Symbol> {
    match s
    case Fn00(m) => {}
    case Fn01(m) => {Fn00(m)}
    case Fn02(m) => {Fn01(m)}
    case Export(m) => {Fn02(m)} + if m > 0 then {Fn01(m - 1), Export(m - 1)} else {}
  }

  function Generated(n: nat): set<Symbol> {
    if n == 0 then {}
    else Generated(n - 1) + Module(n - 1)
  }

  lemma {:induction false} GeneratedHas(n: nat, s: Symbol)
    ensures s in Generated(n) <==> s.m < n
  {
    if n > 0 {
      GeneratedHas(n - 1, s);
      ModuleHas(n - 1, s);
    }
  }

  lemma {:induction false} GeneratedSize(n: nat)
    ensures |Generated(n)| == 4 * n
  {
    if n > 0 {
      var before, more := Generated(n - 1), Module(n - 1);
      GeneratedSize(n - 1);
      assert |more| == 4 by { assert more == {Fn00(n - 1)} + {Fn01(n - 1)} + {Fn02(n - 1)} + {Export(n - 1)}; }
      forall s | s in more
        ensures s !in before
      {
        GeneratedHas(n - 1, s);
        ModuleHas(n - 1, s);
      }
      assert before !! more;
    }
  }

  lemma GeneratedHolds(n: nat)
    ensures forall s: Symbol :: s in Generated(n) <==> s.m < n
    ensures |Generated(n)| == 4 * n
  {
    GeneratedSize(n);
    forall s: Symbol
      ensures s in Generated(n) <==> s.m < n
    {
      GeneratedHas(n, s);
    }
  }

  function Module(m: nat): set<Symbol> {
    {Fn00(m), Fn01(m), Fn02(m), Export(m)}
  }

  lemma ModuleHas(m: nat, s: Symbol)
    ensures s in Module(m) <==> s.m == m
  {
  }

  ghost predicate Distinguishes(name: Symbol -> string) {
    forall a, b :: name(a) == name(b) ==> a == b
  }

  predicate CallsAsIntended(name: Symbol -> string, callees: map<string, set<string>>, s: Symbol) {
    name(s) in callees && callees[name(s)] == Named(name, Intended(s))
  }

  /** The call table of the generated project of `n` modules. */
  ghost predicate IsGenerated(name: Symbol -> string, n: nat, callees: map<string, set<string>>) {
    forall s: Symbol {:trigger CallsAsIntended(name, callees, s)} :: s.m < n ==> CallsAsIntended(name, callees, s)
  }

  function Named(name: Symbol -> string, symbols: set<Symbol>): set<string> {
    set s | s in symbols :: name(s)
  }

  lemma {:induction false} NamedKeepsSize(name: Symbol -> string, symbols: set<Symbol>)
    requires Distinguishes(name)
    ensures |Named(name, symbols)| == |symbols|
  {
    if symbols != {} {
      var s :| s in symbols;
      NamedKeepsSize(name, symbols - {s});
      assert Named(name, symbols) == Named(name, symbols - {s}) + {name(s)};
    }
  }

  lemma CallsReach(name: Symbol -> string, callees: map<string, set<string>>, target: string, s: Symbol, t: Symbol)
    requires CallsAsIntended(name, callees, s) && t in Intended(s)
    requires Reachable(callees, target, name(s))
    ensures Reachable(callees, target, name(t))
  {
    assert name(t) in Named(name, Intended(s));
    ReachableExtends(callees, target, name(s), name(t));
  }

  lemma ExportReachesModule(name: Symbol -> string, n: nat, callees: map<string, set<string>>, target: string, m: nat)
    requires IsGenerated(name, n, callees) && m < n && Reachable(callees, target, name(Export(m)))
    ensures Reachable(callees, target, name(Fn02(m)))
    ensures Reachable(callees, target, name(Fn01(m)))
    ensures Reachable(callees, target, name(Fn00(m)))
    ensures m > 0 ==> Reachable(callees, target, name(Export(m - 1)))
  {
    assert CallsAsIntended(name, callees, Export(m)) && CallsAsIntended(name, callees, Fn02(m));
    assert CallsAsIntended(name, callees, Fn01(m));
    CallsReach(name, callees, target, Export(m), Fn02(m));
    CallsReach(name, callees, target, Fn02(m), Fn01(m));
    CallsReach(name, callees, target, Fn01(m), Fn00(m));
    if m > 0 { CallsReach(name, callees, target, Export(m), Export(m - 1)); }
  }

  lemma {:induction false} ExportsAreReached(
    name: Symbol -> string, n: nat, callees: map<string, set<string>>, target: string, m: nat, k: nat)
    requires IsGenerated(name, n, callees) && k <= m < n
    requires Reachable(callees, target, name(Export(m)))
    ensures Reachable(callees, target, name(Export(k)))
    decreases m
  {
    if k < m {
      ExportReachesModule(name, n, callees, target, m);
      ExportsAreReached(name, n, callees, target, m - 1, k);
    }
  }

  /** From the export of module `m` every function of modules `0..m` is reached. */
  lemma ExportReachesAll(
    name: Symbol -> string, n: nat, callees: map<string, set<string>>, target: string, m: nat, s: Symbol)
    requires IsGenerated(name, n, callees) && m < n && s.m <= m
    requires Reachable(callees, target, name(Export(m)))
    ensures Reachable(callees, target, name(s))
  {
    ExportsAreReached(name, n, callees, target, m, s.m);
    ExportReachesModule(name, n, callees, target, s.m);
    match s
    case Fn00(k) =>
    case Fn01(k) =>
    case Fn02(k) =>
    case Export(k) =>
  }

  lemma IntendedIsClosed(name: Symbol -> string, n: nat, callees: map<string, set<string>>, s: Symbol)
    requires CallsAsIntended(name, callees, s) && s.m < n
    ensures CalleesOf(callees, name(s)) <= Named(name, Generated(n))
  {
    GeneratedHolds(n);
    forall t | t in Intended(s)
      ensures t in Generated(n)
    {
    }
  }

  lemma AllAreReached(name: Symbol -> string, n: nat, callees: map<string, set<string>>)
    requires n > 0 && IsGenerated(name, n, callees)
    ensures forall x <- Named(name, Generated(n)) :: Reachable(callees, name(Export(n - 1)), x)
    ensures forall x <- Named(name, Generated(n)) :: CalleesOf(callees, x) <= Named(name, Generated(n))
  {
    var target := name(Export(n - 1));
    GeneratedHolds(n);
    assert Chain(callees, target, [], target);
    forall x | x in Named(name, Generated(n))
      ensures Reachable(callees, target, x) && CalleesOf(callees, x) <= Named(name, Generated(n))
    {
      var s :| s in Generated(n) && name(s) == x;
      ExportReachesAll(name, n, callees, target, n - 1, s);
      assert CallsAsIntended(name, callees, s);
      IntendedIsClosed(name, n, callees, s);
    }
  }

  /** The closure of the last export of an n-module project has 4 * n symbols. */
  lemma ClosureOfLastExport(name: Symbol -> string, n: nat, callees: map<string, set<string>>, symbols: set<string>)
    requires Distinguishes(name) && n > 0 && IsGenerated(name, n, callees)
    requires forall s :: s in symbols <==> Reachable(callees, name(Export(n - 1)), s)
    ensures |symbols| == 4 * n && symbols == Named(name, Generated(n))
  {
    AllAreReached(name, n, callees);
    GeneratedHolds(n);
    assert name(Export(n - 1)) in Named(name, Generated(n));
    ClosedContainsReachable(callees, Named(name, Generated(n)), name(Export(n - 1)));
    assert symbols == Named(name, Generated(n));
    NamedKeepsSize(name, Generated(n));
  }

  /** What parsing the text of module `m` yields: four definitions in order, and the
      names each of their bodies calls. */
  function ModuleCalls(name: Symbol -> string, m: nat): map<string, set<string>> {
    map[name(Fn00(m)) := Named(name, Intended(Fn00(m))), name(Fn01(m)) := Named(name, Intended(Fn01(m))),
        name(Fn02(m)) := Named(name, Intended(Fn02(m))), name(Export(m)) := Named(name, Intended(Export(m)))]
  }

  function ModuleParsed(name: Symbol -> string, m: nat): I.Parsed {
    I.Parsed([name(Fn00(m)), name(Fn01(m)), name(Fn02(m)), name(Export(m))], ModuleCalls(name, m))
  }

  /** The index holds the parses of `n` generated modules, one file each; its other files
      define other functions. */
  ghost predicate HoldsGenerated(index: I.GraphIndex, name: Symbol -> string, path: nat -> string, n: nat)
    reads index
  {
    && (forall m: nat :: m < n ==> IsIndexed(index, path(m), ModuleParsed(name, m)))
    && forall p <- index.rawCalls :: IsAnother(index.rawCalls[p], name, n) || exists m: nat :: m < n && p == path(m)
  }

  ghost predicate IsAnother(calls: map<string, set<string>>, name: Symbol -> string, n: nat) {
    forall s: Symbol :: s.m < n ==> name(s) !in calls
  }

  ghost predicate IsIndexed(index: I.GraphIndex, p: string, parsed: I.Parsed)
    reads index
  {
    && p in index.symbols && p in index.rawCalls
    && index.symbols[p] == parsed.definitions && index.rawCalls[p] == parsed.calls
  }

  lemma DefinesIts(name: Symbol -> string, s: Symbol)
    ensures name(s) in ModuleParsed(name, s.m).definitions && name(s) in ModuleCalls(name, s.m)
  {
    var d := ModuleParsed(name, s.m).definitions;
    assert d[0] in d && d[1] in d && d[2] in d && d[3] in d;
  }

  lemma CallsOfOwn(name: Symbol -> string, m: nat, s: Symbol)
    requires Distinguishes(name) && name(s) in ModuleCalls(name, m)
    ensures s.m == m && ModuleCalls(name, m)[name(s)] == Named(name, Intended(s))
  {
    assert s in Module(m);
    ModuleHas(m, s);
  }

  lemma SymbolsAreKnown(index: I.GraphIndex, name: Symbol -> string, path: nat -> string, n: nat)
    requires index.Resolved() && HoldsGenerated(index, name, path, n)
    ensures forall s: Symbol :: s.m < n ==> name(s) in index.symbolFile
  {
    forall s: Symbol | s.m < n
      ensures name(s) in index.symbolFile
    {
      DefinesIts(name, s);
      assert IsIndexed(index, path(s.m), ModuleParsed(name, s.m));
    }
  }

  lemma IntendedIsLower(s: Symbol, t: Symbol)
    requires t in Intended(s)
    ensures t.m <= s.m && t != s
  {
    match s
    case Fn00(m) =>
    case Fn01(m) =>
    case Fn02(m) =>
    case Export(m) =>
  }

  lemma NothingIsFiltered(name: Symbol -> string, s: Symbol, known: set<string>)
    requires Distinguishes(name) && forall t <- Intended(s) :: name(t) in known
    ensures I.Known(name(s), Named(name, Intended(s)), known) == Named(name, Intended(s))
  {
    assert forall t <- Intended(s) :: t != s && name(t) != name(s);
  }

  /** The last file to define a generated symbol's calls is the symbol's own. */
  lemma CallsComeFromOwn(index: I.GraphIndex, name: Symbol -> string, path: nat -> string, n: nat, s: Symbol)
    requires Distinguishes(name) && index.Resolved() && HoldsGenerated(index, name, path, n) && s.m < n
    ensures name(s) in index.callees
            && index.callees[name(s)] == I.Known(name(s), Named(name, Intended(s)), index.symbolFile.Keys)
  {
    DefinesIts(name, s);
    assert IsIndexed(index, path(s.m), ModuleParsed(name, s.m));
    var p := I.CallerResolves(index.rawCalls, index.symbolFile.Keys, index.callees, name(s), path(s.m));
    var m: nat :| m < n && p == path(m);
    assert IsIndexed(index, path(m), ModuleParsed(name, m));
    CallsOfOwn(name, m, s);
  }

  /** Resolving the generated files yields the intended call table. */
  lemma ResolvedAsIntended(index: I.GraphIndex, name: Symbol -> string, path: nat -> string, n: nat, s: Symbol)
    requires Distinguishes(name) && index.Resolved() && HoldsGenerated(index, name, path, n) && s.m < n
    ensures CallsAsIntended(name, index.callees, s)
  {
    SymbolsAreKnown(index, name, path, n);
    CallsComeFromOwn(index, name, path, n, s);
    forall t | t in Intended(s)
      ensures name(t) in index.symbolFile
    {
      IntendedIsLower(s, t);
    }
    NothingIsFiltered(name, s, index.symbolFile.Keys);
  }

  /** The closure of the last export of an index over `n` generated modules. */
  method ClosureOfGenerated(index: I.GraphIndex, name: Symbol -> string, path: nat -> string, n: nat)
    returns (symbols: set<string>)
    requires Distinguishes(name) && n > 0 && index.Resolved() && HoldsGenerated(index, name, path, n)
    ensures |symbols| == 4 * n && symbols == Named(name, Generated(n))
    ensures forall s :: s in symbols <==> Reachable(index.callees, name(Export(n - 1)), s)
  {
    SymbolsAreKnown(index, name, path, n);
    forall s: Symbol | s.m < n
      ensures CallsAsIntended(name, index.callees, s)
    {
      ResolvedAsIntended(index, name, path, n, s);
    }
    var found;
    found, symbols := ClosureOf(index, name(Export(n - 1)));
    ClosureOfLastExport(name, n, index.callees, symbols);
  }
}
