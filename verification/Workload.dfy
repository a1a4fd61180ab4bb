/** The generated dataset of several projects, and what an index extracts from it. */
module Workload {
  import opened Text
  import opened CallClosure
  import opened WorkloadText
  import I = IncrementalIndex

  function Zeros(n: nat): (s: string)
    ensures |s| == n && forall i | 0 <= i < n :: s[i] == '0'
  {
    if n == 0 then "" else "0" + Zeros(n - 1)
  }

  /** Decimal, with zeros in front up to that width. */
  function Padded(n: nat, width: nat): string {
    Zeros(if |Dec(n)| < width then width - |Dec(n)| else 0) + Dec(n)
  }

  function ModuleName(project: nat, m: nat): string {
    "p" + Padded(project, 2) + "_" + ("m" + Padded(m, 4))
  }

  function Suffix(s: Symbol): string {
    match s
    case Fn00(m) => "fn00"
    case Fn01(m) => "fn01"
    case Fn02(m) => "fn02"
    case Export(m) => "export"
  }

  function FunctionName(project: nat, s: Symbol): string {
    ModuleName(project, s.m) + "_" + Suffix(s)
  }

  function NameIn(project: nat): Symbol -> string {
    (s: Symbol) => FunctionName(project, s)
  }

  // Names say which function they name.

  function Value(s: string): int {
    if s == "" then 0 else 10 * Value(s[..|s| - 1]) + (s[|s| - 1] as int - '0' as int)
  }

  lemma {:induction false} ValueOfDec(n: nat)
    ensures Value(Dec(n)) == n
  {
    if n >= 10 {
      ValueOfDec(n / 10);
      assert Dec(n)[..|Dec(n)| - 1] == Dec(n / 10);
    } else {
      assert Dec(n)[..0] == "";
    }
  }

  lemma {:induction false} ZeroAddsNothing(s: string)
    ensures Value("0" + s) == Value(s)
  {
    var z := "0" + s;
    if s == "" {
      assert z[..0] == "";
    } else {
      assert z[..|z| - 1] == "0" + s[..|s| - 1];
      ZeroAddsNothing(s[..|s| - 1]);
    }
  }

  lemma {:induction false} ZerosAddNothing(n: nat, s: string)
    ensures Value(Zeros(n) + s) == Value(s)
  {
    if n == 0 {
      assert Zeros(0) + s == s;
    } else {
      ZerosAddNothing(n - 1, s);
      ZeroAddsNothing(Zeros(n - 1) + s);
      assert Zeros(n) + s == "0" + (Zeros(n - 1) + s);
    }
  }

  lemma PaddedIsInjective(m: nat, n: nat, width: nat)
    requires Padded(m, width) == Padded(n, width)
    ensures m == n
  {
    ZerosAddNothing(if |Dec(m)| < width then width - |Dec(m)| else 0, Dec(m));
    ZerosAddNothing(if |Dec(n)| < width then width - |Dec(n)| else 0, Dec(n));
    ValueOfDec(m);
    ValueOfDec(n);
  }

  lemma PaddedIsDigits(n: nat, width: nat)
    ensures forall i | 0 <= i < |Padded(n, width)| :: IsDigit(Padded(n, width)[i])
  {
    var z := if |Dec(n)| < width then width - |Dec(n)| else 0;
    forall i | 0 <= i < |Padded(n, width)|
      ensures IsDigit(Padded(n, width)[i])
    {
      if i >= z { assert Padded(n, width)[i] == Dec(n)[i - z] && Dec(n)[i - z] in Dec(n); }
    }
  }

  lemma SuffixesDiffer(s: Symbol, t: Symbol)
    requires Suffix(s) == Suffix(t) && s.m == t.m
    ensures s == t
  {
    assert Suffix(Fn00(0))[3] == '0' && Suffix(Fn01(0))[3] == '1' && Suffix(Fn02(0))[3] == '2';
    assert Suffix(Export(0))[0] == 'e';
  }

  lemma ModuleNameParts(p: nat, m: nat, q: nat, n: nat, x: string, y: string)
    requires ModuleName(p, m) + "_" + x == ModuleName(q, n) + "_" + y
    ensures p == q && m == n && x == y
  {
    PaddedIsDigits(p, 2);
    PaddedIsDigits(q, 2);
    PaddedIsDigits(m, 4);
    PaddedIsDigits(n, 4);
    var a, b := "p" + Padded(p, 2), "p" + Padded(q, 2);
    var c, d := "m" + Padded(m, 4), "m" + Padded(n, 4);
    assert ModuleName(p, m) + "_" + x == a + ['_'] + (c + ['_'] + x);
    assert ModuleName(q, n) + "_" + y == b + ['_'] + (d + ['_'] + y);
    FirstSplit(a, c + ['_'] + x, b, d + ['_'] + y, '_');
    FirstSplit(c, x, d, y, '_');
    assert Padded(p, 2) == a[1..] && Padded(q, 2) == b[1..] && Padded(m, 4) == c[1..] && Padded(n, 4) == d[1..];
    PaddedIsInjective(p, q, 2);
    PaddedIsInjective(m, n, 4);
  }

  /** A name determines its project and its function. */
  lemma NameDetermines(p: nat, s: Symbol, q: nat, t: Symbol)
    requires FunctionName(p, s) == FunctionName(q, t)
    ensures p == q && s == t
  {
    ModuleNameParts(p, s.m, q, t.m, Suffix(s), Suffix(t));
    SuffixesDiffer(s, t);
  }

  lemma NamesAreDistinct(project: nat)
    ensures Distinguishes(NameIn(project))
  {
    forall s: Symbol, t: Symbol | NameIn(project)(s) == NameIn(project)(t)
      ensures s == t
    {
      NameDetermines(project, s, project, t);
    }
  }

  predicate AllNameChars(s: string) {
    forall i | 0 <= i < |s| :: IsNameChar(s[i])
  }

  lemma SuffixIsNameChars(s: Symbol)
    ensures AllNameChars(Suffix(s)) && |Suffix(s)| >= 4
  {
  }

  lemma NamesAreNames(project: nat)
    ensures AreNames(NameIn(project))
  {
    forall s: Symbol
      ensures IsName(NameIn(project)(s))
    {
      PaddedIsDigits(project, 2);
      PaddedIsDigits(s.m, 4);
      SuffixIsNameChars(s);
      assert AllNameChars(ModuleName(project, s.m));
      assert FunctionName(project, s)[0] == 'p';
    }
  }

  // An index over the dataset.

  /** What the generator writes: `n` modules of each project, one file each. */
  ghost predicate IsDataset(contents: map<string, I.Digest>, path: (nat, nat) -> string, projects: nat, n: nat) {
    && (forall p <- contents :: exists project: nat, m: nat :: project < projects && m < n && p == path(project, m))
    && forall project: nat, m: nat :: project < projects && m < n ==> IsWritten(contents, path(project, m), project, m)
  }

  ghost predicate IsWritten(contents: map<string, I.Digest>, p: string, project: nat, m: nat) {
    p in contents && contents[p] == I.Sha256(SourceText(NameIn(project), project, m))
  }

  /** The index has read the dataset and nothing else. */
  ghost predicate HoldsDataset(index: I.GraphIndex, path: (nat, nat) -> string, projects: nat, n: nat)
    reads index
  {
    && index.Cached() && index.Resolved()
    && (forall text :: index.parse(text) == Parse(text))
    && IsDataset(index.digests, path, projects, n)
  }

  lemma ReadIsIndexed(index: I.GraphIndex, path: (nat, nat) -> string, projects: nat, n: nat, project: nat, m: nat)
    requires HoldsDataset(index, path, projects, n) && project < projects && m < n
    ensures IsIndexed(index, path(project, m), ModuleParsed(NameIn(project), m))
  {
    assert IsWritten(index.digests, path(project, m), project, m);
    NamesAreNames(project);
    ParseIsIntended(NameIn(project), project, m);
  }

  lemma OtherProjectIsAnother(project: nat, other: nat, m: nat, n: nat)
    requires project != other
    ensures IsAnother(ModuleCalls(NameIn(other), m), NameIn(project), n)
  {
    forall s: Symbol | s.m < n
      ensures NameIn(project)(s) !in ModuleCalls(NameIn(other), m)
    {
      if NameIn(project)(s) in ModuleCalls(NameIn(other), m) {
        var t := Owner(NameIn(other), m, NameIn(project)(s));
        NameDetermines(project, s, other, t);
      }
    }
  }

  lemma Owner(name: Symbol -> string, m: nat, x: string) returns (t: Symbol)
    requires x in ModuleCalls(name, m)
    ensures name(t) == x && t.m == m
  {
    t := if x == name(Fn00(m)) then Fn00(m) else if x == name(Fn01(m)) then Fn01(m)
         else if x == name(Fn02(m)) then Fn02(m) else Export(m);
  }

  /** Every project of the dataset is in the index, beside the others. */
  lemma ProjectIsIndexed(index: I.GraphIndex, path: (nat, nat) -> string, projects: nat, n: nat, project: nat)
    requires HoldsDataset(index, path, projects, n) && project < projects
    ensures HoldsGenerated(index, NameIn(project), (m: nat) => path(project, m), n)
  {
    forall m: nat | m < n
      ensures IsIndexed(index, path(project, m), ModuleParsed(NameIn(project), m))
    {
      ReadIsIndexed(index, path, projects, n, project, m);
    }
    forall p | p in index.rawCalls
      ensures IsAnother(index.rawCalls[p], NameIn(project), n) || exists m: nat :: m < n && p == path(project, m)
    {
      var other: nat, m: nat :| other < projects && m < n && p == path(other, m);
      if other != project {
        ReadIsIndexed(index, path, projects, n, other, m);
        OtherProjectIsAnother(project, other, m, n);
      }
    }
  }

  lemma FileIsModule(index: I.GraphIndex, path: (nat, nat) -> string, projects: nat, n: nat, p: string)
    returns (project: nat, m: nat)
    requires HoldsDataset(index, path, projects, n) && p in index.digests
    ensures project < projects && m < n && IsIndexed(index, p, ModuleParsed(NameIn(project), m))
  {
    project, m :| project < projects && m < n && p == path(project, m);
    ReadIsIndexed(index, path, projects, n, project, m);
  }

  /** The index extracts exactly the functions of the dataset. */
  lemma SymbolsAreIntended(index: I.GraphIndex, path: (nat, nat) -> string, projects: nat, n: nat, x: string)
    requires HoldsDataset(index, path, projects, n)
    ensures x in index.symbolFile <==> exists project: nat, s: Symbol :: project < projects && s.m < n && x == FunctionName(project, s)
  {
    if x in index.symbolFile {
      var p := index.symbolFile[x];
      assert I.LastDefines(index.symbols, x, p);
      var project, m := FileIsModule(index, path, projects, n, p);
      var s := Definer(NameIn(project), m, x);
      assert x == FunctionName(project, s);
    }
    if project: nat, s: Symbol :| project < projects && s.m < n && x == FunctionName(project, s) {
      ProjectIsIndexed(index, path, projects, n, project);
      SymbolsAreKnown(index, NameIn(project), (m: nat) => path(project, m), n);
      assert x == NameIn(project)(s);
    }
  }

  lemma Definer(name: Symbol -> string, m: nat, x: string) returns (t: Symbol)
    requires x in ModuleParsed(name, m).definitions
    ensures name(t) == x && t.m == m
  {
    t := if x == name(Fn00(m)) then Fn00(m) else if x == name(Fn01(m)) then Fn01(m)
         else if x == name(Fn02(m)) then Fn02(m) else Export(m);
  }

  /** And each calls exactly what the generator means it to call. */
  lemma CallsAreIntended(
    index: I.GraphIndex, path: (nat, nat) -> string, projects: nat, n: nat, project: nat, s: Symbol)
    requires HoldsDataset(index, path, projects, n) && project < projects && s.m < n
    ensures CallsAsIntended(NameIn(project), index.callees, s)
  {
    ProjectIsIndexed(index, path, projects, n, project);
    NamesAreDistinct(project);
    ResolvedAsIntended(index, NameIn(project), (m: nat) => path(project, m), n, s);
  }

  lemma CallerIsIntended(
    index: I.GraphIndex, path: (nat, nat) -> string, projects: nat, n: nat, x: string)
    returns (project: nat, s: Symbol)
    requires HoldsDataset(index, path, projects, n) && x in index.callees
    ensures project < projects && s.m < n && x == FunctionName(project, s)
  {
    var p :| I.LastCalls(index.rawCalls, x, p);
    var m;
    project, m := FileIsModule(index, path, projects, n, p);
    s := Owner(NameIn(project), m, x);
  }

  ghost predicate IsIntendedEdge(projects: nat, n: nat, project: nat, s: Symbol, x: string, y: string) {
    project < projects && s.m < n && x == FunctionName(project, s) && y in Named(NameIn(project), Intended(s))
  }

  /** The edges extracted are exactly the edges the generator means. */
  lemma EdgesAreIntended(
    index: I.GraphIndex, path: (nat, nat) -> string, projects: nat, n: nat, x: string, y: string)
    requires HoldsDataset(index, path, projects, n)
    ensures y in CalleesOf(index.callees, x) <==>
            exists project: nat, s: Symbol :: IsIntendedEdge(projects, n, project, s, x, y)
  {
    if y in CalleesOf(index.callees, x) {
      var project, s := CallerIsIntended(index, path, projects, n, x);
      CallsAreIntended(index, path, projects, n, project, s);
      assert x == NameIn(project)(s) && IsIntendedEdge(projects, n, project, s, x, y);
    }
    if project: nat, s: Symbol :| IsIntendedEdge(projects, n, project, s, x, y) {
      CallsAreIntended(index, path, projects, n, project, s);
      assert x == NameIn(project)(s);
    }
  }

  /** From the text to the size: the closure of the last export of a project holds its
      4 * n functions, whatever other projects the index holds. */
  method ClosureOfProject(index: I.GraphIndex, path: (nat, nat) -> string, projects: nat, n: nat, project: nat)
    returns (symbols: set<string>)
    requires HoldsDataset(index, path, projects, n) && project < projects && n > 0
    ensures |symbols| == 4 * n
    ensures forall x :: x in symbols <==> exists s: Symbol :: s.m < n && x == FunctionName(project, s)
    ensures forall x :: x in symbols <==> Reachable(index.callees, FunctionName(project, Export(n - 1)), x)
  {
    ProjectIsIndexed(index, path, projects, n, project);
    NamesAreDistinct(project);
    symbols := ClosureOfGenerated(index, NameIn(project), (m: nat) => path(project, m), n);
    GeneratedHolds(n);
  }

  /** A first scan of the dataset leaves such an index. */
  method IndexDataset(contents: map<string, string>, path: (nat, nat) -> string, projects: nat, n: nat)
    returns (index: I.GraphIndex)
    requires IsDataset(map p | p in contents :: I.Sha256(contents[p]), path, projects, n)
    ensures fresh(index) && HoldsDataset(index, path, projects, n)
  {
    index := I.FreshIndex(Parse, contents);
  }
}
