/** The daemon's argument parser: one pass over argv, then verbs that take the
    options and words they know and refuse the rest. */
module DaemonArgv {
  import opened Prelude
  import opened Sorting

  const SWITCHES: seq<string> := ["--exact-projection", "--full", "--dry-run", "--apply", "--wait"]
  const HELP: seq<string> := ["--help", "-h"]
  const VERSION: seq<string> := ["--version", "-V"]
  const JSON := "--json"

  const KNOWN_OPTIONS: seq<string> := [
    "--project-generation", "--edge-id", "--catalog-generation", "--format", "--registry", "--solution", "--project",
    "--path", "--reason", "--from-json", "--limit", "--job", "--config", "--bindings", "--scope", "--timeout",
    "--symbol", "--node-id", "--max-bytes", "--max-nodes", "--depth", "--out", "--plan", "--approve-digest"]

  predicate IsFlag(t: string) {
    t == JSON || t in HELP || t in VERSION || t in SWITCHES
  }

  /** A lone dash is a word. */
  predicate IsDashed(t: string) {
    |t| > 1 && t[0] == '-'
  }

  datatype Opt = Opt(name: string, value: string)

  datatype Lexed = Lexed(help: bool, version: bool, words: seq<string>, options: seq<Opt>)

  const NOTHING := Lexed(false, false, [], [])

  function Flagged(l: Lexed, t: string): Lexed {
    if t == JSON then l
    else if t in HELP then l.(help := true)
    else if t in VERSION then l.(version := true)
    else l.(options := l.options + [Opt(t, "")])
  }

  /** The pass over argv; None is a rejection. */
  function Lex(args: seq<string>, sofar: Lexed): Option<Lexed>
    decreases |args|
  {
    if args == [] then Some(sofar)
    else
      var t := args[0];
      if IsFlag(t) then Lex(args[1..], Flagged(sofar, t))
      else if !IsDashed(t) then Lex(args[1..], sofar.(words := sofar.words + [t]))
      else if t !in KNOWN_OPTIONS || |args| < 2 || IsDashed(args[1]) then None
      else Lex(args[2..], sofar.(options := sofar.options + [Opt(t, args[1])]))
  }

  method Scan(args: seq<string>) returns (l: Option<Lexed>)
    ensures l == Lex(args, NOTHING)
  {
    var index, lexed := 0, NOTHING;
    assert args[0..] == args;
    while index < |args|
      invariant index <= |args|
      invariant Lex(args, NOTHING) == Lex(args[index..], lexed)
    {
      LexStep(args, index, lexed);
      var t := args[index];
      if IsFlag(t) {
        lexed := Flagged(lexed, t);
      } else if IsDashed(t) {
        if t !in KNOWN_OPTIONS || index + 1 == |args| || IsDashed(args[index + 1]) { return None; }
        lexed := lexed.(options := lexed.options + [Opt(t, args[index + 1])]);
        index := index + 1;
      } else {
        lexed := lexed.(words := lexed.words + [t]);
      }
      index := index + 1;
    }
    l := Some(lexed);
  }

  lemma LexStep(args: seq<string>, i: nat, l: Lexed)
    requires i < |args|
    ensures var t := args[i];
            Lex(args[i..], l) ==
            if IsFlag(t) then Lex(args[i + 1..], Flagged(l, t))
            else if !IsDashed(t) then Lex(args[i + 1..], l.(words := l.words + [t]))
            else if t !in KNOWN_OPTIONS || i + 1 == |args| || IsDashed(args[i + 1]) then None
            else Lex(args[i + 2..], l.(options := l.options + [Opt(t, args[i + 1])]))
  {
    assert args[i..][1..] == args[i + 1..];
    if i + 1 < |args| { assert args[i..][2..] == args[i + 2..]; }
  }

  /** One piece of a command line. */
  datatype Item = Flag(token: string) | Word(word: string) | Valued(name: string, value: string)

  function Rendered(items: seq<Item>): seq<string> {
    if items == [] then []
    else
      (match items[0]
       case Flag(t) => [t]
       case Word(w) => [w]
       case Valued(n, v) => [n, v])
      + Rendered(items[1..])
  }

  predicate Legal(item: Item) {
    match item
    case Flag(t) => IsFlag(t)
    case Word(w) => !IsDashed(w) && !IsFlag(w)
    case Valued(n, v) => n in KNOWN_OPTIONS && IsDashed(n) && !IsFlag(n) && !IsDashed(v)
  }

  function Collected(items: seq<Item>, sofar: Lexed): Lexed {
    if items == [] then sofar
    else
      match items[0]
      case Flag(t) => Collected(items[1..], Flagged(sofar, t))
      case Word(w) => Collected(items[1..], sofar.(words := sofar.words + [w]))
      case Valued(n, v) => Collected(items[1..], sofar.(options := sofar.options + [Opt(n, v)]))
  }

  /** Every legal line is lexed into exactly its pieces. */
  lemma {:induction false} RenderingLexes(items: seq<Item>, sofar: Lexed)
    requires forall i <- items :: Legal(i)
    ensures Lex(Rendered(items), sofar) == Some(Collected(items, sofar))
    decreases |items|
  {
    if items != [] {
      assert Legal(items[0]);
      var args := Rendered(items);
      match items[0]
      case Flag(t) =>
        assert args[1..] == Rendered(items[1..]);
        RenderingLexes(items[1..], Flagged(sofar, t));
      case Word(w) =>
        assert args[1..] == Rendered(items[1..]);
        RenderingLexes(items[1..], sofar.(words := sofar.words + [w]));
      case Valued(n, v) =>
        assert args[2..] == Rendered(items[1..]);
        RenderingLexes(items[1..], sofar.(options := sofar.options + [Opt(n, v)]));
    }
  }

  /** And every accepted line is such a rendering, with no token left over. */
  lemma {:induction false} LexedIsRendering(args: seq<string>, sofar: Lexed) returns (items: seq<Item>)
    requires Lex(args, sofar).Some?
    ensures Rendered(items) == args && forall i <- items :: Legal(i)
    ensures Collected(items, sofar) == Lex(args, sofar).value
    decreases |args|
  {
    items := [];
    if args != [] {
      var t := args[0];
      var head, rest;
      if IsFlag(t) {
        head := Flag(t);
        rest := LexedIsRendering(args[1..], Flagged(sofar, t));
      } else if !IsDashed(t) {
        head := Word(t);
        rest := LexedIsRendering(args[1..], sofar.(words := sofar.words + [t]));
      } else {
        head := Valued(t, args[1]);
        rest := LexedIsRendering(args[2..], sofar.(options := sofar.options + [Opt(t, args[1])]));
      }
      items := [head] + rest;
      assert items[1..] == rest;
    }
  }

  // Taking options and words.

  function ValuesOf(options: seq<Opt>, name: string): seq<string> {
    if options == [] then []
    else (if options[0].name == name then [options[0].value] else []) + ValuesOf(options[1..], name)
  }

  lemma {:induction false} ValuesOfAppend(a: seq<Opt>, b: seq<Opt>, name: string)
    ensures ValuesOf(a + b, name) == ValuesOf(a, name) + ValuesOf(b, name)
  {
    if a == [] {
      assert a + b == b;
    } else {
      ValuesOfAppend(a[1..], b, name);
      assert (a + b)[1..] == a[1..] + b;
    }
  }

  predicate Unchanged(before: seq<Opt>, after: seq<Opt>, name: string) {
    ValuesOf(after, name) == ValuesOf(before, name)
  }

  predicate Absent(options: seq<Opt>, name: string) {
    ValuesOf(options, name) == []
  }

  /** Nothing is left exactly when no name has a value left. */
  lemma EmptyWhenNoValues(options: seq<Opt>)
    ensures options == [] <==> forall n :: Absent(options, n)
  {
    if options != [] { assert !Absent(options, options[0].name); }
  }

  function Tail(s: seq<string>): seq<string> {
    if s == [] then [] else s[1..]
  }

  class Tokens {
    var words: seq<string>
    var options: seq<Opt>

    constructor (words: seq<string>, options: seq<Opt>)
      ensures this.words == words && this.options == options
    {
      this.words, this.options := words, options;
    }

    /** Remove and return the first value of an option. */
    method Take(name: string) returns (v: Option<string>)
      modifies this`options
      ensures var values := old(ValuesOf(options, name)); v == if values == [] then None else Some(values[0])
      ensures ValuesOf(options, name) == Tail(old(ValuesOf(options, name)))
      ensures forall n :: n != name ==> Unchanged(old(options), options, n)
    {
      var i := 0;
      while i < |options| && options[i].name != name
        invariant i <= |options| && options == old(options)
        invariant ValuesOf(options[..i], name) == []
      {
        assert options[..i + 1] == options[..i] + [options[i]];
        ValuesOfAppend(options[..i], [options[i]], name);
        i := i + 1;
      }
      if i == |options| {
        assert options[..i] == options;
        return None;
      }
      RemovingAt(options, i, name, options[..i] + options[i + 1..]);
      v := Some(options[i].value);
      options := options[..i] + options[i + 1..];
    }

    /** Remove and return every value of an option, in argv order. */
    method TakeAll(name: string) returns (values: seq<string>)
      modifies this`options
      ensures values == old(ValuesOf(options, name)) && ValuesOf(options, name) == []
      ensures forall n :: n != name ==> Unchanged(old(options), options, n)
    {
      values := [];
      var v := Take(name);
      while v.Some?
        invariant values + (if v.Some? then [v.value] else []) + ValuesOf(options, name) == old(ValuesOf(options, name))
        invariant v.None? ==> ValuesOf(options, name) == []
        invariant forall n :: n != name ==> Unchanged(old(options), options, n)
        decreases |ValuesOf(options, name)| + if v.Some? then 1 else 0
      {
        values := values + [v.value];
        ghost var before := options;
        v := Take(name);
        StillUnchanged(old(options), before, options, name);
      }
    }

    /** Refuse whatever the verb did not take. */
    method Finish() returns (ok: bool)
      ensures ok <==> words == [] && forall n :: Absent(options, n)
    {
      EmptyWhenNoValues(options);
      ok := options == [] && words == [];
    }
  }

  lemma RemovingOne(options: seq<Opt>, i: nat, n: string)
    requires i < |options|
    ensures ValuesOf(options, n) == ValuesOf(options[..i], n)
            + (if options[i].name == n then [options[i].value] else []) + ValuesOf(options[i + 1..], n)
    ensures ValuesOf(options[..i] + options[i + 1..], n) == ValuesOf(options[..i], n) + ValuesOf(options[i + 1..], n)
  {
    var tail := options[i..];
    assert options == options[..i] + tail && tail[0] == options[i] && tail[1..] == options[i + 1..];
    ValuesOfAppend(options[..i], tail, n);
    ValuesOfAppend(options[..i], options[i + 1..], n);
  }

  lemma RemovingAt(options: seq<Opt>, i: nat, name: string, after: seq<Opt>)
    requires i < |options| && options[i].name == name && ValuesOf(options[..i], name) == []
    requires after == options[..i] + options[i + 1..]
    ensures ValuesOf(options, name) == [options[i].value] + ValuesOf(after, name)
    ensures forall n :: n != name ==> Unchanged(options, after, n)
  {
    RemovingOne(options, i, name);
    forall n | n != name
      ensures Unchanged(options, after, n)
    {
      RemovingOne(options, i, n);
    }
  }

  lemma StillUnchanged(a: seq<Opt>, b: seq<Opt>, c: seq<Opt>, name: string)
    requires forall n :: n != name ==> Unchanged(a, b, n)
    requires forall n :: n != name ==> Unchanged(b, c, n)
    ensures forall n :: n != name ==> Unchanged(a, c, n)
  {
    forall n | n != name
      ensures Unchanged(a, c, n)
    {
      assert Unchanged(a, b, n) && Unchanged(b, c, n);
    }
  }

  // One verb.

  datatype Command = Build(solution: string, project: Option<string>, full: bool)

  const SOLUTION := "--solution"
  const PROJECT := "--project"
  const FULL := "--full"

  ghost predicate OnlyBuilds(options: seq<Opt>) {
    forall n :: Other(n) ==> Absent(options, n)
  }

  /** What a build line means: every token one of its own, each given at most once. */
  ghost function BuildOf(identifier: string -> bool, words: seq<string>, options: seq<Opt>): Option<Command> {
    var s, p, f := ValuesOf(options, SOLUTION), ValuesOf(options, PROJECT), ValuesOf(options, FULL);
    if words == [] && |s| == 1 && |p| <= 1 && |f| <= 1 && identifier(s[0]) && (p == [] || identifier(p[0]))
       && OnlyBuilds(options)
    then Some(Build(s[0], if p == [] then None else Some(p[0]), f != []))
    else None
  }

  /** A build line depends only on the values of each option, never on their order,
      and is accepted exactly when nothing is left over. */
  method ParseBuild(identifier: string -> bool, t: Tokens) returns (c: Option<Command>)
    modifies t
    ensures c == BuildOf(identifier, old(t.words), old(t.options))
  {
    NamesDiffer();
    ghost var o0 := t.options;
    var solution := t.Take(SOLUTION);
    ghost var o1 := t.options;
    assert Unchanged(o0, o1, PROJECT) && Unchanged(o0, o1, FULL);
    if solution.None? || !identifier(solution.value) { return None; }
    var project := t.Take(PROJECT);
    ghost var o2 := t.options;
    assert Unchanged(o1, o2, SOLUTION) && Unchanged(o1, o2, FULL);
    if project.Some? && !identifier(project.value) { return None; }
    var full := t.Take(FULL);
    assert Unchanged(o2, t.options, SOLUTION) && Unchanged(o2, t.options, PROJECT);
    OthersUnchanged(o0, o1, o2, t.options);
    LeftoverAfterBuild(o0, t.options);
    var done := t.Finish();
    if !done { return None; }
    c := Some(Build(solution.value, project, full.Some?));
  }

  predicate Other(n: string) {
    n != SOLUTION && n != PROJECT && n != FULL
  }

  lemma OthersUnchanged(o0: seq<Opt>, o1: seq<Opt>, o2: seq<Opt>, o3: seq<Opt>)
    requires forall n :: n != SOLUTION ==> Unchanged(o0, o1, n)
    requires forall n :: n != PROJECT ==> Unchanged(o1, o2, n)
    requires forall n :: n != FULL ==> Unchanged(o2, o3, n)
    ensures forall n :: Other(n) ==> Unchanged(o0, o3, n)
  {
    forall n | Other(n)
      ensures Unchanged(o0, o3, n)
    {
      assert Unchanged(o0, o1, n) && Unchanged(o1, o2, n) && Unchanged(o2, o3, n);
    }
  }

  lemma LeftoverAfterBuild(before: seq<Opt>, after: seq<Opt>)
    requires ValuesOf(after, SOLUTION) == Tail(ValuesOf(before, SOLUTION))
    requires ValuesOf(after, PROJECT) == Tail(ValuesOf(before, PROJECT))
    requires ValuesOf(after, FULL) == Tail(ValuesOf(before, FULL))
    requires forall n :: Other(n) ==> Unchanged(before, after, n)
    ensures (forall n :: Absent(after, n)) <==>
            && |ValuesOf(before, SOLUTION)| <= 1 && |ValuesOf(before, PROJECT)| <= 1 && |ValuesOf(before, FULL)| <= 1
            && OnlyBuilds(before)
  {
    if OnlyBuilds(before) && |ValuesOf(before, SOLUTION)| <= 1 && |ValuesOf(before, PROJECT)| <= 1
       && |ValuesOf(before, FULL)| <= 1
    {
      forall n
        ensures Absent(after, n)
      {
        if Other(n) { assert Unchanged(before, after, n) && Absent(before, n); }
      }
    }
    if forall n :: Absent(after, n) {
      assert Absent(after, SOLUTION) && Absent(after, PROJECT) && Absent(after, FULL);
      forall n | Other(n)
        ensures Absent(before, n)
      {
        assert Absent(after, n) && Unchanged(before, after, n);
      }
    }
  }

  lemma NamesDiffer()
    ensures SOLUTION != PROJECT && SOLUTION != FULL && PROJECT != FULL
  {
    assert SOLUTION[2] == 's' && PROJECT[2] == 'p' && FULL[2] == 'f';
  }

  function WordsIn(item: Item): seq<string> {
    if item.Word? then [item.word] else []
  }

  function WordsOf(items: seq<Item>): seq<string> {
    if items == [] then [] else WordsIn(items[0]) + WordsOf(items[1..])
  }

  /** What a piece gives the verbs to take: a valued option, or a switch. */
  function OptionsIn(item: Item): seq<Opt> {
    match item
    case Flag(t) => if t == JSON || t in HELP || t in VERSION then [] else [Opt(t, "")]
    case Word(_) => []
    case Valued(n, v) => [Opt(n, v)]
  }

  function OptionsOf(items: seq<Item>): seq<Opt> {
    if items == [] then [] else OptionsIn(items[0]) + OptionsOf(items[1..])
  }

  predicate AsksHelp(item: Item) {
    item.Flag? && item.token != JSON && item.token in HELP
  }

  predicate AsksVersion(item: Item) {
    item.Flag? && item.token != JSON && item.token !in HELP && item.token in VERSION
  }

  predicate AnyHelp(items: seq<Item>) {
    items != [] && (AsksHelp(items[0]) || AnyHelp(items[1..]))
  }

  predicate AnyVersion(items: seq<Item>) {
    items != [] && (AsksVersion(items[0]) || AnyVersion(items[1..]))
  }

  function Next(item: Item, sofar: Lexed): (next: Lexed)
    ensures next == Lexed(sofar.help || AsksHelp(item), sofar.version || AsksVersion(item),
                          sofar.words + WordsIn(item), sofar.options + OptionsIn(item))
  {
    match item
    case Flag(t) => Flagged(sofar, t)
    case Word(w) => sofar.(words := sofar.words + [w])
    case Valued(n, v) => sofar.(options := sofar.options + [Opt(n, v)])
  }

  lemma {:induction false} CollectedIs(items: seq<Item>, sofar: Lexed)
    ensures Collected(items, sofar) ==
            Lexed(sofar.help || AnyHelp(items), sofar.version || AnyVersion(items),
                  sofar.words + WordsOf(items), sofar.options + OptionsOf(items))
  {
    if items == [] {
      assert sofar.words + [] == sofar.words && sofar.options + [] == sofar.options;
    } else {
      CollectedIs(items[1..], Next(items[0], sofar));
      Associate(sofar.words, WordsIn(items[0]), WordsOf(items[1..]));
      Associate(sofar.options, OptionsIn(items[0]), OptionsOf(items[1..]));
    }
  }

  lemma Associate<T>(a: seq<T>, b: seq<T>, c: seq<T>)
    ensures (a + b) + c == a + (b + c)
  {
  }

  lemma {:induction false} AnyMeansSome(items: seq<Item>)
    ensures AnyHelp(items) <==> exists i <- items :: AsksHelp(i)
    ensures AnyVersion(items) <==> exists i <- items :: AsksVersion(i)
  {
    if items != [] {
      AnyMeansSome(items[1..]);
      assert items == [items[0]] + items[1..];
    }
  }

  lemma {:induction false} OptionsOfAppend(a: seq<Item>, b: seq<Item>)
    ensures OptionsOf(a + b) == OptionsOf(a) + OptionsOf(b)
  {
    if a == [] {
      assert a + b == b;
    } else {
      assert (a + b)[0] == a[0] && (a + b)[1..] == a[1..] + b;
      OptionsOfAppend(a[1..], b);
      Associate(OptionsIn(a[0]), OptionsOf(a[1..]), OptionsOf(b));
    }
  }

  /** The values of one option among the pieces, taking the j-th piece out. */
  lemma ValuesWithout(b: seq<Item>, j: nat, others: seq<Item>, n: string)
    requires j < |b| && others == b[..j] + b[j + 1..]
    ensures multiset(ValuesOf(OptionsOf(b), n)) ==
            multiset(ValuesOf(OptionsOf(others), n)) + multiset(ValuesOf(OptionsIn(b[j]), n))
  {
    var before, here, after := OptionsOf(b[..j]), OptionsIn(b[j]), OptionsOf(b[j + 1..]);
    var tail := b[j..];
    assert b == b[..j] + tail && tail[0] == b[j] && tail[1..] == b[j + 1..];
    OptionsOfAppend(b[..j], tail);
    OptionsOfAppend(b[..j], b[j + 1..]);
    ValuesOfAppend(before, here + after, n);
    ValuesOfAppend(here, after, n);
    ValuesOfAppend(before, after, n);
  }

  predicate SameBag(a: seq<Opt>, b: seq<Opt>, n: string) {
    multiset(ValuesOf(a, n)) == multiset(ValuesOf(b, n))
  }

  lemma PutBack(a: seq<Item>, b: seq<Item>, j: nat, others: seq<Item>, n: string)
    requires a != [] && j < |b| && a[0] == b[j] && others == b[..j] + b[j + 1..]
    requires SameBag(OptionsOf(a[1..]), OptionsOf(others), n)
    ensures SameBag(OptionsOf(a), OptionsOf(b), n)
  {
    ValuesWithout(b, j, others, n);
    ValuesWithout(a, 0, a[1..], n);
  }

  /** Reordering the pieces reorders the values of each option, and loses none. */
  lemma {:induction false} ValuesArePermuted(a: seq<Item>, b: seq<Item>, n: string)
    requires multiset(a) == multiset(b)
    ensures SameBag(OptionsOf(a), OptionsOf(b), n)
  {
    if a == [] {
      SameMembers(a, b);
    } else {
      var j := TakeHead(a, b);
      ValuesArePermuted(a[1..], b[..j] + b[j + 1..], n);
      PutBack(a, b, j, b[..j] + b[j + 1..], n);
    }
  }

  lemma SameBagSameValue(a: seq<Opt>, b: seq<Opt>, n: string)
    requires SameBag(a, b, n)
    ensures |ValuesOf(a, n)| == |ValuesOf(b, n)|
    ensures |ValuesOf(a, n)| <= 1 ==> ValuesOf(a, n) == ValuesOf(b, n)
  {
    var v, w := ValuesOf(a, n), ValuesOf(b, n);
    assert |multiset(v)| == |v| && |multiset(w)| == |w|;
    if |v| == 1 { assert v[0] in multiset(w); }
  }

  lemma SameBagSameBuild(identifier: string -> bool, words: seq<string>, a: seq<Opt>, b: seq<Opt>)
    requires forall n :: SameBag(a, b, n)
    ensures BuildOf(identifier, words, a) == BuildOf(identifier, words, b)
  {
    SameBagSameValue(a, b, SOLUTION);
    SameBagSameValue(a, b, PROJECT);
    SameBagSameValue(a, b, FULL);
    forall n
      ensures Absent(a, n) <==> Absent(b, n)
    {
      SameBagSameValue(a, b, n);
    }
    assert OnlyBuilds(a) <==> OnlyBuilds(b);
  }

  /** The order of options on a build line does not matter: two lines with the same
      pieces and the same words in order are lexed alike and parsed alike. */
  lemma OrderOfOptionsDoesNotMatter(identifier: string -> bool, a: seq<Item>, b: seq<Item>)
    requires forall i <- a :: Legal(i)
    requires multiset(a) == multiset(b) && WordsOf(a) == WordsOf(b)
    ensures Lex(Rendered(a), NOTHING).Some? && Lex(Rendered(b), NOTHING).Some?
    ensures var l, m := Lex(Rendered(a), NOTHING).value, Lex(Rendered(b), NOTHING).value;
            && l.help == m.help && l.version == m.version && l.words == m.words
            && forall words :: BuildOf(identifier, words, l.options) == BuildOf(identifier, words, m.options)
  {
    forall i
      ensures i in a <==> i in b
    {
      assert i in a <==> i in multiset(a);
      assert i in b <==> i in multiset(b);
    }
    RenderingLexes(a, NOTHING);
    RenderingLexes(b, NOTHING);
    CollectedIs(a, NOTHING);
    CollectedIs(b, NOTHING);
    AnyMeansSome(a);
    AnyMeansSome(b);
    forall n
      ensures SameBag(OptionsOf(a), OptionsOf(b), n)
    {
      ValuesArePermuted(a, b, n);
    }
    forall words
      ensures BuildOf(identifier, words, OptionsOf(a)) == BuildOf(identifier, words, OptionsOf(b))
    {
      SameBagSameBuild(identifier, words, OptionsOf(a), OptionsOf(b));
    }
    assert [] + OptionsOf(a) == OptionsOf(a) && [] + OptionsOf(b) == OptionsOf(b);
  }
}
