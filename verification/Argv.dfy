/** The declared command forms and the argv resolver over them. */
module Argv {
  import opened Prelude

  datatype OptionSpec = OptionSpec(name: string, takesValue: bool, required: bool)

  datatype Form = Form(verb: string, subcommands: seq<string>, options: seq<OptionSpec>)

  function Path(form: Form): (p: seq<string>)
    ensures p != []
  {
    [form.verb] + form.subcommands
  }

  const HELP: seq<string> := ["--help", "-h"]
  const VERSION: seq<string> := ["--version", "-V"]
  const JSON := "--json"

  predicate IsGlobal(token: string) {
    token == JSON || token in HELP || token in VERSION
  }

  predicate IsDashed(token: string) {
    token != "" && token[0] == '-'
  }

  /** What every executor is handed: the options given, and the values of those that
      take one. */
  datatype Assignment = Assignment(seen: set<string>, values: map<string, string>)

  datatype Command = Help | Version(all: bool) | Invoke(form: Form, given: Assignment)

  /** The leading words, up to the first dashed token. */
  function Words(args: seq<string>): (w: seq<string>)
    ensures w <= args && forall t <- w :: !IsDashed(t)
    ensures |w| < |args| ==> IsDashed(args[|w|])
  {
    if args == [] || IsDashed(args[0]) then [] else [args[0]] + Words(args[1..])
  }

  /** The last of the longest declared paths the words begin with. */
  function Longest(verbs: seq<Form>, words: seq<string>): Option<Form> {
    if verbs == [] then None
    else
      var best, form := Longest(verbs[..|verbs| - 1], words), verbs[|verbs| - 1];
      if Path(form) <= words && (best.None? || |Path(best.value)| <= |Path(form)|) then Some(form) else best
  }

  function Find(options: seq<OptionSpec>, name: string): Option<OptionSpec> {
    if options == [] then None else if options[0].name == name then Some(options[0]) else Find(options[1..], name)
  }

  /** The option loop, from a token list and what was seen before it. */
  function Options(form: Form, tokens: seq<string>, sofar: Assignment): Option<Assignment>
    decreases |tokens|
  {
    if tokens == [] then Some(sofar)
    else if IsGlobal(tokens[0]) then Options(form, tokens[1..], sofar)
    else
      var spec := Find(form.options, tokens[0]);
      if spec.None? || tokens[0] in sofar.seen then None
      else if !spec.value.takesValue then Options(form, tokens[1..], sofar.(seen := sofar.seen + {tokens[0]}))
      else if |tokens| < 2 || IsDashed(tokens[1]) then None
      else Options(form, tokens[2..], Assignment(sofar.seen + {tokens[0]}, sofar.values[tokens[0] := tokens[1]]))
  }

  const NOTHING := Assignment({}, map[])

  /** Everything required is there and every value is acceptable. */
  predicate Complete(form: Form, a: Assignment, valid: (string, string) -> bool) {
    && (forall o <- form.options :: o.required ==> o.name in a.seen)
    && forall n <- a.values :: valid(n, a.values[n])
  }

  /** The command a form and its options stand for. */
  function Meaning(form: Form, a: Assignment): Command {
    if form.verb == "version" && form.subcommands == [] then Version("--all" in a.seen)
    else if form.verb == "help" && form.subcommands == [] then Help
    else Invoke(form, a)
  }

  /** Turn argv into a command; None is a rejection. */
  method Resolve(verbs: seq<Form>, valid: (string, string) -> bool, args: seq<string>) returns (c: Option<Command>)
    ensures c == Resolved(verbs, valid, args)
  {
    if exists t <- args :: t in HELP { return Some(Help); }
    if args != [] && args[0] in VERSION { return Some(Version("--all" in args)); }
    var words := Words(args);
    var form := Longest(verbs, words);
    if form.None? {
      // No command word: usage, unless something is not a global option.
      return if words == [] && forall t <- args :: IsGlobal(t) then Some(Help) else None;
    }
    var length := |Path(form.value)|;
    if |words| > length { return None; }
    LongestIsPrefix(verbs, words);
    var given := ParseOptions(form.value, args, length);
    if given.None? || !Complete(form.value, given.value, valid) { return None; }
    c := Some(Meaning(form.value, given.value));
  }

  /** The option loop, after the path. */
  method ParseOptions(form: Form, args: seq<string>, start: nat) returns (a: Option<Assignment>)
    requires start <= |args|
    ensures a == Options(form, args[start..], NOTHING)
  {
    var index, given := start, NOTHING;
    while index < |args|
      invariant start <= index <= |args|
      invariant Options(form, args[start..], NOTHING) == Options(form, args[index..], given)
    {
      var token := args[index];
      OptionsStep(form, args, index, given);
      if !IsGlobal(token) {
        var spec := Find(form.options, token);
        if spec.None? || token in given.seen { return None; }
        given := given.(seen := given.seen + {token});
        if spec.value.takesValue {
          index := index + 1;
          if index == |args| || IsDashed(args[index]) { return None; }
          given := given.(values := given.values[token := args[index]]);
        }
      }
      index := index + 1;
    }
    a := Some(given);
  }

  /** The loop's next step, by position. */
  lemma OptionsStep(form: Form, args: seq<string>, i: nat, sofar: Assignment)
    requires i < |args|
    ensures var spec := Find(form.options, args[i]);
            Options(form, args[i..], sofar) ==
            if IsGlobal(args[i]) then Options(form, args[i + 1..], sofar)
            else if spec.None? || args[i] in sofar.seen then None
            else if !spec.value.takesValue then Options(form, args[i + 1..], sofar.(seen := sofar.seen + {args[i]}))
            else if i + 1 == |args| || IsDashed(args[i + 1]) then None
            else Options(form, args[i + 2..], Assignment(sofar.seen + {args[i]}, sofar.values[args[i] := args[i + 1]]))
  {
    assert args[i..][1..] == args[i + 1..];
    if i + 1 < |args| { assert args[i..][2..] == args[i + 2..]; }
  }

  function Resolved(verbs: seq<Form>, valid: (string, string) -> bool, args: seq<string>): Option<Command> {
    if exists t <- args :: t in HELP then Some(Help)
    else if args != [] && args[0] in VERSION then Some(Version("--all" in args))
    else
      var words := Words(args);
      var form := Longest(verbs, words);
      if form.None? then if words == [] && forall t <- args :: IsGlobal(t) then Some(Help) else None
      else if |words| > |Path(form.value)| || |args| < |Path(form.value)| then None
      else
        var given := Options(form.value, args[|Path(form.value)|..], NOTHING);
        if given.None? || !Complete(form.value, given.value, valid) then None
        else Some(Meaning(form.value, given.value))
  }

  lemma {:induction false} LongestIsPrefix(verbs: seq<Form>, words: seq<string>)
    ensures Longest(verbs, words).Some? ==> Longest(verbs, words).value in verbs && Path(Longest(verbs, words).value) <= words
  {
    if verbs != [] {
      LongestIsPrefix(verbs[..|verbs| - 1], words);
    }
  }

  // The table, and renderings of a command.

  ghost predicate WellFormedForm(form: Form) {
    && (forall t <- Path(form) :: !IsDashed(t))
    && (forall o <- form.options :: IsDashed(o.name) && !IsGlobal(o.name))
    && forall i, j :: 0 <= i < j < |form.options| ==> form.options[i].name != form.options[j].name
  }

  ghost predicate WellFormedTable(verbs: seq<Form>) {
    && (forall f <- verbs :: WellFormedForm(f))
    && forall i, j :: 0 <= i < j < |verbs| ==> Path(verbs[i]) != Path(verbs[j])
  }

  /** One piece of a command line after its path. */
  datatype Item = Global(token: string) | Flag(name: string) | Valued(name: string, value: string)

  function Tokens(item: Item): seq<string> {
    match item
    case Global(token) => [token]
    case Flag(name) => [name]
    case Valued(name, value) => [name, value]
  }

  function Rendered(items: seq<Item>): seq<string> {
    if items == [] then [] else Tokens(items[0]) + Rendered(items[1..])
  }

  function Given(items: seq<Item>, sofar: Assignment): Assignment {
    if items == [] then sofar
    else
      match items[0]
      case Global(token) => Given(items[1..], sofar)
      case Flag(name) => Given(items[1..], sofar.(seen := sofar.seen + {name}))
      case Valued(name, value) => Given(items[1..], Assignment(sofar.seen + {name}, sofar.values[name := value]))
  }

  /** The items fit the form: declared options, each once, with or without a value as
      declared; global options anywhere between them. */
  predicate Fits(form: Form, items: seq<Item>, seen: set<string>) {
    items != [] ==>
      match items[0]
      case Global(token) => (token == JSON || token in VERSION) && Fits(form, items[1..], seen)
      case Flag(name) =>
        && Find(form.options, name).Some? && !Find(form.options, name).value.takesValue
        && name !in seen && Fits(form, items[1..], seen + {name})
      case Valued(name, value) =>
        && Find(form.options, name).Some? && Find(form.options, name).value.takesValue
        && !IsDashed(value) && name !in seen && Fits(form, items[1..], seen + {name})
  }

  lemma {:induction false} FindIsDeclared(options: seq<OptionSpec>, name: string)
    ensures Find(options, name).Some? ==> Find(options, name).value in options && Find(options, name).value.name == name
  {
    if options != [] {
      FindIsDeclared(options[1..], name);
    }
  }

  /** Rendered items parse to what they give. */
  lemma {:induction false} RenderingParses(form: Form, items: seq<Item>, sofar: Assignment)
    requires WellFormedForm(form) && Fits(form, items, sofar.seen)
    ensures Options(form, Rendered(items), sofar) == Some(Given(items, sofar))
    ensures items != [] ==> IsDashed(Rendered(items)[0])
    ensures forall t <- Rendered(items) :: t !in HELP
    decreases |items|
  {
    if items != [] {
      var tokens := Rendered(items);
      match items[0]
      case Global(token) =>
        RenderingParses(form, items[1..], sofar);
        assert tokens[1..] == Rendered(items[1..]);
      case Flag(name) =>
        FindIsDeclared(form.options, name);
        RenderingParses(form, items[1..], sofar.(seen := sofar.seen + {name}));
        assert tokens[1..] == Rendered(items[1..]);
      case Valued(name, value) =>
        FindIsDeclared(form.options, name);
        RenderingParses(form, items[1..], Assignment(sofar.seen + {name}, sofar.values[name := value]));
        assert tokens[2..] == Rendered(items[1..]);
    }
  }

  /** Whatever the option loop accepts is a rendering, with nothing left over. */
  lemma {:induction false} ParsedIsRendering(form: Form, tokens: seq<string>, sofar: Assignment) returns (items: seq<Item>)
    requires Options(form, tokens, sofar).Some? && forall t <- tokens :: t !in HELP
    ensures Rendered(items) == tokens && Fits(form, items, sofar.seen)
    ensures Given(items, sofar) == Options(form, tokens, sofar).value
    decreases |tokens|
  {
    items := [];
    if tokens != [] {
      assert tokens[0] in tokens;
      var head, rest;
      if IsGlobal(tokens[0]) {
        head := Global(tokens[0]);
        rest := ParsedIsRendering(form, tokens[1..], sofar);
      } else if !Find(form.options, tokens[0]).value.takesValue {
        head := Flag(tokens[0]);
        rest := ParsedIsRendering(form, tokens[1..], sofar.(seen := sofar.seen + {tokens[0]}));
      } else {
        head := Valued(tokens[0], tokens[1]);
        rest := ParsedIsRendering(form, tokens[2..], Assignment(sofar.seen + {tokens[0]}, sofar.values[tokens[0] := tokens[1]]));
      }
      items := [head] + rest;
      assert items[1..] == rest && tokens == Tokens(head) + Rendered(rest);
    }
  }

  lemma {:induction false} WordsOfCommand(path: seq<string>, rest: seq<string>)
    requires (forall t <- path :: !IsDashed(t)) && (rest != [] ==> IsDashed(rest[0]))
    ensures Words(path + rest) == path
  {
    if path == [] {
      assert path + rest == rest;
    } else {
      assert (path + rest)[1..] == path[1..] + rest;
      WordsOfCommand(path[1..], rest);
    }
  }

  lemma {:induction false} LongestIsExact(verbs: seq<Form>, form: Form)
    requires form in verbs && forall i, j :: 0 <= i < j < |verbs| ==> Path(verbs[i]) != Path(verbs[j])
    ensures Longest(verbs, Path(form)) == Some(form)
  {
    var init, last := verbs[..|verbs| - 1], verbs[|verbs| - 1];
    LongestIsPrefix(init, Path(form));
    if last != form {
      LongestIsExact(init, form);
      var i :| 0 <= i < |verbs| && verbs[i] == form;
      assert Path(last) != Path(form);
    }
  }

  predicate Names(item: Item, name: string) {
    match item
    case Global(token) => false
    case Flag(n) => n == name
    case Valued(n, value) => n == name
  }

  /** What is given is what the items say, each option once. */
  lemma {:induction false} GivenSays(form: Form, items: seq<Item>, sofar: Assignment, name: string, value: string)
    requires Fits(form, items, sofar.seen) && sofar.values.Keys <= sofar.seen
    ensures var given := Given(items, sofar);
            && given.values.Keys <= given.seen
            && (name in given.seen <==> name in sofar.seen || exists i <- items :: Names(i, name))
            && (name in given.values && given.values[name] == value <==>
                Valued(name, value) in items || (name in sofar.values && sofar.values[name] == value))
    ensures forall i <- items :: Names(i, name) ==> name !in sofar.seen
    decreases |items|
  {
    if items != [] {
      var rest := items[1..];
      assert items == [items[0]] + rest && items[0] in items;
      assert forall i :: i in items <==> i == items[0] || i in rest;
      match items[0]
      case Global(token) => GivenSays(form, rest, sofar, name, value);
      case Flag(n) => GivenSays(form, rest, sofar.(seen := sofar.seen + {n}), name, value);
      case Valued(n, v) => GivenSays(form, rest, Assignment(sofar.seen + {n}, sofar.values[n := v]), name, value);
    }
  }

  /** The executor of the form is handed exactly the options of the items, and the words
      of version and help stand for themselves. */
  ghost predicate Conveys(c: Command, form: Form, items: seq<Item>) {
    if form.verb == "version" && form.subcommands == [] then
      c == Version(exists i <- items :: Names(i, "--all"))
    else if form.verb == "help" && form.subcommands == [] then c == Help
    else
      && c.Invoke? && c.form == form
      && (forall name :: name in c.given.seen <==> exists i <- items :: Names(i, name))
      && c.given.values.Keys <= c.given.seen
      && forall name, value :: name in c.given.values && c.given.values[name] == value <==> Valued(name, value) in items
  }

  lemma MeaningConveys(form: Form, items: seq<Item>)
    requires Fits(form, items, {})
    ensures Conveys(Meaning(form, Given(items, NOTHING)), form, items)
  {
    GivenSays(form, items, NOTHING, "--all", "");
    forall name
      ensures name in Given(items, NOTHING).seen <==> exists i <- items :: Names(i, name)
    {
      GivenSays(form, items, NOTHING, name, "");
    }
    forall name, value
      ensures name in Given(items, NOTHING).values && Given(items, NOTHING).values[name] == value <==> Valued(name, value) in items
    {
      GivenSays(form, items, NOTHING, name, value);
    }
  }

  /** Two renderings with the same options, in whatever order, mean the same. */
  lemma OrderDoesNotMatter(form: Form, a: seq<Item>, b: seq<Item>)
    requires Fits(form, a, {}) && Fits(form, b, {})
    requires forall i: Item :: !i.Global? ==> (i in a <==> i in b)
    ensures Meaning(form, Given(a, NOTHING)) == Meaning(form, Given(b, NOTHING))
  {
    var g, h := Given(a, NOTHING), Given(b, NOTHING);
    forall name
      ensures name in g.seen <==> name in h.seen
      ensures name in g.values <==> name in h.values
      ensures name in g.values ==> g.values[name] == h.values[name]
    {
      SameNamed(a, b, name);
      GivenSays(form, a, NOTHING, name, if name in g.values then g.values[name] else "");
      GivenSays(form, b, NOTHING, name, if name in g.values then g.values[name] else "");
      GivenSays(form, a, NOTHING, name, if name in h.values then h.values[name] else "");
      GivenSays(form, b, NOTHING, name, if name in h.values then h.values[name] else "");
    }
    assert g.seen == h.seen && g.values == h.values;
  }

  lemma SameNamed(a: seq<Item>, b: seq<Item>, name: string)
    requires forall i: Item :: !i.Global? ==> (i in a <==> i in b)
    ensures (exists i <- a :: Names(i, name)) <==> exists i <- b :: Names(i, name)
  {
    if i :| i in a && Names(i, name) { assert i in b; }
    if i :| i in b && Names(i, name) { assert i in a; }
  }

  /** Round trip: every rendering of a declared form, in any order of its options and
      with global options anywhere, resolves to the same command. */
  lemma RenderingResolves(verbs: seq<Form>, valid: (string, string) -> bool, form: Form, items: seq<Item>)
    requires WellFormedTable(verbs) && form in verbs
    requires Fits(form, items, {}) && Complete(form, Given(items, NOTHING), valid)
    ensures Resolved(verbs, valid, Path(form) + Rendered(items)) == Some(Meaning(form, Given(items, NOTHING)))
    ensures Conveys(Meaning(form, Given(items, NOTHING)), form, items)
  {
    MeaningConveys(form, items);
    var args := Path(form) + Rendered(items);
    RenderingParses(form, items, NOTHING);
    WordsOfCommand(Path(form), Rendered(items));
    LongestIsExact(verbs, form);
    assert args[|Path(form)|..] == Rendered(items);
    assert args[0] == Path(form)[0];
    forall t | t in args
      ensures t !in HELP
    {
      assert t in Path(form) || t in Rendered(items);
    }
  }

  /** The lines answered before a form is looked at: help anywhere, version first, or
      nothing but global options. */
  predicate ShortCircuits(args: seq<string>) {
    || (exists t <- args :: t in HELP)
    || (args != [] && args[0] in VERSION)
    || forall t <- args :: IsGlobal(t)
  }

  lemma GlobalsHaveNoWords(args: seq<string>)
    requires forall t <- args :: IsGlobal(t)
    ensures Words(args) == []
  {
    if args != [] { assert args[0] in args && IsDashed(args[0]); }
  }

  lemma {:induction false} NoWordsNoForm(verbs: seq<Form>)
    ensures Longest(verbs, []).None?
  {
    if verbs != [] { NoWordsNoForm(verbs[..|verbs| - 1]); }
  }

  /** Where an accepted argv splits: the path of a form, and what its option loop takes. */
  lemma AcceptedForm(verbs: seq<Form>, valid: (string, string) -> bool, args: seq<string>)
    returns (form: Form, rest: seq<string>)
    requires Resolved(verbs, valid, args).Some? && !ShortCircuits(args)
    ensures form in verbs && args == Path(form) + rest && Options(form, rest, NOTHING).Some?
    ensures Complete(form, Options(form, rest, NOTHING).value, valid)
    ensures Resolved(verbs, valid, args) == Some(Meaning(form, Options(form, rest, NOTHING).value))
  {
    var words := Words(args);
    NoWordsNoForm(verbs);
    LongestIsPrefix(verbs, words);
    form := Longest(verbs, words).value;
    assert words == Path(form);
    rest := args[|words|..];
    assert args == words + rest;
  }

  /** The accepted language: apart from the short-circuits, an argv that resolves is
      exactly a rendering of a form, every token of it consumed. */
  lemma AcceptedIsRendering(verbs: seq<Form>, valid: (string, string) -> bool, args: seq<string>)
    returns (form: Form, items: seq<Item>)
    requires Resolved(verbs, valid, args).Some? && !ShortCircuits(args)
    ensures form in verbs && args == Path(form) + Rendered(items)
    ensures Fits(form, items, {}) && Complete(form, Given(items, NOTHING), valid)
    ensures Resolved(verbs, valid, args) == Some(Meaning(form, Given(items, NOTHING)))
  {
    var rest;
    form, rest := AcceptedForm(verbs, valid, args);
    assert forall t <- rest :: t in args;
    items := ParsedIsRendering(form, rest, NOTHING);
  }

  ghost predicate RendersAForm(verbs: seq<Form>, valid: (string, string) -> bool, args: seq<string>) {
    exists form <- verbs, items: seq<Item> {:trigger Path(form) + Rendered(items)} ::
      && args == Path(form) + Rendered(items)
      && Fits(form, items, {}) && Complete(form, Given(items, NOTHING), valid)
  }

  lemma ShortCircuitsAreAccepted(verbs: seq<Form>, valid: (string, string) -> bool, args: seq<string>)
    requires ShortCircuits(args)
    ensures Resolved(verbs, valid, args).Some?
  {
    if forall t <- args :: IsGlobal(t) {
      GlobalsHaveNoWords(args);
      NoWordsNoForm(verbs);
    }
  }

  lemma RenderingsAreAccepted(verbs: seq<Form>, valid: (string, string) -> bool, args: seq<string>)
    requires WellFormedTable(verbs) && RendersAForm(verbs, valid, args)
    ensures Resolved(verbs, valid, args).Some?
  {
    var form, items: seq<Item> :| form in verbs && args == Path(form) + Rendered(items)
                                  && Fits(form, items, {}) && Complete(form, Given(items, NOTHING), valid);
    RenderingResolves(verbs, valid, form, items);
  }

  /** Exactly the short-circuits and the renderings of the table's forms are accepted. */
  lemma AcceptedExactly(verbs: seq<Form>, valid: (string, string) -> bool, args: seq<string>)
    requires WellFormedTable(verbs)
    ensures Resolved(verbs, valid, args).Some? <==> ShortCircuits(args) || RendersAForm(verbs, valid, args)
  {
    if ShortCircuits(args) {
      ShortCircuitsAreAccepted(verbs, valid, args);
    } else {
      if RendersAForm(verbs, valid, args) { RenderingsAreAccepted(verbs, valid, args); }
      if Resolved(verbs, valid, args).Some? { var form, items := AcceptedIsRendering(verbs, valid, args); }
    }
  }
}
