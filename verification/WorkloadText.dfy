/** The text of the generated modules, and what the index parses from it. */
module WorkloadText {
  import opened Prelude
  import opened Sorting
  import opened Text
  import opened CallClosure
  import I = IncrementalIndex

  predicate IsLower(c: char) {
    'a' <= c <= 'z'
  }

  predicate IsNameChar(c: char) {
    IsLower(c) || IsDigit(c) || c == '_'
  }

  predicate IsWordChar(c: char) {
    IsNameChar(c) || 'A' <= c <= 'Z'
  }

  predicate IsSpace(c: char) {
    c == ' ' || '\t' <= c <= '\r'
  }

  /** How many name characters a text starts with. */
  function NameLength(s: string): (n: nat)
    ensures n <= |s|
  {
    if s == "" || !IsNameChar(s[0]) then 0 else 1 + NameLength(s[1..])
  }

  function Spaces(s: string): (n: nat)
    ensures n <= |s|
  {
    if s == "" || !IsSpace(s[0]) then 0 else 1 + Spaces(s[1..])
  }

  /** Where the call a text starts with ends: a name of four characters or more, spaces,
      and a parenthesis. */
  function CallEnd(s: string): (end: Option<nat>)
    ensures end.Some? ==> NameLength(s) < end.value <= |s|
  {
    var n := NameLength(s);
    var end := n + Spaces(s[n..]);
    if n >= 4 && IsLower(s[0]) && end < |s| && s[end] == '(' then Some(end + 1) else None
  }

  /** The calls in a text and where they start, from left to right.  A name starts where
      no word goes on. */
  function CallsIn(s: string, inWord: bool, at: nat): seq<(nat, string)>
    decreases |s|
  {
    if s == "" then []
    else
      var end := CallEnd(s);
      if !inWord && end.Some? then [(at, s[..NameLength(s)])] + CallsIn(s[end.value..], false, at + end.value)
      else CallsIn(s[1..], IsWordChar(s[0]), at + 1)
  }

  /** The name a definition at the start of a line gives. */
  function DefinedName(s: string): (name: Option<string>) {
    if |s| < 7 || s[..7] != "pub fn " then None
    else
      var n := NameLength(s[7..]);
      if n > 0 && 7 + n < |s| && s[7 + n] == '(' then Some(s[7..7 + n]) else None
  }

  /** The definitions in a text, with the starts of their lines. */
  function Definitions(s: string, atLineStart: bool, at: nat): seq<(nat, string)> {
    if s == "" then []
    else
      var name := DefinedName(s);
      (if atLineStart && name.Some? then [(at, name.value)] else []) + Definitions(s[1..], s[0] == '\n', at + 1)
  }

  /** The calls of a body, without its own definition. */
  function CalledIn(body: string): set<string> {
    var calls := CallsIn(body, false, 0);
    set i | 0 <= i < |calls| && calls[i].0 != 7 :: calls[i].1
  }

  /** A body goes on to the line of the next definition, or to the end. */
  function BodyEnd(text: string, placed: seq<(nat, string)>, i: nat): nat
    requires i < |placed|
  {
    if i + 1 < |placed| then placed[i + 1].0 else |text|
  }

  function BodyAt(text: string, placed: seq<(nat, string)>, i: nat): string
    requires i < |placed|
  {
    var end := BodyEnd(text, placed, i);
    if placed[i].0 <= end <= |text| then text[placed[i].0..end] else ""
  }

  function Bodies(text: string, placed: seq<(nat, string)>, k: nat): map<string, set<string>>
    requires k <= |placed|
  {
    if k == 0 then map[]
    else Bodies(text, placed, k - 1)[placed[k - 1].1 := CalledIn(BodyAt(text, placed, k - 1))]
  }

  function Names(placed: seq<(nat, string)>): seq<string> {
    if placed == [] then [] else [placed[0].1] + Names(placed[1..])
  }

  /** What one file defines and what each of its bodies calls. */
  function Parse(text: string): I.Parsed {
    var placed := Definitions(text, true, 0);
    I.Parsed(Names(placed), Bodies(text, placed, |placed|))
  }

  // The text of a module.

  /** The callees of a body in the order it names them. */
  function Mentioned(name: Symbol -> string, s: Symbol): seq<string> {
    match s
    case Fn00(m) => []
    case Fn01(m) => [name(Fn00(m))]
    case Fn02(m) => [name(Fn01(m))]
    case Export(m) => [name(Fn02(m))] + if m > 0 then [name(Fn01(m - 1)), name(Export(m - 1))] else []
  }

  /** How a body goes on after its last parenthesis, or after its argument. */
  function Ending(s: Symbol): string {
    match s
    case Fn00(m) => " x + " + Dec(m + 1) + " }"
    case Fn01(m) => "x) + 2 }"
    case Fn02(m) => "x) + 3 }"
    case Export(m) => if m > 0 then "x) }" else "x) + 1 }"
  }

  /** A sum of calls and its ending. */
  function Sum(callees: seq<string>, ending: string): string {
    if callees == [] then ending + "\n"
    else " " + callees[0] + "(" + (if |callees| > 1 then "x) +" else "") + Sum(callees[1..], ending)
  }

  /** One line defining a function. */
  function Line(name: string, body: string): string {
    "pub fn " + name + "(x: u32) -> u32 {" + body
  }

  function FunctionText(name: Symbol -> string, s: Symbol): string {
    Line(name(s), Sum(Mentioned(name, s), Ending(s)))
  }

  function Concat(lines: seq<string>): string {
    if lines == [] then "" else lines[0] + Concat(lines[1..])
  }

  function FunctionLines(name: Symbol -> string, m: nat): seq<string> {
    [FunctionText(name, Fn00(m)), FunctionText(name, Fn01(m)), FunctionText(name, Fn02(m)), FunctionText(name, Export(m))]
  }

  function Heading(project: nat, m: nat): string {
    "// project " + Dec(project) + " module " + Dec(m) + "\n"
  }

  function SourceText(name: Symbol -> string, project: nat, m: nat): string {
    Heading(project, m) + "\n" + Concat(FunctionLines(name, m))
  }

  /** Names the expressions find whole. */
  predicate IsName(s: string) {
    |s| >= 4 && IsLower(s[0]) && forall i | 0 <= i < |s| :: IsNameChar(s[i])
  }

  ghost predicate AreNames(name: Symbol -> string) {
    forall s :: IsName(name(s))
  }

  // What the expressions find in it.

  lemma {:induction false} NameEnds(w: string, rest: string)
    requires (forall i | 0 <= i < |w| :: IsNameChar(w[i])) && (rest == "" || !IsNameChar(rest[0]))
    ensures NameLength(w + rest) == |w|
  {
    if w == "" {
      assert w + rest == rest;
    } else {
      assert (w + rest)[1..] == w[1..] + rest;
      NameEnds(w[1..], rest);
    }
  }

  lemma CallEndsThere(s: string, w: string, rest: string)
    requires IsName(w) && s == w + "(" + rest
    ensures NameLength(s) == |w| && CallEnd(s) == Some(|w| + 1)
    ensures s[..|w|] == w && s[|w| + 1..] == rest
  {
    assert s == w + ("(" + rest);
    NameEnds(w, "(" + rest);
    assert s[|w|..][0] == '(' && Spaces(s[|w|..]) == 0;
  }

  /** A name before a parenthesis is a call. */
  lemma CallFound(s: string, w: string, rest: string, at: nat)
    requires IsName(w) && s == w + "(" + rest
    ensures CallsIn(s, false, at) == [(at, w)] + CallsIn(rest, false, at + |w| + 1)
  {
    CallEndsThere(s, w, rest);
  }

  /** A stretch without parentheses that ends on neither a word nor a space has no call. */
  predicate IsInert(t: string) {
    t != "" && !IsWordChar(t[|t| - 1]) && !IsSpace(t[|t| - 1]) && forall i | 0 <= i < |t| :: t[i] != '('
  }

  lemma {:induction false} NameStays(s: string, i: nat)
    requires i < NameLength(s)
    ensures IsNameChar(s[i])
  {
    if i > 0 { NameStays(s[1..], i - 1); }
  }

  lemma {:induction false} SpacesStay(s: string, i: nat)
    requires i < Spaces(s)
    ensures IsSpace(s[i])
  {
    if i > 0 { SpacesStay(s[1..], i - 1); }
  }

  lemma NoCallStarts(t: string, rest: string)
    requires IsInert(t)
    ensures CallEnd(t + rest).None?
  {
    var s := t + rest;
    var n := NameLength(s);
    var k := Spaces(s[n..]);
    assert s[|t| - 1] == t[|t| - 1];
    assert n < |t| ==> s[n..][|t| - 1 - n] == t[|t| - 1];
    if |t| <= n { NameStays(s, |t| - 1); }
    if n < |t| <= n + k { SpacesStay(s[n..], |t| - 1 - n); }
    assert n + k < |t| ==> s[n + k] == t[n + k];
  }

  lemma {:induction false} InertSkipped(t: string, rest: string, inWord: bool, at: nat)
    requires IsInert(t)
    ensures CallsIn(t + rest, inWord, at) == CallsIn(rest, false, at + |t|)
    decreases |t|
  {
    NoCallStarts(t, rest);
    assert (t + rest)[1..] == t[1..] + rest;
    if |t| == 1 {
      assert t[1..] + rest == rest;
    } else {
      InertSkipped(t[1..], rest, IsWordChar(t[0]), at + 1);
    }
  }

  lemma SpaceSkipped(s: string, c: char, rest: string, inWord: bool, at: nat)
    requires IsSpace(c) && s == [c] + rest
    ensures CallsIn(s, inWord, at) == CallsIn(rest, false, at + 1)
  {
    assert s[1..] == rest;
  }

  lemma CalleeInPieces(s: string, w: string, t: string, rest: string) returns (call: string)
    requires s == " " + w + "(" + t + rest
    ensures call == w + "(" + (t + rest) && s == [' '] + call
  {
    call := w + "(" + (t + rest);
  }

  /** A callee after a space, with the inert text that follows it. */
  lemma CalleeFound(s: string, w: string, t: string, rest: string, at: nat)
    requires IsName(w) && IsInert(t) && s == " " + w + "(" + t + rest
    ensures CallsIn(s, false, at) == [(at + 1, w)] + CallsIn(rest, false, at + |w| + |t| + 2)
  {
    var call := CalleeInPieces(s, w, t, rest);
    SpaceSkipped(s, ' ', call, false, at);
    CallFound(call, w, t + rest, at + 1);
    InertSkipped(t, rest, false, at + |w| + 2);
  }

  /** A short word before a space is no call. */
  lemma {:induction false} ShortSkipped(w: string, rest: string, inWord: bool, at: nat)
    requires 0 < |w| < 4 && (forall i | 0 <= i < |w| :: IsNameChar(w[i])) && rest != "" && !IsNameChar(rest[0])
    ensures CallsIn(w + rest, inWord, at) == CallsIn(rest, true, at + |w|)
    decreases |w|
  {
    NameEnds(w, rest);
    assert (w + rest)[1..] == w[1..] + rest;
    if |w| == 1 {
      assert w[1..] + rest == rest;
    } else {
      ShortSkipped(w[1..], rest, true, at + 1);
    }
  }

  lemma KeywordsSkipped(s: string, pub: string, fn: string, rest: string, at: nat)
    requires pub == "pub" && fn == "fn" && s == pub + " " + fn + " " + rest
    ensures CallsIn(s, false, at) == CallsIn(rest, false, at + 7)
  {
    var c := " " + rest;
    var b := fn + c;
    var a := " " + b;
    assert s == pub + a;
    ShortSkipped(pub, a, false, at);
    SpaceSkipped(a, ' ', b, true, at + 3);
    ShortSkipped(fn, c, false, at + 4);
    SpaceSkipped(c, ' ', rest, true, at + 6);
  }

  lemma {:induction false} CallsComeLater(s: string, inWord: bool, at: nat)
    ensures forall c <- CallsIn(s, inWord, at) :: at <= c.0
    decreases |s|
  {
    if s != "" {
      var end := CallEnd(s);
      if !inWord && end.Some? {
        CallsComeLater(s[end.value..], false, at + end.value);
      } else {
        CallsComeLater(s[1..], IsWordChar(s[0]), at + 1);
      }
    }
  }

  function Callees(calls: seq<(nat, string)>): set<string> {
    set c | c in calls :: c.1
  }

  /** A line in the pieces the expressions see. */
  ghost predicate IsLine(line: string, name: string, pub: string, fn: string, parameters: string, tail: string) {
    && pub == "pub" && fn == "fn" && |parameters| == 16 && IsInert(parameters)
    && line == pub + " " + fn + " " + (name + "(" + (parameters + tail))
  }

  lemma LineInPieces(name: string, body: string) returns (pub: string, fn: string, parameters: string)
    ensures IsLine(Line(name, body), name, pub, fn, parameters, body)
  {
    pub, fn, parameters := "pub", "fn", "x: u32) -> u32 {";
    assert Line(name, body) == pub + " " + fn + " " + (name + "(" + (parameters + body));
  }

  /** The first call found in a line is its own definition. */
  lemma LineCalls(name: string, line: string, pub: string, fn: string, parameters: string, tail: string)
    requires IsName(name) && IsLine(line, name, pub, fn, parameters, tail)
    ensures CalledIn(line) == Callees(CallsIn(tail, false, |name| + 24))
  {
    var more := CallsIn(tail, false, |name| + 24);
    assert CallsIn(line, false, 0) == [(7, name)] + more by {
      var rest := name + "(" + (parameters + tail);
      KeywordsSkipped(line, pub, fn, rest, 0);
      CallFound(rest, name, parameters + tail, 7);
      InertSkipped(parameters, tail, false, |name| + 8);
    }
    CallsComeLater(tail, false, |name| + 24);
    OwnIsLeftOut(line, name, more);
  }

  lemma OwnIsLeftOut(line: string, name: string, more: seq<(nat, string)>)
    requires CallsIn(line, false, 0) == [(7, name)] + more && forall c <- more :: c.0 != 7
    ensures CalledIn(line) == Callees(more)
  {
    var calls := [(7, name)] + more;
    forall x
      ensures x in CalledIn(line) <==> x in Callees(more)
    {
      if x in CalledIn(line) {
        var i :| 0 <= i < |calls| && calls[i].0 != 7 && calls[i].1 == x;
        assert calls[i] == more[i - 1];
      }
      if x in Callees(more) {
        var c :| c in more && c.1 == x;
        var i :| 0 <= i < |more| && more[i] == c;
        assert calls[i + 1] == c;
      }
    }
  }

  lemma LineEnds(s: string, newline: string, at: nat)
    requires newline == "\n" && s == newline
    ensures CallsIn(s, false, at) == []
  {
    SpaceSkipped(s, '\n', "", false, at);
  }

  lemma NoCallee(tail: string, t: string, newline: string, at: nat)
    requires IsInert(t) && newline == "\n" && tail == t + newline
    ensures CallsIn(tail, false, at) == []
  {
    InertSkipped(t, newline, false, at);
    LineEnds(newline, newline, at + |t|);
  }

  lemma OneMoreCallee(tail: string, w: string, t: string, rest: string, at: nat)
    requires IsName(w) && IsInert(t) && tail == " " + w + "(" + t + rest
    ensures Callees(CallsIn(tail, false, at)) == {w} + Callees(CallsIn(rest, false, at + |w| + |t| + 2))
  {
    var more := CallsIn(rest, false, at + |w| + |t| + 2);
    CalleeFound(tail, w, t, rest, at);
    CalleesAppend([(at + 1, w)], more);
    CalleesOfOne((at + 1, w));
  }

  lemma CalleesAppend(a: seq<(nat, string)>, b: seq<(nat, string)>)
    ensures Callees(a + b) == Callees(a) + Callees(b)
  {
  }

  lemma CalleesOfOne(a: (nat, string))
    ensures Callees([a]) == {a.1}
  {
    assert [a][0] in [a];
  }

  lemma LastCallee(tail: string, w: string, t: string, rest: string, newline: string, at: nat)
    requires IsName(w) && IsInert(t) && newline == "\n" && rest == t + newline && tail == " " + w + "(" + rest
    ensures Callees(CallsIn(tail, false, at)) == {w}
  {
    assert tail == " " + w + "(" + t + newline;
    OneMoreCallee(tail, w, t, newline, at);
    LineEnds(newline, newline, at + |w| + |t| + 2);
  }

  lemma SumStep(callees: seq<string>, ending: string, plus: string, at: nat)
    requires |callees| > 1 && IsName(callees[0]) && plus == "x) +" && IsInert(plus) && |plus| == 4
    ensures Callees(CallsIn(Sum(callees, ending), false, at)) ==
            {callees[0]} + Callees(CallsIn(Sum(callees[1..], ending), false, at + |callees[0]| + 6))
  {
    OneMoreCallee(Sum(callees, ending), callees[0], plus, Sum(callees[1..], ending), at);
  }

  lemma SetOfHead(callees: seq<string>)
    requires callees != []
    ensures SetOf(callees) == {callees[0]} + SetOf(callees[1..])
    ensures |callees| == 1 ==> SetOf(callees) == {callees[0]}
  {
    assert callees == [callees[0]] + callees[1..];
  }

  /** The calls found in a sum are its callees. */
  lemma {:induction false} SumCalls(callees: seq<string>, ending: string, at: nat)
    requires callees != [] && IsInert(ending) && forall i | 0 <= i < |callees| :: IsName(callees[i])
    ensures Callees(CallsIn(Sum(callees, ending), false, at)) == SetOf(callees)
  {
    SetOfHead(callees);
    if |callees| == 1 {
      LastCallee(Sum(callees, ending), callees[0], ending, Sum([], ending), "\n", at);
    } else {
      PlusIsInert("x) +");
      SumStep(callees, ending, "x) +", at);
      SumCalls(callees[1..], ending, at + |callees[0]| + 6);
    }
  }

  lemma PlusIsInert(plus: string)
    requires plus == "x) +"
    ensures IsInert(plus) && |plus| == 4
  {
  }

  lemma EndingIsInert(s: Symbol)
    ensures IsInert(Ending(s))
  {
    if s.Fn00? {
      var t := Ending(s);
      forall i | 0 <= i < |t|
        ensures t[i] != '('
      {
        if 5 <= i < |t| - 2 { assert t[i] == Dec(s.m + 1)[i - 5] && t[i] in Dec(s.m + 1); }
      }
    }
  }

  lemma MentionsIntended(name: Symbol -> string, s: Symbol)
    ensures SetOf(Mentioned(name, s)) == Named(name, Intended(s))
  {
  }

  lemma BodyCalls(name: Symbol -> string, s: Symbol, at: nat)
    requires AreNames(name)
    ensures Callees(CallsIn(Sum(Mentioned(name, s), Ending(s)), false, at)) == SetOf(Mentioned(name, s))
  {
    EndingIsInert(s);
    if s.Fn00? {
      NoCallee(Sum([], Ending(s)), Ending(s), "\n", at);
    } else {
      SumCalls(Mentioned(name, s), Ending(s), at);
    }
  }

  /** In the line of a function the second expression finds what it is meant to call. */
  lemma FunctionCalls(name: Symbol -> string, s: Symbol)
    requires AreNames(name)
    ensures CalledIn(FunctionText(name, s)) == Named(name, Intended(s))
  {
    var body := Sum(Mentioned(name, s), Ending(s));
    var pub, fn, parameters := LineInPieces(name(s), body);
    LineCalls(name(s), Line(name(s), body), pub, fn, parameters, body);
    BodyCalls(name, s, |name(s)| + 24);
    MentionsIntended(name, s);
  }

  // Definitions.

  predicate IsOneLine(t: string) {
    t != "" && t[|t| - 1] == '\n' && forall i | 0 <= i < |t| - 1 :: t[i] != '\n'
  }

  lemma {:induction false} LineSkipped(t: string, rest: string, at: nat)
    requires IsOneLine(t)
    ensures Definitions(t + rest, false, at) == Definitions(rest, true, at + |t|)
  {
    assert (t + rest)[1..] == t[1..] + rest;
    if |t| == 1 {
      assert t[1..] + rest == rest;
    } else {
      LineSkipped(t[1..], rest, at + 1);
    }
  }

  /** A line is a definition of its own, or none. */
  lemma LineDefines(t: string, rest: string, at: nat)
    requires IsOneLine(t)
    ensures var name := DefinedName(t + rest);
            Definitions(t + rest, true, at) ==
            (if name.Some? then [(at, name.value)] else []) + Definitions(rest, true, at + |t|)
  {
    LineSkipped(t, rest, at);
  }

  lemma LineGrows(a: string, t: string)
    requires IsOneLine(t) && forall i | 0 <= i < |a| :: a[i] != '\n'
    ensures IsOneLine(a + t)
  {
  }

  lemma {:induction false} SumIsOneLine(callees: seq<string>, ending: string)
    requires forall i | 0 <= i < |ending| :: ending[i] != '\n'
    requires forall i | 0 <= i < |callees| :: IsName(callees[i])
    ensures IsOneLine(Sum(callees, ending))
  {
    if callees != [] {
      SumIsOneLine(callees[1..], ending);
      var a := " " + callees[0] + "(" + (if |callees| > 1 then "x) +" else "");
      LineGrows(a, Sum(callees[1..], ending));
    }
  }

  lemma EndingStays(s: Symbol)
    ensures forall i | 0 <= i < |Ending(s)| :: Ending(s)[i] != '\n'
  {
    if s.Fn00? {
      forall i | 0 <= i < |Ending(s)|
        ensures Ending(s)[i] != '\n'
      {
        if 5 <= i < |Ending(s)| - 2 { assert Ending(s)[i] == Dec(s.m + 1)[i - 5] && Ending(s)[i] in Dec(s.m + 1); }
      }
    }
  }

  lemma LineIsOne(name: string, body: string)
    requires IsName(name) && IsOneLine(body)
    ensures IsOneLine(Line(name, body))
  {
    LineGrows("pub fn " + name + "(x: u32) -> u32 {", body);
  }

  lemma FunctionIsOneLine(name: Symbol -> string, s: Symbol)
    requires AreNames(name)
    ensures IsOneLine(FunctionText(name, s))
  {
    EndingStays(s);
    SumIsOneLine(Mentioned(name, s), Ending(s));
    LineIsOne(name(s), Sum(Mentioned(name, s), Ending(s)));
  }

  lemma DefinitionFound(s: string, pub: string, name: string, rest: string)
    requires |pub| == 7 && pub == "pub fn " && IsName(name) && s == pub + name + "(" + rest
    ensures DefinedName(s) == Some(name)
  {
    assert s[7..] == name + ("(" + rest);
    NameEnds(name, "(" + rest);
    assert s[..7] == pub && s[7..7 + |name|] == name && s[7 + |name|] == '(';
  }

  lemma LineDefinesName(name: string, body: string, rest: string)
    requires IsName(name)
    ensures DefinedName(Line(name, body) + rest) == Some(name)
  {
    var pub := "pub fn ";
    var after := "x: u32) -> u32 {" + body + rest;
    assert Line(name, body) + rest == pub + name + "(" + after;
    DefinitionFound(Line(name, body) + rest, pub, name, after);
  }

  /** A line that defines that name, whatever follows it. */
  ghost predicate IsDefinition(line: string, name: string) {
    IsOneLine(line) && forall rest :: DefinedName(line + rest) == Some(name)
  }

  lemma FunctionIsDefinition(name: Symbol -> string, s: Symbol)
    requires AreNames(name)
    ensures IsDefinition(FunctionText(name, s), name(s))
  {
    FunctionIsOneLine(name, s);
    var body := Sum(Mentioned(name, s), Ending(s));
    forall rest
      ensures DefinedName(Line(name(s), body) + rest) == Some(name(s))
    {
      LineDefinesName(name(s), body, rest);
    }
  }

  // Lines of definitions, whatever they say.

  ghost predicate AreDefinitions(lines: seq<string>, names: seq<string>) {
    |lines| == |names| && forall i | 0 <= i < |lines| :: IsDefinition(lines[i], names[i])
  }

  /** Where the first expression finds the names of these lines. */
  function Placed(lines: seq<string>, names: seq<string>, at: nat): (placed: seq<(nat, string)>)
    requires |lines| == |names|
    ensures |placed| == |lines|
  {
    if lines == [] then [] else [(at, names[0])] + Placed(lines[1..], names[1..], at + |lines[0]|)
  }

  lemma DefinitionStep(line: string, name: string, rest: string, at: nat)
    requires IsDefinition(line, name)
    ensures Definitions(line + rest, true, at) == [(at, name)] + Definitions(rest, true, at + |line|)
  {
    LineDefines(line, rest, at);
  }

  lemma OthersAreDefinitions(lines: seq<string>, names: seq<string>)
    requires AreDefinitions(lines, names) && lines != []
    ensures AreDefinitions(lines[1..], names[1..])
  {
  }

  lemma {:induction false} LinesAreDefined(lines: seq<string>, names: seq<string>, at: nat)
    requires AreDefinitions(lines, names)
    ensures Definitions(Concat(lines), true, at) == Placed(lines, names, at)
    decreases |lines|
  {
    if lines != [] {
      OthersAreDefinitions(lines, names);
      DefinitionStep(lines[0], names[0], Concat(lines[1..]), at);
      LinesAreDefined(lines[1..], names[1..], at + |lines[0]|);
    }
  }

  lemma {:induction false} PlacedThere(lines: seq<string>, names: seq<string>, at: nat, i: nat)
    requires i < |lines| == |names|
    ensures Placed(lines, names, at)[i] == (at + |Concat(lines[..i])|, names[i])
    decreases |lines|
  {
    if i > 0 {
      PlacedThere(lines[1..], names[1..], at + |lines[0]|, i - 1);
      assert lines[..i][0] == lines[0] && lines[..i][1..] == lines[1..][..i - 1];
    }
  }

  lemma {:induction false} LinesSplit(lines: seq<string>, i: nat)
    requires i < |lines|
    ensures Concat(lines) == Concat(lines[..i]) + lines[i] + Concat(lines[i + 1..])
    ensures Concat(lines[..i + 1]) == Concat(lines[..i]) + lines[i]
    decreases |lines|
  {
    if i == 0 {
      assert lines[..1][0] == lines[0] && lines[..1][1..] == [];
    } else {
      var others := lines[1..];
      LinesSplit(others, i - 1);
      assert lines[..i][0] == lines[0] && lines[..i][1..] == others[..i - 1];
      assert lines[..i + 1][0] == lines[0] && lines[..i + 1][1..] == others[..i];
      assert lines[i + 1..] == others[i..];
    }
  }

  lemma MiddleOf(text: string, head: string, a: string, line: string, b: string)
    requires text == head + (a + line + b)
    ensures |text| == |head| + |a| + |line| + |b| && text[|head| + |a|..|head| + |a + line|] == line
  {
  }

  lemma BodyEndsWithLine(head: string, lines: seq<string>, names: seq<string>, i: nat)
    requires i < |lines| == |names|
    ensures BodyEnd(head + Concat(lines), Placed(lines, names, |head|), i) == |head| + |Concat(lines[..i + 1])|
  {
    if i + 1 < |lines| {
      PlacedThere(lines, names, |head|, i + 1);
    } else {
      assert lines[..i + 1] == lines;
    }
  }

  lemma BodyIs(text: string, placed: seq<(nat, string)>, i: nat, head: string, a: string, line: string, b: string)
    requires i < |placed| && placed[i].0 == |head| + |a| && BodyEnd(text, placed, i) == |head| + |a + line|
    requires text == head + (a + line + b)
    ensures BodyAt(text, placed, i) == line
  {
    MiddleOf(text, head, a, line, b);
  }

  /** The body of a definition is its line. */
  lemma BodyIsLine(head: string, lines: seq<string>, names: seq<string>, i: nat)
    requires i < |lines| == |names|
    ensures BodyAt(head + Concat(lines), Placed(lines, names, |head|), i) == lines[i]
  {
    var text, placed := head + Concat(lines), Placed(lines, names, |head|);
    var a, b := Concat(lines[..i]), Concat(lines[i + 1..]);
    assert text == head + (a + lines[i] + b) by { LinesSplit(lines, i); }
    assert placed[i].0 == |head| + |a| by { PlacedThere(lines, names, |head|, i); }
    assert BodyEnd(text, placed, i) == |head| + |a + lines[i]| by {
      LinesSplit(lines, i);
      BodyEndsWithLine(head, lines, names, i);
    }
    BodyIs(text, placed, i, head, a, lines[i], b);
  }

  /** What each of these lines calls, the last of a name over earlier ones. */
  function Called(lines: seq<string>, names: seq<string>, k: nat): map<string, set<string>>
    requires k <= |lines| == |names|
  {
    if k == 0 then map[] else Called(lines, names, k - 1)[names[k - 1] := CalledIn(lines[k - 1])]
  }

  lemma {:induction false} BodiesAreLines(head: string, lines: seq<string>, names: seq<string>, k: nat)
    requires k <= |lines| == |names|
    ensures Bodies(head + Concat(lines), Placed(lines, names, |head|), k) == Called(lines, names, k)
  {
    if k > 0 {
      BodiesAreLines(head, lines, names, k - 1);
      BodyIsLine(head, lines, names, k - 1);
      PlacedThere(lines, names, |head|, k - 1);
    }
  }

  lemma {:induction false} NamesPlaced(lines: seq<string>, names: seq<string>, at: nat)
    requires |lines| == |names|
    ensures Names(Placed(lines, names, at)) == names
    decreases |lines|
  {
    if lines != [] { NamesPlaced(lines[1..], names[1..], at + |lines[0]|); }
  }

  lemma LinesAreParsed(head: string, lines: seq<string>, names: seq<string>)
    requires AreDefinitions(lines, names)
    requires Definitions(head + Concat(lines), true, 0) == Definitions(Concat(lines), true, |head|)
    ensures Parse(head + Concat(lines)) == I.Parsed(names, Called(lines, names, |lines|))
  {
    LinesAreDefined(lines, names, |head|);
    BodiesAreLines(head, lines, names, |lines|);
    NamesPlaced(lines, names, |head|);
  }

  lemma NoDefinition(t: string, rest: string, at: nat)
    requires IsOneLine(t) && t[0] != 'p'
    ensures Definitions(t + rest, true, at) == Definitions(rest, true, at + |t|)
  {
    assert DefinedName(t + rest).None? by {
      assert (t + rest)[0] == t[0];
      assert |t + rest| >= 7 ==> (t + rest)[..7][0] == t[0] && "pub fn "[0] == 'p';
    }
    LineDefines(t, rest, at);
  }

  lemma DigitsStay(n: nat)
    ensures forall i | 0 <= i < |Dec(n)| :: Dec(n)[i] != '\n'
  {
    forall i | 0 <= i < |Dec(n)|
      ensures Dec(n)[i] != '\n'
    {
      assert Dec(n)[i] in Dec(n);
    }
  }

  lemma HeadingIsOneLine(project: nat, m: nat)
    ensures IsOneLine(Heading(project, m)) && Heading(project, m)[0] == '/'
  {
    DigitsStay(m);
    DigitsStay(project);
    var a := Dec(m) + "\n";
    var b := " module " + a;
    var c := Dec(project) + b;
    LineGrows(Dec(m), "\n");
    LineGrows(" module ", a);
    LineGrows(Dec(project), b);
    LineGrows("// project ", c);
    assert Heading(project, m) == "// project " + c;
  }

  lemma NothingBefore(heading: string, newline: string, rest: string)
    requires IsOneLine(heading) && heading[0] != 'p' && newline == "\n"
    ensures Definitions(heading + newline + rest, true, 0) == Definitions(rest, true, |heading + newline|)
  {
    assert heading + newline + rest == heading + (newline + rest);
    NoDefinition(heading, newline + rest, 0);
    NoDefinition(newline, rest, |heading|);
  }

  lemma FourAreDefinitions(lines: seq<string>, names: seq<string>)
    requires |lines| == |names| == 4 && IsDefinition(lines[0], names[0]) && IsDefinition(lines[1], names[1])
    requires IsDefinition(lines[2], names[2]) && IsDefinition(lines[3], names[3])
    ensures AreDefinitions(lines, names)
  {
  }

  lemma FourCall(lines: seq<string>, names: seq<string>)
    requires |lines| == |names| == 4
    ensures Called(lines, names, 4) ==
            map[names[0] := CalledIn(lines[0]), names[1] := CalledIn(lines[1]),
                names[2] := CalledIn(lines[2]), names[3] := CalledIn(lines[3])]
  {
    assert Called(lines, names, 1) == map[names[0] := CalledIn(lines[0])];
    assert Called(lines, names, 2) == map[names[0] := CalledIn(lines[0]), names[1] := CalledIn(lines[1])];
  }

  lemma FourDefine(name: Symbol -> string, m: nat)
    requires AreNames(name)
    ensures AreDefinitions(FunctionLines(name, m), ModuleParsed(name, m).definitions)
  {
    FunctionIsDefinition(name, Fn00(m));
    FunctionIsDefinition(name, Fn01(m));
    FunctionIsDefinition(name, Fn02(m));
    FunctionIsDefinition(name, Export(m));
    FourAreDefinitions(FunctionLines(name, m), ModuleParsed(name, m).definitions);
  }

  lemma FourCallAsIntended(name: Symbol -> string, m: nat)
    requires AreNames(name)
    ensures Called(FunctionLines(name, m), ModuleParsed(name, m).definitions, 4) == ModuleCalls(name, m)
  {
    FunctionCalls(name, Fn00(m));
    FunctionCalls(name, Fn01(m));
    FunctionCalls(name, Fn02(m));
    FunctionCalls(name, Export(m));
    FourCall(FunctionLines(name, m), ModuleParsed(name, m).definitions);
  }

  /** Parsing the text of a module yields its four definitions, and the calls the
      generator means: no more, no fewer, and each under its own function. */
  lemma ParseIsIntended(name: Symbol -> string, project: nat, m: nat)
    requires AreNames(name)
    ensures Parse(SourceText(name, project, m)) == ModuleParsed(name, m)
  {
    var lines, names := FunctionLines(name, m), ModuleParsed(name, m).definitions;
    HeadingIsOneLine(project, m);
    NothingBefore(Heading(project, m), "\n", Concat(lines));
    FourDefine(name, m);
    FourCallAsIntended(name, m);
    LinesAreParsed(Heading(project, m) + "\n", lines, names);
  }
}
