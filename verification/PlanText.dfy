/** The plan document as the planner writes it, and how long that gets. */
module PlanText {
  import opened IdentityTuple
  import opened MigrationPlan
  import opened Prelude
  import opened Sorting
  import opened Text

  /** The loader reads no larger file. */
  const BUDGET := 16 * 1024 * 1024

  /** Digests in hexadecimal: of a file, of the body of a plan and of the engine's plan. */
  datatype Hexes = Hexes(file: Digest -> string, plan: Body -> string, engine: Engine -> string)

  ghost predicate AreHexes(h: Hexes) {
    (forall d :: |h.file(d)| == 64) && (forall b :: |h.plan(b)| == 64) && forall e :: |h.engine(e)| == 64
  }

  function Spaces(n: nat): (s: string)
    ensures |s| == n
  {
    if n == 0 then "" else Spaces(n - 1) + " "
  }

  /** A string that needs no escapes. */
  function Bare(s: string): (t: string)
    ensures |t| == |s| + 2
  {
    "\"" + s + "\""
  }

  /** One member of an object, indented by two spaces a level. */
  function Field(depth: nat, name: string, value: string): (t: string)
    ensures |t| == 2 * depth + |name| + 4 + |value|
  {
    Spaces(2 * depth) + Bare(name) + ": " + value
  }

  function Lines(parts: seq<string>): string {
    if parts == [] then ""
    else if |parts| == 1 then parts[0]
    else parts[0] + ",\n" + Lines(parts[1..])
  }

  /** An object or an array; an empty one stays on its line. */
  function Block(open: char, parts: seq<string>, depth: nat, close: char): string {
    if parts == [] then [open, close]
    else [open] + "\n" + Lines(parts) + "\n" + Spaces(2 * depth) + [close]
  }

  function SourceText(h: Hexes, s: Source): string {
    Spaces(4) + Block('{', [Field(3, "path", Quote(s.path)), Field(3, "sha256", Bare(h.file(s.digest))),
                            Field(3, "size_bytes", Dec(s.size))], 2, '}')
  }

  /** The members of a change come out in the order of their names. */
  function ChangeText(h: Hexes, c: Change): string {
    Spaces(4) + Block('{', [Field(3, "action", Bare("create")), Field(3, "after_sha256", Bare(h.file(c.after))),
                            Field(3, "before_sha256", "null"), Field(3, "destination", Quote(c.destination)),
                            Field(3, "source", Quote(c.source))], 2, '}')
  }

  function SourceTexts(h: Hexes, sources: seq<Source>): seq<string> {
    if sources == [] then []
    else SourceTexts(h, sources[..|sources| - 1]) + [SourceText(h, sources[|sources| - 1])]
  }

  function ChangeTexts(h: Hexes, changes: seq<Change>): seq<string> {
    if changes == [] then [] else [ChangeText(h, changes[0])] + ChangeTexts(h, changes[1..])
  }

  /** `header.core` stands for the text of the version report. */
  function HeadFields(d: Document): seq<string> {
    [Field(1, "schema_version", Dec(d.body.header.schemaVersion)), Field(1, "status", Quote(d.body.header.status)),
     Field(1, "migration_scope", Quote(d.body.header.scope)),
     Field(1, "target_layout", Dec(d.body.header.targetLayout))]
  }

  function ChangeFields(h: Hexes, d: Document): seq<string> {
    [Field(1, "changes", Block('[', ChangeTexts(h, d.body.changes), 1, ']')),
     Field(1, "required_free_bytes", Dec(d.body.requiredBytes)), Field(1, "target_core", d.body.header.core)]
  }

  function PlaceFields(d: Document): seq<string> {
    [Field(1, "solution_id", Quote(d.body.solution)), Field(1, "root", Quote(d.body.root)),
     Field(1, "created_epoch_seconds", Dec(d.body.created)), Field(1, "ttl_seconds", Dec(d.body.ttl))]
  }

  function SourceFields(h: Hexes, d: Document): seq<string> {
    [Field(1, "sources", Block('[', SourceTexts(h, d.body.sources), 1, ']')),
     Field(1, "selected_source", if d.body.selected.Some? then Quote(d.body.selected.value) else "null"),
     Field(1, "migration_needed", if d.body.needed then "true" else "false")]
  }

  function DigestFields(h: Hexes, d: Document): seq<string> {
    [Field(1, "engine_digest", Bare(if d.body.engine.Some? then h.engine(d.body.engine.value) else "")),
     Field(1, "plan_digest", Bare(h.plan(d.planDigest))),
     Field(1, "transaction", Bare("migration-" + First(h.plan(d.transaction), 32)))]
  }

  function First(s: string, n: nat): (t: string)
    ensures n <= |s| ==> |t| == n
  {
    if n <= |s| then s[..n] else s
  }

  function Members(h: Hexes, d: Document): seq<string> {
    HeadFields(d) + ChangeFields(h, d) + PlaceFields(d) + SourceFields(h, d) + DigestFields(h, d)
  }

  /** The file, as the pretty printer writes it. */
  function DocumentText(h: Hexes, d: Document): string {
    Block('{', Members(h, d), 0, '}')
  }

  /** The loader: the size of the file, then the checks on what it holds. */
  predicate Loads(core: string, h: Hexes, d: Document) {
    |DocumentText(h, d)| <= BUDGET && Accepts(core, d)
  }

  // Lengths.

  function Total(parts: seq<string>): nat {
    if parts == [] then 0 else |parts[0]| + Total(parts[1..])
  }

  lemma {:induction false} TotalAppend(a: seq<string>, b: seq<string>)
    ensures Total(a + b) == Total(a) + Total(b)
  {
    if a == [] {
      assert a + b == b;
    } else {
      assert (a + b)[0] == a[0] && (a + b)[1..] == a[1..] + b;
      TotalAppend(a[1..], b);
    }
  }

  lemma TotalOfThree(a: string, b: string, c: string)
    ensures Total([a, b, c]) == |a| + |b| + |c|
  {
    assert [a, b, c][1..] == [b, c] && [b, c][1..] == [c] && [c][1..] == [];
    assert Total([c]) == |c| && Total([b, c]) == |b| + Total([c]);
  }

  lemma TotalOfFour(a: string, b: string, c: string, d: string)
    ensures Total([a, b, c, d]) == |a| + |b| + |c| + |d|
  {
    assert [a, b, c, d][1..] == [b, c, d];
    TotalOfThree(b, c, d);
  }

  lemma TotalOfFive(a: string, b: string, c: string, d: string, e: string)
    ensures Total([a, b, c, d, e]) == |a| + |b| + |c| + |d| + |e|
  {
    assert [a, b, c, d, e][1..] == [b, c, d, e];
    TotalOfFour(b, c, d, e);
  }

  lemma {:induction false} LinesLength(parts: seq<string>)
    requires parts != []
    ensures |Lines(parts)| == Total(parts) + 2 * (|parts| - 1)
  {
    if |parts| > 1 { LinesLength(parts[1..]); }
    else { assert parts[1..] == []; }
  }

  /** The length of a block with so many parts of so many characters. */
  function BlockSize(count: nat, total: nat, depth: nat): nat {
    if count == 0 then 2 else total + 2 * (count - 1) + 2 * depth + 4
  }

  lemma BlockLength(open: char, parts: seq<string>, depth: nat, close: char)
    ensures |Block(open, parts, depth, close)| == BlockSize(|parts|, Total(parts), depth)
  {
    if parts != [] { LinesLength(parts); }
  }

  function SourceSize(s: Source): nat {
    132 + |Quote(s.path)| + |Dec(s.size)|
  }

  lemma SourceLength(h: Hexes, s: Source)
    requires AreHexes(h)
    ensures |SourceText(h, s)| == SourceSize(s)
  {
    var a, b := Field(3, "path", Quote(s.path)), Field(3, "sha256", Bare(h.file(s.digest)));
    var c := Field(3, "size_bytes", Dec(s.size));
    BlockLength('{', [a, b, c], 2, '}');
    TotalOfThree(a, b, c);
  }

  function ChangeSize(destination: string, source: string): nat {
    196 + |Quote(destination)| + |Quote(source)|
  }

  lemma ChangeLength(h: Hexes, c: Change)
    requires AreHexes(h)
    ensures |ChangeText(h, c)| == ChangeSize(c.destination, c.source)
  {
    var e, f := Field(3, "action", Bare("create")), Field(3, "after_sha256", Bare(h.file(c.after)));
    var g, i, j := Field(3, "before_sha256", "null"), Field(3, "destination", Quote(c.destination)), Field(3, "source", Quote(c.source));
    BlockLength('{', [e, f, g, i, j], 2, '}');
    TotalOfFive(e, f, g, i, j);
  }

  function SourcesTotal(sources: seq<Source>): nat {
    if sources == [] then 0 else SourcesTotal(sources[..|sources| - 1]) + SourceSize(sources[|sources| - 1])
  }

  lemma {:induction false} SourcesLength(h: Hexes, sources: seq<Source>)
    requires AreHexes(h)
    ensures |SourceTexts(h, sources)| == |sources| && Total(SourceTexts(h, sources)) == SourcesTotal(sources)
  {
    if sources != [] {
      var init, last := sources[..|sources| - 1], SourceText(h, sources[|sources| - 1]);
      SourceLength(h, sources[|sources| - 1]);
      SourcesLength(h, init);
      TotalAppend(SourceTexts(h, init), [last]);
      assert [last][1..] == [];
    }
  }

  function WritesTotal(writes: seq<Write>): nat {
    if writes == [] then 0 else ChangeSize(writes[0].path, writes[0].source) + WritesTotal(writes[1..])
  }

  lemma {:induction false} ChangesLength(h: Hexes, sources: seq<Source>, writes: seq<Write>)
    requires AreHexes(h) && DescribeChanges(sources, writes).Some?
    ensures var texts := ChangeTexts(h, DescribeChanges(sources, writes).value);
            |texts| == |writes| && Total(texts) == WritesTotal(writes)
  {
    if writes != [] {
      var changes := DescribeChanges(sources, writes).value;
      ChangeLength(h, changes[0]);
      ChangesLength(h, sources, writes[1..]);
      assert changes[1..] == DescribeChanges(sources, writes[1..]).value;
      assert ChangeTexts(h, changes)[1..] == ChangeTexts(h, changes[1..]);
    }
  }

  lemma {:induction false} WritesTotalAppend(a: seq<Write>, b: seq<Write>)
    ensures WritesTotal(a + b) == WritesTotal(a) + WritesTotal(b)
  {
    if a == [] {
      assert a + b == b;
    } else {
      assert (a + b)[0] == a[0] && (a + b)[1..] == a[1..] + b;
      WritesTotalAppend(a[1..], b);
    }
  }

  lemma WritesTotalOneMore(a: seq<Write>, w: Write)
    ensures WritesTotal(a + [w]) == WritesTotal(a) + ChangeSize(w.path, w.source)
  {
    WritesTotalAppend(a, [w]);
    assert [w][1..] == [];
  }

  lemma WritesTotalWithout(b: seq<Write>, j: nat)
    requires j < |b|
    ensures WritesTotal(b) == WritesTotal(b[..j] + b[j + 1..]) + ChangeSize(b[j].path, b[j].source)
  {
    var tail := b[j..];
    assert b == b[..j] + tail && tail != [] && tail[0] == b[j] && tail[1..] == b[j + 1..];
    WritesTotalAppend(b[..j], tail);
    WritesTotalAppend(b[..j], tail[1..]);
  }

  /** The order of the copies does not matter. */
  lemma {:induction false} WritesTotalIgnoresOrder(a: seq<Write>, b: seq<Write>)
    requires multiset(a) == multiset(b)
    ensures WritesTotal(a) == WritesTotal(b) && |a| == |b|
  {
    SameMembers(a, b);
    if a != [] {
      var j := TakeHead(a, b);
      WritesTotalIgnoresOrder(a[1..], b[..j] + b[j + 1..]);
      WritesTotalWithout(b, j);
    }
  }

  /** What the copies of the selected root add, and how many there are. */
  function CopiesTotal(sources: seq<Source>, root: string): nat {
    if sources == [] then 0
    else
      var s := sources[|sources| - 1];
      CopiesTotal(sources[..|sources| - 1], root)
      + if Within(s.path, root) then ChangeSize(Under(TARGET, Suffix(s.path, root)), s.path) else 0
  }

  function CopiesCount(sources: seq<Source>, root: string): nat {
    if sources == [] then 0
    else CopiesCount(sources[..|sources| - 1], root) + if Within(sources[|sources| - 1].path, root) then 1 else 0
  }

  lemma {:induction false} RelocationsTotal(sources: seq<Source>, root: string)
    ensures WritesTotal(Relocations(sources, root)) == CopiesTotal(sources, root)
    ensures |Relocations(sources, root)| == CopiesCount(sources, root)
  {
    if sources != [] {
      var init, s := sources[..|sources| - 1], sources[|sources| - 1];
      RelocationsTotal(init, root);
      if Within(s.path, root) {
        var w := Write(Under(TARGET, Suffix(s.path, root)), s.path);
        assert Relocations(sources, root) == Relocations(init, root) + [w];
        WritesTotalOneMore(Relocations(init, root), w);
      } else {
        assert Relocations(sources, root) == Relocations(init, root);
      }
    }
  }

  // The size of a plan, before it is made.

  /** The members of the document other than its two lists. */
  function FixedSize(core: string, solution: string, root: string, now: nat, required: nat, decision: Decision): nat {
    556 + |core| + |Quote(solution)| + |Quote(root)| + |Dec(now)| + |Dec(required)|
    + (if decision.selected.Some? then |Quote(decision.selected.value)| else 4) + (if decision.needed then 4 else 5)
  }

  function RequiredFor(sources: seq<Source>, decision: Decision): nat {
    if decision.needed && decision.selected.Some? then 2 * BytesUnder(sources, decision.selected.value) else 0
  }

  function CopiesFor(sources: seq<Source>, decision: Decision): (nat, nat) {
    if decision.needed && decision.selected.Some? then
      (CopiesCount(sources, decision.selected.value), CopiesTotal(sources, decision.selected.value))
    else (0, 0)
  }

  /** How long the plan of an inventory gets. */
  function PlanSize(
    core: string, solution: string, root: string, now: nat, sources: seq<Source>, decision: Decision): nat
  {
    var (count, total) := CopiesFor(sources, decision);
    FixedSize(core, solution, root, now, RequiredFor(sources, decision), decision)
    + BlockSize(count, total, 1) + BlockSize(|sources|, SourcesTotal(sources), 1)
  }

  predicate IsPlain(s: string) {
    forall c <- s :: ' ' <= c && c != '\"' && c != '\\'
  }

  lemma {:induction false} PlainQuote(s: string)
    requires IsPlain(s)
    ensures |Quote(s)| == |s| + 2
  {
    if s != "" {
      assert s[0] in s && EscapeChar(s[0]) == [s[0]];
      assert IsPlain(s[1..]) by { assert forall c <- s[1..] :: c in s; }
      PlainQuote(s[1..]);
    }
  }

  lemma {:induction false} QuoteIsLonger(s: string)
    ensures |s| + 2 <= |Quote(s)|
  {
    if s != "" { QuoteIsLonger(s[1..]); }
  }

  /** The header of every document the planner writes, by the lengths of its texts. */
  ghost predicate IsExpected(core: string, header: Header) {
    && header.core == core && |Dec(header.schemaVersion)| == 1 && |Dec(header.targetLayout)| == 1
    && |Quote(header.status)| == 7 && |Quote(header.scope)| == 24
  }

  lemma WordsArePlain(core: string, header: Header, status: string, scope: string)
    requires header == Header(1, status, scope, 2, core)
    requires status == "ready" && scope == "immutable_graph_import"
    ensures IsExpected(core, header)
  {
    assert |Quote(status)| == 7 by { PlainQuote(status); }
    assert |Quote(scope)| == 24 by { PlainQuote(scope); }
  }

  lemma HeadLength(core: string, d: Document)
    requires IsExpected(core, d.body.header)
    ensures Total(HeadFields(d)) == 105 && |HeadFields(d)| == 4
  {
    var f := HeadFields(d);
    TotalOfFour(f[0], f[1], f[2], f[3]);
    assert f == [f[0], f[1], f[2], f[3]];
  }

  function PlaceSize(b: Body): nat {
    75 + |Quote(b.solution)| + |Quote(b.root)| + |Dec(b.created)|
  }

  lemma PlaceLength(d: Document)
    requires d.body.ttl == 3600
    ensures |PlaceFields(d)| == 4
    ensures Total(PlaceFields(d)) == PlaceSize(d.body)
  {
    var f := PlaceFields(d);
    TotalOfFour(f[0], f[1], f[2], f[3]);
    assert f == [f[0], f[1], f[2], f[3]];
    assert |Dec(3600)| == 4 by {
      assert |Dec(3)| == 1 && |Dec(36)| == 2 && |Dec(360)| == 3;
    }
  }

  lemma DigestLength(h: Hexes, d: Document)
    requires AreHexes(h) && d.body.engine.Some?
    ensures |DigestFields(h, d)| == 3 && Total(DigestFields(h, d)) == 229
  {
    var f := DigestFields(h, d);
    TotalOfThree(f[0], f[1], f[2]);
    assert f == [f[0], f[1], f[2]];
  }

  function ChangesSize(b: Body, writes: seq<Write>): nat {
    55 + BlockSize(|writes|, WritesTotal(writes), 1) + |Dec(b.requiredBytes)| + |b.header.core|
  }

  lemma ChangeFieldsLength(h: Hexes, d: Document, writes: seq<Write>)
    requires AreHexes(h) && DescribeChanges(d.body.sources, writes) == Some(d.body.changes)
    ensures |ChangeFields(h, d)| == 3
    ensures Total(ChangeFields(h, d)) == ChangesSize(d.body, writes)
  {
    ChangesLength(h, d.body.sources, writes);
    BlockLength('[', ChangeTexts(h, d.body.changes), 1, ']');
    var f := ChangeFields(h, d);
    TotalOfThree(f[0], f[1], f[2]);
    assert f == [f[0], f[1], f[2]];
  }

  function SourcesSize(b: Body): nat {
    56 + BlockSize(|b.sources|, SourcesTotal(b.sources), 1)
    + (if b.selected.Some? then |Quote(b.selected.value)| else 4) + (if b.needed then 4 else 5)
  }

  lemma SourceFieldsLength(h: Hexes, d: Document)
    requires AreHexes(h)
    ensures |SourceFields(h, d)| == 3
    ensures Total(SourceFields(h, d)) == SourcesSize(d.body)
  {
    SourcesLength(h, d.body.sources);
    BlockLength('[', SourceTexts(h, d.body.sources), 1, ']');
    var f := SourceFields(h, d);
    TotalOfThree(f[0], f[1], f[2]);
    assert f == [f[0], f[1], f[2]];
  }

  lemma FiveLists(a: seq<string>, b: seq<string>, c: seq<string>, d: seq<string>, e: seq<string>)
    ensures |a + b + c + d + e| == |a| + |b| + |c| + |d| + |e|
    ensures Total(a + b + c + d + e) == Total(a) + Total(b) + Total(c) + Total(d) + Total(e)
  {
    TotalAppend(a, b);
    TotalAppend(a + b, c);
    TotalAppend(a + b + c, d);
    TotalAppend(a + b + c + d, e);
  }

  lemma MembersLength(h: Hexes, d: Document)
    ensures |Members(h, d)| == |HeadFields(d)| + |ChangeFields(h, d)| + |PlaceFields(d)| + |SourceFields(h, d)| + |DigestFields(h, d)|
    ensures Total(Members(h, d)) ==
            Total(HeadFields(d)) + Total(ChangeFields(h, d)) + Total(PlaceFields(d)) + Total(SourceFields(h, d))
            + Total(DigestFields(h, d))
  {
    FiveLists(HeadFields(d), ChangeFields(h, d), PlaceFields(d), SourceFields(h, d), DigestFields(h, d));
  }

  /** The length of the file, from the lengths of the lists in it. */
  lemma TextLength(core: string, h: Hexes, d: Document, writes: seq<Write>)
    requires AreHexes(h) && IsExpected(core, d.body.header) && d.body.ttl == 3600 && d.body.engine.Some?
    requires DescribeChanges(d.body.sources, writes) == Some(d.body.changes)
    ensures |DocumentText(h, d)| ==
            BlockSize(17, 334 + ChangesSize(d.body, writes) + PlaceSize(d.body) + SourcesSize(d.body), 0)
  {
    MembersLength(h, d);
    HeadLength(core, d);
    ChangeFieldsLength(h, d, writes);
    PlaceLength(d);
    SourceFieldsLength(h, d);
    DigestLength(h, d);
    BlockLength('{', Members(h, d), 0, '}');
  }

  lemma SizesAddUp(b: Body, writes: seq<Write>)
    ensures BlockSize(17, 334 + ChangesSize(b, writes) + PlaceSize(b) + SourcesSize(b), 0) ==
            FixedSize(b.header.core, b.solution, b.root, b.created, b.requiredBytes, Decision(b.selected, b.needed))
            + BlockSize(|writes|, WritesTotal(writes), 1) + BlockSize(|b.sources|, SourcesTotal(b.sources), 1)
  {
  }

  lemma DocumentLength(core: string, h: Hexes, d: Document, writes: seq<Write>)
    requires AreHexes(h) && IsExpected(core, d.body.header) && d.body.ttl == 3600 && d.body.engine.Some?
    requires DescribeChanges(d.body.sources, writes) == Some(d.body.changes)
    ensures var b := d.body;
            |DocumentText(h, d)| ==
            FixedSize(core, b.solution, b.root, b.created, b.requiredBytes, Decision(b.selected, b.needed))
            + BlockSize(|writes|, WritesTotal(writes), 1) + BlockSize(|b.sources|, SourcesTotal(b.sources), 1)
  {
    TextLength(core, h, d, writes);
    SizesAddUp(d.body, writes);
  }

  /** The length of an accepted document's file follows from its sources, its decision and
      its free fields. */
  lemma AcceptedLength(core: string, h: Hexes, d: Document)
    requires AreHexes(h) && Accepts(core, d) && d.body.ttl == 3600
    ensures var b := d.body;
            |DocumentText(h, d)| ==
            PlanSize(core, b.solution, b.root, b.created, b.sources, Decision(b.selected, b.needed))
  {
    WordsArePlain(core, d.body.header, d.body.header.status, d.body.header.scope);
    DocumentLength(core, h, d, MakeEngine(d.body).value.writes);
    CopiesAreCounted(d.body);
    RequiredIsCounted(d.body);
  }

  lemma RequiredIsCounted(b: Body)
    requires RequiredBytes(b).Some?
    ensures RequiredBytes(b).value == RequiredFor(b.sources, Decision(b.selected, b.needed))
  {
  }

  lemma CopiesAreCounted(b: Body)
    requires MakeEngine(b).Some?
    ensures (|MakeEngine(b).value.writes|, WritesTotal(MakeEngine(b).value.writes)) ==
            CopiesFor(b.sources, Decision(b.selected, b.needed))
  {
    if b.needed && b.selected.Some? {
      WritesAreRelocations(b);
      WritesTotalIgnoresOrder(MakeEngine(b).value.writes, Relocations(b.sources, b.selected.value));
      RelocationsTotal(b.sources, b.selected.value);
    } else {
      SortKeepsElements(WriteNotAfter, []);
    }
  }
}
