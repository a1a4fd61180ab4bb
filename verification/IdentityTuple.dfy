/** The identity tuple: a JSON array of strings, as `serde_json` writes it
    (sections 5 and 7 of RFC 8259), and a parser that undoes it. */
module IdentityTuple {
  import opened Prelude

  const HEX := "0123456789abcdef"

  /** Section 7: a quotation mark, a reverse solidus and the control characters
      are escaped, five of them with a short form; nothing else is. */
  function EscapeChar(c: char): (s: string)
    ensures s != "" && s[0] != '\"'
  {
    if c == '\"' then "\\\""
    else if c == '\\' then "\\\\"
    else if c == '\U{0008}' then "\\b"
    else if c == '\U{000C}' then "\\f"
    else if c == '\n' then "\\n"
    else if c == '\r' then "\\r"
    else if c == '\t' then "\\t"
    else if c < ' ' then "\\u00" + [HEX[c as int / 16], HEX[c as int % 16]]
    else [c]
  }

  function Escape(s: string): string {
    if s == "" then "" else EscapeChar(s[0]) + Escape(s[1..])
  }

  function Quote(s: string): string {
    "\"" + Escape(s) + "\""
  }

  function Elements(parts: seq<string>): string {
    if |parts| == 0 then "" else Quote(parts[0]) + if |parts| == 1 then "" else "," + Elements(parts[1..])
  }

  function Encode(parts: seq<string>): string {
    "[" + Elements(parts) + "]"
  }

  function HexValue(c: char): Option<nat> {
    if '0' <= c <= '9' then Some(c as int - '0' as int)
    else if 'a' <= c <= 'f' then Some(c as int - 'a' as int + 10)
    else if 'A' <= c <= 'F' then Some(c as int - 'A' as int + 10)
    else None
  }

  /** The code unit of four hex digits.  Surrogate pairs are not read. */
  function DecodeUnit(s: string): Option<char>
    requires |s| == 4
  {
    match (HexValue(s[0]), HexValue(s[1]), HexValue(s[2]), HexValue(s[3]))
    case (Some(a), Some(b), Some(c), Some(d)) =>
      var unit := ((a * 16 + b) * 16 + c) * 16 + d;
      if unit < 0xD800 then Some(unit as char) else None
    case _ => None
  }

  function Unescaped(c: char): Option<char> {
    match c
    case '\"' => Some('\"')
    case '\\' => Some('\\')
    case '/' => Some('/')
    case 'b' => Some('\U{0008}')
    case 'f' => Some('\U{000C}')
    case 'n' => Some('\n')
    case 'r' => Some('\r')
    case 't' => Some('\t')
    case _ => None
  }

  /** One character of a string body, and what follows it. */
  function DecodeChar(s: string): (r: Option<(char, string)>)
    ensures r.Some? ==> |r.value.1| < |s|
  {
    if s == "" || s[0] < ' ' then None
    else if s[0] != '\\' then Some((s[0], s[1..]))
    else if |s| >= 6 && s[1] == 'u' then
      var c := DecodeUnit(s[2..6]);
      if c.Some? then Some((c.value, s[6..])) else None
    else if |s| >= 2 then
      var c := Unescaped(s[1]);
      if c.Some? then Some((c.value, s[2..])) else None
    else None
  }

  /** The rest of a string after its opening quotation mark. */
  function DecodeBody(s: string): (r: Option<(string, string)>)
    ensures r.Some? ==> |r.value.1| < |s|
    decreases |s|
  {
    if s != "" && s[0] == '\"' then Some(("", s[1..]))
    else
      match DecodeChar(s)
      case None => None
      case Some((c, rest)) =>
        match DecodeBody(rest)
        case None => None
        case Some((t, after)) => Some(([c] + t, after))
  }

  /** The rest of an array after an element was announced. */
  function DecodeElements(s: string): Option<seq<string>>
    decreases |s|
  {
    if s == "" || s[0] != '\"' then None
    else
      match DecodeBody(s[1..])
      case None => None
      case Some((first, rest)) =>
        if rest == "]" then Some([first])
        else if rest == "" || rest[0] != ',' then None
        else
          match DecodeElements(rest[1..])
          case None => None
          case Some(others) => Some([first] + others)
  }

  function Decode(s: string): Option<seq<string>> {
    if s == "[]" then Some([])
    else if s == "" || s[0] != '[' then None
    else DecodeElements(s[1..])
  }

  lemma CharRoundTrip(c: char, rest: string)
    ensures DecodeChar(EscapeChar(c) + rest) == Some((c, rest))
  {
    var s := EscapeChar(c) + rest;
    if c < ' ' && |EscapeChar(c)| == 6 {
      assert s[2..6] == ['0', '0', HEX[c as int / 16], HEX[c as int % 16]];
      assert s[6..] == rest;
    } else if |EscapeChar(c)| == 2 {
      assert s[2..] == rest;
    } else {
      assert s[1..] == rest;
    }
  }

  lemma {:induction false} BodyRoundTrip(s: string, rest: string)
    ensures DecodeBody(Escape(s) + "\"" + rest) == Some((s, rest))
  {
    if s == "" {
      assert ("" + "\"" + rest)[1..] == rest;
    } else {
      var tail := Escape(s[1..]) + "\"" + rest;
      assert Escape(s) + "\"" + rest == EscapeChar(s[0]) + tail;
      CharRoundTrip(s[0], tail);
      BodyRoundTrip(s[1..], rest);
      assert (EscapeChar(s[0]) + tail)[0] == EscapeChar(s[0])[0];
      assert [s[0]] + s[1..] == s;
    }
  }

  lemma {:induction false} ElementsRoundTrip(parts: seq<string>)
    requires parts != []
    ensures DecodeElements(Elements(parts) + "]") == Some(parts)
  {
    if |parts| == 1 {
      ElementDecodes(parts[0], "]");
      assert Elements(parts) + "]" == Quote(parts[0]) + "]";
      assert [parts[0]] == parts;
    } else {
      var rest := "," + (Elements(parts[1..]) + "]");
      ElementDecodes(parts[0], rest);
      assert Elements(parts) + "]" == Quote(parts[0]) + rest;
      assert rest[1..] == Elements(parts[1..]) + "]";
      ElementsRoundTrip(parts[1..]);
      assert Elements(parts[1..])[0] == '\"';
      assert [parts[0]] + parts[1..] == parts;
    }
  }

  lemma ElementDecodes(part: string, rest: string)
    ensures (Quote(part) + rest)[0] == '\"'
    ensures DecodeBody((Quote(part) + rest)[1..]) == Some((part, rest))
  {
    assert (Quote(part) + rest)[1..] == Escape(part) + "\"" + rest;
    BodyRoundTrip(part, rest);
  }

  /** The parser undoes the writer, for every list of strings. */
  lemma RoundTrip(parts: seq<string>)
    ensures Decode(Encode(parts)) == Some(parts)
  {
    if parts == [] {
      assert Encode(parts) == "[]";
    } else {
      assert Encode(parts)[1..] == Elements(parts) + "]";
      ElementsRoundTrip(parts);
      assert Encode(parts)[1] == '\"';
    }
  }

  /** Distinct tuples have distinct bytes: no concatenation ambiguity. */
  lemma EncodeIsInjective(a: seq<string>, b: seq<string>)
    requires Encode(a) == Encode(b)
    ensures a == b
  {
    RoundTrip(a);
    RoundTrip(b);
  }
}
