/** The JSON texts the script keeps in the store: `JSON.stringify` of strings, of the saved
    task order (an array of task ids), and of the small objects written for progress and the
    signed-in user; and `JSON.parse` of the saved task order. */
module Json {
  import opened Wrappers
  import opened JsNumbers

  /** Lower-case hexadecimal digit, as `JSON.stringify` writes in a \u escape. */
  function HexChar(d: nat): (c: char)
    requires d < 16
    ensures IsHexDigit(c) && HexDigitValue(c) == d
  {
    if d < 10 then DigitChar(d) else ('a' as int + d - 10) as char
  }

  /** How `JSON.stringify` writes one character inside a string literal. */
  function EscapeChar(c: char): string {
    if c == '"' then "\\\""
    else if c == '\\' then "\\\\"
    else if c as int == 0x08 then "\\b"
    else if c == '\t' then "\\t"
    else if c == '\n' then "\\n"
    else if c as int == 0x0C then "\\f"
    else if c == '\r' then "\\r"
    else if c as int < 0x20 then "\\u00" + [HexChar(c as int / 16), HexChar(c as int % 16)]
    else [c]
  }

  function Escape(s: string): string
    decreases |s|
  {
    if s == [] then [] else EscapeChar(s[0]) + Escape(s[1..])
  }

  /** `JSON.stringify(s)` for a string `s`. */
  function Quote(s: string): string {
    "\"" + Escape(s) + "\""
  }

  /** The character denoted by an escape sequence, given the text after its backslash, and
      how many characters of that text the escape uses. A \u escape that names half of a
      surrogate pair is refused. */
  function Unescape(t: string): (r: Option<(char, nat)>)
    ensures r.Some? ==> 1 <= r.value.1 <= |t|
  {
    if t == [] then None
    else if t[0] == '"' || t[0] == '\\' || t[0] == '/' then Some((t[0], 1))
    else if t[0] == 'b' then Some((0x08 as char, 1))
    else if t[0] == 'f' then Some((0x0C as char, 1))
    else if t[0] == 'n' then Some(('\n', 1))
    else if t[0] == 'r' then Some(('\r', 1))
    else if t[0] == 't' then Some(('\t', 1))
    else if t[0] == 'u' && |t| >= 5 && IsHexDigit(t[1]) && IsHexDigit(t[2]) && IsHexDigit(t[3]) && IsHexDigit(t[4]) then
      var code := HexDigitValue(t[1]) * 4096 + HexDigitValue(t[2]) * 256 + HexDigitValue(t[3]) * 16 + HexDigitValue(t[4]);
      if 0xD800 <= code < 0xE000 then None else Some((code as char, 5))
    else None
  }

  /** Reads the body of a string literal up to its closing quote; gives the string and the
      text after the quote. */
  function ParseStringBody(s: string): (r: Option<(string, string)>)
    ensures r.Some? ==> |r.value.1| < |s|
    decreases |s|
  {
    if s == [] then None
    else if s[0] == '"' then Some(([], s[1..]))
    else if s[0] == '\\' then
      match Unescape(s[1..])
      case None => None
      case Some((c, n)) =>
        match ParseStringBody(s[1 + n..])
        case None => None
        case Some((v, rest)) => Some(([c] + v, rest))
    else if s[0] as int < 0x20 then None
    else
      match ParseStringBody(s[1..])
      case None => None
      case Some((v, rest)) => Some(([s[0]] + v, rest))
  }

  lemma ParseEscapedChar(c: char, more: string, v: string, rest: string)
    requires ParseStringBody(more) == Some((v, rest))
    ensures ParseStringBody(EscapeChar(c) + more) == Some(([c] + v, rest))
  {
    if c == '"' || c == '\\' || c as int == 0x08 || c == '\t' || c == '\n' || c as int == 0x0C || c == '\r' {
      ParseShortEscape(c, more, v, rest);
    } else if c as int < 0x20 {
      ParseUnicodeEscape(c, more, v, rest);
    } else {
      assert (EscapeChar(c) + more)[1..] == more;
    }
  }

  /** A character written as a backslash and one letter reads back. */
  lemma ParseShortEscape(c: char, more: string, v: string, rest: string)
    requires c == '"' || c == '\\' || c as int == 0x08 || c == '\t' || c == '\n' || c as int == 0x0C || c == '\r'
    requires ParseStringBody(more) == Some((v, rest))
    ensures ParseStringBody(EscapeChar(c) + more) == Some(([c] + v, rest))
  {
    var s := EscapeChar(c) + more;
    assert s[0] == '\\' && |EscapeChar(c)| == 2;
    assert Unescape(s[1..]) == Some((c, 1));
    assert s[1 + 1..] == more;
  }

  /** A control character written as a \u escape reads back. */
  lemma ParseUnicodeEscape(c: char, more: string, v: string, rest: string)
    requires c as int < 0x20 && c as int != 0x08 && c != '\t' && c != '\n' && c as int != 0x0C && c != '\r'
    requires ParseStringBody(more) == Some((v, rest))
    ensures ParseStringBody(EscapeChar(c) + more) == Some(([c] + v, rest))
  {
    var s := EscapeChar(c) + more;
    var t := s[1..];
    assert t[0] == 'u' && t[1] == '0' && t[2] == '0';
    assert Unescape(t) == Some((c, 5));
    assert s[1 + 5..] == more;
  }


  /** Escaping and parsing a string literal body are inverse, whatever follows the literal. */
  lemma {:induction false} ParseStringBodyOfEscape(v: string, rest: string)
    ensures ParseStringBody(Escape(v) + "\"" + rest) == Some((v, rest))
    decreases |v|
  {
    if v == [] {
      assert Escape(v) + "\"" + rest == "\"" + rest;
    } else {
      ParseStringBodyOfEscape(v[1..], rest);
      ParseEscapedChar(v[0], Escape(v[1..]) + "\"" + rest, v[1..], rest);
      EscapeQuotedSplit(v, rest);
      assert [v[0]] + v[1..] == v;
    }
  }

  lemma EscapeQuotedSplit(v: string, rest: string)
    requires v != []
    ensures Escape(v) + "\"" + rest == EscapeChar(v[0]) + (Escape(v[1..]) + "\"" + rest)
  {
    var e, q := Escape(v[1..]), "\"";
    assert Escape(v) == EscapeChar(v[0]) + e;
    Regroup(EscapeChar(v[0]), e, q, rest);
    assert e + q + rest == e + (q + rest);
  }

  /** The text after `p`, when the text starts with it. */
  function Expect(p: string, s: string): (r: Option<string>)
    ensures r.Some? <==> p <= s
    ensures r.Some? ==> s == p + r.value
  {
    if p <= s then Some(s[|p|..]) else None
  }

  lemma ExpectOf(p: string, rest: string)
    ensures Expect(p, p + rest) == Some(rest)
  {
    assert (p + rest)[|p|..] == rest;
  }

  /** A JSON string at the front of the text: its value and the text after it. */
  function ParseString(s: string): (r: Option<(string, string)>)
    ensures r.Some? ==> |r.value.1| < |s|
  {
    if s != [] && s[0] == '"' then ParseStringBody(s[1..]) else None
  }

  lemma ParseStringOfQuote(x: string, rest: string)
    ensures ParseString(Quote(x) + rest) == Some((x, rest))
  {
    var s := Quote(x) + rest;
    assert s[1..] == Escape(x) + "\"" + rest;
    ParseStringBodyOfEscape(x, rest);
  }

  /** A JSON boolean at the front of the text: its value and the text after it. */
  function ParseBool(s: string): (r: Option<(bool, string)>)
    ensures r.Some? ==> |r.value.1| < |s|
  {
    if "true" <= s then Some((true, s[4..]))
    else if "false" <= s then Some((false, s[5..]))
    else None
  }

  lemma ParseBoolOfText(b: bool, rest: string)
    ensures ParseBool(BoolText(b) + rest) == Some((b, rest))
  {
    var s := BoolText(b) + rest;
    if b {
      assert s[..4] == "true" && s[4..] == rest;
    } else {
      assert s[3] == 's';
      assert s[..5] == "false" && s[5..] == rest;
    }
  }

  /** Texts joined with commas, as `JSON.stringify` separates array elements and object members. */
  function Join(items: seq<string>): string
    decreases |items|
  {
    if items == [] then ""
    else if |items| == 1 then items[0]
    else items[0] + "," + Join(items[1..])
  }

  function QuoteAll(xs: seq<string>): (r: seq<string>)
    ensures |r| == |xs|
    decreases |xs|
  {
    if xs == [] then [] else [Quote(xs[0])] + QuoteAll(xs[1..])
  }

  /** `JSON.stringify` of an array, given its already-encoded elements. */
  function ArrayText(items: seq<string>): string {
    "[" + Join(items) + "]"
  }

  /** `JSON.stringify` of an array of strings. */
  function EncodeStrings(xs: seq<string>): string {
    ArrayText(QuoteAll(xs))
  }

  /** `JSON.stringify` of an object, given each member's name and its already-encoded value.
      The script's member names are plain identifiers, which need no escaping. */
  function ObjectText(members: seq<(string, string)>): string {
    "{" + Join(MemberTexts(members)) + "}"
  }

  function MemberTexts(members: seq<(string, string)>): seq<string>
    decreases |members|
  {
    if members == [] then [] else ["\"" + members[0].0 + "\":" + members[0].1] + MemberTexts(members[1..])
  }

  /** An object of three members written out, followed by the text after it. */
  lemma ObjectText3(a: string, x: string, b: string, y: string, c: string, z: string, rest: string)
    ensures ObjectText([(a, x), (b, y), (c, z)]) + rest ==
      ("{\"" + a + "\":") + (x + ((",\"" + b + "\":") + (y + ((",\"" + c + "\":") + (z + ("}" + rest))))))
  {
    var ms := [(a, x), (b, y), (c, z)];
    var m0, m1, m2 := "\"" + a + "\":" + x, "\"" + b + "\":" + y, "\"" + c + "\":" + z;
    assert ms[1..] == [(b, y), (c, z)] && ms[1..][1..] == [(c, z)] && ms[1..][1..][1..] == [];
    assert MemberTexts(ms[1..][1..]) == [m2];
    assert MemberTexts(ms[1..]) == [m1, m2];
    assert MemberTexts(ms) == [m0, m1, m2];
    assert [m0, m1, m2][1..] == [m1, m2] && [m1, m2][1..] == [m2];
    assert Join([m1, m2]) == m1 + "," + m2;
    assert Join([m0, m1, m2]) == m0 + "," + (m1 + "," + m2);
    calc {
      ObjectText(ms) + rest;
      "{" + (m0 + "," + (m1 + "," + m2)) + "}" + rest;
      { Regroup("{", m0 + "," + (m1 + "," + m2), "}", rest); }
      "{" + ((m0 + "," + (m1 + "," + m2)) + ("}" + rest));
      { Regroup(m0, ",", m1 + "," + m2, "}" + rest); }
      "{" + (m0 + ("," + ((m1 + "," + m2) + ("}" + rest))));
      { Regroup(m1, ",", m2, "}" + rest); }
      "{" + (m0 + ("," + (m1 + ("," + (m2 + ("}" + rest))))));
      { Regroup("\"", a, "\":", x); }
      ("{\"" + a + "\":") + (x + ("," + (m1 + ("," + (m2 + ("}" + rest))))));
      { Regroup("\"", b, "\":", y); }
      ("{\"" + a + "\":") + (x + ((",\"" + b + "\":") + (y + ("," + (m2 + ("}" + rest))))));
      { Regroup("\"", c, "\":", z); }
      ("{\"" + a + "\":") + (x + ((",\"" + b + "\":") + (y + ((",\"" + c + "\":") + (z + ("}" + rest))))));
    }
  }

  /** `JSON.stringify` of a boolean. */
  function BoolText(b: bool): string {
    if b then "true" else "false"
  }

  /** The elements of a string array after its opening bracket, up to the closing bracket
      that must end the text. */
  function ParseItems(s: string): Option<seq<string>>
    decreases |s|
  {
    if s == [] || s[0] != '"' then None
    else
      match ParseStringBody(s[1..])
      case None => None
      case Some((v, rest)) =>
        if rest == "]" then Some([v])
        else if rest != [] && rest[0] == ',' then
          match ParseItems(rest[1..])
          case None => None
          case Some(vs) => Some([v] + vs)
        else None
  }

  /** `JSON.parse` of a text that holds an array of strings in the compact form
      `JSON.stringify` writes; None for any other text. */
  function DecodeStrings(s: string): Option<seq<string>> {
    if s == "[]" then Some([])
    else if s != [] && s[0] == '[' then ParseItems(s[1..])
    else None
  }

  lemma ParseItemsStep(x: string, tail: string)
    ensures ParseItems("\"" + Escape(x) + "\"" + tail)
         == if tail == "]" then Some([x])
            else if tail != [] && tail[0] == ',' then
              match ParseItems(tail[1..]) case None => None case Some(vs) => Some([x] + vs)
            else None
  {
    var s := "\"" + Escape(x) + "\"" + tail;
    assert s[1..] == Escape(x) + "\"" + tail;
    ParseStringBodyOfEscape(x, tail);
  }

  lemma {:induction false} ParseItemsOfJoin(xs: seq<string>)
    requires xs != []
    ensures ParseItems(Join(QuoteAll(xs)) + "]") == Some(xs)
    decreases |xs|
  {
    if |xs| == 1 {
      var q := QuoteAll(xs);
      assert Join(q) + "]" == "\"" + Escape(xs[0]) + "\"" + "]" by {
        assert q == [Quote(xs[0])];
      }
      ParseItemsStep(xs[0], "]");
      assert [xs[0]] == xs;
    } else {
      var more := Join(QuoteAll(xs[1..])) + "]";
      var tail := "," + more;
      JoinSplit(xs);
      assert ParseItems(tail[1..]) == Some(xs[1..]) by {
        assert tail[1..] == more;
        ParseItemsOfJoin(xs[1..]);
      }
      ParseItemsStep(xs[0], tail);
      assert [xs[0]] + xs[1..] == xs;
    }
  }

  lemma JoinSplit(xs: seq<string>)
    requires |xs| > 1
    ensures Join(QuoteAll(xs)) + "]" == "\"" + Escape(xs[0]) + "\"" + ("," + (Join(QuoteAll(xs[1..])) + "]"))
  {
    var q, quoted, rest := QuoteAll(xs), Quote(xs[0]), Join(QuoteAll(xs[1..]));
    assert Join(q) == quoted + "," + rest by {
      assert q[0] == quoted && q[1..] == QuoteAll(xs[1..]);
    }
    Regroup(quoted, ",", rest, "]");
  }

  lemma Regroup(a: string, b: string, c: string, d: string)
    ensures a + b + c + d == a + (b + (c + d))
  {
  }

  /** A saved order reads back as the very ids that were written. */
  lemma DecodeEncodeStrings(xs: seq<string>)
    ensures DecodeStrings(EncodeStrings(xs)) == Some(xs)
  {
    if xs != [] {
      var s := EncodeStrings(xs);
      ParseItemsOfJoin(xs);
      assert Join(QuoteAll(xs))[0] == '"' by {
        if |xs| > 1 {
          assert QuoteAll(xs)[0] == Quote(xs[0]);
        }
      }
      assert s[1..] == Join(QuoteAll(xs)) + "]";
    }
  }
}
