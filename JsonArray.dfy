/**
  `JSON.parse` as the poll parser uses it: on a text that should hold a JSON
  array of string literals (RFC 8259). `Decode` gives the strings, or `None`
  where `JSON.parse` would throw. `Encode` writes such an array back as
  text, and `DecodeEncode` proves the two agree.
*/
module JsonArray {
  import opened Wrappers
  import opened JsText

  /** Insignificant whitespace between JSON tokens (section 2 of RFC 8259). */
  predicate IsJsonWs(c: char) {
    c == ' ' || c == '\t' || c == '\n' || c == '\r'
  }

  function SkipWs(s: string): (r: string)
    ensures |r| <= |s| && r == s[|s| - |r|..]
    ensures r == [] || !IsJsonWs(r[0])
  {
    if s != [] && IsJsonWs(s[0]) then SkipWs(s[1..]) else s
  }

  function HexValue(c: char): (r: Option<nat>)
    ensures r.Some? ==> r.value < 16
  {
    if '0' <= c <= '9' then Some(c as int - '0' as int)
    else if 'a' <= c <= 'f' then Some(c as int - 'a' as int + 10)
    else if 'A' <= c <= 'F' then Some(c as int - 'A' as int + 10)
    else None
  }

  /** The four hex digits that follow `\u`, read as one UTF-16 code unit. */
  function Hex4(s: string): (r: Option<nat>)
    ensures r.Some? ==> |s| >= 4 && r.value < 0x1_0000
  {
    if |s| < 4 then None
    else match (HexValue(s[0]), HexValue(s[1]), HexValue(s[2]), HexValue(s[3]))
      case (Some(a), Some(b), Some(c), Some(d)) => Some(((a * 16 + b) * 16 + c) * 16 + d)
      case _ => None
  }

  predicate IsHighSurrogate(n: int) { 0xD800 <= n <= 0xDBFF }

  predicate IsLowSurrogate(n: int) { 0xDC00 <= n <= 0xDFFF }

  /**
    The escape sequence after a backslash inside a string literal: the
    character it stands for and the text after it. A `\u` escape of a
    surrogate must be the first half of a `\uXXXX\uXXXX` pair.
  */
  function Unescape(s: string): (r: Option<(char, string)>)
    ensures r.Some? ==> |r.value.1| < |s|
  {
    if s == [] then None
    else match s[0]
      case '"' => Some(('"', s[1..]))
      case '\\' => Some(('\\', s[1..]))
      case '/' => Some(('/', s[1..]))
      case 'b' => Some(('\U{8}', s[1..]))
      case 'f' => Some(('\U{C}', s[1..]))
      case 'n' => Some(('\n', s[1..]))
      case 'r' => Some(('\r', s[1..]))
      case 't' => Some(('\t', s[1..]))
      case 'u' => (
        match Hex4(s[1..])
        case None => None
        case Some(hi) =>
          if IsLowSurrogate(hi) then None
          else if !IsHighSurrogate(hi) then Some((hi as char, s[5..]))
          else if |s| >= 7 && s[5] == '\\' && s[6] == 'u' then
            match Hex4(s[7..])
            case None => None
            case Some(lo) =>
              if IsLowSurrogate(lo) then Some(((0x1_0000 + (hi - 0xD800) * 0x400 + (lo - 0xDC00)) as char, s[11..]))
              else None
          else None
      )
      case _ => None
  }

  /** The characters of a string literal after its opening quote, up to and including the closing quote. */
  function StringBody(s: string): (r: Option<(string, string)>)
    ensures r.Some? ==> |r.value.1| < |s|
    decreases |s|
  {
    if s == [] then None
    else if s[0] == '"' then Some(([], s[1..]))
    else if s[0] == '\\' then
      match Unescape(s[1..])
      case None => None
      case Some((c, rest)) =>
        match StringBody(rest)
        case None => None
        case Some((t, rest')) => Some(([c] + t, rest'))
    else if s[0] < ' ' then None
    else
      match StringBody(s[1..])
      case None => None
      case Some((t, rest)) => Some(([s[0]] + t, rest))
  }

  /** One or more string literals separated by commas and closed by `]`; `s` starts after any whitespace. */
  function Elements(s: string): (r: Option<(seq<string>, string)>)
    ensures r.Some? ==> |r.value.1| < |s|
    decreases |s|
  {
    if s == [] || s[0] != '"' then None
    else
      match StringBody(s[1..])
      case None => None
      case Some((x, rest)) =>
        var t := SkipWs(rest);
        if t == [] then None
        else if t[0] == ']' then Some(([x], t[1..]))
        else if t[0] == ',' then
          match Elements(SkipWs(t[1..]))
          case None => None
          case Some((xs, rest')) => Some(([x] + xs, rest'))
        else None
  }

  /**
    `JSON.parse(s)` for a text that holds an array of string literals and
    nothing else but whitespace; `None` where `JSON.parse` throws.
  */
  function Decode(s: string): (r: Option<seq<string>>)
    ensures r.Some? ==> '[' in s
  {
    var t := SkipWs(s);
    assert t != [] ==> s[|s| - |t|] == t[0];
    if t == [] || t[0] != '[' then None else ArrayContents(SkipWs(t[1..]))
  }

  /** What follows the opening `[` and any whitespace: `]` alone, or elements; then only whitespace. */
  function ArrayContents(u: string): Option<seq<string>>
  {
    if u != [] && u[0] == ']' then
      if SkipWs(u[1..]) == [] then Some([]) else None
    else
      match Elements(u)
      case None => None
      case Some((xs, rest)) => if SkipWs(rest) == [] then Some(xs) else None
  }

  // ---------------------------------------------------------------------
  // The encoder: the array text a generation reply is asked to contain.

  function HexDigit(d: nat): (c: char)
    requires d < 16
    ensures HexValue(c) == Some(d)
    ensures '0' <= c <= '9' || 'a' <= c <= 'f'
  {
    if d < 10 then ('0' as int + d) as char else ('a' as int + d - 10) as char
  }

  function Hex4Text(n: nat): (r: string)
    requires n < 0x1_0000
    ensures |r| == 4
  {
    var q1 := n / 16;
    var q2 := q1 / 16;
    [HexDigit(q2 / 16), HexDigit(q2 % 16), HexDigit(q1 % 16), HexDigit(n % 16)]
  }

  /** Characters written as `\uXXXX`: the control characters JSON forbids raw, and the two Unicode line separators, so that an encoded array stays on one line. */
  predicate NeedsUnicodeEscape(c: char) {
    c < ' ' || c == '\U{2028}' || c == '\U{2029}'
  }

  function EscapeChar(c: char): string {
    if c == '"' || c == '\\' then ['\\', c]
    else if NeedsUnicodeEscape(c) then "\\u" + Hex4Text(c as int)
    else [c]
  }

  function Escape(x: string): string {
    if x == [] then [] else EscapeChar(x[0]) + Escape(x[1..])
  }

  function Quote(x: string): string {
    "\"" + Escape(x) + "\""
  }

  function JoinQuoted(xs: seq<string>): string
    requires xs != []
  {
    if |xs| == 1 then Quote(xs[0]) else Quote(xs[0]) + "," + JoinQuoted(xs[1..])
  }

  /** The JSON array text of `xs`, as in `["Option 1","Option 2"]`. */
  function Encode(xs: seq<string>): (r: string)
    ensures |r| >= 2 && r[0] == '[' && r[|r| - 1] == ']'
  {
    if xs == [] then "[]" else "[" + JoinQuoted(xs) + "]"
  }

  // ---------------------------------------------------------------------
  // Round trip.

  lemma Hex4RoundTrip(n: nat, rest: string)
    requires n < 0x1_0000
    ensures Hex4(Hex4Text(n) + rest) == Some(n)
  {
    var q1 := n / 16;
    var q2 := q1 / 16;
    var s := Hex4Text(n) + rest;
    assert s[0] == HexDigit(q2 / 16) && s[1] == HexDigit(q2 % 16);
    assert s[2] == HexDigit(q1 % 16) && s[3] == HexDigit(n % 16);
    assert n == q1 * 16 + n % 16 && q1 == q2 * 16 + q1 % 16 && q2 == (q2 / 16) * 16 + q2 % 16;
  }

  lemma EscapeCharStep(c: char, rest: string)
    ensures StringBody(EscapeChar(c) + rest) ==
      match StringBody(rest)
      case None => None
      case Some((t, r)) => Some(([c] + t, r))
  {
    if c == '"' || c == '\\' {
      ShortEscape(c, rest);
      BackslashStep(EscapeChar(c) + rest, c, rest);
    } else if NeedsUnicodeEscape(c) {
      UnicodeEscape(c, rest);
      BackslashStep(EscapeChar(c) + rest, c, rest);
    } else {
      PlainStep(c, rest);
    }
  }

  /** A backslash and an escape that stands for `c`: the literal continues after the escape. */
  lemma BackslashStep(s: string, c: char, rest: string)
    requires s != [] && s[0] == '\\' && Unescape(s[1..]) == Some((c, rest))
    ensures StringBody(s) ==
      match StringBody(rest)
      case None => None
      case Some((t, r)) => Some(([c] + t, r))
  {
  }

  lemma ShortEscape(c: char, rest: string)
    requires c == '"' || c == '\\'
    ensures (EscapeChar(c) + rest)[0] == '\\'
    ensures Unescape((EscapeChar(c) + rest)[1..]) == Some((c, rest))
  {
    var u := (EscapeChar(c) + rest)[1..];
    assert u == [c] + rest;
    assert u[1..] == rest;
  }

  lemma UnicodeEscape(c: char, rest: string)
    requires NeedsUnicodeEscape(c)
    ensures (EscapeChar(c) + rest)[0] == '\\'
    ensures Unescape((EscapeChar(c) + rest)[1..]) == Some((c, rest))
  {
    var u := (EscapeChar(c) + rest)[1..];
    assert u == "u" + Hex4Text(c as int) + rest;
    assert u[1..] == Hex4Text(c as int) + rest;
    Hex4RoundTrip(c as int, rest);
    UnescapeUnit(u, c as int);
    assert u[5..] == rest;
  }

  /** `\uXXXX` naming a code unit that is not a surrogate stands for that character. */
  lemma UnescapeUnit(u: string, n: nat)
    requires u != [] && u[0] == 'u' && Hex4(u[1..]) == Some(n)
    requires !IsHighSurrogate(n) && !IsLowSurrogate(n)
    ensures Unescape(u) == Some((n as char, u[5..]))
  {
  }

  lemma PlainStep(c: char, rest: string)
    requires c != '"' && c != '\\' && !NeedsUnicodeEscape(c)
    ensures StringBody(EscapeChar(c) + rest) ==
      match StringBody(rest)
      case None => None
      case Some((t, r)) => Some(([c] + t, r))
  {
    assert EscapeChar(c) + rest == [c] + rest;
    assert ([c] + rest)[1..] == rest;
  }

  lemma {:induction false} StringBodyRoundTrip(x: string, rest: string)
    ensures StringBody(Escape(x) + "\"" + rest) == Some((x, rest))
  {
    if x == [] {
      assert Escape(x) + "\"" + rest == "\"" + rest;
    } else {
      assert Escape(x) + "\"" + rest == EscapeChar(x[0]) + (Escape(x[1..]) + "\"" + rest);
      StringBodyRoundTrip(x[1..], rest);
      EscapeCharStep(x[0], Escape(x[1..]) + "\"" + rest);
      assert [x[0]] + x[1..] == x;
    }
  }

  lemma QuoteThen(x: string, after: string)
    ensures (Quote(x) + after)[0] == '"'
    ensures StringBody((Quote(x) + after)[1..]) == Some((x, after))
  {
    var body := Escape(x) + "\"" + after;
    assert Quote(x) + after == "\"" + body;
    assert (Quote(x) + after)[1..] == body;
    StringBodyRoundTrip(x, after);
  }

  /** A string literal followed by `]` is a list of one element. */
  lemma ElementsClose(s: string, x: string, after: string)
    requires s != [] && s[0] == '"' && StringBody(s[1..]) == Some((x, after))
    requires after != [] && after[0] == ']'
    ensures Elements(s) == Some(([x], after[1..]))
  {
    SkipWsNone(after);
  }

  /** A string literal followed by `,` and another literal starts a longer list. */
  lemma ElementsStep(s: string, x: string, after: string)
    requires s != [] && s[0] == '"' && StringBody(s[1..]) == Some((x, after))
    requires |after| >= 2 && after[0] == ',' && after[1] == '"'
    ensures Elements(s) ==
      match Elements(after[1..])
      case None => None
      case Some((xs, rest)) => Some(([x] + xs, rest))
  {
    SkipWsNone(after);
    SkipWsNone(after[1..]);
  }

  lemma HeadTail<T>(xs: seq<T>)
    requires xs != []
    ensures [xs[0]] + xs[1..] == xs
  {
  }

  lemma Singleton<T>(xs: seq<T>)
    requires |xs| == 1
    ensures [xs[0]] == xs
  {
  }

  lemma Regroup(a: string, b: string, c: string, d: string)
    ensures a + b + c + d == a + (b + (c + d))
  {
  }

  lemma {:induction false} ElementsRoundTrip(xs: seq<string>, after: string)
    requires xs != [] && after != [] && after[0] == ']'
    ensures Elements(JoinQuoted(xs) + after) == Some((xs, after[1..]))
  {
    if |xs| == 1 {
      ElementsSingle(xs, after);
    } else {
      ElementsRoundTrip(xs[1..], after);
      ElementsJoin(xs, after);
    }
  }

  lemma ElementsSingle(xs: seq<string>, after: string)
    requires |xs| == 1 && after != [] && after[0] == ']'
    ensures Elements(JoinQuoted(xs) + after) == Some((xs, after[1..]))
  {
    assert JoinQuoted(xs) == Quote(xs[0]);
    QuoteThen(xs[0], after);
    ElementsClose(Quote(xs[0]) + after, xs[0], after);
    Singleton(xs);
  }

  lemma ElementsJoin(xs: seq<string>, after: string)
    requires |xs| > 1 && after != [] && after[0] == ']'
    requires Elements(JoinQuoted(xs[1..]) + after) == Some((xs[1..], after[1..]))
    ensures Elements(JoinQuoted(xs) + after) == Some((xs, after[1..]))
  {
    var inner := JoinQuoted(xs[1..]) + after;
    var rest := "," + inner;
    JoinQuotedStart(xs[1..]);
    assert |rest| >= 2 && rest[0] == ',' && rest[1] == '"' && rest[1..] == inner;
    Regroup(Quote(xs[0]), ",", JoinQuoted(xs[1..]), after);
    assert JoinQuoted(xs) + after == Quote(xs[0]) + rest;
    QuoteThen(xs[0], rest);
    ElementsStep(Quote(xs[0]) + rest, xs[0], rest);
    HeadTail(xs);
  }

  lemma DecodeStep(s: string, xs: seq<string>)
    requires s != [] && s[0] == '['
    requires s[1..] != [] && s[1..][0] == '"'
    requires Elements(s[1..]) == Some((xs, ""))
    ensures Decode(s) == Some(xs)
  {
    SkipWsNone(s);
    SkipWsNone(s[1..]);
    SkipWsNone("");
  }

  lemma JoinQuotedStart(xs: seq<string>)
    requires xs != []
    ensures JoinQuoted(xs) != [] && JoinQuoted(xs)[0] == '"'
  {
  }

  lemma SkipWsNone(s: string)
    requires s == [] || !IsJsonWs(s[0])
    ensures SkipWs(s) == s
  {
  }

  lemma DecodeEmpty()
    ensures Decode("[]") == Some([])
  {
    var s := "[]";
    DecodeArray(s);
    assert s[1..] == "]";
    SkipWsNone(s[1..]);
    CloseOnly(s[1..]);
  }

  /** A text that starts with `[` is decoded from what follows the bracket and any whitespace. */
  lemma DecodeArray(s: string)
    requires s != [] && s[0] == '['
    ensures Decode(s) == ArrayContents(SkipWs(s[1..]))
  {
    SkipWsNone(s);
  }

  lemma CloseOnly(u: string)
    requires u == "]"
    ensures ArrayContents(u) == Some([])
  {
    assert u[1..] == [];
    SkipWsNone(u[1..]);
  }

  lemma DecodeNonEmpty(xs: seq<string>)
    requires xs != []
    ensures Decode("[" + JoinQuoted(xs) + "]") == Some(xs)
  {
    var s := "[" + JoinQuoted(xs) + "]";
    assert s[1..] == JoinQuoted(xs) + "]";
    ElementsRoundTrip(xs, "]");
    assert "]"[1..] == "";
    JoinQuotedStart(xs);
    DecodeStep(s, xs);
  }

  /** Decoding inverts encoding: a well-formed array of string literals decodes to exactly its strings. */
  lemma DecodeEncode(xs: seq<string>)
    ensures Decode(Encode(xs)) == Some(xs)
  {
    if xs == [] {
      DecodeEmpty();
    } else {
      DecodeNonEmpty(xs);
    }
  }

  // ---------------------------------------------------------------------
  // Encoded arrays stay on one line, which is what `/\[.*\]/` needs.

  lemma OnOneLineConcat(a: string, b: string)
    requires OnOneLine(a) && OnOneLine(b)
    ensures OnOneLine(a + b)
  {
    forall k | 0 <= k < |a + b|
      ensures !IsLineTerminator((a + b)[k])
    {
      if k >= |a| {
        assert (a + b)[k] == b[k - |a|];
      }
    }
  }

  lemma {:induction false} EscapeOnOneLine(x: string)
    ensures OnOneLine(Escape(x))
  {
    if x != [] {
      EscapeOnOneLine(x[1..]);
      EscapeCharOnOneLine(x[0]);
      OnOneLineConcat(EscapeChar(x[0]), Escape(x[1..]));
    }
  }

  lemma EscapeCharOnOneLine(c: char)
    ensures OnOneLine(EscapeChar(c))
  {
    var e := EscapeChar(c);
    if c != '"' && c != '\\' && NeedsUnicodeEscape(c) {
      var h := Hex4Text(c as int);
      assert e == "\\u" + h;
      forall k | 0 <= k < |e|
        ensures !IsLineTerminator(e[k])
      {
        if k >= 2 {
          assert e[k] == h[k - 2];
        }
      }
    }
  }

  lemma {:induction false} JoinQuotedOnOneLine(xs: seq<string>)
    requires xs != []
    ensures OnOneLine(JoinQuoted(xs))
  {
    EscapeOnOneLine(xs[0]);
    OnOneLineConcat("\"", Escape(xs[0]));
    OnOneLineConcat("\"" + Escape(xs[0]), "\"");
    if |xs| > 1 {
      JoinQuotedOnOneLine(xs[1..]);
      OnOneLineConcat(Quote(xs[0]), ",");
      OnOneLineConcat(Quote(xs[0]) + ",", JoinQuoted(xs[1..]));
    }
  }

  /** The encoded array holds no line terminator, since those characters are written as escapes. */
  lemma EncodeOnOneLine(xs: seq<string>)
    ensures OnOneLine(Encode(xs))
  {
    if xs != [] {
      JoinQuotedOnOneLine(xs);
      OnOneLineConcat("[", JoinQuoted(xs));
      OnOneLineConcat("[" + JoinQuoted(xs), "]");
    }
  }
}
