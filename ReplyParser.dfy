/**
  How the poll component turns the free-text reply of the chat endpoint
  into a question and a list of options (Poll.tsx, lines 67-95). The first
  bracketed span on one line is taken as the options and JSON-decoded; the
  question is the reply with that span cut out once, then with a `###`
  tail and a `**Options:**` tail cut off, then trimmed. A span that does
  not decode makes the question a fixed fallback text. The options shown
  to the user carry one of eight emoji markers, chosen by position.
*/
module ReplyParser {
  import opened Wrappers
  import opened JsText
  import JsonArray

  const FallbackQuestion: string := "No poll question generated"

  /** The markers put in front of the displayed options, in order. */
  const EmojiList: seq<string> := ["✨", "🔥", "🌿", "💡", "🌸", "🌍", "⭐", "🕊️"]

  datatype ParsedReply = ParsedReply(question: string, options: seq<string>)

  // ---------------------------------------------------------------------
  // The regular expression /\[.*\]/

  /** `s[i..j]` is text that `/\[.*\]/` accepts: `[`, characters of one line, `]`. */
  predicate SpanAt(s: string, i: int, j: int) {
    0 <= i && i + 2 <= j <= |s| && s[i] == '[' && s[j - 1] == ']' && OnOneLine(s[i..j])
  }

  /** `s[i..j]` is what `s.match(/\[.*\]/)` returns: the leftmost start, and from it the longest (greedy) end. */
  ghost predicate IsRegexMatch(s: string, i: int, j: int) {
    && SpanAt(s, i, j)
    && (forall i', j' :: 0 <= i' < i ==> !SpanAt(s, i', j'))
    && (forall j' :: j < j' ==> !SpanAt(s, i, j'))
  }

  /** The first line terminator at or after `from`, or the end of `s`. */
  function LineEnd(s: string, from: nat): (e: nat)
    requires from <= |s|
    ensures from <= e <= |s| && OnOneLine(s[from..e])
    ensures e < |s| ==> IsLineTerminator(s[e])
    decreases |s| - from
  {
    if from == |s| || IsLineTerminator(s[from]) then from else LineEnd(s, from + 1)
  }

  /** The last `]` in `s[lo..hi]`. */
  function LastClose(s: string, lo: nat, hi: nat): (r: Option<nat>)
    requires lo <= hi <= |s|
    ensures r.Some? ==> lo <= r.value < hi && s[r.value] == ']'
    ensures r.Some? ==> forall k :: r.value < k < hi ==> s[k] != ']'
    ensures r.None? ==> forall k :: lo <= k < hi ==> s[k] != ']'
    decreases hi
  {
    if hi == lo then None
    else if s[hi - 1] == ']' then Some(hi - 1)
    else LastClose(s, lo, hi - 1)
  }

  /** A span starting at `i` ends before the line does. */
  lemma SpanWithinLine(s: string, i: nat, j: int)
    requires i < |s| && SpanAt(s, i, j)
    ensures j - 1 < LineEnd(s, i + 1)
  {
    forall m | i <= m < j
      ensures !IsLineTerminator(s[m])
    {
      assert s[i..j][m - i] == s[m];
    }
  }

  /** Any `]` later on the line of a `[` closes a span. */
  lemma SpanToClose(s: string, i: nat, k: nat)
    requires i < |s| && s[i] == '['
    requires i + 1 <= k < LineEnd(s, i + 1) && s[k] == ']'
    ensures SpanAt(s, i, k + 1)
  {
    var e := LineEnd(s, i + 1);
    var t := s[i..k + 1];
    forall m | 0 <= m < |t|
      ensures !IsLineTerminator(t[m])
    {
      if m > 0 {
        assert t[m] == s[i + 1..e][m - 1];
      }
    }
  }

  /** No span of `/\[.*\]/` starts at `i` unless a `]` follows on the same line; then the last such `]` ends it. */
  lemma SpansStartingAt(s: string, i: nat)
    requires i < |s| && s[i] == '['
    ensures var e := LineEnd(s, i + 1);
      match LastClose(s, i + 1, e)
      case None => forall j :: !SpanAt(s, i, j)
      case Some(k) => SpanAt(s, i, k + 1) && forall j :: k + 1 < j ==> !SpanAt(s, i, j)
  {
    forall j | SpanAt(s, i, j)
      ensures j - 1 < LineEnd(s, i + 1)
    {
      SpanWithinLine(s, i, j);
    }
    match LastClose(s, i + 1, LineEnd(s, i + 1))
    case None =>
    case Some(k) =>
      SpanToClose(s, i, k);
  }

  function SpanFrom(s: string, from: nat): (r: Option<(nat, nat)>)
    requires from <= |s|
    ensures r.Some? ==> from <= r.value.0 && SpanAt(s, r.value.0, r.value.1)
    ensures r.Some? ==> forall j :: r.value.1 < j ==> !SpanAt(s, r.value.0, j)
    ensures r.Some? ==> forall i, j :: from <= i < r.value.0 ==> !SpanAt(s, i, j)
    ensures r.None? ==> forall i, j :: from <= i ==> !SpanAt(s, i, j)
    decreases |s| - from
  {
    if from == |s| then None
    else if s[from] == '[' then
      SpansStartingAt(s, from);
      match LastClose(s, from + 1, LineEnd(s, from + 1))
      case Some(k) => Some((from, k + 1))
      case None => SpanFrom(s, from + 1)
    else
      SpanFrom(s, from + 1)
  }

  /** `s.match(/\[.*\]/)`, as the bounds of the matched text. */
  function FindSpan(s: string): (r: Option<(nat, nat)>)
    ensures r.Some? ==> IsRegexMatch(s, r.value.0, r.value.1)
    ensures r.None? ==> forall i, j :: !SpanAt(s, i, j)
  {
    SpanFrom(s, 0)
  }

  // ---------------------------------------------------------------------
  // The reply parser

  /** The two tail removals and `trim` that turn the remaining reply into the question. */
  function CleanQuestion(t: string): (q: string)
    ensures IsTrimmed(q)
  {
    Trim(StripTail(StripTail(t, "###"), "**Options:**"))
  }

  /**
    The reply parser: options only ever come from decoding the match of
    `/\[.*\]/`; with no match there are none.
  */
  function ParseReply(reply: string): (r: ParsedReply)
    ensures FindSpan(reply).None? ==> r.options == []
    ensures r.options != [] ==> exists i, j :: IsRegexMatch(reply, i, j) && JsonArray.Decode(reply[i..j]) == Some(r.options)
  {
    match FindSpan(reply)
    case None => ParsedReply(CleanQuestion(RemoveFirst(reply, "")), [])
    case Some((i, j)) =>
      match JsonArray.Decode(reply[i..j])
      case None => ParsedReply(FallbackQuestion, [])
      case Some(options) => ParsedReply(CleanQuestion(RemoveFirst(reply, reply[i..j])), options)
  }

  /** No earlier copy of the matched text exists, so `replace` cuts it out exactly where it was found. */
  lemma MatchIsFirstOccurrence(s: string, i: int, j: int)
    requires IsRegexMatch(s, i, j)
    ensures FirstOccurrence(s, s[i..j], i)
  {
    OccurrencesAreSpans(s, s[i..j]);
  }

  /** Every occurrence of text that `/\[.*\]/` accepts is itself a span the regex accepts. */
  lemma OccurrencesAreSpans(s: string, pat: string)
    requires |pat| >= 2 && pat[0] == '[' && pat[|pat| - 1] == ']' && OnOneLine(pat)
    ensures forall k :: OccursAt(s, pat, k) ==> SpanAt(s, k, k + |pat|)
  {
    forall k | OccursAt(s, pat, k)
      ensures SpanAt(s, k, k + |pat|)
    {
      assert s[k..k + |pat|] == pat;
      assert s[k] == pat[0] && s[k + |pat| - 1] == pat[|pat| - 1];
    }
  }

  /** With no bracketed span on one line, there are no options and the question is the cleaned reply itself. */
  lemma ParseReplyWithoutSpan(reply: string)
    requires forall i, j :: !SpanAt(reply, i, j)
    ensures ParseReply(reply) == ParsedReply(CleanQuestion(reply), [])
  {
    assert FirstOccurrence(reply, "", 0);
    assert reply[..0] + reply[0..] == reply;
  }

  /** A matched span that is not a JSON array of strings yields the fallback question and no options. */
  lemma ParseReplyDecodeFailure(reply: string, i: int, j: int)
    requires IsRegexMatch(reply, i, j)
    requires JsonArray.Decode(reply[i..j]).None?
    ensures ParseReply(reply) == ParsedReply(FallbackQuestion, [])
  {
    RegexMatchUnique(reply, i, j);
  }

  /** A matched span that decodes gives the options, and the question is the reply with that span cut out at its position, then cleaned. */
  lemma ParseReplyDecoded(reply: string, i: int, j: int, options: seq<string>)
    requires IsRegexMatch(reply, i, j)
    requires JsonArray.Decode(reply[i..j]) == Some(options)
    ensures ParseReply(reply) == ParsedReply(CleanQuestion(reply[..i] + reply[j..]), options)
  {
    RegexMatchUnique(reply, i, j);
    MatchIsFirstOccurrence(reply, i, j);
    RemoveSpan(reply, i, j);
  }

  /** Removing the first occurrence of `s[i..j]`, found at `i`, leaves what lies around it. */
  lemma RemoveSpan(s: string, i: int, j: int)
    requires 0 <= i <= j <= |s| && FirstOccurrence(s, s[i..j], i)
    ensures RemoveFirst(s, s[i..j]) == s[..i] + s[j..]
  {
    assert i + |s[i..j]| == j;
  }

  /** At most one span is the match, and `FindSpan` finds it. */
  lemma RegexMatchUnique(s: string, i: int, j: int)
    requires IsRegexMatch(s, i, j)
    ensures FindSpan(s) == Some((i, j))
  {
    var r := FindSpan(s);
    assert r.Some?;
    var (i', j') := r.value;
    assert !(i' < i) && !(i < i');
    assert !(j' < j) && !(j < j');
  }

  /** No `[` before position `p` means no span starts before `p`. */
  lemma NoSpanBefore(m: string, p: int)
    requires 0 <= p <= |m|
    requires forall k :: 0 <= k < p ==> m[k] != '['
    ensures forall i, j :: 0 <= i < p ==> !SpanAt(m, i, j)
  {
  }

  /** A span starting at `p` cannot run past `q` when every `]` after `q` has a line break before it. */
  lemma NoLongerSpan(m: string, p: int, q: int)
    requires 0 <= p <= q <= |m|
    requires forall k :: q <= k < |m| && m[k] == ']' ==> !OnOneLine(m[q..k])
    ensures forall j :: q < j ==> !SpanAt(m, p, j)
  {
    forall j | q < j <= |m| && OnOneLine(m[p..j])
      ensures m[j - 1] != ']'
    {
      var t := m[q..j - 1];
      forall r | 0 <= r < |t|
        ensures !IsLineTerminator(t[r])
      {
        assert t[r] == m[p..j][q - p + r];
      }
    }
  }

  /** The array text, placed after a part with no `[` and before a part whose first line has no `]`, is the match. */
  lemma ArrayIsMatch(prefix: string, e: string, suffix: string)
    requires |e| >= 2 && e[0] == '[' && e[|e| - 1] == ']' && OnOneLine(e)
    requires forall k :: 0 <= k < |prefix| ==> prefix[k] != '['
    requires forall k :: 0 <= k < |suffix| && suffix[k] == ']' ==> !OnOneLine(suffix[..k])
    ensures IsRegexMatch(prefix + e + suffix, |prefix|, |prefix| + |e|)
  {
    var m := prefix + e + suffix;
    var p, q := |prefix|, |prefix| + |e|;
    assert m[p..q] == e;
    assert SpanAt(m, p, q);
    NoSpanBefore(m, p);
    forall k | q <= k < |m| && m[k] == ']'
      ensures !OnOneLine(m[q..k])
    {
      assert m[k] == suffix[k - q];
      assert m[q..k] == suffix[..k - q];
    }
    NoLongerSpan(m, p, q);
  }

  /**
    A reply laid out as the prompt asks, with the options as a JSON array on
    one line, parses to exactly those options, as long as no `[` comes
    before the array and no `]` follows it on its line; the question is the
    text around the array, cleaned.
  */
  lemma ParseWellFormedReply(prefix: string, options: seq<string>, suffix: string)
    requires forall k :: 0 <= k < |prefix| ==> prefix[k] != '['
    requires forall k :: 0 <= k < |suffix| && suffix[k] == ']' ==> !OnOneLine(suffix[..k])
    ensures ParseReply(prefix + JsonArray.Encode(options) + suffix) == ParsedReply(CleanQuestion(prefix + suffix), options)
  {
    var e := JsonArray.Encode(options);
    JsonArray.EncodeOnOneLine(options);
    JsonArray.DecodeEncode(options);
    ArrayIsMatch(prefix, e, suffix);
    ParseAround(prefix, e, suffix, options);
  }

  /** The match lies between `prefix` and `suffix` and decodes: the question comes from the text around it. */
  lemma ParseAround(prefix: string, e: string, suffix: string, options: seq<string>)
    requires IsRegexMatch(prefix + e + suffix, |prefix|, |prefix| + |e|)
    requires JsonArray.Decode(e) == Some(options)
    ensures ParseReply(prefix + e + suffix) == ParsedReply(CleanQuestion(prefix + suffix), options)
  {
    CutMiddle(prefix, e, suffix);
    ParseReplyDecoded(prefix + e + suffix, |prefix|, |prefix| + |e|, options);
  }

  lemma CutMiddle<T>(a: seq<T>, b: seq<T>, c: seq<T>)
    ensures (a + b + c)[|a|..|a| + |b|] == b
    ensures (a + b + c)[..|a|] + (a + b + c)[|a| + |b|..] == a + c
  {
    var m := a + b + c;
    assert m[..|a|] == a;
    assert m[|a| + |b|..] == c;
  }

  // ---------------------------------------------------------------------
  // Decoration of the displayed options

  /** `emojiList[i % emojiList.length]`. */
  function Marker(i: nat): (m: string)
    ensures m in EmojiList && m != []
  {
    EmojiList[i % |EmojiList|]
  }

  /** `options.map((opt, i) => `${emoji} ${opt}`)`. */
  function Decorate(options: seq<string>): (shown: seq<string>)
    ensures |shown| == |options|
  {
    seq(|options|, i requires 0 <= i < |options| => Marker(i) + " " + options[i])
  }

  /** Cuts the marker of position `i` and its space off a displayed text. */
  function Unmark(i: nat, text: string): string {
    var tag := Marker(i) + " ";
    if |tag| <= |text| && text[..|tag|] == tag then text[|tag|..] else text
  }

  function Undecorate(shown: seq<string>): (options: seq<string>)
    ensures |options| == |shown|
  {
    seq(|shown|, i requires 0 <= i < |shown| => Unmark(i, shown[i]))
  }

  /** Decoration loses nothing: every displayed text gives back its option. */
  lemma UndecorateDecorate(options: seq<string>)
    ensures Undecorate(Decorate(options)) == options
  {
    var shown := Decorate(options);
    forall i | 0 <= i < |options|
      ensures Unmark(i, shown[i]) == options[i]
    {
      var tag := Marker(i) + " ";
      assert shown[i] == tag + options[i];
      assert shown[i][..|tag|] == tag;
      assert shown[i][|tag|..] == options[i];
    }
  }

  /** Markers repeat with period eight and differ within a period. */
  lemma MarkerCycle(i: nat)
    ensures Marker(i + 8) == Marker(i)
    ensures forall k :: 0 <= k < 8 && k != i % 8 ==> Marker(k) != Marker(i)
  {
    assert (i + 8) % 8 == i % 8;
    forall k, l | 0 <= k < l < 8
      ensures EmojiList[k] != EmojiList[l]
    {
      assert EmojiList[k][0] != EmojiList[l][0];
    }
  }
}
