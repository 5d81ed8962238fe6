/**
  The JavaScript string operations the poll parser is built from:
  `String.prototype.trim`, `replace` with a string pattern and an empty
  replacement, and `replace` with the tail patterns `/###.*$/` and
  `/\*\*Options:\*\*.*$/`, which have no `m` flag, so `$` is the end of the
  whole text and `.` stops at a line terminator.
*/
module JsText {
  import opened Wrappers

  /** ECMAScript LineTerminator: the characters a regular-expression `.` does not match. */
  predicate IsLineTerminator(c: char) {
    c == '\n' || c == '\r' || c == '\U{2028}' || c == '\U{2029}'
  }

  /** ECMAScript WhiteSpace or LineTerminator: the characters `trim` removes. */
  predicate IsTrimmable(c: char) {
    || IsLineTerminator(c)
    || c == '\t' || c == '\U{B}' || c == '\U{C}' || c == ' ' || c == '\U{A0}'
    || c == '\U{1680}' || ('\U{2000}' <= c <= '\U{200A}')
    || c == '\U{202F}' || c == '\U{205F}' || c == '\U{3000}' || c == '\U{FEFF}'
  }

  /** No line terminator anywhere in `s`, so `.*` can run across all of it. */
  predicate OnOneLine(s: string) {
    forall k :: 0 <= k < |s| ==> !IsLineTerminator(s[k])
  }

  predicate AllTrimmable(s: string) {
    forall k :: 0 <= k < |s| ==> IsTrimmable(s[k])
  }

  /** `s` neither starts nor ends with a character `trim` would remove. */
  predicate IsTrimmed(s: string) {
    s == [] || (!IsTrimmable(s[0]) && !IsTrimmable(s[|s| - 1]))
  }

  function TrimStart(s: string): (r: string)
    ensures |r| <= |s| && r == s[|s| - |r|..]
    ensures AllTrimmable(s[..|s| - |r|])
    ensures r == [] || !IsTrimmable(r[0])
  {
    if s != [] && IsTrimmable(s[0]) then
      var r := TrimStart(s[1..]);
      TrimmableCons(s, r);
      r
    else
      s
  }

  function TrimEnd(s: string): (r: string)
    ensures |r| <= |s| && r == s[..|r|]
    ensures AllTrimmable(s[|r|..])
    ensures r == [] || !IsTrimmable(r[|r| - 1])
  {
    if s != [] && IsTrimmable(s[|s| - 1]) then
      var r := TrimEnd(s[..|s| - 1]);
      TrimmableSnoc(s, |r|);
      r
    else
      s
  }

  /** `s[i..i + |r|]` is `r`, and everything around it in `s` is trimmable. */
  predicate PaddedAt(s: string, r: string, i: int) {
    0 <= i <= |s| - |r| && r == s[i..i + |r|] && AllTrimmable(s[..i]) && AllTrimmable(s[i + |r|..])
  }

  lemma TrimmableCons(s: string, r: string)
    requires s != [] && IsTrimmable(s[0]) && |r| < |s|
    requires r == s[1..][|s| - 1 - |r|..] && AllTrimmable(s[1..][..|s| - 1 - |r|])
    ensures r == s[|s| - |r|..] && AllTrimmable(s[..|s| - |r|])
  {
    var n := |s| - |r|;
    forall k | 0 < k < n
      ensures IsTrimmable(s[k])
    {
      assert s[k] == s[1..][..n - 1][k - 1];
    }
  }

  lemma TrimmableSnoc(s: string, n: nat)
    requires n < |s| && IsTrimmable(s[|s| - 1]) && AllTrimmable(s[..|s| - 1][n..])
    ensures AllTrimmable(s[n..])
  {
    forall k | n <= k < |s| - 1
      ensures IsTrimmable(s[k])
    {
      assert s[k] == s[..|s| - 1][n..][k - n];
    }
  }

  /** `String.prototype.trim`: the longest middle part of `s` with only trimmable characters around it. */
  function Trim(s: string): (r: string)
    ensures IsTrimmed(r)
    ensures exists i :: PaddedAt(s, r, i)
  {
    var t := TrimStart(s);
    var r := TrimEnd(t);
    TrimmedPart(s, t, r);
    r
  }

  lemma TrimmedPart(s: string, t: string, r: string)
    requires |t| <= |s| && t == s[|s| - |t|..] && AllTrimmable(s[..|s| - |t|])
    requires |r| <= |t| && r == t[..|r|] && AllTrimmable(t[|r|..])
    ensures PaddedAt(s, r, |s| - |t|)
  {
    var i := |s| - |t|;
    assert s[i + |r|..] == t[|r|..];
    assert r == s[i..i + |r|];
  }

  lemma {:induction false} TrimStartPadded(a: string, u: string)
    requires AllTrimmable(a) && (u == [] || !IsTrimmable(u[0]))
    ensures TrimStart(a + u) == u
  {
    if a != [] {
      assert (a + u)[1..] == a[1..] + u;
      TrimStartPadded(a[1..], u);
    } else {
      assert a + u == u;
    }
  }

  lemma {:induction false} TrimEndPadded(u: string, b: string)
    requires AllTrimmable(b) && (u == [] || !IsTrimmable(u[|u| - 1]))
    ensures TrimEnd(u + b) == u
  {
    if b != [] {
      assert (u + b)[..|u + b| - 1] == u + b[..|b| - 1];
      TrimEndPadded(u, b[..|b| - 1]);
    } else {
      assert u + b == u;
    }
  }

  /** Trimming removes exactly trimmable padding: `trim` gives back the unpadded text. */
  lemma TrimPadded(a: string, t: string, b: string)
    requires AllTrimmable(a) && AllTrimmable(b) && IsTrimmed(t)
    ensures Trim(a + t + b) == t
  {
    if t == [] {
      var s := a + t + b;
      assert AllTrimmable(s);
      assert TrimStart(s) == [];
    } else {
      assert a + t + b == a + (t + b);
      TrimStartPadded(a, t + b);
      TrimEndPadded(t, b);
    }
  }

  /** `pat` occurs in `s` starting at index `k`. */
  predicate OccursAt(s: string, pat: string, k: int) {
    0 <= k && k + |pat| <= |s| && s[k..k + |pat|] == pat
  }

  /** `k` is where `s.indexOf(pat)` finds `pat`. */
  predicate FirstOccurrence(s: string, pat: string, k: int) {
    OccursAt(s, pat, k) && forall k' :: 0 <= k' < k ==> !OccursAt(s, pat, k')
  }

  function IndexOfFrom(s: string, pat: string, from: nat): (r: Option<nat>)
    requires from <= |s|
    ensures r.Some? ==> from <= r.value && OccursAt(s, pat, r.value)
    ensures r.Some? ==> forall k :: from <= k < r.value ==> !OccursAt(s, pat, k)
    ensures r.None? ==> forall k :: from <= k ==> !OccursAt(s, pat, k)
    decreases |s| - from
  {
    if from + |pat| > |s| then None
    else if s[from..from + |pat|] == pat then Some(from)
    else IndexOfFrom(s, pat, from + 1)
  }

  /** `s.replace(pat, "")`: the first occurrence of `pat` is cut out; with none, `s` is unchanged. */
  function RemoveFirst(s: string, pat: string): (r: string)
    ensures (forall k :: !OccursAt(s, pat, k)) ==> r == s
    ensures forall k :: FirstOccurrence(s, pat, k) ==> r == s[..k] + s[k + |pat|..]
  {
    match IndexOfFrom(s, pat, 0)
    case None => s
    case Some(i) =>
      assert FirstOccurrence(s, pat, i);
      s[..i] + s[i + |pat|..]
  }

  /** The regular expression `/marker.*$/` (no `m` flag) can match at `k`. */
  predicate TailMatchAt(s: string, marker: string, k: int) {
    OccursAt(s, marker, k) && OnOneLine(s[k + |marker|..])
  }

  /** `k` is the leftmost position where `/marker.*$/` matches. */
  predicate LeftmostTailMatch(s: string, marker: string, k: int) {
    TailMatchAt(s, marker, k) && forall k' :: 0 <= k' < k ==> !TailMatchAt(s, marker, k')
  }

  function TailMatchFrom(s: string, marker: string, from: nat): (r: Option<nat>)
    requires from <= |s|
    ensures r.Some? ==> from <= r.value && TailMatchAt(s, marker, r.value)
    ensures r.Some? ==> forall k :: from <= k < r.value ==> !TailMatchAt(s, marker, k)
    ensures r.None? ==> forall k :: from <= k ==> !TailMatchAt(s, marker, k)
    decreases |s| - from
  {
    if from + |marker| > |s| then None
    else if s[from..from + |marker|] == marker && OnOneLine(s[from + |marker|..]) then Some(from)
    else if from == |s| then None
    else TailMatchFrom(s, marker, from + 1)
  }

  /** `s.replace(/marker.*$/, "")`: everything from the leftmost `marker` that has no line break after it is cut. */
  function StripTail(s: string, marker: string): (r: string)
    ensures (forall k :: !TailMatchAt(s, marker, k)) ==> r == s
    ensures forall k :: LeftmostTailMatch(s, marker, k) ==> r == s[..k]
  {
    match TailMatchFrom(s, marker, 0)
    case None => s
    case Some(i) =>
      assert LeftmostTailMatch(s, marker, i);
      s[..i]
  }
}
