/**
 * The operations on `str` that the core relies on, with Rust's semantics:
 * `split` with a string pattern (and the search for the pattern it runs),
 * `join` and `trim`.
 */
module Text {
  import opened Wrappers

  /** `pat` occurs in `s` starting at index `j`. */
  predicate OccursAt(s: string, pat: string, j: nat) {
    j + |pat| <= |s| && s[j..j + |pat|] == pat
  }

  predicate Contains(s: string, pat: string) {
    exists j: nat | j <= |s| - |pat| :: OccursAt(s, pat, j)
  }

  /** The search behind `str::split`: the index of the first occurrence of `pat` in `s`. */
  function IndexOf(s: string, pat: string): (r: Option<nat>)
    ensures r.Some? ==> OccursAt(s, pat, r.value)
    ensures r.Some? ==> forall j: nat :: j < r.value ==> !OccursAt(s, pat, j)
    ensures r.None? <==> !Contains(s, pat)
  {
    IndexFrom(s, pat, 0)
  }

  function IndexFrom(s: string, pat: string, from: nat): (r: Option<nat>)
    ensures r.Some? ==> from <= r.value && OccursAt(s, pat, r.value)
    ensures r.Some? ==> forall j: nat :: from <= j < r.value ==> !OccursAt(s, pat, j)
    ensures r.None? ==> forall j: nat :: from <= j ==> !OccursAt(s, pat, j)
    decreases |s| - from
  {
    if from + |pat| > |s| then None
    else if OccursAt(s, pat, from) then Some(from)
    else IndexFrom(s, pat, from + 1)
  }

  /** An occurrence inside a prefix of `s` is an occurrence in `s`. */
  lemma NoOccurrenceInPrefix(s: string, pat: string, n: nat)
    requires |pat| > 0 && n <= |s|
    requires forall j: nat :: j < n ==> !OccursAt(s, pat, j)
    ensures !Contains(s[..n], pat)
  {
    forall j: nat | OccursAt(s[..n], pat, j)
      ensures OccursAt(s, pat, j) && j < n
    {
      assert s[..n][j..j + |pat|] == s[j..j + |pat|];
    }
  }

  /** A prefix of a string free of `pat` is free of `pat`. */
  lemma PrefixKeepsAbsence(s: string, t: string, pat: string)
    requires |pat| > 0 && t <= s && !Contains(s, pat)
    ensures !Contains(t, pat)
  {
    assert t == s[..|t|];
    forall j: nat | j < |t| ensures !OccursAt(s, pat, j) {
      assert j <= |s| - |pat| ==> !OccursAt(s, pat, j);
    }
    NoOccurrenceInPrefix(s, pat, |t|);
  }

  /**
   * `s.split(pat).collect::<Vec<_>>()`: the pieces of `s` between the
   * non-overlapping occurrences of `pat`, found left to right.
   */
  function Split(s: string, pat: string): (parts: seq<string>)
    requires |pat| > 0
    ensures |parts| >= 1 && parts[0] <= s
    ensures |parts| > 1 <==> Contains(s, pat)
    ensures forall k :: 0 <= k < |parts| ==> !Contains(parts[k], pat)
    decreases |s|
  {
    match IndexOf(s, pat)
    case None => [s]
    case Some(i) =>
      NoOccurrenceInPrefix(s, pat, i);
      [s[..i]] + Split(s[i + |pat|..], pat)
  }

  /** The first piece of a split: everything before the first occurrence, or all of `s`. */
  lemma SplitFirst(s: string, pat: string)
    requires |pat| > 0
    ensures Split(s, pat)[0] == match IndexOf(s, pat) case None => s case Some(i) => s[..i]
  {
  }

  /** When `pat` first occurs right after `a`, the second piece of the split is the first piece of what follows it. */
  lemma SplitSecond(s: string, pat: string, a: string, b: string)
    requires |pat| > 0 && s == a + pat + b && IndexOf(s, pat) == Some(|a|)
    ensures |Split(s, pat)| > 1 && Split(s, pat)[1] == Split(b, pat)[0]
  {
    assert s[|a| + |pat|..] == b;
  }

  /** `[String]::join(sep)`. */
  function Join(parts: seq<string>, sep: string): string
    decreases |parts|
  {
    if |parts| == 0 then ""
    else if |parts| == 1 then parts[0]
    else parts[0] + sep + Join(parts[1..], sep)
  }

  /** Splitting on a pattern loses nothing: joining the pieces with the pattern gives the string back. */
  lemma {:induction false} JoinSplit(s: string, pat: string)
    requires |pat| > 0
    ensures Join(Split(s, pat), pat) == s
    decreases |s|
  {
    match IndexOf(s, pat)
    case None =>
    case Some(i) =>
      var rest := s[i + |pat|..];
      var parts, tail := Split(s, pat), Split(rest, pat);
      assert parts == [s[..i]] + tail;
      assert |parts| > 1 && parts[0] == s[..i] && parts[1..] == tail;
      JoinSplit(rest, pat);
      assert Join(parts, pat) == s[..i] + pat + rest;
      assert s[i..i + |pat|] == pat;
      assert s == s[..i] + s[i..i + |pat|] + rest;
  }

  /** Joining a one-element list gives that element, whatever the separator. */
  lemma JoinSingle(x: string, sep: string)
    ensures Join([x], sep) == x
  {
  }

  /** Appending an element extends the joined string by the separator and that element. */
  lemma {:induction false} JoinSnoc(parts: seq<string>, x: string, sep: string)
    requires |parts| > 0
    ensures Join(parts + [x], sep) == Join(parts, sep) + sep + x
    decreases |parts|
  {
    if |parts| == 1 {
      assert parts + [x] == [parts[0], x];
      assert [parts[0], x][1..] == [x];
    } else {
      assert (parts + [x])[1..] == parts[1..] + [x];
      JoinSnoc(parts[1..], x, sep);
    }
  }

  /** `char::is_whitespace`: the Unicode White_Space property. */
  predicate IsWhitespace(c: char) {
    ('\t' <= c <= '\r') || c == ' ' || c == '\U{0085}' || c == '\U{00A0}' || c == '\U{1680}'
    || ('\U{2000}' <= c <= '\U{200A}') || c == '\U{2028}' || c == '\U{2029}' || c == '\U{202F}'
    || c == '\U{205F}' || c == '\U{3000}'
  }

  /** The first index at or after `i` that does not hold whitespace (|s| if there is none). */
  function SkipStart(s: string, i: nat): (j: nat)
    requires i <= |s|
    ensures i <= j <= |s|
    ensures forall k :: i <= k < j ==> IsWhitespace(s[k])
    ensures j == |s| || !IsWhitespace(s[j])
    decreases |s| - i
  {
    if i < |s| && IsWhitespace(s[i]) then SkipStart(s, i + 1) else i
  }

  /** The end of `s[lo..j]` once its trailing whitespace is cut off. */
  function SkipEnd(s: string, lo: nat, j: nat): (e: nat)
    requires lo <= j <= |s|
    ensures lo <= e <= j
    ensures forall k :: e <= k < j ==> IsWhitespace(s[k])
    ensures e == lo || !IsWhitespace(s[e - 1])
    decreases j
  {
    if lo < j && IsWhitespace(s[j - 1]) then SkipEnd(s, lo, j - 1) else j
  }

  /** `str::trim_start`. */
  function TrimStart(s: string): (r: string)
    ensures |r| <= |s| && r == s[|s| - |r|..]
    ensures forall k :: 0 <= k < |s| - |r| ==> IsWhitespace(s[k])
    ensures r == [] || !IsWhitespace(r[0])
  {
    s[SkipStart(s, 0)..]
  }

  /** `str::trim_end`. */
  function TrimEnd(s: string): (r: string)
    ensures |r| <= |s| && r == s[..|r|]
    ensures forall k :: |r| <= k < |s| ==> IsWhitespace(s[k])
    ensures r == [] || !IsWhitespace(r[|r| - 1])
  {
    s[..SkipEnd(s, 0, |s|)]
  }

  /** `str::trim`: `s` without its leading and trailing whitespace. */
  function Trim(s: string): (r: string)
    ensures r == [] || (!IsWhitespace(r[0]) && !IsWhitespace(r[|r| - 1]))
    ensures var i := |s| - |TrimStart(s)|;
      i + |r| <= |s| && r == s[i..i + |r|]
      && (forall k :: 0 <= k < i ==> IsWhitespace(s[k]))
      && (forall k :: i + |r| <= k < |s| ==> IsWhitespace(s[k]))
  {
    var i, e := SkipStart(s, 0), SkipEnd(s, SkipStart(s, 0), |s|);
    assert TrimStart(s) == s[i..];
    s[i..e]
  }

  /** `str::trim` is `trim_start` followed by `trim_end`. */
  lemma TrimIsBothEnds(s: string)
    ensures Trim(s) == TrimEnd(TrimStart(s))
  {
    var i := SkipStart(s, 0);
    var t := TrimStart(s);
    assert t == s[i..];
    SkipEndShift(s, i, |s|);
  }

  /** Cutting trailing whitespace from `s[lo..j]` is the same cut made on `s` itself. */
  lemma {:induction false} SkipEndShift(s: string, lo: nat, j: nat)
    requires lo <= j <= |s|
    ensures SkipEnd(s[lo..], 0, j - lo) == SkipEnd(s, lo, j) - lo
    decreases j
  {
    if lo < j && IsWhitespace(s[j - 1]) {
      assert s[lo..][j - 1 - lo] == s[j - 1];
      SkipEndShift(s, lo, j - 1);
    }
  }
}
