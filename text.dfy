/** The handful of Python string operations the demo relies on: `str.strip()`,
    `str.lower()`, `sub in s` and `s.split(sep)[0]`, written out over `seq<char>`. */
module Text {

  datatype Option<+T> = None | Some(value: T)

  /** The characters CPython's `str.isspace()` accepts, which is the set
      `str.strip()` with no argument removes from both ends. */
  predicate IsSpace(c: char) {
    || ('\t' <= c <= '\r') || c == ' '
    || ('\U{001C}' <= c <= '\U{001F}')
    || c == '\U{0085}' || c == '\U{00A0}' || c == '\U{1680}'
    || ('\U{2000}' <= c <= '\U{200A}')
    || c == '\U{2028}' || c == '\U{2029}' || c == '\U{202F}' || c == '\U{205F}' || c == '\U{3000}'
  }

  predicate AllSpace(s: string) {
    forall i :: 0 <= i < |s| ==> IsSpace(s[i])
  }

  /** Neither end of `s` is whitespace: what `str.strip()` leaves behind. */
  predicate IsStripped(s: string) {
    s == [] || (!IsSpace(s[0]) && !IsSpace(s[|s| - 1]))
  }

  /** `r` is a prefix of `s`. */
  predicate IsPrefix(r: string, s: string) {
    |r| <= |s| && s[..|r|] == r
  }

  /** `pat` occurs in `s` starting at index `i`. */
  predicate OccursAt(s: string, pat: string, i: nat) {
    i + |pat| <= |s| && s[i..i + |pat|] == pat
  }

  /** A prefix of a prefix is a prefix, for strings and for lists of lines alike. */
  lemma PrefixOfPrefix<T>(a: seq<T>, b: seq<T>, c: seq<T>)
    requires |a| <= |b| <= |c| && b[..|a|] == a && c[..|b|] == b
    ensures c[..|a|] == a
  {
    assert c[..|a|] == c[..|b|][..|a|];
  }

  /** `str.lstrip()`: the longest suffix of `s` that does not start with whitespace. */
  function StripLeft(s: string): (r: string)
    ensures |r| <= |s| && r == s[|s| - |r|..]
    ensures AllSpace(s[..|s| - |r|])
    ensures r == [] || !IsSpace(r[0])
  {
    if s != [] && IsSpace(s[0]) then
      var r := StripLeft(s[1..]);
      assert s[..|s| - |r|] == [s[0]] + s[1..][..|s| - 1 - |r|];
      r
    else
      s
  }

  /** `str.rstrip()`: the longest prefix of `s` that does not end with whitespace. */
  function StripRight(s: string): (r: string)
    ensures IsPrefix(r, s)
    ensures AllSpace(s[|r|..])
    ensures r == [] || !IsSpace(r[|r| - 1])
  {
    if s != [] && IsSpace(s[|s| - 1]) then
      var r := StripRight(s[..|s| - 1]);
      assert s[|r|..] == s[..|s| - 1][|r|..] + [s[|s| - 1]];
      r
    else
      s
  }

  /** The number of whitespace characters `str.lstrip()` removes from `s`. */
  function LeadingSpace(s: string): (n: nat)
    ensures n <= |s| && AllSpace(s[..n])
    ensures n < |s| ==> !IsSpace(s[n])
  {
    |s| - |StripLeft(s)|
  }

  /** `str.strip()`: `s` with the whitespace on both ends removed, and nothing else. */
  function Strip(s: string): (r: string)
    ensures IsStripped(r)
    ensures OccursAt(s, r, LeadingSpace(s))
  {
    var left := StripLeft(s);
    var r := StripRight(left);
    SliceOfSuffix(s, left, r);
    PrefixEnds(r, left);
    r
  }

  /** `str.strip()` removes whitespace and nothing else: what lies before and
      after the result in `s` is all whitespace. */
  lemma StripRemovesOnlySpace(s: string)
    ensures AllSpace(s[..LeadingSpace(s)])
    ensures AllSpace(s[LeadingSpace(s) + |Strip(s)|..])
  {
    var left := StripLeft(s);
    SliceOfSuffix(s, left, StripRight(left));
  }

  /** A prefix of a string that does not start with whitespace, ending in a
      non-space, is stripped. */
  lemma PrefixEnds(r: string, left: string)
    requires left == [] || !IsSpace(left[0])
    requires IsPrefix(r, left) && (r == [] || !IsSpace(r[|r| - 1]))
    ensures IsStripped(r)
  {
    if r != [] {
      assert r[0] == left[0];
    }
  }

  /** A prefix `r` of a suffix `left` of `s` sits in `s` where `left` starts. */
  lemma SliceOfSuffix(s: string, left: string, r: string)
    requires |left| <= |s| && left == s[|s| - |left|..]
    requires IsPrefix(r, left) && AllSpace(left[|r|..])
    ensures OccursAt(s, r, |s| - |left|)
    ensures AllSpace(s[|s| - |left| + |r|..])
  {
    var i := |s| - |left|;
    assert s[i..][..|r|] == s[i..i + |r|];
    assert s[i + |r|..] == left[|r|..];
  }

  /** Stripping text that is already stripped changes nothing. */
  lemma StripStripped(s: string)
    requires IsStripped(s)
    ensures Strip(s) == s
  {
  }

  /** Stripping twice strips no more than stripping once. */
  lemma StripIdempotent(s: string)
    ensures Strip(Strip(s)) == Strip(s)
  {
    StripStripped(Strip(s));
  }

  /** `str.strip()` is determined by what it keeps: a stripped prefix of `t`
      followed by whitespace only is `Strip(t)`. */
  lemma StripOfPadded(r: string, t: string)
    requires IsPrefix(r, t) && IsStripped(r) && AllSpace(t[|r|..])
    ensures Strip(t) == r
  {
    if r != [] {
      assert t[0] == r[0];
      assert StripLeft(t) == t;
    }
  }

  /** A stripped prefix of `s` followed by whitespace only up to `m` is what
      stripping `s[..m]` leaves. */
  lemma StripOfPrefix(r: string, s: string, m: nat)
    requires IsPrefix(r, s) && |r| <= m <= |s| && IsStripped(r) && AllSpace(s[|r|..m])
    ensures Strip(s[..m]) == r
  {
    assert s[..m][..|r|] == r;
    assert s[..m][|r|..] == s[|r|..m];
    StripOfPadded(r, s[..m]);
  }

  /** ASCII case folding of one character. */
  function LowerChar(c: char): (d: char)
    ensures 'A' <= c <= 'Z' ==> d as int == c as int + 32
    ensures !('A' <= c <= 'Z') ==> d == c
  {
    if 'A' <= c <= 'Z' then (c as int + 32) as char else c
  }

  /** `str.lower()`, restricted to ASCII letters. */
  function Lower(s: string): (r: string)
    ensures |r| == |s|
    ensures forall i :: 0 <= i < |s| ==> r[i] == LowerChar(s[i])
  {
    if s == [] then [] else [LowerChar(s[0])] + Lower(s[1..])
  }

  /** Python's `pat in s`. */
  ghost predicate Contains(s: string, pat: string) {
    exists i: nat :: OccursAt(s, pat, i)
  }

  /** The first index at or after `from` where `pat` occurs in `s`, as `str.find` searches. */
  function FindFrom(s: string, pat: string, from: nat): (r: Option<nat>)
    ensures r.Some? ==> from <= r.value && OccursAt(s, pat, r.value)
    ensures r.Some? ==> forall j: nat :: from <= j < r.value ==> !OccursAt(s, pat, j)
    ensures r.None? ==> forall j: nat :: from <= j ==> !OccursAt(s, pat, j)
    decreases |s| - from
  {
    if from + |pat| > |s| then None
    else if s[from..from + |pat|] == pat then Some(from)
    else FindFrom(s, pat, from + 1)
  }

  /** The first index where `pat` occurs in `s`; `None` exactly when `pat in s` is false. */
  function Find(s: string, pat: string): (r: Option<nat>)
    ensures r.Some? <==> Contains(s, pat)
    ensures r.Some? ==> OccursAt(s, pat, r.value) && forall j: nat :: j < r.value ==> !OccursAt(s, pat, j)
  {
    FindFrom(s, pat, 0)
  }

  /** An occurrence inside a prefix is an occurrence in the whole string. */
  lemma OccursInPrefix(s: string, k: nat, pat: string, j: nat)
    requires k <= |s| && OccursAt(s[..k], pat, j)
    ensures OccursAt(s, pat, j)
  {
    assert s[..k][j..j + |pat|] == s[j..j + |pat|];
  }

  /** `s.split(sep)[0]`: the text before the first occurrence of `sep`, or all of `s`.
      Python rejects an empty separator, hence the precondition. */
  function SplitFirst(s: string, sep: string): (r: string)
    requires |sep| > 0
    ensures IsPrefix(r, s)
    ensures !Contains(r, sep)
    ensures Contains(s, sep) ==> Find(s, sep) == Some(|r|)
    ensures !Contains(s, sep) ==> r == s
  {
    match Find(s, sep)
    case None => s
    case Some(k) =>
      var r := s[..k];
      assert !Contains(r, sep) by {
        forall j: nat | OccursAt(r, sep, j) ensures false {
          OccursInPrefix(s, k, sep, j);
        }
      }
      r
  }

  /** An occurrence inside a slice is an occurrence in the whole string. */
  lemma OccursInSlice(s: string, i: nat, k: nat, pat: string, j: nat)
    requires i <= k <= |s| && OccursAt(s[i..k], pat, j)
    ensures OccursAt(s, pat, i + j)
  {
    var t := s[i..k];
    assert t[j..j + |pat|] == pat;
    assert forall m :: 0 <= m < |pat| ==> s[i + j + m] == t[j + m] == pat[m];
    assert s[i + j..i + j + |pat|] == pat;
  }

  /** A slice of a string free of `pat` is free of `pat` too. */
  lemma SliceAvoids(s: string, i: nat, k: nat, pat: string)
    requires i <= k <= |s| && !Contains(s, pat)
    ensures !Contains(s[i..k], pat)
  {
    forall j: nat | OccursAt(s[i..k], pat, j) ensures false {
      OccursInSlice(s, i, k, pat, j);
    }
  }

  /** Stripping a string free of `pat` leaves it free of `pat`. */
  lemma StripAvoids(s: string, pat: string)
    requires !Contains(s, pat)
    ensures !Contains(Strip(s), pat)
  {
    var i := LeadingSpace(s);
    var r := Strip(s);
    assert r == s[i..i + |r|];
    SliceAvoids(s, i, i + |r|, pat);
  }

  /** A prefix of a string free of `pat` is free of `pat` too. */
  lemma PrefixAvoids(r: string, s: string, pat: string)
    requires IsPrefix(r, s) && !Contains(s, pat)
    ensures !Contains(r, pat)
  {
    SliceAvoids(s, 0, |r|, pat);
    assert s[0..|r|] == r;
  }

  /** A prefix of `s` free of `pat` ends before any occurrence of `pat` in `s` is complete. */
  lemma PrefixStopsBefore(r: string, s: string, pat: string, k: nat)
    requires IsPrefix(r, s) && !Contains(r, pat) && OccursAt(s, pat, k)
    ensures |r| < k + |pat|
  {
    if k + |pat| <= |r| {
      assert r[k..k + |pat|] == s[k..k + |pat|];
      assert OccursAt(r, pat, k);
    }
  }
}
