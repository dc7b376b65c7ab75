/** The clean-up applied to every generated reply before it is shown and
    recorded (chatbot_demo.py:44-50 and 103-109): strip the raw text, cut it
    before the first "Human:" and strip again, then cut before the first blank
    line and strip again. */
module Sanitizer {
  import opened Text

  /** The marker of a hallucinated next human turn. */
  const HumanMarker: string := "Human:"

  /** A blank line, taken as the end of the reply. */
  const BreakMarker: string := "\n\n"

  /** One guarded cut: when `marker` occurs in `s`, what stays is the text before
      its first occurrence with the whitespace at both ends removed, and nothing
      else; otherwise `s` stays as it is. */
  function CutAt(s: string, marker: string): (r: string)
    requires |marker| > 0
    ensures !Contains(s, marker) ==> r == s
    ensures !Contains(r, marker)
    ensures Contains(s, marker) ==> IsStripped(r)
    ensures Contains(s, marker) ==>
      var k := Find(s, marker).value;
      var i := LeadingSpace(s[..k]);
      i + |r| <= k && AllSpace(s[..i]) && OccursAt(s, r, i) && AllSpace(s[i + |r|..k])
  {
    if Find(s, marker).Some? then
      var before := SplitFirst(s, marker);
      StripAvoids(before, marker);
      CutFacts(s, before);
      Strip(before)
    else
      s
  }

  /** Stripping a prefix of `s` keeps a slice of `s` with only whitespace
      around it, up to the end of the prefix. */
  lemma CutFacts(s: string, before: string)
    requires IsPrefix(before, s)
    ensures var i := LeadingSpace(before); var r := Strip(before);
      i + |r| <= |before| && AllSpace(s[..i]) && OccursAt(s, r, i) && AllSpace(s[i + |r|..|before|])
  {
    var i := LeadingSpace(before);
    var r := Strip(before);
    StripRemovesOnlySpace(before);
    assert forall j :: 0 <= j < |before| ==> s[j] == before[j];
    assert s[..i] == before[..i];
    assert s[i..i + |r|] == before[i..i + |r|];
    assert s[i + |r|..|before|] == before[i + |r|..];
  }

  /** The reply the demo shows and records for the raw generated text `raw`:
      a prefix of the stripped raw text with neither marker in it. */
  function Sanitize(raw: string): (r: string)
    ensures IsPrefix(r, Strip(raw))
    ensures !Contains(r, HumanMarker) && !Contains(r, BreakMarker)
  {
    var s := Strip(raw);
    var afterHuman := CutAt(s, HumanMarker);
    var r := CutAt(afterHuman, BreakMarker);
    CutKeepsStart(s, HumanMarker);
    CutKeepsStart(afterHuman, BreakMarker);
    PrefixAvoids(r, afterHuman, HumanMarker);
    PrefixOfPrefix(r, afterHuman, s);
    r
  }

  /** The reply is a substring of the stripped raw text: it occurs at its start. */
  lemma SanitizeSubstring(raw: string)
    ensures Contains(Strip(raw), Sanitize(raw))
  {
    var r := Sanitize(raw);
    assert OccursAt(Strip(raw), r, 0);
  }

  /** The reply has no whitespace at either end, and when the stripped raw text
      has neither marker the reply is exactly that text. */
  lemma SanitizeStripped(raw: string)
    ensures IsStripped(Sanitize(raw))
    ensures !Contains(Strip(raw), HumanMarker) && !Contains(Strip(raw), BreakMarker) ==> Sanitize(raw) == Strip(raw)
  {
    var s := Strip(raw);
    CutKeepsStart(s, HumanMarker);
    CutKeepsStart(CutAt(s, HumanMarker), BreakMarker);
  }

  /** Cutting a stripped string keeps its start: the result is a prefix of it
      that ends before the first marker. */
  lemma CutKeepsStart(s: string, marker: string)
    requires |marker| > 0 && IsStripped(s)
    ensures IsStripped(CutAt(s, marker))
    ensures IsPrefix(CutAt(s, marker), s)
    ensures Contains(s, marker) ==> |CutAt(s, marker)| <= Find(s, marker).value
    ensures Contains(s, marker) ==> AllSpace(s[|CutAt(s, marker)|..Find(s, marker).value])
  {
    if Contains(s, marker) {
      var k := Find(s, marker).value;
      var before := s[..k];
      assert before == [] || before[0] == s[0];
      assert StripLeft(before) == before;
      assert LeadingSpace(before) == 0;
    }
  }

  /** Where the reply to `s` ends at the latest: the first index of `s` where
      "Human:" or a blank line begins, or the end of `s` when neither does. */
  function ReplyEnd(s: string): (m: nat)
    ensures m <= |s|
    ensures forall j: nat :: j < m ==> !OccursAt(s, HumanMarker, j) && !OccursAt(s, BreakMarker, j)
    ensures m == |s| || OccursAt(s, HumanMarker, m) || OccursAt(s, BreakMarker, m)
  {
    match (Find(s, HumanMarker), Find(s, BreakMarker))
    case (None, None) => |s|
    case (Some(h), None) => h
    case (None, Some(b)) => b
    case (Some(h), Some(b)) => if h <= b then h else b
  }

  /** The reply keeps all of the stripped raw text before its first marker, save
      the whitespace at the end: from the end of the reply up to `ReplyEnd` there
      is whitespace only. */
  lemma SanitizeKeepsAllBefore(raw: string)
    ensures |Sanitize(raw)| <= ReplyEnd(Strip(raw))
    ensures AllSpace(Strip(raw)[|Sanitize(raw)|..ReplyEnd(Strip(raw))])
  {
    var s := Strip(raw);
    var a := CutAt(s, HumanMarker);
    CutKeepsStart(s, HumanMarker);
    CutKeepsStart(a, BreakMarker);
    TwoCutsKeepAllBefore(s, a, CutAt(a, BreakMarker));
  }

  /** The two cuts of `Sanitize`, as facts about their results: `a` after the
      "Human:" cut of `s`, `r` after the blank-line cut of `a`. */
  lemma TwoCutsKeepAllBefore(s: string, a: string, r: string)
    requires IsPrefix(a, s) && IsStripped(a) && IsPrefix(r, a)
    requires Contains(s, HumanMarker) ==>
      |a| <= Find(s, HumanMarker).value && AllSpace(s[|a|..Find(s, HumanMarker).value])
    requires !Contains(s, HumanMarker) ==> a == s
    requires Contains(a, BreakMarker) ==>
      |r| <= Find(a, BreakMarker).value && AllSpace(a[|r|..Find(a, BreakMarker).value])
    requires !Contains(a, BreakMarker) ==> r == a
    ensures |r| <= ReplyEnd(s) && AllSpace(s[|r|..ReplyEnd(s)])
  {
    var m := ReplyEnd(s);
    var h := if Contains(s, HumanMarker) then Find(s, HumanMarker).value else |s|;
    assert |a| <= h && AllSpace(s[|a|..h]);
    assert m <= h by {
      if Contains(s, HumanMarker) {
        assert OccursAt(s, HumanMarker, h);
      }
    }
    if Contains(a, BreakMarker) {
      BreakCutKeepsAllBefore(s, a, r, h, m);
    } else {
      if m < |a| && OccursAt(s, BreakMarker, m) {
        BreakBounds(a, s, m);
      }
      assert s[|a|..m] == s[|a|..h][..m - |a|];
    }
  }

  /** The case of `TwoCutsKeepAllBefore` where `a` has a blank line: the reply
      ends at that blank line, which is the first marker of `s`. */
  lemma BreakCutKeepsAllBefore(s: string, a: string, r: string, h: nat, m: nat)
    requires IsPrefix(a, s) && IsPrefix(r, a) && |a| <= h && m == ReplyEnd(s)
    requires forall j: nat :: j < h ==> !OccursAt(s, HumanMarker, j)
    requires Contains(a, BreakMarker)
    requires |r| <= Find(a, BreakMarker).value && AllSpace(a[|r|..Find(a, BreakMarker).value])
    ensures |r| <= m && AllSpace(s[|r|..m])
  {
    var b := Find(a, BreakMarker).value;
    assert OccursAt(s, BreakMarker, b) by {
      assert s[..|a|] == a;
      OccursInPrefix(s, |a|, BreakMarker, b);
    }
    assert m == b by {
      if m < b {
        if !OccursAt(s, HumanMarker, m) {
          BreakFirstInPrefix(a, s, m, b);
        }
      }
    }
    assert forall j :: |r| <= j < m ==> s[j] == a[j];
    assert s[|r|..m] == a[|r|..b];
  }

  /** An occurrence of a blank line in `s` before the first one in its prefix `a`
      is impossible, once that first one lies inside `a`. */
  lemma BreakFirstInPrefix(a: string, s: string, j: nat, b: nat)
    requires IsPrefix(a, s) && Find(a, BreakMarker) == Some(b) && j < b
    ensures !OccursAt(s, BreakMarker, j)
  {
    if OccursAt(s, BreakMarker, j) {
      assert a[j..j + |BreakMarker|] == s[j..j + |BreakMarker|];
      assert OccursAt(a, BreakMarker, j);
    }
  }

  /** The reply is the stripped raw text before its first marker, stripped again:
      an independent statement of the whole clean-up. */
  lemma SanitizeIsStripBefore(raw: string)
    ensures Sanitize(raw) == Strip(Strip(raw)[..ReplyEnd(Strip(raw))])
  {
    SanitizeKeepsAllBefore(raw);
    SanitizeStripped(raw);
    StripOfPrefix(Sanitize(raw), Strip(raw), ReplyEnd(Strip(raw)));
  }

  /** Cleaning an already cleaned reply returns it unchanged. */
  lemma SanitizeIdempotent(raw: string)
    ensures Sanitize(Sanitize(raw)) == Sanitize(raw)
  {
    var r := Sanitize(raw);
    SanitizeStripped(raw);
    StripStripped(r);
    SanitizeStripped(r);
  }

  /** Nothing from the first "Human:" of the stripped raw text onward survives. */
  lemma SanitizeStopsBeforeHuman(raw: string)
    requires Contains(Strip(raw), HumanMarker)
    ensures |Sanitize(raw)| <= Find(Strip(raw), HumanMarker).value
  {
    var s := Strip(raw);
    var afterHuman := CutAt(s, HumanMarker);
    CutKeepsStart(s, HumanMarker);
    CutKeepsStart(afterHuman, BreakMarker);
  }

  /** Nothing from the first blank line of the stripped raw text onward survives,
      whether or not a "Human:" marker came before it. */
  lemma SanitizeStopsBeforeBreak(raw: string)
    requires Contains(Strip(raw), BreakMarker)
    ensures |Sanitize(raw)| <= Find(Strip(raw), BreakMarker).value
  {
    SanitizeStripped(raw);
    BreakBounds(Sanitize(raw), Strip(raw), Find(Strip(raw), BreakMarker).value);
  }

  /** A stripped prefix of `s` without a blank line ends before any blank line of `s`. */
  lemma BreakBounds(r: string, s: string, k: nat)
    requires IsPrefix(r, s) && IsStripped(r) && !Contains(r, BreakMarker)
    requires OccursAt(s, BreakMarker, k)
    ensures |r| <= k
  {
    PrefixStopsBefore(r, s, BreakMarker, k);
  }
}
