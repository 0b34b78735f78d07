/** Global regular-expression replacement (`s.replace(/re/g, rep)` in JavaScript,
    `re.sub(re, rep, s)` in Python) for patterns that never match the empty string.
    The scan starts at position 0; where the pattern matches, its leftmost match is
    replaced and the scan resumes at the end of that match; elsewhere the character
    is copied and the scan moves on by one. A pattern is given as a matcher that says,
    for a position of the ORIGINAL string, whether a match starts there, where it ends
    and what replaces it, so anchors such as a multiline `^` see the original text. */
module Rewrite {
  import opened Base

  datatype Hit = Hit(end: nat, replacement: string)

  type Matcher = (string, nat) -> Option<Hit>

  /** A match of `m` starts at `i` and covers a non-empty span of `s`. */
  predicate Fires(m: Matcher, s: string, i: nat)
  {
    i < |s| && m(s, i).Some? && i < m(s, i).value.end <= |s|
  }

  /** The rewritten text of `s[i..]`. */
  function ReplaceFrom(s: string, i: nat, m: Matcher): string
    decreases |s| - i
  {
    if i >= |s| then ""
    else if Fires(m, s, i) then m(s, i).value.replacement + ReplaceFrom(s, m(s, i).value.end, m)
    else [s[i]] + ReplaceFrom(s, i + 1, m)
  }

  function ReplaceAll(s: string, m: Matcher): string
  {
    ReplaceFrom(s, 0, m)
  }

  /** The end of the run of characters satisfying `p` that starts at `i`. */
  function RunEnd(s: string, i: nat, p: char -> bool): (e: nat)
    requires i <= |s|
    decreases |s| - i
    ensures i <= e <= |s|
    ensures forall k :: i <= k < e ==> p(s[k])
    ensures e == |s| || !p(s[e])
  {
    if i < |s| && p(s[i]) then RunEnd(s, i + 1, p) else i
  }

  /** Every match from `i` on replaces its span by that same text. */
  predicate NeutralFrom(m: Matcher, s: string, i: nat)
  {
    forall k: nat :: i <= k < |s| && Fires(m, s, k) ==> m(s, k).value.replacement == s[k..m(s, k).value.end]
  }

  /** One step of the rewrite where a match of `m` begins. */
  lemma ReplaceStep(s: string, i: nat, m: Matcher, end: nat, replacement: string)
    requires Fires(m, s, i) && m(s, i).value.end == end && m(s, i).value.replacement == replacement
    ensures ReplaceFrom(s, i, m) == replacement + ReplaceFrom(s, end, m)
  {
  }

  /** A replacement whose every match is neutral leaves the text unchanged; in
      particular a pattern that never matches does. */
  lemma {:induction false} NeutralReplace(m: Matcher, s: string, i: nat)
    requires i <= |s|
    requires NeutralFrom(m, s, i)
    ensures ReplaceFrom(s, i, m) == s[i..]
    decreases |s| - i
  {
    if i < |s| {
      if Fires(m, s, i) {
        var e := m(s, i).value.end;
        NeutralReplace(m, s, e);
        assert s[i..] == s[i..e] + s[e..];
      } else {
        NeutralReplace(m, s, i + 1);
        assert s[i..] == [s[i]] + s[i + 1..];
      }
    }
  }

  /** The run starting at `i` ends at `j` when everything before `j` satisfies
      `p` and `j` does not. */
  lemma {:induction false} RunEndAt(s: string, i: nat, j: nat, p: char -> bool)
    requires i <= j <= |s|
    requires forall k :: i <= k < j ==> p(s[k])
    requires j == |s| || !p(s[j])
    ensures RunEnd(s, i, p) == j
    decreases j - i
  {
    if i < j {
      RunEndAt(s, i + 1, j, p);
    }
  }
}
