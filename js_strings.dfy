/**
  The three JavaScript string operations the core relies on, over Dafny
  strings, whose `char`s are Unicode scalar values; indices are therefore
  scalar positions, which agree with JavaScript's UTF-16 positions only
  while no character outside the Basic Multilingual Plane precedes them:
  `indexOf` (job filtering, and the search inside `replace`),
  `lastIndexOf` (repository name), and `replace` with a string pattern.
 */
module JsStrings {

  /** `t` occurs in `s` starting at index `i`. */
  predicate OccursAt(s: string, t: string, i: int) {
    0 <= i && i + |t| <= |s| && s[i..i + |t|] == t
  }

  /** `t` occurs somewhere in `s` (independent of any search procedure). */
  ghost predicate IsSubstring(t: string, s: string) {
    exists i :: OccursAt(s, t, i)
  }

  /** `i` is the leftmost occurrence of `t` in `s`. */
  ghost predicate FirstOccurrence(s: string, t: string, i: int) {
    OccursAt(s, t, i) && forall j :: 0 <= j < i ==> !OccursAt(s, t, j)
  }

  /** `s.indexOf(t, from)`: leftmost occurrence at or after `from`, or -1. */
  function IndexOfFrom(s: string, t: string, from: nat): (r: int)
    requires from <= |s|
    ensures r == -1 || (from <= r && OccursAt(s, t, r))
    ensures forall j :: from <= j && (r == -1 || j < r) ==> !OccursAt(s, t, j)
    decreases |s| - from
  {
    if from + |t| > |s| then -1
    else if s[from..from + |t|] == t then from
    else IndexOfFrom(s, t, from + 1)
  }

  /** `s.indexOf(t)`. An empty `t` is found at 0. */
  function IndexOf(s: string, t: string): (r: int)
    ensures r >= 0 ==> FirstOccurrence(s, t, r)
    ensures r == -1 <==> !IsSubstring(t, s)
    ensures r >= -1
  {
    IndexOfFrom(s, t, 0)
  }

  /** The first occurrence is unique, so `indexOf` returns exactly it. */
  lemma IndexOfFirst(s: string, t: string, i: int)
    requires FirstOccurrence(s, t, i)
    ensures IndexOf(s, t) == i
  {
  }

  /** `s.lastIndexOf(c)` for a one-character search string. */
  function LastIndexOf(s: string, c: char): (r: int)
    ensures -1 <= r < |s|
    ensures r == -1 <==> c !in s
    ensures r >= 0 ==> s[r] == c && c !in s[r + 1..]
    decreases |s|
  {
    if s == [] then -1
    else if s[|s| - 1] == c then |s| - 1
    else
      assert s == s[..|s| - 1] + [s[|s| - 1]];
      LastIndexOf(s[..|s| - 1], c)
  }

  /**
    `s.replace(pat, rep)` with a string pattern: only the leftmost occurrence is
    replaced. JavaScript expands `$&`, `$$`, `` $` `` and `$'` in `rep`; a
    replacement without '$' is inserted literally, and only such a one is modelled.
   */
  function ReplaceFirst(s: string, pat: string, rep: string): (r: string)
    requires '$' !in rep
    ensures !IsSubstring(pat, s) ==> r == s
    ensures IsSubstring(pat, s) ==> |r| == |s| - |pat| + |rep|
    ensures forall ch :: ch in r ==> ch in s || ch in rep
  {
    var i := IndexOf(s, pat);
    if i == -1 then s
    else
      assert forall ch :: ch in s[..i] + s[i + |pat|..] ==> ch in s;
      s[..i] + rep + s[i + |pat|..]
  }

  /** What `replace` does in terms of the leftmost occurrence. */
  lemma ReplaceFirstAt(s: string, pat: string, rep: string, i: int)
    requires '$' !in rep
    requires FirstOccurrence(s, pat, i)
    ensures ReplaceFirst(s, pat, rep) == s[..i] + rep + s[i + |pat|..]
  {
    IndexOfFirst(s, pat, i);
  }
}
