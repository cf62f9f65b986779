/**
 * Character and string comparisons used by the classifier and the ranker:
 * the case folding of a JavaScript regular expression with the `i` flag
 * (restricted to ASCII letters), case-insensitive equality and substring
 * search, and the case-sensitive `startsWith`.
 */
module Text {

  /** Folds an ASCII upper-case letter to lower case; every other character is kept. */
  function Lower(c: char): (r: char)
    ensures 'A' <= c <= 'Z' ==> 'a' <= r <= 'z' && r as int == c as int + 32
    ensures !('A' <= c <= 'Z') ==> r == c
  {
    if 'A' <= c <= 'Z' then (c as int + 32) as char else c
  }

  /** The two strings are equal when each character is case folded. */
  predicate EqualFolded(a: string, b: string)
  {
    |a| == |b| && forall i :: 0 <= i < |a| ==> Lower(a[i]) == Lower(b[i])
  }

  /** `keyword` occurs in `s` at offset `i`, ignoring ASCII case. */
  predicate OccursFoldedAt(s: string, keyword: string, i: nat)
  {
    i + |keyword| <= |s| && EqualFolded(s[i..i + |keyword|], keyword)
  }

  /**
   * `keyword` occurs somewhere in `s`, ignoring ASCII case: what
   * `new RegExp(keyword, "i").test(s)` answers when `keyword` holds no
   * regular-expression metacharacter.
   */
  predicate ContainsFolded(s: string, keyword: string)
  {
    exists i: nat | i <= |s| :: OccursFoldedAt(s, keyword, i)
  }

  /** `s.startsWith(keyword)`: case-sensitive prefix test. */
  predicate StartsWith(s: string, keyword: string)
  {
    |keyword| <= |s| && s[..|keyword|] == keyword
  }

  /** A case-sensitive prefix is also a case-insensitive occurrence. */
  lemma StartsWithContains(s: string, keyword: string)
    requires StartsWith(s, keyword)
    ensures ContainsFolded(s, keyword)
  {
    assert OccursFoldedAt(s, keyword, 0);
  }
}
