/** The string operations the source relies on: `indexOf`, `replace` with a
    string pattern, a case-insensitive substring test, and the binary string
    order MongoDB sorts by. */
module Strings {

  /** `pat` occurs in `s` starting at position `i`. */
  predicate OccursAt(s: string, pat: string, i: int) {
    0 <= i && i + |pat| <= |s| && s[i..i + |pat|] == pat
  }

  /** The first position at or after `from` where `pat` occurs in `s`, or -1. */
  function IndexFrom(s: string, pat: string, from: nat): (k: int)
    requires from <= |s|
    ensures k == -1 || (from <= k && OccursAt(s, pat, k))
    ensures forall j :: from <= j && (k == -1 || j < k) ==> !OccursAt(s, pat, j)
    decreases |s| - from
  {
    if OccursAt(s, pat, from) then from
    else if |s| <= from + |pat| then -1
    else IndexFrom(s, pat, from + 1)
  }

  /** `s.indexOf(pat)`. */
  function IndexOf(s: string, pat: string): (k: int)
    ensures k == -1 || OccursAt(s, pat, k)
    ensures forall j :: 0 <= j && (k == -1 || j < k) ==> !OccursAt(s, pat, j)
  {
    IndexFrom(s, pat, 0)
  }

  /** `s.replace(pat, rep)` with a string pattern: only the first occurrence is replaced. */
  function ReplaceFirst(s: string, pat: string, rep: string): string {
    var k := IndexOf(s, pat);
    if k == -1 then s else s[..k] + rep + s[k + |pat|..]
  }

  /** When `s` starts with `pat`, removing the first occurrence removes exactly that prefix. */
  lemma ReplaceFirstAtStart(s: string, pat: string)
    requires pat <= s
    ensures ReplaceFirst(s, pat, "") == s[|pat|..]
  {
    assert OccursAt(s, pat, 0);
  }

  /** Only the first occurrence is removed, wherever it stands: text before it
      and every later occurrence are kept. */
  lemma ReplaceFirstKeepsLater(pre: string, pat: string, post: string)
    requires forall j :: 0 <= j < |pre| ==> !OccursAt(pre + pat + post, pat, j)
    ensures ReplaceFirst(pre + pat + post, pat, "") == pre + post
  {
    var s := pre + pat + post;
    assert s[..|pre|] == pre;
    assert s[|pre|..|pre| + |pat|] == pat;
    assert s[|pre| + |pat|..] == post;
    assert OccursAt(s, pat, |pre|);
    var k := IndexOf(s, pat);
    assert k != -1 && k <= |pre|;
    assert k == |pre|;
  }

  /** ASCII lower case; other characters are unchanged. */
  function LowerChar(c: char): char {
    if 'A' <= c <= 'Z' then (c as int - 'A' as int + 'a' as int) as char else c
  }

  function Lower(s: string): string {
    seq(|s|, i requires 0 <= i < |s| => LowerChar(s[i]))
  }

  /** `{ $regex: needle, $options: 'i' }` read as a literal pattern: `needle`
      occurs in `hay` when upper and lower case are not told apart. */
  predicate ContainsIgnoringCase(hay: string, needle: string) {
    IndexOf(Lower(hay), Lower(needle)) != -1
  }

  /** The substring test holds exactly when the lower-cased needle sits somewhere in the lower-cased text. */
  lemma ContainsIgnoringCaseMeans(hay: string, needle: string)
    ensures ContainsIgnoringCase(hay, needle) <==> exists i :: OccursAt(Lower(hay), Lower(needle), i)
  {
    if exists i :: OccursAt(Lower(hay), Lower(needle), i) {
      var i :| OccursAt(Lower(hay), Lower(needle), i);
      assert IndexOf(Lower(hay), Lower(needle)) != -1;
    }
  }

  lemma LowerIdempotent(s: string)
    ensures Lower(Lower(s)) == Lower(s)
  {
  }

  /** The test ignores the case of both the text and the needle. */
  lemma ContainsIgnoresCase(hay: string, needle: string)
    ensures ContainsIgnoringCase(hay, needle) <==> ContainsIgnoringCase(Lower(hay), needle)
    ensures ContainsIgnoringCase(hay, needle) <==> ContainsIgnoringCase(hay, Lower(needle))
  {
    LowerIdempotent(hay);
    LowerIdempotent(needle);
  }

  /** Binary comparison `a <= b`, character by character, a prefix before the longer string. */
  predicate LexLe(a: string, b: string)
    decreases |a|
  {
    a == [] || (b != [] && (a[0] < b[0] || (a[0] == b[0] && LexLe(a[1..], b[1..]))))
  }

  lemma {:induction false} LexLeTotal(a: string, b: string)
    ensures LexLe(a, b) || LexLe(b, a)
    decreases |a|
  {
    if a != [] && b != [] && a[0] == b[0] {
      LexLeTotal(a[1..], b[1..]);
    }
  }

  lemma {:induction false} LexLeTransitive(a: string, b: string, c: string)
    requires LexLe(a, b) && LexLe(b, c)
    ensures LexLe(a, c)
    decreases |a|
  {
    if a != [] && a[0] == b[0] && b[0] == c[0] {
      LexLeTransitive(a[1..], b[1..], c[1..]);
    }
  }
}
