/** String helpers the start step relies on: Python's `str.lower()` restricted
    to ASCII, and Python's `in` operator on strings (substring search). */
module Text {

  /** Lower-cases one character the way `str.lower()` does for ASCII letters. */
  function LowerChar(c: char): char {
    if 'A' <= c <= 'Z' then (c as int + 32) as char else c
  }

  /** `s.lower()` for strings whose upper-case letters are ASCII. */
  function Lower(s: string): (r: string)
    ensures |r| == |s|
    ensures forall i :: 0 <= i < |s| ==> r[i] == LowerChar(s[i])
    ensures forall i :: 0 <= i < |s| ==> !('A' <= r[i] <= 'Z')
  {
    if s == [] then [] else [LowerChar(s[0])] + Lower(s[1..])
  }

  /** `p` occurs in `s` starting at index `i`. */
  ghost predicate OccursAt(p: string, s: string, i: int) {
    0 <= i && i + |p| <= |s| && s[i..i + |p|] == p
  }

  /** Python's `p in s`: a left-to-right scan for an occurrence of `p`. */
  function Contains(s: string, p: string): (r: bool)
    ensures r <==> exists i :: OccursAt(p, s, i)
    decreases |s|
  {
    if |s| < |p| then
      assert forall i :: !OccursAt(p, s, i);
      false
    else if s[..|p|] == p then
      assert OccursAt(p, s, 0);
      true
    else
      var r := Contains(s[1..], p);
      ShiftOccurrence(p, s);
      r
  }

  /** An occurrence in `s[1..]` is an occurrence in `s` one place later, and
      when `p` is not a prefix of `s` every occurrence in `s` is of that kind. */
  lemma ShiftOccurrence(p: string, s: string)
    requires |s| >= |p| && s[..|p|] != p
    ensures (exists i :: OccursAt(p, s[1..], i)) <==> (exists i :: OccursAt(p, s, i))
  {
    if exists i :: OccursAt(p, s[1..], i) {
      var i :| OccursAt(p, s[1..], i);
      assert s[1..][i..i + |p|] == s[i + 1..i + 1 + |p|];
      assert OccursAt(p, s, i + 1);
    }
    if exists i :: OccursAt(p, s, i) {
      var i :| OccursAt(p, s, i);
      assert i != 0;
      assert s[1..][i - 1..i - 1 + |p|] == s[i..i + |p|];
      assert OccursAt(p, s[1..], i - 1);
    }
  }

  /** `p` does not occur in `s` when no position where it would fit starts
      with its first character. */
  lemma AbsentWithoutFirstChar(s: string, p: string)
    requires |p| > 0
    requires forall i :: 0 <= i && i + |p| <= |s| ==> s[i] != p[0]
    ensures !Contains(s, p)
  {
  }

  /** `Lower(s)` is the string `t` that lower-cases `s` character by character. */
  lemma LowerIs(s: string, t: string)
    requires |s| == |t| && forall i :: 0 <= i < |s| ==> LowerChar(s[i]) == t[i]
    ensures Lower(s) == t
  {
  }
}
