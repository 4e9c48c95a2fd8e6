/**
 * Text helpers shared by the matcher, the table normaliser and the property resolver:
 * ASCII case folding (Python's str.lower restricted to ASCII) and substring search
 * (pandas' str.contains, whose patterns here have no regex metacharacters).
 */
module Text {

  /** Lower-cases one ASCII letter; every other character is left as it is. */
  function LowerChar(c: char): (r: char)
    ensures 'A' <= c <= 'Z' ==> r as int == c as int + 32
    ensures !('A' <= c <= 'Z') ==> r == c
    ensures !('A' <= r <= 'Z')
  {
    if 'A' <= c <= 'Z' then (c as int + 32) as char else c
  }

  /** str.lower() over ASCII. */
  function Lower(s: string): (r: string)
    ensures |r| == |s|
    ensures forall i :: 0 <= i < |s| ==> r[i] == LowerChar(s[i])
    ensures forall i :: 0 <= i < |r| ==> !('A' <= r[i] <= 'Z')
    ensures forall i :: 0 <= i < |s| && !('A' <= s[i] <= 'Z') ==> r[i] == s[i]
  {
    seq(|s|, i requires 0 <= i < |s| => LowerChar(s[i]))
  }

  /** Lower-casing twice is lower-casing once. */
  lemma LowerIdempotent(s: string)
    ensures Lower(Lower(s)) == Lower(s)
  {
    var once := Lower(s);
    assert forall i :: 0 <= i < |once| ==> Lower(once)[i] == once[i];
  }

  /** `pat` occurs in `s` starting at position `i`. */
  ghost predicate OccursAt(s: string, pat: string, i: int)
  {
    0 <= i && i + |pat| <= |s| && s[i..i + |pat|] == pat
  }

  /** Substring test, scanning start positions left to right. */
  function Contains(s: string, pat: string): (r: bool)
    ensures r <==> exists i :: OccursAt(s, pat, i)
    decreases |s|
  {
    if |s| < |pat| then false
    else if s[..|pat|] == pat then
      assert OccursAt(s, pat, 0);
      true
    else
      OccursShift(s, pat);
      Contains(s[1..], pat)
  }

  /** An occurrence that is not at position 0 is an occurrence in the tail, one position earlier. */
  lemma OccursShift(s: string, pat: string)
    requires |s| > 0
    requires !OccursAt(s, pat, 0)
    ensures (exists i :: OccursAt(s, pat, i)) <==> exists i :: OccursAt(s[1..], pat, i)
  {
    forall i | OccursAt(s, pat, i) ensures OccursAt(s[1..], pat, i - 1) {
      assert s[1..][i - 1..i - 1 + |pat|] == s[i..i + |pat|];
    }
    forall i | OccursAt(s[1..], pat, i) ensures OccursAt(s, pat, i + 1) {
      assert s[1..][i..i + |pat|] == s[i + 1..i + 1 + |pat|];
    }
  }

  /** Case-insensitive substring test, as pandas' str.contains(pat, case=False). */
  function ContainsIgnoreCase(s: string, pat: string): (r: bool)
    ensures r <==> exists i :: OccursAt(Lower(s), Lower(pat), i)
  {
    Contains(Lower(s), Lower(pat))
  }
}
