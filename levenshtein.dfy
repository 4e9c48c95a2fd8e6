/**
 * Levenshtein edit distance (levenshtein_distance in material_data_scraper.py).
 *
 * Lev is the textbook recurrence on prefixes; LevenshteinDistance is the rolling two-row
 * dynamic programme of the source, proved to compute Lev. The lemmas give the properties
 * the rest of the model relies on: symmetry, zero on equal strings, the length bounds and
 * the two sample values.
 */
module Levenshtein {

  function Min3(x: nat, y: nat, z: nat): (m: nat)
    ensures m <= x && m <= y && m <= z
    ensures m == x || m == y || m == z
  {
    if x <= y && x <= z then x else if y <= z then y else z
  }

  /**
   * The edit distance of `a` and `b`: the fewest single-character insertions, deletions and
   * substitutions turning one into the other. The comparison of characters is exact, so
   * 'Y' and 'y' differ.
   */
  function Lev(a: string, b: string): nat
    decreases |a| + |b|
  {
    if |a| == 0 then |b|
    else if |b| == 0 then |a|
    else
      var i, j := |a| - 1, |b| - 1;
      Min3(Lev(a[..i], b) + 1,
           Lev(a, b[..j]) + 1,
           Lev(a[..i], b[..j]) + (if a[i] == b[j] then 0 else 1))
  }

  /** One cell of the dynamic programme, as the body of the source's inner loop computes it. */
  function Cell(above: nat, left: nat, diagonal: nat, c1: char, c2: char): nat
  {
    Min3(above + 1, left + 1, diagonal + (if c1 != c2 then 1 else 0))
  }

  /** The recurrence of Lev, read at row `i + 1` and column `j + 1` of the table of prefixes. */
  lemma LevStep(s1: string, s2: string, i: nat, j: nat)
    requires i < |s1| && j < |s2|
    ensures Lev(s1[..i + 1], s2[..j + 1])
         == Cell(Lev(s1[..i], s2[..j + 1]), Lev(s1[..i + 1], s2[..j]), Lev(s1[..i], s2[..j]), s1[i], s2[j])
  {
    assert s1[..i + 1][..i] == s1[..i];
    assert s2[..j + 1][..j] == s2[..j];
  }

  /** `row` holds the distances from the first `i` characters of `a` to every prefix of `b`. */
  ghost predicate IsRow(a: string, b: string, i: nat, row: seq<nat>)
    requires i <= |a|
  {
    |row| == |b| + 1 && forall j :: 0 <= j <= |b| ==> row[j] == Lev(a[..i], b[..j])
  }

  /**
   * One pass of the outer loop, stated on values: a row built from the previous one cell by
   * cell, starting from i + 1, is the next row of distances.
   */
  lemma {:induction false} NextRow(a: string, b: string, i: nat, previous: seq<nat>, current: seq<nat>)
    requires i < |a| && IsRow(a, b, i, previous)
    requires |current| == |b| + 1 && current[0] == i + 1
    requires forall j :: 0 <= j < |b| ==> current[j + 1] == Cell(previous[j + 1], current[j], previous[j], a[i], b[j])
    ensures IsRow(a, b, i + 1, current)
  {
    forall j | 0 <= j <= |b| ensures current[j] == Lev(a[..i + 1], b[..j]) {
      var k := 0;
      while k < j
        invariant k <= j && current[k] == Lev(a[..i + 1], b[..k])
      {
        LevStep(a, b, i, k);
        k := k + 1;
      }
    }
  }

  /** `row` holds the distances from the first `i` characters of `a` to the first `j + 1` prefixes of `b`. */
  ghost predicate PartialRow(a: string, b: string, i: nat, row: seq<nat>, j: nat)
    requires i <= |a| && j <= |b|
  {
    |row| == j + 1 && forall k :: 0 <= k <= j ==> row[k] == Lev(a[..i], b[..k])
  }

  /** One pass of the inner loop: appending the next cell extends the partial row by one prefix. */
  lemma ExtendRow(a: string, b: string, i: nat, j: nat, previous: seq<nat>, current: seq<nat>)
    requires i < |a| && j < |b| && IsRow(a, b, i, previous) && PartialRow(a, b, i + 1, current, j)
    ensures PartialRow(a, b, i + 1, current + [Cell(previous[j + 1], current[j], previous[j], a[i], b[j])], j + 1)
  {
    LevStep(a, b, i, j);
  }

  /** Row 0 of the table: the empty prefix of `a` is j edits from the first j characters of `b`. */
  lemma FirstRow(a: string, b: string)
    ensures IsRow(a, b, 0, seq(|b| + 1, j requires 0 <= j <= |b| => j))
  {
    assert a[..0] == [];
  }

  /**
   * The source's algorithm: when the first string is the shorter, call again with the two
   * swapped; an empty second string gives the first's length; otherwise roll two rows over
   * the characters of `s1`, `previous` holding the distances from the prefix of `s1` done so
   * far to every prefix of `s2`.
   */
  method LevenshteinDistance(s1: string, s2: string) returns (d: nat)
    ensures d == Lev(s1, s2)
    ensures s2 == [] ==> d == |s1|
    ensures s1 == [] ==> d == |s2|
    decreases if |s1| < |s2| then 1 else 0
  {
    if |s1| < |s2| {
      d := LevenshteinDistance(s2, s1);
      LevSymmetric(s2, s1);
      return;
    }
    if |s2| == 0 {
      return |s1|;
    }
    var previous: seq<nat> := seq(|s2| + 1, j requires 0 <= j <= |s2| => j);
    FirstRow(s1, s2);
    for i := 0 to |s1|
      invariant IsRow(s1, s2, i, previous)
    {
      var current: seq<nat> := [i + 1];
      assert PartialRow(s1, s2, i + 1, current, 0);
      for j := 0 to |s2|
        invariant PartialRow(s1, s2, i + 1, current, j)
      {
        var insertions := previous[j + 1] + 1;
        var deletions := current[j] + 1;
        var substitutions := previous[j] + (if s1[i] != s2[j] then 1 else 0);
        ExtendRow(s1, s2, i, j, previous, current);
        current := current + [Min3(insertions, deletions, substitutions)];
      }
      previous := current;
    }
    assert s1[..|s1|] == s1 && s2[..|s2|] == s2;
    d := previous[|previous| - 1];
  }

  /** The distance to or from the empty string is the other string's length. */
  lemma LevEmpty(s: string)
    ensures Lev(s, "") == |s| && Lev("", s) == |s|
  {
  }

  /** The distance does not depend on the order of the arguments. */
  lemma {:induction false} LevSymmetric(a: string, b: string)
    ensures Lev(a, b) == Lev(b, a)
    decreases |a| + |b|
  {
    if |a| > 0 && |b| > 0 {
      var i, j := |a| - 1, |b| - 1;
      LevSymmetric(a[..i], b);
      LevSymmetric(a, b[..j]);
      LevSymmetric(a[..i], b[..j]);
    }
  }

  /** A string is at distance zero from itself. */
  lemma {:induction false} LevSelf(a: string)
    ensures Lev(a, a) == 0
  {
    if |a| > 0 {
      LevSelf(a[..|a| - 1]);
    }
  }

  /** The distance is at most the length of the longer string. */
  lemma {:induction false} LevUpperBound(a: string, b: string)
    ensures Lev(a, b) <= if |a| >= |b| then |a| else |b|
    decreases |a| + |b|
  {
    if |a| > 0 && |b| > 0 {
      LevUpperBound(a[..|a| - 1], b[..|b| - 1]);
    }
  }

  /** The distance is at least the difference of the lengths. */
  lemma {:induction false} LevLowerBound(a: string, b: string)
    ensures |a| <= Lev(a, b) + |b| && |b| <= Lev(a, b) + |a|
    decreases |a| + |b|
  {
    if |a| > 0 && |b| > 0 {
      var i, j := |a| - 1, |b| - 1;
      LevLowerBound(a[..i], b);
      LevLowerBound(a, b[..j]);
      LevLowerBound(a[..i], b[..j]);
    }
  }

  /** Putting `p` in front of `a` costs at most |p| edits. */
  lemma {:induction false} LevPrepend(p: string, a: string)
    ensures Lev(a, p + a) <= |p|
  {
    if |a| == 0 {
      assert p + a == p;
    } else {
      var a' := a[..|a| - 1];
      assert (p + a)[..|p + a| - 1] == p + a';
      LevPrepend(p, a');
    }
  }

  /** Putting `p` after `a` costs at most |p| edits. */
  lemma {:induction false} LevAppend(a: string, p: string)
    ensures Lev(a, a + p) <= |p|
  {
    if |p| == 0 {
      assert a + p == a;
      LevSelf(a);
    } else if |a| > 0 {
      var p' := p[..|p| - 1];
      assert (a + p)[..|a + p| - 1] == a + p';
      LevAppend(a, p');
    }
  }

  /** `s` has the characters of `w`; used to state sample values on strings the solver does not unfold eagerly. */
  ghost predicate Spells(s: string, w: string)
  {
    |s| == |w| && forall i :: 0 <= i < |s| ==> s[i] == w[i]
  }

  /** The rows of distances from the prefixes of "Yield" to the prefixes of "Density". */
  const DensityTable: seq<seq<nat>> :=
    [[0, 1, 2, 3, 4, 5, 6, 7],
     [1, 1, 2, 3, 4, 5, 6, 7],
     [2, 2, 2, 3, 4, 4, 5, 6],
     [3, 3, 2, 3, 4, 5, 5, 6],
     [4, 4, 3, 3, 4, 5, 6, 6],
     [5, 5, 4, 4, 4, 5, 6, 7]]

  lemma DensityRow0(a: string, b: string)
    requires Spells(a, "Yield") && Spells(b, "Density") && IsRow(a, b, 0, DensityTable[0])
    ensures IsRow(a, b, 1, DensityTable[1])
  {
    NextRow(a, b, 0, DensityTable[0], DensityTable[1]);
  }

  lemma DensityRow1(a: string, b: string)
    requires Spells(a, "Yield") && Spells(b, "Density") && IsRow(a, b, 1, DensityTable[1])
    ensures IsRow(a, b, 2, DensityTable[2])
  {
    NextRow(a, b, 1, DensityTable[1], DensityTable[2]);
  }

  lemma DensityRow2(a: string, b: string)
    requires Spells(a, "Yield") && Spells(b, "Density") && IsRow(a, b, 2, DensityTable[2])
    ensures IsRow(a, b, 3, DensityTable[3])
  {
    NextRow(a, b, 2, DensityTable[2], DensityTable[3]);
  }

  lemma DensityRow3(a: string, b: string)
    requires Spells(a, "Yield") && Spells(b, "Density") && IsRow(a, b, 3, DensityTable[3])
    ensures IsRow(a, b, 4, DensityTable[4])
  {
    NextRow(a, b, 3, DensityTable[3], DensityTable[4]);
  }

  lemma DensityRow4(a: string, b: string)
    requires Spells(a, "Yield") && Spells(b, "Density") && IsRow(a, b, 4, DensityTable[4])
    ensures IsRow(a, b, 5, DensityTable[5])
  {
    NextRow(a, b, 4, DensityTable[4], DensityTable[5]);
  }

  /** Sample value: "Yield" and "Density" are 7 edits apart ('Y' and 'y' differ). */
  lemma SampleYieldDensity()
    ensures Lev("Yield", "Density") == 7
  {
    YieldDensityRows("Yield", "Density");
  }

  lemma YieldDensityRows(a: string, b: string)
    requires Spells(a, "Yield") && Spells(b, "Density")
    ensures Lev(a, b) == 7
  {
    assert IsRow(a, b, 0, DensityTable[0]);
    DensityRow0(a, b); DensityRow1(a, b); DensityRow2(a, b); DensityRow3(a, b); DensityRow4(a, b);
    assert a[..5] == a && b[..7] == b;
  }

  /** Sample value: "Yield" is a suffix of "Tensile Strength, Yield", so 18 insertions suffice and are needed. */
  lemma SampleTensileStrengthYield()
    ensures Lev("Yield", "Tensile Strength, Yield") == 18
  {
    assert "Tensile Strength, Yield" == "Tensile Strength, " + "Yield";
    LevPrepend("Tensile Strength, ", "Yield");
    LevLowerBound("Yield", "Tensile Strength, Yield");
  }
}
