/**
 * Two places where the cleanup in extract_and_merge_tables_from_pdf does something other than
 * what its own comments say, each modelled twice: as written (in Tables) and as evidently
 * intended (here), with an input on which the two differ.
 *
 * 1. Line 43 takes the least index LABEL of the rows mentioning "properties", and line 44 uses it
 *    as a POSITION (iloc). After dropna the labels have gaps, so the slice starts too late and
 *    loses the rows between the first "properties" row and that position.
 * 2. Line 39 is commented as filling the Properties column, but it updates every column, so an
 *    empty Metric or English cell takes the unit text of the row above.
 */
module TableFindings {
  import opened Wrappers
  import opened Text
  import opened Tables

  // ---------------------------------------------------------------------------------------
  // Finding 1: the section starts at the first "properties" row

  /** The position of the first row mentioning "properties". */
  function FirstMentionPosition(lines: seq<Line<string>>): (r: Option<nat>)
    ensures r.None? <==> forall i :: 0 <= i < |lines| ==> !MentionsProperties(lines[i])
    ensures r.Some? ==>
      r.value < |lines| && MentionsProperties(lines[r.value])
      && forall i :: 0 <= i < r.value ==> !MentionsProperties(lines[i])
  {
    if lines == [] then None
    else if MentionsProperties(lines[0]) then Some(0)
    else
      match FirstMentionPosition(lines[1..])
      case None => None
      case Some(p) =>
        assert forall i :: 1 <= i < |lines| ==> lines[i] == lines[1..][i - 1];
        Some(p + 1)
  }

  /** Lines 43-45 as their comments describe them: from the first "properties" row on, minus every such row. */
  function TrimSectionIntended(lines: seq<Line<string>>): Result<seq<Line<string>>, NormalizeError>
  {
    match FirstMentionPosition(lines)
    case None => Err(NoPropertiesRow)
    case Some(p) => Ok(Filter(NoMention, lines[p..]))
  }

  /** Some row before position `i` mentions "properties". */
  ghost predicate AfterMention(lines: seq<Line<string>>, i: int)
  {
    exists j :: 0 <= j < i && j < |lines| && MentionsProperties(lines[j])
  }

  /**
   * The intended trim fails exactly when no row mentions "properties"; otherwise it keeps,
   * in order, exactly the rows that do not mention "properties" and come after one that does.
   */
  lemma TrimSectionIntendedSpec(lines: seq<Line<string>>)
    requires Increasing(lines)
    ensures TrimSectionIntended(lines).Err? <==> forall i :: 0 <= i < |lines| ==> !MentionsProperties(lines[i])
    ensures TrimSectionIntended(lines).Ok? ==>
      var out := TrimSectionIntended(lines).value;
      && Increasing(out)
      && (forall i :: 0 <= i < |out| ==> out[i] in lines && !MentionsProperties(out[i]))
      && (forall i :: 0 <= i < |lines| && !MentionsProperties(lines[i]) ==> (lines[i] in out <==> AfterMention(lines, i)))
  {
    match FirstMentionPosition(lines)
    case None =>
    case Some(p) =>
      var keep := NoMention;
      var out := Filter(keep, lines[p..]);
      FilterIncreasing(keep, lines[p..]);
      forall i | 0 <= i < |out| ensures out[i] in lines {
        assert out[i] in lines[p..];
      }
      forall i | 0 <= i < |lines| && !MentionsProperties(lines[i])
        ensures lines[i] in out <==> AfterMention(lines, i)
      {
        SectionMembership(lines, p, i);
      }
  }

  /** Row `i` is in the section starting at the first mention `p` exactly when some earlier row mentions "properties". */
  lemma SectionMembership(lines: seq<Line<string>>, p: nat, i: nat)
    requires Increasing(lines) && p < |lines| && i < |lines|
    requires MentionsProperties(lines[p]) && forall j :: 0 <= j < p ==> !MentionsProperties(lines[j])
    requires !MentionsProperties(lines[i])
    ensures lines[i] in Filter(NoMention, lines[p..]) <==> AfterMention(lines, i)
  {
    var tail := lines[p..];
    if AfterMention(lines, i) {
      assert p < i by {
        var j :| 0 <= j < i && MentionsProperties(lines[j]);
      }
      assert tail[i - p] == lines[i];
      assert lines[i] in Filter(NoMention, tail);
    }
    if lines[i] in Filter(NoMention, tail) {
      assert lines[i] in tail;
      var q :| 0 <= q < |tail| && tail[q] == lines[i];
      assert p + q == i by {
        assert lines[p + q] == lines[i];
      }
      assert p != i;
    }
  }

  /** When the labels are the positions (no row was dropped by dropna), line 44 does what was meant. */
  lemma TrimSectionWithoutGaps(lines: seq<Line<string>>)
    requires forall i :: 0 <= i < |lines| ==> lines[i].index == i
    ensures TrimSection(lines) == TrimSectionIntended(lines)
  {
    match FirstMentionPosition(lines)
    case None =>
    case Some(p) =>
      var first := MinMentionLabel(lines).value;
      assert first == p by {
        var i :| 0 <= i < |lines| && MentionsProperties(lines[i]) && lines[i].index == first;
        assert first <= lines[p].index == p;
        assert p <= i;
      }
      assert TrimSection(lines) == Ok(Filter(NoMention, lines[p..]));
  }

  // Sample rows: a section heading at label 2 (labels 0 and 1 were dropped as empty), then two properties.

  const Heading: Line<string> := Line(2, ["Physical Properties", "nan", "nan"])
  const DensityLine: Line<string> := Line(3, ["Density", "8.9 g/cc", "0.32 lb"])
  const HardnessLine: Line<string> := Line(4, ["Hardness", "80", "80"])

  lemma HeadingMentions()
    ensures MentionsProperties(Heading)
  {
    var s, pat := Heading.cells[0], "properties";
    assert Lower(s)[9..19] == Lower(pat) by {
      forall k | 0 <= k < 10 ensures Lower(s)[9 + k] == Lower(pat)[k] {
        assert s[9 + k] == pat[k] || (k == 0 && s[9] == 'P' && pat[0] == 'p');
      }
    }
    assert OccursAt(Lower(s), Lower(pat), 9);
  }

  /** A row whose cells are all shorter than "properties" cannot mention it. */
  lemma ShortCellsDoNotMention(line: Line<string>)
    requires forall k :: 0 <= k < |line.cells| ==> |line.cells[k]| < 10
    ensures !MentionsProperties(line)
  {
    forall k, i | 0 <= k < |line.cells| ensures !OccursAt(Lower(line.cells[k]), Lower("properties"), i) {
    }
  }

  /** The sample section: a heading at position 0 with label 2, then Density and Hardness. */
  const SampleSection: seq<Line<string>> := [Heading, DensityLine, HardnessLine]

  lemma SampleMentions()
    ensures MentionsProperties(SampleSection[0])
    ensures !MentionsProperties(SampleSection[1]) && !MentionsProperties(SampleSection[2])
  {
    HeadingMentions();
    ShortCellsDoNotMention(DensityLine);
    ShortCellsDoNotMention(HardnessLine);
  }

  /**
   * Input that shows finding 1: the heading is at POSITION 0 but has LABEL 2, so the code slices
   * from position 2 and loses Density; the intended trim keeps Density and Hardness.
   */
  lemma TrimSectionDropsRow()
    ensures TrimSection(SampleSection) == Ok([HardnessLine])
    ensures TrimSectionIntended(SampleSection) == Ok([DensityLine, HardnessLine])
  {
    SampleTrimAsWritten();
    SampleTrimIntended();
  }

  lemma SampleTrimAsWritten()
    ensures TrimSection(SampleSection) == Ok([HardnessLine])
  {
    var lines := SampleSection;
    SampleMentions();
    assert MinMentionLabel(lines) == Some(2);
    assert lines[2..] == [HardnessLine];
    var keep := NoMention;
    assert Filter(keep, [HardnessLine]) == [HardnessLine];
  }

  lemma SampleTrimIntended()
    ensures TrimSectionIntended(SampleSection) == Ok([DensityLine, HardnessLine])
  {
    var lines := SampleSection;
    SampleMentions();
    assert FirstMentionPosition(lines) == Some(0);
    assert lines[0..] == lines;
    var keep := NoMention;
    assert Filter(keep, [HardnessLine]) == [HardnessLine];
    assert Filter(keep, [DensityLine, HardnessLine]) == [DensityLine] + Filter(keep, [HardnessLine]);
    assert lines[1..] == [DensityLine, HardnessLine];
    assert Filter(keep, lines) == [] + Filter(keep, lines[1..]);
    assert Filter(keep, lines) == [DensityLine, HardnessLine];
    assert TrimSectionIntended(lines) == Ok(Filter(keep, lines[0..]));
  }

  // ---------------------------------------------------------------------------------------
  // Finding 2: only the Properties column is filled

  /** Line 39 as its comment describes it: the continuation fill of the Properties column alone. */
  function FillPropertiesOnly(lines: seq<Line<Cell>>): (r: seq<Line<Cell>>)
    requires HasWidth(lines, 3)
    ensures |r| == |lines| && HasWidth(r, 3)
    ensures forall i :: 0 <= i < |lines| ==>
      && r[i].index == lines[i].index
      && r[i].cells[0] == FillContinuations(lines)[i].cells[0]
      && r[i].cells[1..] == lines[i].cells[1..]
  {
    seq(|lines|, i requires 0 <= i < |lines| =>
      assert FillContinuations(lines)[i].cells[0] == FilledCell(lines, i, 0);
      Line(lines[i].index, [FilledCell(lines, i, 0), lines[i].cells[1], lines[i].cells[2]]))
  }

  /** A Metric cell and an English cell, the second missing, below a complete row. */
  const Filled: Line<Cell> := Line(0, [Text("Density"), Text("8.9 g/cc"), Text("0.32 lb")])
  const Continued: Line<Cell> := Line(1, [NaN, Text("9.0 g/cc"), NaN])

  /**
   * Input that shows finding 2: the continuation row's empty English cell takes the row above's
   * "0.32 lb" plus the suffix as written, and stays empty as intended; both name the row
   * "Density (Alternative)".
   */
  lemma FillAllColumnsCopiesUnits()
    ensures FillContinuations([Filled, Continued])[1].cells[2] == Text("0.32 lb" + AlternativeSuffix)
    ensures FillPropertiesOnly([Filled, Continued])[1].cells[2] == NaN
    ensures FillContinuations([Filled, Continued])[1].cells[0] == Text("Density" + AlternativeSuffix)
    ensures FillPropertiesOnly([Filled, Continued])[1].cells[0] == Text("Density" + AlternativeSuffix)
  {
    var lines := [Filled, Continued];
    assert FillContinuations(lines)[1].cells[2] == FilledCell(lines, 1, 2);
    assert FillContinuations(lines)[1].cells[0] == FilledCell(lines, 1, 0);
  }

  // ---------------------------------------------------------------------------------------
  // The corrected cleanup

  function IntendedText(rows: seq<RawRow>, width: nat): (r: seq<Line<string>>)
    requires width >= 4 && forall i :: 0 <= i < |rows| ==> |rows[i]| == width
    ensures HasWidth(r, 3)
  {
    Stringify(FillPropertiesOnly(Prepared(rows, width)))
  }

  /** Lines 31-45 with both corrections. */
  function CleanupIntended(columns: RawRow, rows: seq<RawRow>): Result<seq<PropertyRecord>, NormalizeError>
    requires forall i :: 0 <= i < |rows| ==> |rows[i]| == |columns|
  {
    if |columns| < 4 then Err(TooFewColumns)
    else
      match TrimSectionIntended(IntendedText(rows, |columns|))
      case Err(e) => Err(e)
      case Ok(kept) => Ok(Records(kept))
  }

  lemma IntendedTextIncreasing(rows: seq<RawRow>, width: nat)
    requires width >= 4 && forall i :: 0 <= i < |rows| ==> |rows[i]| == width
    ensures Increasing(IntendedText(rows, width))
  {
    PreparedSpec(rows, width);
    var prepared := Prepared(rows, width);
    var text := IntendedText(rows, width);
    forall i, j | 0 <= i < j < |text| ensures text[i].index < text[j].index {
      assert text[i].index == prepared[i].index && text[j].index == prepared[j].index;
    }
  }

  /**
   * The corrected cleanup fails as the code does, and otherwise returns, in order, one record
   * for every row after the first "properties" row that does not mention "properties" itself,
   * and for no row before it.
   */
  lemma CleanupIntendedSpec(columns: RawRow, rows: seq<RawRow>)
    requires forall i :: 0 <= i < |rows| ==> |rows[i]| == |columns|
    ensures CleanupIntended(columns, rows) == Err(TooFewColumns) <==> |columns| < 4
    ensures |columns| >= 4 ==>
      var text := IntendedText(rows, |columns|);
      && (CleanupIntended(columns, rows) == Err(NoPropertiesRow) <==>
            forall i :: 0 <= i < |text| ==> !MentionsProperties(text[i]))
      && (CleanupIntended(columns, rows).Ok? ==>
            var kept := TrimSectionIntended(text).value;
            && CleanupIntended(columns, rows).value == Records(kept)
            && (forall i :: 0 <= i < |kept| ==> kept[i] in text && !MentionsProperties(kept[i]))
            && (forall i :: 0 <= i < |text| && !MentionsProperties(text[i]) ==> (text[i] in kept <==> AfterMention(text, i))))
  {
    if |columns| >= 4 {
      IntendedTextIncreasing(rows, |columns|);
      TrimSectionIntendedSpec(IntendedText(rows, |columns|));
    }
  }
}
