/**
 * extract_and_merge_tables_from_pdf in material_data_scraper.py, from the tables pdfplumber
 * returns onwards: the page/table merge loop, then the cleanup of the merged DataFrame into
 * (Properties, Metric, English) rows.
 *
 * A DataFrame row is a Line: its index label and its cells. Labels start as positions in the
 * merged table (concat with ignore_index) and keep their value when rows are dropped, so after
 * dropna they can have gaps; the trimming step depends on that.
 */
module Tables {
  import opened Wrappers
  import opened Text

  // ---------------------------------------------------------------------------------------
  // Input: pages of tables as pdfplumber extracts them

  /** One extracted row; pdfplumber gives None for a cell it could not read. */
  type RawRow = seq<Option<string>>

  /** One extracted table: its first row is the header (the DataFrame's column names), the rest its data. */
  datatype RawTable = RawTable(header: RawRow, body: seq<RawRow>)

  type RawPage = seq<RawTable>

  /** The tables of one page that are merged: all but the first, and none when there is at most one. */
  function PageDataTables(page: RawPage): seq<RawTable>
  {
    if |page| > 1 then page[1..] else []
  }

  /** The merged tables of all pages, in page order. */
  function DataTables(pages: seq<RawPage>): seq<RawTable>
  {
    if pages == [] then [] else PageDataTables(pages[0]) + DataTables(pages[1..])
  }

  /** The data rows of the given tables, one table after the other; headers are not data. */
  function Bodies(tables: seq<RawTable>): seq<RawRow>
  {
    if tables == [] then [] else tables[0].body + Bodies(tables[1..])
  }

  /** The column names of the merged DataFrame: none until a table has been merged. */
  function MergedColumns(pages: seq<RawPage>): RawRow
  {
    var tables := DataTables(pages);
    if tables == [] then [] else tables[0].header
  }

  /**
   * The layout under which pd.concat lines the tables up by position: every merged table has
   * the same header, and every data row has one cell per column.
   */
  ghost predicate SharedLayout(pages: seq<RawPage>)
  {
    var tables := DataTables(pages);
    forall i :: 0 <= i < |tables| ==>
      tables[i].header == tables[0].header
      && forall r :: r in tables[i].body ==> |r| == |tables[0].header|
  }

  lemma {:induction false} DataTablesAppend(a: seq<RawPage>, b: seq<RawPage>)
    ensures DataTables(a + b) == DataTables(a) + DataTables(b)
  {
    if a == [] {
      assert a + b == b;
    } else {
      assert (a + b)[1..] == a[1..] + b;
      DataTablesAppend(a[1..], b);
    }
  }

  lemma {:induction false} BodiesAppend(a: seq<RawTable>, b: seq<RawTable>)
    ensures Bodies(a + b) == Bodies(a) + Bodies(b)
  {
    if a == [] {
      assert a + b == b;
    } else {
      assert (a + b)[1..] == a[1..] + b;
      BodiesAppend(a[1..], b);
    }
  }

  /**
   * Lines 22-27: for every page with more than one table, every table but the first becomes a
   * DataFrame (row 0 naming the columns) and is appended to the merged table.
   */
  method MergeTables(pages: seq<RawPage>) returns (columns: RawRow, rows: seq<RawRow>)
    ensures columns == MergedColumns(pages)
    ensures rows == Bodies(DataTables(pages))
  {
    columns, rows := [], [];
    var merged := false;
    ghost var done: seq<RawTable> := [];
    for p := 0 to |pages|
      invariant done == DataTables(pages[..p])
      invariant rows == Bodies(done)
      invariant merged == (done != [])
      invariant columns == if done == [] then [] else done[0].header
    {
      var extracted := pages[p];
      if |extracted| > 1 {
        for t := 1 to |extracted|
          invariant done == DataTables(pages[..p]) + extracted[1..t]
          invariant rows == Bodies(done)
          invariant merged == (done != [])
          invariant columns == if done == [] then [] else done[0].header
        {
          var table := extracted[t];
          if !merged {
            columns := table.header;
            merged := true;
          }
          assert Bodies(done + [table]) == rows + table.body by {
            BodiesAppend(done, [table]);
          }
          assert done + [table] == DataTables(pages[..p]) + extracted[1..t + 1] by {
            assert extracted[1..t + 1] == extracted[1..t] + [table];
          }
          rows := rows + table.body;
          done := done + [table];
        }
        assert extracted[1..|extracted|] == PageDataTables(extracted);
      }
      assert DataTables(pages[..p + 1]) == DataTables(pages[..p]) + PageDataTables(pages[p]) by {
        assert pages[..p + 1] == pages[..p] + [pages[p]];
        DataTablesAppend(pages[..p], [pages[p]]);
      }
    }
    assert pages[..|pages|] == pages;
  }

  /** The merged rows are exactly the data rows of the second and later tables of each page. */
  lemma {:induction false} MergedRowsExactly(pages: seq<RawPage>)
    ensures forall r :: r in Bodies(DataTables(pages)) <==>
      exists p, t :: 0 <= p < |pages| && 1 <= t < |pages[p]| && r in pages[p][t].body
  {
    if pages != [] {
      MergedRowsExactly(pages[1..]);
      BodiesAppend(PageDataTables(pages[0]), DataTables(pages[1..]));
      BodiesOfTables(PageDataTables(pages[0]));
      forall r | r in Bodies(DataTables(pages))
        ensures exists p, t :: 0 <= p < |pages| && 1 <= t < |pages[p]| && r in pages[p][t].body
      {
        if r in Bodies(PageDataTables(pages[0])) {
          var i :| 0 <= i < |PageDataTables(pages[0])| && r in PageDataTables(pages[0])[i].body;
          assert r in pages[0][i + 1].body;
        } else {
          var p, t :| 0 <= p < |pages[1..]| && 1 <= t < |pages[1..][p]| && r in pages[1..][p][t].body;
          assert r in pages[p + 1][t].body;
        }
      }
      forall r, p, t | 0 <= p < |pages| && 1 <= t < |pages[p]| && r in pages[p][t].body
        ensures r in Bodies(DataTables(pages))
      {
        if p == 0 {
          assert PageDataTables(pages[0])[t - 1] == pages[0][t];
        } else {
          assert pages[1..][p - 1][t] == pages[p][t];
        }
      }
    }
  }

  lemma {:induction false} BodiesOfTables(tables: seq<RawTable>)
    ensures forall r :: r in Bodies(tables) <==> exists i :: 0 <= i < |tables| && r in tables[i].body
  {
    if tables != [] {
      BodiesOfTables(tables[1..]);
      forall r | r in Bodies(tables) ensures exists i :: 0 <= i < |tables| && r in tables[i].body {
        if r !in tables[0].body {
          assert r in Bodies(tables[1..]);
          var i :| 0 <= i < |tables[1..]| && r in tables[1..][i].body;
          assert r in tables[i + 1].body;
        }
      }
      forall r, i | 0 <= i < |tables| && r in tables[i].body ensures r in Bodies(tables) {
        if i > 0 { assert tables[1..][i - 1] == tables[i]; }
      }
    }
  }

  /** A page with at most one table contributes nothing to the merge. */
  lemma PageWithoutDataTables(pages: seq<RawPage>, p: nat)
    requires p < |pages| && |pages[p]| <= 1
    ensures Bodies(DataTables(pages)) == Bodies(DataTables(pages[..p] + pages[p + 1..]))
  {
    assert DataTables(pages) == DataTables(pages[..p]) + DataTables(pages[p..]) by {
      assert pages == pages[..p] + pages[p..];
      DataTablesAppend(pages[..p], pages[p..]);
    }
    assert DataTables(pages[p..]) == DataTables(pages[p + 1..]) by {
      assert pages[p..][0] == pages[p] && pages[p..][1..] == pages[p + 1..];
    }
    DataTablesAppend(pages[..p], pages[p + 1..]);
  }

  /** Under the shared layout every merged row has one cell per merged column. */
  lemma LayoutWidth(pages: seq<RawPage>)
    requires SharedLayout(pages)
    ensures forall r :: r in Bodies(DataTables(pages)) ==> |r| == |MergedColumns(pages)|
  {
    BodiesOfTables(DataTables(pages));
  }

  // ---------------------------------------------------------------------------------------
  // Cells and lines of the merged DataFrame

  /**
   * A DataFrame cell: text, Python's None (as pdfplumber gives it), or NaN (what the two
   * replace calls put in). pandas treats None and NaN alike as null, but map(str) prints
   * them differently.
   */
  datatype Cell = Text(text: string) | PyNone | NaN

  predicate IsNull(c: Cell)
  {
    !c.Text?
  }

  /** Lines 32-33: an empty string or the text 'None' becomes NaN; the None object is kept. */
  function CleanCell(c: Option<string>): Cell
  {
    match c
    case None => PyNone
    case Some(s) => if s == "" || s == "None" then NaN else Text(s)
  }

  /**
   * Lines 32-33 on one row: a cell becomes null exactly when pdfplumber gave None, '' or 'None'
   * (only None stays the None object); any other cell keeps its text.
   */
  function CleanRow(r: RawRow): (cells: seq<Cell>)
    ensures |cells| == |r|
    ensures forall k :: 0 <= k < |r| ==> cells[k] == CleanCell(r[k])
    ensures forall k :: 0 <= k < |r| ==>
      (IsNull(cells[k]) <==> r[k] == None || r[k] == Some("") || r[k] == Some("None"))
      && (cells[k] == PyNone <==> r[k] == None)
      && (cells[k].Text? ==> r[k] == Some(cells[k].text))
  {
    seq(|r|, k requires 0 <= k < |r| => CleanCell(r[k]))
  }

  /** A DataFrame row: its index label and its cells. */
  datatype Line<C> = Line(index: nat, cells: seq<C>)

  ghost predicate Increasing<C>(lines: seq<Line<C>>)
  {
    forall i, j :: 0 <= i < j < |lines| ==> lines[i].index < lines[j].index
  }

  ghost predicate HasWidth<C>(lines: seq<Line<C>>, w: nat)
  {
    forall i :: 0 <= i < |lines| ==> |lines[i].cells| == w
  }

  /** The merged rows after the replacements, labelled 0, 1, ... as pd.concat(..., ignore_index=True) does. */
  function Labelled(rows: seq<RawRow>): (lines: seq<Line<Cell>>)
    ensures |lines| == |rows|
    ensures forall i :: 0 <= i < |rows| ==> lines[i] == Line(i, CleanRow(rows[i]))
    ensures Increasing(lines)
  {
    seq(|rows|, i requires 0 <= i < |rows| => Line(i, CleanRow(rows[i])))
  }

  predicate AllNull(cells: seq<Cell>)
  {
    forall k :: 0 <= k < |cells| ==> IsNull(cells[k])
  }

  /** Boolean-mask selection of DataFrame rows: the elements satisfying `keep`, in order. */
  function Filter<T>(keep: T -> bool, s: seq<T>): (r: seq<T>)
    ensures |r| <= |s|
    ensures forall i :: 0 <= i < |r| ==> r[i] in s && keep(r[i])
    ensures forall i :: 0 <= i < |s| && keep(s[i]) ==> s[i] in r
  {
    if s == [] then []
    else (if keep(s[0]) then [s[0]] else []) + Filter(keep, s[1..])
  }

  /** Every label of `lines` is above `b`. */
  ghost predicate LabelsAbove<C>(lines: seq<Line<C>>, b: int)
  {
    forall i :: 0 <= i < |lines| ==> b < lines[i].index
  }

  lemma {:induction false} FilterLabelsAbove<C>(keep: Line<C> -> bool, s: seq<Line<C>>, b: int)
    requires LabelsAbove(s, b)
    ensures LabelsAbove(Filter(keep, s), b)
  {
    if s != [] {
      assert LabelsAbove(s[1..], b) by {
        assert forall i :: 0 <= i < |s[1..]| ==> s[1..][i] == s[i + 1];
      }
      FilterLabelsAbove(keep, s[1..], b);
    }
  }

  /** A selection of rows keeps the labels in increasing order. */
  lemma {:induction false} FilterIncreasing<C>(keep: Line<C> -> bool, s: seq<Line<C>>)
    requires Increasing(s)
    ensures Increasing(Filter(keep, s))
  {
    if s != [] {
      var rest := s[1..];
      assert Increasing(rest) && LabelsAbove(rest, s[0].index) by {
        assert forall i :: 0 <= i < |rest| ==> rest[i] == s[i + 1];
      }
      FilterIncreasing(keep, rest);
      FilterLabelsAbove(keep, rest, s[0].index);
      var r := Filter(keep, rest);
      if keep(s[0]) {
        ConsIncreasing(s[0], r);
        assert Filter(keep, s) == [s[0]] + r;
      } else {
        assert Filter(keep, s) == r;
      }
    }
  }

  /** A line placed before increasing lines with larger labels keeps them increasing. */
  lemma ConsIncreasing<C>(x: Line<C>, r: seq<Line<C>>)
    requires Increasing(r) && LabelsAbove(r, x.index)
    ensures Increasing([x] + r)
  {
    var out := [x] + r;
    forall i, j | 0 <= i < j < |out| ensures out[i].index < out[j].index {
      assert out[j] == r[j - 1];
      if i > 0 {
        assert out[i] == r[i - 1];
      }
    }
  }

  /** The rows dropna(how='all') keeps: those with a cell that is not null. */
  predicate HasValue(l: Line<Cell>)
  {
    !AllNull(l.cells)
  }

  /** Line 33: dropna(how='all') over all the merged columns, before any column is cut. */
  function DropEmptyRows(lines: seq<Line<Cell>>): seq<Line<Cell>>
  {
    Filter(HasValue, lines)
  }

  /**
   * The positions of the columns kept by lines 34-36 (Properties, Metric, English); column 1,
   * renamed 'None', is dropped.
   */
  const KeptColumns: seq<nat> := [0, 2, 3]

  /** Lines 34-36: keep the first four columns, then drop the second of them. */
  function KeepColumns(lines: seq<Line<Cell>>): (r: seq<Line<Cell>>)
    requires forall i :: 0 <= i < |lines| ==> |lines[i].cells| >= 4
    ensures |r| == |lines| && HasWidth(r, |KeptColumns|)
    ensures forall i :: 0 <= i < |lines| ==>
      r[i].index == lines[i].index && r[i].cells == [lines[i].cells[0], lines[i].cells[2], lines[i].cells[3]]
  {
    seq(|lines|, i requires 0 <= i < |lines| =>
      Line(lines[i].index, seq(|KeptColumns|, k requires 0 <= k < |KeptColumns| => lines[i].cells[KeptColumns[k]])))
  }

  // ---------------------------------------------------------------------------------------
  // Line 39: continuation fill

  const AlternativeSuffix := " (Alternative)"

  /**
   * What DataFrame.ffill() puts into row `i`, column `k` when that cell is null: the text of
   * the nearest non-null cell above it in the same column, if there is one.
   */
  function FillSource(lines: seq<Line<Cell>>, i: nat, k: nat): (r: Option<string>)
    requires i <= |lines| && HasWidth(lines, 3) && k < 3
    ensures r.None? <==> forall j :: 0 <= j < i ==> IsNull(lines[j].cells[k])
    ensures r.Some? ==> exists j :: 0 <= j < i && lines[j].cells[k] == Text(r.value)
                                    && forall m :: j < m < i ==> IsNull(lines[m].cells[k])
    decreases i
  {
    if i == 0 then None
    else if lines[i - 1].cells[k].Text? then Some(lines[i - 1].cells[k].text)
    else FillSource(lines, i - 1, k)
  }

  /** Row `i`, column `k` after the update: null cells with a source get the source text plus the suffix. */
  function FilledCell(lines: seq<Line<Cell>>, i: nat, k: nat): Cell
    requires i < |lines| && HasWidth(lines, 3) && k < 3
  {
    var c := lines[i].cells[k];
    if IsNull(c) then
      match FillSource(lines, i, k)
      case Some(v) => Text(v + AlternativeSuffix)
      case None => c
    else c
  }

  /**
   * Line 39, merged_table.update(merged_table.ffill().mask(~merged_table.isnull()) + " (Alternative)"),
   * applied to every one of the three columns.
   */
  function FillContinuations(lines: seq<Line<Cell>>): (r: seq<Line<Cell>>)
    requires HasWidth(lines, 3)
    ensures |r| == |lines| && HasWidth(r, 3)
    ensures forall i :: 0 <= i < |lines| ==> r[i].index == lines[i].index
  {
    seq(|lines|, i requires 0 <= i < |lines| =>
      Line(lines[i].index, seq(3, k requires 0 <= k < 3 => FilledCell(lines, i, k))))
  }

  /**
   * What the fill does to one cell: a non-null cell is unchanged; a null cell with a non-null
   * cell above it becomes the nearest such cell's ORIGINAL text plus " (Alternative)" (so
   * suffixes never pile up); a null cell with nothing above it stays as it was.
   */
  lemma FillContinuationsCell(lines: seq<Line<Cell>>, i: nat, k: nat)
    requires HasWidth(lines, 3) && i < |lines| && k < 3
    ensures var c, f := lines[i].cells[k], FillContinuations(lines)[i].cells[k];
      && (!IsNull(c) ==> f == c)
      && (IsNull(c) && (forall j :: 0 <= j < i ==> IsNull(lines[j].cells[k])) ==> f == c)
      && (IsNull(c) && (exists j :: 0 <= j < i && !IsNull(lines[j].cells[k])) ==>
            exists j :: 0 <= j < i && lines[j].cells[k].Text?
                        && f == Text(lines[j].cells[k].text + AlternativeSuffix)
                        && forall m :: j < m < i ==> IsNull(lines[m].cells[k]))
  {
    assert FillContinuations(lines)[i].cells[k] == FilledCell(lines, i, k);
  }

  // ---------------------------------------------------------------------------------------
  // Lines 42-45: map(str) and section trimming

  /** Line 42, map(str): None prints as "None" and NaN as "nan". */
  function CellText(c: Cell): string
  {
    match c
    case Text(s) => s
    case PyNone => "None"
    case NaN => "nan"
  }

  function Stringify(lines: seq<Line<Cell>>): (r: seq<Line<string>>)
    ensures |r| == |lines|
    ensures forall i :: 0 <= i < |lines| ==>
      r[i].index == lines[i].index && |r[i].cells| == |lines[i].cells|
      && forall k :: 0 <= k < |lines[i].cells| ==> r[i].cells[k] == CellText(lines[i].cells[k])
  {
    seq(|lines|, i requires 0 <= i < |lines| =>
      Line(lines[i].index, seq(|lines[i].cells|, k requires 0 <= k < |lines[i].cells| => CellText(lines[i].cells[k]))))
  }

  /** row.str.contains('properties', case=False).any() */
  predicate MentionsProperties(line: Line<string>)
  {
    exists k :: 0 <= k < |line.cells| && ContainsIgnoreCase(line.cells[k], "properties")
  }

  /** The rows line 45 keeps. */
  predicate NoMention(line: Line<string>)
  {
    !MentionsProperties(line)
  }

  /** Line 43: the least index label among the rows mentioning "properties" (index.min()). */
  function MinMentionLabel(lines: seq<Line<string>>): (r: Option<nat>)
    ensures r.None? <==> forall i :: 0 <= i < |lines| ==> !MentionsProperties(lines[i])
    ensures r.Some? ==>
      (exists i :: 0 <= i < |lines| && MentionsProperties(lines[i]) && lines[i].index == r.value)
      && forall i :: 0 <= i < |lines| && MentionsProperties(lines[i]) ==> r.value <= lines[i].index
  {
    if lines == [] then None
    else
      var rest := MinMentionLabel(lines[1..]);
      assert forall i :: 1 <= i < |lines| ==> lines[i] == lines[1..][i - 1];
      if MentionsProperties(lines[0]) then
        match rest
        case None => Some(lines[0].index)
        case Some(m) => Some(if lines[0].index <= m then lines[0].index else m)
      else rest
  }

  datatype NormalizeError =
    | TooFewColumns    // line 35: the four new column names do not fit (also: nothing was merged)
    | NoPropertiesRow  // lines 43-44: index.min() is NaN and iloc cannot slice with it

  /**
   * Lines 43-45 as written: the least index becomes a POSITION for iloc (a start past the end
   * gives nothing), then every row mentioning "properties" is dropped.
   */
  function TrimSection(lines: seq<Line<string>>): Result<seq<Line<string>>, NormalizeError>
  {
    match MinMentionLabel(lines)
    case None => Err(NoPropertiesRow)
    case Some(first) =>
      Ok(Filter(NoMention, if first <= |lines| then lines[first..] else []))
  }

  /** `out` keeps, in label order, some rows of `lines`, none of which mentions "properties". */
  ghost predicate SectionOf(lines: seq<Line<string>>, out: seq<Line<string>>)
  {
    Increasing(out) && forall i :: 0 <= i < |out| ==> out[i] in lines && !MentionsProperties(out[i])
  }

  /**
   * The trim fails exactly when no row mentions "properties"; otherwise it keeps, in order, the
   * rows that do not mention "properties" and sit at a POSITION at least the least label of
   * the rows that do, and no other row.
   */
  lemma TrimSectionSpec(lines: seq<Line<string>>)
    requires Increasing(lines)
    ensures TrimSection(lines).Err? <==> forall i :: 0 <= i < |lines| ==> !MentionsProperties(lines[i])
    ensures TrimSection(lines).Ok? ==> SectionOf(lines, TrimSection(lines).value)
    ensures TrimSection(lines).Ok? ==>
      forall i :: 0 <= i < |lines| && !MentionsProperties(lines[i]) ==>
        (lines[i] in TrimSection(lines).value <==> MinMentionLabel(lines).value <= i)
  {
    match MinMentionLabel(lines)
    case None =>
    case Some(first) =>
      if first <= |lines| {
        TrimSuffix(lines, first);
        forall i | 0 <= i < |lines| && !MentionsProperties(lines[i])
          ensures lines[i] in Filter(NoMention, lines[first..]) <==> first <= i
        {
          SuffixMembership(lines, first, i);
        }
      } else {
        assert Filter(NoMention, []) == [];
      }
  }

  /** A row with no mention survives the trim of the suffix from position `k` exactly when it lies in that suffix. */
  lemma SuffixMembership(lines: seq<Line<string>>, k: nat, i: nat)
    requires Increasing(lines) && k <= |lines| && i < |lines| && !MentionsProperties(lines[i])
    ensures lines[i] in Filter(NoMention, lines[k..]) <==> k <= i
  {
    var tail := lines[k..];
    if k <= i {
      assert tail[i - k] == lines[i];
      assert NoMention(tail[i - k]);
    }
    if lines[i] in Filter(NoMention, tail) {
      assert lines[i] in tail;
      var m :| 0 <= m < |tail| && tail[m] == lines[i];
      assert k + m == i by {
        assert lines[k + m] == lines[i];
      }
    }
  }

  /** Dropping the mentioning rows from a suffix of increasing rows leaves a section of them. */
  lemma TrimSuffix(lines: seq<Line<string>>, k: nat)
    requires Increasing(lines) && k <= |lines|
    ensures SectionOf(lines, Filter(NoMention, lines[k..]))
  {
    var tail := lines[k..];
    assert Increasing(tail) by {
      assert forall i :: 0 <= i < |tail| ==> tail[i] == lines[k + i];
    }
    FilterIncreasing(NoMention, tail);
    var out := Filter(NoMention, tail);
    forall i | 0 <= i < |out| ensures out[i] in lines {
      assert out[i] in tail;
      var m :| 0 <= m < |tail| && tail[m] == out[i];
      assert lines[k + m] == out[i];
    }
  }

  // ---------------------------------------------------------------------------------------
  // The whole cleanup

  /** One row of the normalised table. */
  datatype PropertyRecord = PropertyRecord(properties: string, metric: string, english: string)

  /** The records of the rows, in their order; the index labels are not part of the result. */
  function Records(lines: seq<Line<string>>): (r: seq<PropertyRecord>)
    requires HasWidth(lines, 3)
    ensures |r| == |lines|
    ensures forall i :: 0 <= i < |lines| ==> [r[i].properties, r[i].metric, r[i].english] == lines[i].cells
  {
    seq(|lines|, i requires 0 <= i < |lines| => PropertyRecord(lines[i].cells[0], lines[i].cells[1], lines[i].cells[2]))
  }

  /** The three-column lines the fill works on: lines 32-36. */
  function Prepared(rows: seq<RawRow>, width: nat): (r: seq<Line<Cell>>)
    requires width >= 4 && forall i :: 0 <= i < |rows| ==> |rows[i]| == width
    ensures HasWidth(r, 3)
  {
    var lines := DropEmptyRows(Labelled(rows));
    assert forall i :: 0 <= i < |lines| ==> lines[i] in Labelled(rows);
    KeepColumns(lines)
  }

  /** Line `line` of the prepared table is merged row `line.index` cleaned, cut to columns 0, 2 and 3. */
  ghost predicate PreparedFrom(rows: seq<RawRow>, line: Line<Cell>)
  {
    var l := line.index;
    l < |rows| && |rows[l]| >= 4 && !AllNull(CleanRow(rows[l]))
    && line.cells == [CleanCell(rows[l][0]), CleanCell(rows[l][2]), CleanCell(rows[l][3])]
  }

  /**
   * After lines 32-36: the rows left are, in order and with their merged positions as labels,
   * exactly the merged rows that are not all null over ALL their cells (column 1 included);
   * each holds the cleaned cells 0, 2 and 3 of its merged row.
   */
  lemma PreparedSpec(rows: seq<RawRow>, width: nat)
    requires width >= 4 && forall i :: 0 <= i < |rows| ==> |rows[i]| == width
    ensures Increasing(Prepared(rows, width))
    ensures forall i :: 0 <= i < |Prepared(rows, width)| ==> PreparedFrom(rows, Prepared(rows, width)[i])
    ensures forall l :: 0 <= l < |rows| && !AllNull(CleanRow(rows[l])) ==>
      exists i :: 0 <= i < |Prepared(rows, width)| && Prepared(rows, width)[i].index == l
  {
    var kept := DropEmptyRows(Labelled(rows));
    DropEmptyRowsSpec(rows);
    var lines := KeepColumns(kept);
    assert lines == Prepared(rows, width);
    forall i | 0 <= i < |lines| ensures PreparedFrom(rows, lines[i]) {
      assert lines[i].index == kept[i].index;
    }
    forall l | 0 <= l < |rows| && !AllNull(CleanRow(rows[l]))
      ensures exists i :: 0 <= i < |lines| && lines[i].index == l
    {
      var i :| 0 <= i < |kept| && kept[i].index == l;
      assert lines[i].index == l;
    }
  }

  /** After lines 32-33 no text cell is '' or 'None': those are null. */
  lemma PreparedNoBlankText(rows: seq<RawRow>, line: Line<Cell>, k: nat)
    requires PreparedFrom(rows, line) && k < 3 && line.cells[k].Text?
    ensures line.cells[k].text != "" && line.cells[k].text != "None"
  {
  }

  /**
   * Line 33: the rows kept by dropna(how='all') are, in order, exactly the merged rows with a
   * cell that is not null, each with its merged position as label.
   */
  lemma DropEmptyRowsSpec(rows: seq<RawRow>)
    ensures var kept := DropEmptyRows(Labelled(rows));
      && Increasing(kept)
      && (forall i :: 0 <= i < |kept| ==>
            kept[i].index < |rows| && kept[i].cells == CleanRow(rows[kept[i].index]) && !AllNull(kept[i].cells))
      && (forall l :: 0 <= l < |rows| && !AllNull(CleanRow(rows[l])) ==>
            exists i :: 0 <= i < |kept| && kept[i].index == l)
  {
    var labelled := Labelled(rows);
    var kept := DropEmptyRows(labelled);
    assert Increasing(labelled);
    FilterIncreasing(HasValue, labelled);
    forall i | 0 <= i < |kept|
      ensures kept[i].index < |rows| && kept[i].cells == CleanRow(rows[kept[i].index]) && !AllNull(kept[i].cells)
    {
      assert kept[i] in labelled;
    }
    forall l | 0 <= l < |rows| && !AllNull(CleanRow(rows[l]))
      ensures exists i :: 0 <= i < |kept| && kept[i].index == l
    {
      assert labelled[l] in kept;
      var i :| 0 <= i < |kept| && kept[i] == labelled[l];
    }
  }

  /** The three-column table after the fill and map(str), before the trim. */
  function FilledText(rows: seq<RawRow>, width: nat): (r: seq<Line<string>>)
    requires width >= 4 && forall i :: 0 <= i < |rows| ==> |rows[i]| == width
    ensures HasWidth(r, 3)
  {
    Stringify(FillContinuations(Prepared(rows, width)))
  }

  /** Lines 31-45 on the merged columns and rows. */
  function Cleanup(columns: RawRow, rows: seq<RawRow>): Result<seq<PropertyRecord>, NormalizeError>
    requires forall i :: 0 <= i < |rows| ==> |rows[i]| == |columns|
  {
    if |columns| < 4 then Err(TooFewColumns)
    else
      match TrimSection(FilledText(rows, |columns|))
      case Err(e) => Err(e)
      case Ok(kept) => Ok(Records(kept))
  }

  /** extract_and_merge_tables_from_pdf, given the tables pdfplumber found on each page. */
  method ExtractAndMergeTables(pages: seq<RawPage>) returns (result: Result<seq<PropertyRecord>, NormalizeError>)
    requires SharedLayout(pages)
    ensures result == (LayoutWidth(pages); Cleanup(MergedColumns(pages), Bodies(DataTables(pages))))
  {
    var columns, rows := MergeTables(pages);
    LayoutWidth(pages);
    result := Cleanup(columns, rows);
  }

  /** The fill and map(str) keep every row's label. */
  lemma FilledTextIncreasing(rows: seq<RawRow>, width: nat)
    requires width >= 4 && forall i :: 0 <= i < |rows| ==> |rows[i]| == width
    ensures Increasing(FilledText(rows, width))
  {
    PreparedSpec(rows, width);
    var prepared := Prepared(rows, width);
    var filled := FillContinuations(prepared);
    var text := Stringify(filled);
    assert text == FilledText(rows, width);
    forall i, j | 0 <= i < j < |text| ensures text[i].index < text[j].index {
      assert text[i].index == prepared[i].index && text[j].index == prepared[j].index;
    }
  }

  /**
   * How the cleanup fails: fewer than four columns fail at the rename; with four or more it
   * fails exactly when no row of the filled table mentions "properties".
   */
  lemma CleanupErrors(columns: RawRow, rows: seq<RawRow>)
    requires forall i :: 0 <= i < |rows| ==> |rows[i]| == |columns|
    ensures Cleanup(columns, rows) == Err(TooFewColumns) <==> |columns| < 4
    ensures |columns| >= 4 ==>
      (Cleanup(columns, rows) == Err(NoPropertiesRow) <==>
         forall i :: 0 <= i < |FilledText(rows, |columns|)| ==> !MentionsProperties(FilledText(rows, |columns|)[i]))
  {
    if |columns| >= 4 {
      FilledTextIncreasing(rows, |columns|);
      TrimSectionSpec(FilledText(rows, |columns|));
    }
  }

  /**
   * What the cleanup returns: one record per kept row of the filled table, in label order; the
   * rows kept are exactly those with no mention of "properties" at a position at least the
   * least label of the rows with one; no field of any record mentions "properties", and every
   * record is the text of some row of the filled table.
   */
  lemma CleanupRecords(columns: RawRow, rows: seq<RawRow>)
    requires forall i :: 0 <= i < |rows| ==> |rows[i]| == |columns|
    ensures Cleanup(columns, rows).Ok? ==>
      var text := FilledText(rows, |columns|);
      var kept := TrimSection(text).value;
      && Cleanup(columns, rows).value == Records(kept)
      && Increasing(kept)
      && (forall i :: 0 <= i < |kept| ==> kept[i] in text)
      && (forall i :: 0 <= i < |text| && !MentionsProperties(text[i]) ==>
            (text[i] in kept <==> MinMentionLabel(text).value <= i))
    ensures Cleanup(columns, rows).Ok? ==>
      var records := Cleanup(columns, rows).value;
      forall i :: 0 <= i < |records| ==>
        && !ContainsIgnoreCase(records[i].properties, "properties")
        && !ContainsIgnoreCase(records[i].metric, "properties")
        && !ContainsIgnoreCase(records[i].english, "properties")
        && exists j :: 0 <= j < |FilledText(rows, |columns|)|
             && FilledText(rows, |columns|)[j].cells == [records[i].properties, records[i].metric, records[i].english]
  {
    if |columns| >= 4 {
      var text := FilledText(rows, |columns|);
      FilledTextIncreasing(rows, |columns|);
      TrimSectionSpec(text);
      if TrimSection(text).Ok? {
        var kept := TrimSection(text).value;
        RecordsOfLines(text, kept);
      }
    }
  }

  lemma RecordsOfLines(text: seq<Line<string>>, kept: seq<Line<string>>)
    requires HasWidth(text, 3)
    requires forall i :: 0 <= i < |kept| ==> kept[i] in text && !MentionsProperties(kept[i])
    ensures HasWidth(kept, 3)
    ensures var records := Records(kept);
      forall i :: 0 <= i < |records| ==>
        && !ContainsIgnoreCase(records[i].properties, "properties")
        && !ContainsIgnoreCase(records[i].metric, "properties")
        && !ContainsIgnoreCase(records[i].english, "properties")
        && exists j :: 0 <= j < |text| && text[j].cells == [records[i].properties, records[i].metric, records[i].english]
  {
    forall i | 0 <= i < |kept| ensures |kept[i].cells| == 3 {
      assert kept[i] in text;
    }
    var records := Records(kept);
    forall i | 0 <= i < |records|
      ensures && !ContainsIgnoreCase(records[i].properties, "properties")
              && !ContainsIgnoreCase(records[i].metric, "properties")
              && !ContainsIgnoreCase(records[i].english, "properties")
              && exists j :: 0 <= j < |text| && text[j].cells == [records[i].properties, records[i].metric, records[i].english]
    {
      assert kept[i] in text;
      assert kept[i].cells == [records[i].properties, records[i].metric, records[i].english];
      assert !MentionsProperties(kept[i]);
    }
  }
}
