# Material-resolution core of Engineering_Toolbox, in Dafny

The toolbox turns a free-text material name into a yield strength for its pipe-stress
calculator. It searches MatWeb, picks the closest search result by Levenshtein distance,
renders that data sheet to PDF, and pulls the sheet's tables out. It then normalises the tables
into `(Properties, Metric, English)` rows and reads the first number of the yield-strength row.
This project models the logic in that chain and proves properties of it. The I/O is left out.

- `Levenshtein`: `levenshtein_distance`. The recursive specification `Lev` is the recurrence on
  prefixes. `LevenshteinDistance` is the source's method: the swap, the early return and the
  two rolling rows built in nested loops. It is proved equal to `Lev`. Lemmas prove symmetry,
  zero distance to itself, the two length bounds, and the two sample values of `check.py`.
- `Selection`: Python's `min(..., key=...)`, the position of the first least key.
- `BestMatch`: `find_best_match`. A loop takes the minimum over lower-cased names, then a
  search finds the first result with that name. Both are proved to give the first closest result.
- `Tables`: `extract_and_merge_tables_from_pdf`, after pdfplumber has returned its tables.
  It covers the page/table merge loop and every cleanup step: `''`/`'None'` to NaN, `dropna`,
  the cut to columns 0, 2 and 3, the continuation fill, `map(str)` and the section trim. Each
  row keeps its index label, and the two failures are explicit errors.
- `TableFindings`: the two places where the cleanup differs from its own comments. Each is
  modelled as intended, proved, and shown to differ on a concrete input.
- `YieldStrength`: the lookup in `get_yield_strength_from_scraper`. It tries the
  case-insensitive substring match, falls back to the case-sensitive Levenshtein-closest
  `Properties` value, and extracts `\d+\.?\d*` from the first selected row's `Metric` text.
- `Text`, `Wrappers`: ASCII lower-casing, substring search, `Option` and `Result`.

Behaviour of the code that the model keeps, where it is easy to miss:

- The two calls in `check.py` give the distances 18 for `("Yield", "Tensile Strength, Yield")`
  and 7 for `("Yield", "Density")`; both values are proved.
- The first table of every page is skipped (line 25 sits inside the page loop), so a page with
  a single table adds no rows.
- The fill at line 39 updates every column, although its comment at line 38 names only
  `Properties` (see Findings).
- Line 45 drops a row when any of its cells contains "properties", ignoring case.
- Line 44 slices by position with the least index label from line 43 (see Findings). With no
  "properties" row that label is NaN and the slice raises; with fewer than four columns the
  rename at line 35 raises. The model returns these as the errors `NoPropertiesRow` and
  `TooFewColumns`.
- `find_best_match` needs a non-empty list, since `min` raises on an empty one; both callers
  (material_data_scraper.py lines 108 and 134) check `if material_results:` first.
- A `Metric` text with no digit makes `str.extract` give NaN, and the function returns NaN
  scaled by 1e6 without raising. The model returns the distinct outcome `NoNumber`.

## Model

| member | source | states |
|---|---|---|
| Levenshtein.Min3 | material_data_scraper.py:62 | the result is at most each argument and equal to one of them |
| Levenshtein.Lev | material_data_scraper.py:50-64 | the edit-distance recurrence on prefixes that the method is proved to compute (LevenshteinDistance); its properties are the Lev* lemmas below |
| Levenshtein.LevStep | material_data_scraper.py:58-62 | one cell of the table, from the cells above, left and diagonal, is the distance of the two prefixes |
| Levenshtein.NextRow | material_data_scraper.py:56-63 | a row built cell by cell from the previous row, starting at i + 1, holds the distances from the next prefix of s1 to every prefix of s2 |
| Levenshtein.LevenshteinDistance | material_data_scraper.py:50-64 | the method returns the recursive edit distance Lev(s1, s2); it returns the other length when either string is empty |
| Levenshtein.LevEmpty | material_data_scraper.py:53-54 | the distance to and from the empty string is the other string's length |
| Levenshtein.LevSymmetric | material_data_scraper.py:51-52 | the distance does not depend on argument order, so the swap changes nothing |
| Levenshtein.LevSelf | material_data_scraper.py:55-64 | a string is at distance 0 from itself |
| Levenshtein.LevUpperBound | material_data_scraper.py:55-64 | the distance is at most the longer length |
| Levenshtein.LevLowerBound | material_data_scraper.py:55-64 | the distance is at least the difference of the lengths |
| Levenshtein.LevPrepend | material_data_scraper.py:55-64 | putting p in front of a costs at most as many edits as p has characters |
| Levenshtein.LevAppend | material_data_scraper.py:55-64 | appending p to a costs at most as many edits as p has characters |
| Levenshtein.YieldDensityRows | check.py:5 | every string spelling "Yield" is 7 edits from every string spelling "Density" |
| Levenshtein.SampleYieldDensity | check.py:5 | the distance of "Yield" and "Density" is 7 (case-sensitive) |
| Levenshtein.SampleTensileStrengthYield | check.py:3 | the distance of "Yield" and "Tensile Strength, Yield" is 18 |
| Text.Lower | material_data_scraper.py:94 | lower-casing keeps the length, leaves no ASCII capital, and leaves every character that is not an ASCII capital as it is (LowerChar does one character) |
| Text.LowerIdempotent | material_data_scraper.py:94 | lower-casing a lower-cased string changes nothing |
| Text.Contains | material_data_scraper.py:45 | true exactly when the pattern occurs at some position: the substring test of str.contains here, at line 43 and at pipe_stress_metric.py:41 |
| Text.ContainsIgnoreCase | pipe_stress_metric.py:41 | true exactly when the lower-cased pattern occurs in the lower-cased text |
| Selection.FirstMin | material_data_scraper.py:94 | the position holds a least key and every earlier key is strictly greater, as Python's min keeps the first minimum |
| Selection.FirstMinUnique | material_data_scraper.py:94 | only one position is the first least one |
| Selection.FirstMinEarliest | material_data_scraper.py:94-98 | no earlier position carries the first least key, so the scan for the minimum's name stops at the minimum's own position |
| BestMatch.FindBestMatch | material_data_scraper.py:92-99 | on a non-empty list the pair returned is the input's first pair with a least distance, the distances being those of Distances: lower-cased query against lower-cased name |
| BestMatch.SampleCopper | material_data_scraper.py:92-99 | for "Copper", "Copper C101" is chosen over "Copper Alloy" |
| Tables.DataTablesAppend | material_data_scraper.py:22-25 | the data tables of two runs of pages are those of each run, concatenated |
| Tables.BodiesAppend | material_data_scraper.py:26-27 | the data rows of two runs of tables are those of each run, concatenated |
| Tables.MergeTables | material_data_scraper.py:22-27 | the loop yields the first data table's header as columns, and every data table's body rows in order |
| Tables.MergedRowsExactly | material_data_scraper.py:24-27 | a row is merged iff it is a body row of a table after the first on its page |
| Tables.BodiesOfTables | material_data_scraper.py:26 | every merged row is a body row of some data table, never its header |
| Tables.PageWithoutDataTables | material_data_scraper.py:24 | a page with at most one table adds no rows |
| Tables.LayoutWidth | material_data_scraper.py:26-27 | under a shared layout, every merged row is as wide as the merged columns |
| Tables.CleanRow | material_data_scraper.py:32-33 | a cell becomes null exactly when pdfplumber gave None, '' or 'None'; it is the None object exactly when pdfplumber gave None; any other cell keeps its own text |
| Tables.Filter | material_data_scraper.py:45 | a selection keeps only elements that pass and keeps every one that passes |
| Tables.FilterIncreasing | material_data_scraper.py:33 | a selection of rows keeps the labels increasing |
| Tables.FillSource | material_data_scraper.py:39 | absent exactly when the column is null all the way above; otherwise the text of the nearest non-null cell above |
| Tables.FillContinuations | material_data_scraper.py:39 | the fill keeps the rows, their labels and the width 3 |
| Tables.FillContinuationsCell | material_data_scraper.py:39 | non-null cells are unchanged; a null cell with nothing above stays null; any other null cell becomes the nearest non-null original text above plus " (Alternative)" |
| Tables.MinMentionLabel | material_data_scraper.py:43 | absent iff no row mentions "properties"; otherwise the least label among the rows that do |
| Tables.TrimSection | material_data_scraper.py:43-45 | the trim as written; its contract is TrimSectionSpec |
| Tables.TrimSectionSpec | material_data_scraper.py:43-45 | the trim fails iff no row mentions "properties"; otherwise it keeps, in order, exactly the rows with no mention whose POSITION is at least the least label of the rows with one |
| Tables.SuffixMembership | material_data_scraper.py:44-45 | a row with no mention survives the trim of the suffix from position k iff its position is at least k |
| Tables.PreparedSpec | material_data_scraper.py:32-36 | the rows left (Labelled, DropEmptyRows, KeepColumns) are exactly the merged rows that are not all null over all columns, in order, labelled by merged position, each cut to cells 0, 2 and 3 |
| Tables.PreparedNoBlankText | material_data_scraper.py:32-33 | no remaining text cell is '' or 'None' |
| Tables.DropEmptyRowsSpec | material_data_scraper.py:33 | dropna keeps, in order, exactly the rows with a non-null cell, with their merged positions as labels |
| Tables.FilledTextIncreasing | material_data_scraper.py:39-42 | the fill and map(str) keep the labels increasing |
| Tables.ExtractAndMergeTables | material_data_scraper.py:18-45 | the result is the cleanup of the merged columns and the merged body rows |
| Tables.Cleanup | material_data_scraper.py:31-45 | the cleanup as written, on the merged columns and rows; its contract is CleanupErrors and CleanupRecords |
| Tables.CleanupErrors | material_data_scraper.py:35-44 | fails with TooFewColumns iff fewer than 4 columns; otherwise fails with NoPropertiesRow iff no filled row mentions "properties" |
| Tables.CleanupRecords | material_data_scraper.py:42-45 | one record per kept row of the filled, printed (Stringify) table, in label order; the rows kept are exactly those with no mention at a position at least the least mention label; no field contains "properties" in any case |
| Tables.RecordsOfLines | material_data_scraper.py:45 | records of kept rows are clean and come from the table |
| TableFindings.FirstMentionPosition | material_data_scraper.py:43-44 | absent iff no row mentions "properties"; otherwise the position of the first row that does |
| TableFindings.TrimSectionIntended | material_data_scraper.py:43-45 | the trim as its comments describe it; its contract is TrimSectionIntendedSpec |
| TableFindings.TrimSectionIntendedSpec | material_data_scraper.py:43-45 | the intended trim fails iff no row mentions "properties"; otherwise it keeps, in order, exactly the rows with no mention that come after a row with one |
| TableFindings.SectionMembership | material_data_scraper.py:44 | a row with no mention is in the section iff an earlier row mentions "properties" |
| TableFindings.TrimSectionWithoutGaps | material_data_scraper.py:43-44 | when labels equal positions, the trim as written and the intended trim agree |
| TableFindings.HeadingMentions | material_data_scraper.py:45 | "Physical Properties" mentions "properties" |
| TableFindings.ShortCellsDoNotMention | material_data_scraper.py:45 | a row with every cell shorter than "properties" does not mention it |
| TableFindings.TrimSectionDropsRow | material_data_scraper.py:43-44 | for a heading labelled 2 at position 0, the code keeps only Hardness, but the intended trim keeps Density and Hardness |
| TableFindings.FillPropertiesOnly | material_data_scraper.py:38-39 | the Properties column is filled as the code fills it, and Metric and English are unchanged |
| TableFindings.FillAllColumnsCopiesUnits | material_data_scraper.py:39 | the code gives an empty English cell "0.32 lb (Alternative)"; the intended fill leaves it NaN; both name the row "Density (Alternative)" |
| TableFindings.IntendedTextIncreasing | material_data_scraper.py:38-42 | the intended fill and map(str) keep the labels increasing |
| TableFindings.CleanupIntended | material_data_scraper.py:31-45 | the cleanup with both corrections; its contract is CleanupIntendedSpec |
| TableFindings.CleanupIntendedSpec | material_data_scraper.py:31-45 | the corrected cleanup fails as the code does; otherwise it returns the records of exactly the rows with no mention that follow a row with a mention |
| YieldStrength.ClosestProperty | pipe_stress_metric.py:46-47 | a Properties value of the table at the least case-sensitive distance (PropertyDistances) from "Yield Strength" |
| YieldStrength.FilterFirst | pipe_stress_metric.py:55 | a selection's first element is the first element that passes; the selection is empty iff none passes |
| YieldStrength.YieldRows | pipe_stress_metric.py:41-52 | the rows selected; their contract is YieldRowsNonEmpty, FirstYieldRow and FirstClosestRow |
| YieldStrength.YieldRowsNonEmpty | pipe_stress_metric.py:44-52 | on a non-empty table the selected rows are never empty |
| YieldStrength.FirstYieldRow | pipe_stress_metric.py:41-55 | the row used is the first direct match if any; otherwise the first row at the least distance |
| YieldStrength.FirstClosestRow | pipe_stress_metric.py:46-49 | without a direct match, the first row equal to the closest value is the first closest row |
| YieldStrength.DigitsEnd | pipe_stress_metric.py:55 | the end of the maximal run of digits at a position |
| YieldStrength.FirstDigit | pipe_stress_metric.py:55 | the first digit position at or after i, or absent iff there is none |
| YieldStrength.TokenEnd | pipe_stress_metric.py:55 | the greedy match at a digit is non-empty and within the text |
| YieldStrength.ExtractNumber | pipe_stress_metric.py:55 | absent iff the text has no digit |
| YieldStrength.DigitsEndCovers | pipe_stress_metric.py:55 | any run of digits from i ends within the run found |
| YieldStrength.DigitsEndExact | pipe_stress_metric.py:55 | a run of digits from i followed by a non-digit is the run found |
| YieldStrength.TokenShape | pipe_stress_metric.py:55 | a match is digits, then more digits or a point and digits |
| YieldStrength.TokenEndBound | pipe_stress_metric.py:55 | no match from a digit ends after the greedy one |
| YieldStrength.TokenEndLongest | pipe_stress_metric.py:55 | the greedy text is a match, and no longer match starts there |
| YieldStrength.ExtractNumberSpec | pipe_stress_metric.py:55-59 | no token iff no digit; otherwise the token is the leftmost and longest match of \d+\.?\d* |
| YieldStrength.SampleMegapascals | pipe_stress_metric.py:55 | "345.6 MPa" gives "345.6" |
| YieldStrength.SampleTwoPoints | pipe_stress_metric.py:55 | "3.4.5" gives "3.4" |
| YieldStrength.SampleNoDigits | pipe_stress_metric.py:55-59 | "N/A" gives no token |
| YieldStrength.ResolveYieldStrength | pipe_stress_metric.py:39-62 | the whole lookup; its contract is ResolveSpec |
| YieldStrength.ResolveSpec | pipe_stress_metric.py:39-62 | NoData iff the table is absent or empty; otherwise the first selected row, which is in the table, with NoNumber iff its Metric has no digit, else the leftmost-longest number token |

## Left out

- Rendering a page to PDF, pdfplumber's `open` and `extract_tables`, and the MatWeb search
  (requests and BeautifulSoup) are network and foreign calls. `ExtractAndMergeTables` takes
  the tables pdfplumber found, per page, as a parameter.
- `retrieve_material_data`, its verbose twin and the `__main__` block are left out. They are
  orchestration, file deletion, CSV output and printing. The "Closest match found" and error
  prints are left out too.
- `Tables.ExtractAndMergeTables`: pandas aligns columns by name when the tables' headers
  differ. The model requires a shared layout, with every body row as wide as its header.
- `Tables.ExtractAndMergeTables`: the `try`/`except` around the loop, which keeps a partial
  merge when pdfplumber fails, is not modelled; pdfplumber is outside the model.
- `Tables.Cleanup` works on a single cell type. pandas gives an all-null column a float dtype,
  and then the string addition at line 39 raises; that failure is not modelled.
- The floating-point parts are left out: `astype(float)`, NaN and the `* 1e6` scaling. The
  model returns the matched token itself.
- `atm_to_pa`, `calculate_inner_radius`, `calculate_hoop_stress`, `calculate_correction_factor`,
  `get_viscosity` (CoolProp) and the interactive `main` are floating-point formulas,
  foreign calls and prompts.
- `Text.Lower`: `str.lower` is modelled on ASCII only, with no Unicode case mapping.
- `YieldStrength.IsDigit`: regex `\d` is modelled as ASCII digits only, without other Unicode digits.
- `Levenshtein.Lev`: the triangle inequality and the minimality of `Lev` over all edit scripts are not proved.
- `Tables.Cleanup`: the cleanup is not proved idempotent. A second run would fail: the output
  has no "properties" row left.

## Findings

| source | as written | input that shows it | evidently intended | confidence | as-written member | corrected member |
|---|---|---|---|---|---|---|
| material_data_scraper.py:43-44 | the least index LABEL of the "properties" rows is used as a POSITION by iloc; after dropna the labels have gaps, so rows after the heading are lost | rows labelled 2, 3, 4: "Physical Properties", "Density", "Hardness" (labels 0 and 1 dropped as empty); the result holds only Hardness | keep every row from the first "properties" row on, as the comment at line 41 says; Density and Hardness are kept | not executed | TableFindings.TrimSectionDropsRow | TableFindings.TrimSectionIntendedSpec |
| material_data_scraper.py:38-39 | the continuation fill updates every column, so an empty Metric or English cell takes the row above's unit text plus " (Alternative)" | rows ("Density", "8.9 g/cc", "0.32 lb") then (NaN, "9.0 g/cc", NaN); the second row's English becomes "0.32 lb (Alternative)" | fill only the Properties column, as the comment at line 38 says; the English cell stays empty | not executed | TableFindings.FillAllColumnsCopiesUnits | TableFindings.FillPropertiesOnly |
