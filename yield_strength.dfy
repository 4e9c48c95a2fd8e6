/**
 * The table lookup of get_yield_strength_from_scraper in pipe_stress_metric.py: pick the rows
 * about yield strength from the normalised (Properties, Metric, English) table, then pull the
 * first number out of the first such row's Metric text.
 */
module YieldStrength {
  import opened Wrappers
  import opened Text
  import opened Levenshtein
  import opened Selection
  import opened Tables

  /** The property looked up. */
  const Target := "Yield Strength"

  // ---------------------------------------------------------------------------------------
  // Lines 41-52: selecting the rows

  predicate MentionsTarget(r: PropertyRecord)
  {
    ContainsIgnoreCase(r.properties, Target)
  }

  /** Line 41: the rows whose Properties contain "Yield Strength", ignoring case. */
  function DirectMatches(table: seq<PropertyRecord>): seq<PropertyRecord>
  {
    Filter(MentionsTarget, table)
  }

  /** The key of line 47's min: the case-sensitive distance from "Yield Strength" to each Properties value. */
  function PropertyDistances(table: seq<PropertyRecord>): (ds: seq<nat>)
    ensures |ds| == |table|
    ensures forall i :: 0 <= i < |table| ==> ds[i] == Lev(Target, table[i].properties)
  {
    seq(|table|, i requires 0 <= i < |table| => Lev(Target, table[i].properties))
  }

  /** Line 47: the Properties value closest to "Yield Strength", the first one on a tie. */
  function ClosestProperty(table: seq<PropertyRecord>): (p: string)
    requires |table| > 0
    ensures exists i :: 0 <= i < |table| && table[i].properties == p
    ensures forall i :: 0 <= i < |table| ==> Lev(Target, p) <= Lev(Target, table[i].properties)
  {
    table[FirstMin(PropertyDistances(table))].properties
  }

  /** The rows line 49 selects: those whose Properties are exactly `p`. */
  function PropertiesAre(p: string): PropertyRecord -> bool
  {
    (r: PropertyRecord) => r.properties == p
  }

  /** Lines 41-52: the direct matches if there are any, else every row whose Properties equal the closest value. */
  function YieldRows(table: seq<PropertyRecord>): seq<PropertyRecord>
    requires |table| > 0
  {
    var direct := DirectMatches(table);
    if direct != [] then direct
    else
      var closest := ClosestProperty(table);
      Filter(PropertiesAre(closest), table)
  }

  /** The first element a selection keeps is the first element of the sequence that it keeps. */
  lemma FilterFirst<T>(keep: T -> bool, s: seq<T>)
    ensures Filter(keep, s) != [] <==> exists i :: 0 <= i < |s| && keep(s[i])
    ensures Filter(keep, s) != [] ==> FirstKept(keep, s, Filter(keep, s)[0])
  {
    if Filter(keep, s) != [] {
      assert Filter(keep, s)[0] in s;
      FilterHead(keep, s);
    }
  }

  /** `x` is the first element of `s` that `keep` accepts. */
  ghost predicate FirstKept<T>(keep: T -> bool, s: seq<T>, x: T)
  {
    exists i :: 0 <= i < |s| && x == s[i] && keep(s[i]) && forall j :: 0 <= j < i ==> !keep(s[j])
  }

  lemma {:induction false} FilterHead<T>(keep: T -> bool, s: seq<T>)
    requires Filter(keep, s) != []
    ensures FirstKept(keep, s, Filter(keep, s)[0])
  {
    if keep(s[0]) {
      assert Filter(keep, s)[0] == s[0];
    } else {
      var rest := s[1..];
      assert Filter(keep, s) == Filter(keep, rest);
      FilterHead(keep, rest);
      var i :| 0 <= i < |rest| && Filter(keep, rest)[0] == rest[i] && keep(rest[i])
               && forall j :: 0 <= j < i ==> !keep(rest[j]);
      assert s[i + 1] == rest[i];
      assert forall j :: 1 <= j < i + 1 ==> s[j] == rest[j - 1];
    }
  }

  /**
   * On a non-empty table the selection of lines 41-52 is never empty, because the fuzzy
   * candidate is itself a Properties value of the table.
   */
  lemma YieldRowsNonEmpty(table: seq<PropertyRecord>)
    requires |table| > 0
    ensures YieldRows(table) != []
  {
    if DirectMatches(table) == [] {
      var closest := ClosestProperty(table);
      var i :| 0 <= i < |table| && table[i].properties == closest;
      FilterFirst(PropertiesAre(closest), table);
    }
  }

  /**
   * The row lines 41-52 lead to: the first direct match if there is one; otherwise the first
   * row of the table whose Properties value is the first closest one, which is the first row
   * with a least distance to "Yield Strength".
   */
  lemma FirstYieldRow(table: seq<PropertyRecord>)
    requires |table| > 0
    ensures YieldRows(table) != []
    ensures (exists i :: 0 <= i < |table| && MentionsTarget(table[i])) ==>
      exists i :: 0 <= i < |table| && YieldRows(table)[0] == table[i] && MentionsTarget(table[i])
                 && forall j :: 0 <= j < i ==> !MentionsTarget(table[j])
    ensures (forall i :: 0 <= i < |table| ==> !MentionsTarget(table[i])) ==>
      YieldRows(table)[0] == table[FirstMin(PropertyDistances(table))]
  {
    YieldRowsNonEmpty(table);
    FilterFirst(MentionsTarget, table);
    if DirectMatches(table) == [] {
      FirstClosestRow(table);
    }
  }

  /** Without a direct match, the first row carrying the closest value is the first closest row. */
  lemma FirstClosestRow(table: seq<PropertyRecord>)
    requires |table| > 0 && DirectMatches(table) == []
    ensures YieldRows(table) != [] && YieldRows(table)[0] == table[FirstMin(PropertyDistances(table))]
  {
    var ds := PropertyDistances(table);
    var m := FirstMin(ds);
    var keep := PropertiesAre(table[m].properties);
    assert keep(table[m]);
    FilterFirst(keep, table);
    var rows := Filter(keep, table);
    assert YieldRows(table) == rows;
    assert FirstKept(keep, table, rows[0]);
    var i :| 0 <= i < |table| && rows[0] == table[i] && keep(table[i]) && forall j :: 0 <= j < i ==> !keep(table[j]);
    assert i <= m;
    FirstMinEarliest(ds, m, i);
  }

  // ---------------------------------------------------------------------------------------
  // Line 55: str.extract('(\d+\.?\d*)')

  predicate IsDigit(c: char)
  {
    '0' <= c <= '9'
  }

  /** Positions `lo` to `hi` of `s` hold digits. */
  ghost predicate DigitsBetween(s: string, lo: int, hi: int)
  {
    forall k :: lo <= k < hi && 0 <= k < |s| ==> IsDigit(s[k])
  }

  /** `t` is a whole match of \d+\.?\d*: digits, an optional point, digits. */
  ghost predicate IsNumberToken(t: string)
  {
    exists a :: 0 < a <= |t| && DigitsBetween(t, 0, a)
      && (DigitsBetween(t, a, |t|) || (t[a] == '.' && DigitsBetween(t, a + 1, |t|)))
  }

  /** The end of the run of digits starting at `i`. */
  function DigitsEnd(s: string, i: nat): (e: nat)
    requires i <= |s|
    ensures i <= e <= |s| && DigitsBetween(s, i, e)
    ensures e == |s| || !IsDigit(s[e])
    decreases |s| - i
  {
    if i < |s| && IsDigit(s[i]) then DigitsEnd(s, i + 1) else i
  }

  /** The first position at or after `i` that holds a digit. */
  function FirstDigit(s: string, i: nat): (r: Option<nat>)
    requires i <= |s|
    ensures r.None? <==> forall k :: i <= k < |s| ==> !IsDigit(s[k])
    ensures r.Some? ==> i <= r.value < |s| && IsDigit(s[r.value]) && forall k :: i <= k < r.value ==> !IsDigit(s[k])
    decreases |s| - i
  {
    if i == |s| then None
    else if IsDigit(s[i]) then Some(i)
    else FirstDigit(s, i + 1)
  }

  /** The greedy match of \d+\.?\d* at a digit: all the digits, a point if one follows, all the digits after it. */
  function TokenEnd(s: string, i: nat): (e: nat)
    requires i < |s| && IsDigit(s[i])
    ensures i < e <= |s|
  {
    var e := DigitsEnd(s, i);
    if e < |s| && s[e] == '.' then DigitsEnd(s, e + 1) else e
  }

  /** The first match of \d+\.?\d* in `s`, if any (the regex search starts at the first digit). */
  function ExtractNumber(s: string): (r: Option<string>)
    ensures r.None? <==> forall k :: 0 <= k < |s| ==> !IsDigit(s[k])
  {
    match FirstDigit(s, 0)
    case None => None
    case Some(i) => Some(s[i..TokenEnd(s, i)])
  }

  /** `t` occurs in `s` at position `i`. */
  ghost predicate SliceAt(s: string, i: int, t: string)
  {
    0 <= i && i + |t| <= |s| && s[i..i + |t|] == t
  }

  /** `t` is the first match of \d+\.?\d* in `s`: it starts at the first digit and is the longest match there. */
  ghost predicate LeftmostLongest(s: string, t: string)
  {
    exists i :: SliceAt(s, i, t) && IsNumberToken(t)
      && (forall k :: 0 <= k < i ==> !IsDigit(s[k]))
      && forall e :: i + |t| < e <= |s| ==> !IsNumberToken(s[i..e])
  }

  /** A run of digits from `i` to `j` lies within the run DigitsEnd finds. */
  lemma {:induction false} DigitsEndCovers(s: string, i: nat, j: nat)
    requires i <= j <= |s| && DigitsBetween(s, i, j)
    ensures j <= DigitsEnd(s, i)
    decreases j - i
  {
    if i < j {
      DigitsEndCovers(s, i + 1, j);
    }
  }

  /** A run of digits from `i` that stops at `j` is the run DigitsEnd finds. */
  lemma {:induction false} DigitsEndExact(s: string, i: nat, j: nat)
    requires i <= j <= |s| && DigitsBetween(s, i, j)
    requires j == |s| || !IsDigit(s[j])
    ensures DigitsEnd(s, i) == j
    decreases j - i
  {
    if i < j {
      DigitsEndExact(s, i + 1, j);
    }
  }

  /** A match of \d+\.?\d* read off `s` itself: digits up to `i + a`, then digits or a point and digits up to `e`. */
  lemma TokenShape(s: string, i: nat, e: nat) returns (a: nat)
    requires i <= e <= |s| && IsNumberToken(s[i..e])
    ensures 0 < a && i + a <= e
    ensures DigitsBetween(s, i, i + a)
    ensures DigitsBetween(s, i + a, e) || (i + a < e && s[i + a] == '.' && DigitsBetween(s, i + a + 1, e))
  {
    var u := s[i..e];
    a :| 0 < a <= |u| && DigitsBetween(u, 0, a) && (DigitsBetween(u, a, |u|) || (u[a] == '.' && DigitsBetween(u, a + 1, |u|)));
    assert forall k :: i <= k < e ==> s[k] == u[k - i];
  }

  /** Every match of \d+\.?\d* starting at a digit ends no later than the greedy one. */
  lemma TokenEndBound(s: string, i: nat, e: nat)
    requires i < |s| && IsDigit(s[i]) && i <= e <= |s| && IsNumberToken(s[i..e])
    ensures e <= TokenEnd(s, i)
  {
    var a := TokenShape(s, i, e);
    DigitsEndCovers(s, i, i + a);
    if DigitsBetween(s, i + a, e) {
      DigitsEndCovers(s, i, e);
    } else {
      DigitsEndExact(s, i, i + a);
      DigitsEndCovers(s, i + a + 1, e);
    }
  }

  /** The greedy match is a match, and no longer match starts at the same place. */
  lemma TokenEndLongest(s: string, i: nat)
    requires i < |s| && IsDigit(s[i])
    ensures IsNumberToken(s[i..TokenEnd(s, i)])
    ensures forall e :: TokenEnd(s, i) < e <= |s| ==> !IsNumberToken(s[i..e])
  {
    var d := DigitsEnd(s, i);
    var t := s[i..TokenEnd(s, i)];
    assert forall k :: i <= k < TokenEnd(s, i) ==> t[k - i] == s[k];
    var a := d - i;
    assert 0 < a <= |t| && DigitsBetween(t, 0, a);
    if d < |s| && s[d] == '.' {
      assert t[a] == '.' && DigitsBetween(t, a + 1, |t|);
    } else {
      assert a == |t| && DigitsBetween(t, a, |t|);
    }
    forall e | i <= e <= |s| && IsNumberToken(s[i..e]) ensures e <= TokenEnd(s, i) {
      TokenEndBound(s, i, e);
    }
  }

  /** What line 55 extracts: nothing when the text has no digit, otherwise its first match of \d+\.?\d*. */
  lemma ExtractNumberSpec(s: string)
    ensures ExtractNumber(s).None? <==> forall k :: 0 <= k < |s| ==> !IsDigit(s[k])
    ensures ExtractNumber(s).Some? ==> LeftmostLongest(s, ExtractNumber(s).value)
  {
    match FirstDigit(s, 0)
    case None =>
    case Some(i) =>
      TokenEndLongest(s, i);
      var t := s[i..TokenEnd(s, i)];
      assert SliceAt(s, i, t);
  }

  lemma SampleMegapascals()
    ensures ExtractNumber("345.6 MPa") == Some("345.6")
  {
    var s := "345.6 MPa";
    assert FirstDigit(s, 0) == Some(0);
    assert DigitsEnd(s, 3) == 3;
    assert DigitsEnd(s, 0) == 3;
    assert DigitsEnd(s, 5) == 5;
    assert DigitsEnd(s, 4) == 5;
    assert s[0..5] == "345.6";
  }

  lemma SampleTwoPoints()
    ensures ExtractNumber("3.4.5") == Some("3.4")
  {
    var s := "3.4.5";
    assert FirstDigit(s, 0) == Some(0);
    assert DigitsEnd(s, 1) == 1;
    assert DigitsEnd(s, 0) == 1;
    assert DigitsEnd(s, 3) == 3;
    assert DigitsEnd(s, 2) == 3;
    assert s[0..3] == "3.4";
  }

  lemma SampleNoDigits()
    ensures ExtractNumber("N/A") == None
  {
  }

  // ---------------------------------------------------------------------------------------
  // Lines 39-62: the whole lookup

  /**
   * The outcome of the lookup: no table (None is returned), a row whose Metric text has no
   * number (the extraction yields NaN), or a row and its number token (scaled by 1e6 in the code).
   */
  datatype YieldLookup = NoData | NoNumber(record: PropertyRecord) | Found(record: PropertyRecord, token: string)

  /** get_yield_strength_from_scraper, given what retrieve_material_data returned. */
  function ResolveYieldStrength(data: Option<seq<PropertyRecord>>): YieldLookup
  {
    match data
    case None => NoData
    case Some(table) =>
      if table == [] then NoData
      else
        var rows := YieldRows(table);
        if rows == [] then NoData
        else
          match ExtractNumber(rows[0].metric)
          case None => NoNumber(rows[0])
          case Some(token) => Found(rows[0], token)
  }

  /**
   * What the lookup returns: nothing exactly for an absent or empty table; otherwise the row of
   * FirstYieldRow with the first number of its Metric text, or the row alone when that text has
   * no digit.
   */
  lemma ResolveSpec(data: Option<seq<PropertyRecord>>)
    ensures ResolveYieldStrength(data) == NoData <==> data.None? || data.value == []
    ensures ResolveYieldStrength(data) != NoData ==>
      var table, r := data.value, ResolveYieldStrength(data).record;
      && r == YieldRows(table)[0]
      && (r in table)
      && (ResolveYieldStrength(data).NoNumber? <==> forall k :: 0 <= k < |r.metric| ==> !IsDigit(r.metric[k]))
      && (ResolveYieldStrength(data).Found? ==> LeftmostLongest(r.metric, ResolveYieldStrength(data).token))
  {
    if data.Some? && data.value != [] {
      var table := data.value;
      YieldRowsNonEmpty(table);
      FirstYieldRow(table);
      var r := YieldRows(table)[0];
      if DirectMatches(table) == [] {
        assert r == table[FirstMin(PropertyDistances(table))];
      }
      ExtractNumberSpec(r.metric);
    }
  }
}
