/** Calendar tables turned into chunks: month and date extraction from cell
    text, one chunk per row, and the table-count check.

    A table is what the PDF reader hands over: a header row of optional
    column names, rows of optional cell strings of the same width, and the
    page and table position the reader records. */
module TableExtractor {
  import opened Wrappers
  import opened Text
  import opened Seqs
  import opened Patterns
  import opened Documents
  import opened Collect

  /** The first month, from index `k` of `Months` on, whose lower-cased
      name occurs in the lower-cased text. */
  function MonthIndexFrom(text: string, k: nat): (r: Option<nat>)
    requires k <= |Months|
    ensures r.Some? ==> k <= r.value < |Months| && Contains(LowerStr(text), LowerStr(Months[r.value]))
    ensures r.Some? ==> forall j :: k <= j < r.value ==> !Contains(LowerStr(text), LowerStr(Months[j]))
    ensures r.None? <==> forall j :: k <= j < |Months| ==> !Contains(LowerStr(text), LowerStr(Months[j]))
    decreases |Months| - k
  {
    if k == |Months| then None
    else if Contains(LowerStr(text), LowerStr(Months[k])) then Some(k)
    else MonthIndexFrom(text, k + 1)
  }

  /** Month `k` is the first in calendar order whose name the text mentions. */
  predicate FirstMonthIn(text: string, k: nat) {
    && k < |Months|
    && Contains(LowerStr(text), LowerStr(Months[k]))
    && forall j :: 0 <= j < k ==> !Contains(LowerStr(text), LowerStr(Months[j]))
  }

  /** `extract_month_from_text`: nothing for empty text, else the canonical
      name of the first month in calendar order (not text order) that the
      text mentions in any case. */
  function ExtractMonth(text: string): (r: Option<string>)
    ensures |text| == 0 ==> r == None
    ensures r.Some? ==> exists k: nat :: FirstMonthIn(text, k) && r.value == Months[k]
    ensures |text| > 0 && r.None? ==> forall j :: 0 <= j < |Months| ==> !Contains(LowerStr(text), LowerStr(Months[j]))
  {
    if |text| == 0 then None
    else match MonthIndexFrom(text, 0)
      case Some(k) => Some(Months[k])
      case None => None
  }

  /** A month name is spelled, in any case, somewhere in `t`. */
  predicate NamesMonth(t: string) {
    exists j: nat, k :: j <= |t| && 0 <= k < |Months| && SpelledAt(t, j, Months[k], true)
  }

  /** A word spelled inside `s[a..b]` is spelled in the slice. */
  lemma SpelledInSlice(s: string, a: nat, q: nat, b: nat, w: string)
    requires a <= q && q + |w| <= b <= |s|
    requires SpelledAt(s, q, w, true)
    ensures SpelledAt(s[a..b], q - a, w, true)
  {
    SliceOfSlice(s, a, b, q - a, q - a + |w|);
  }

  /** A day-range match starts with a digit and spells a month. */
  lemma DayRangeNamesMonth(s: string, i: nat, e: nat)
    requires i <= |s| && DayRangeAt(s, i) == Some(e)
    ensures IsDigit(s[i..e][0]) && NamesMonth(s[i..e])
  {
    var q := SkipDateFiller(s, i);
    var m := MonthAt(s, q, true).value;
    var k := MonthAtIndex(s, q, true);
    SpelledInSlice(s, i, q, e, Months[k]);
  }

  /** The span `extract_date_from_text` returns: the leftmost day-range match,
      else the leftmost day-month-year match. */
  function DateSpan(text: string): (r: Option<Span>)
    ensures r.Some? ==> r.value.start < r.value.end <= |text|
  {
    if |text| == 0 then None
    else match Search(DayRange, text)
      case Some(sp) => Some(sp)
      case None => Search(DayMonthYearAnyCase, text)
  }

  /** A day-month-year match is also a day-range match at the same position:
      the day is one or two digits, the spaces are date filler, the month
      starts where the filler ends. */
  lemma SecondImpliesFirst(s: string, i: nat)
    requires i <= |s| && MatchAt(DayMonthYearAnyCase, s, i).Some?
    ensures MatchAt(DayRange, s, i).Some?
  {
    MatchAtDayMonthYear(s, i);
    DayMonthYearIsDayRange(s, i);
    MatchAtDayRange(s, i);
  }

  lemma DayMonthYearIsDayRange(s: string, i: nat)
    requires i <= |s| && DayMonthYearAt(s, i, true).Some?
    ensures DayRangeAt(s, i).Some?
  {
    var d, w := DayMonthYearParts(s, i);
    FillerEnds(s, i, w);
    DayThenSpacesShape(s, i, d, w);
    DayRangeFrom(s, i, w);
  }

  /** The pieces of a day-month-year match: a day of one or two digits ending
      at `d`, spaces up to `w`, and a month starting at `w` with a letter. */
  lemma DayMonthYearParts(s: string, i: nat) returns (d: nat, w: nat)
    requires i <= |s| && DayMonthYearAt(s, i, true).Some?
    ensures i < d <= i + 2 && d < w < |s|
    ensures forall j :: i <= j < d ==> IsDigit(s[j])
    ensures forall j :: d <= j < w ==> IsSpace(s[j])
    ensures MonthAt(s, w, true).Some? && !IsDateFiller(s[w])
  {
    d := SkipDigits(s, i);
    w := SkipSpaces(s, d);
    var k := MonthAtIndex(s, w, true);
    MonthKeys(k);
    assert IsLetter(Lower(s[w])) by {
      assert LowerStr(s[w..w + |Months[k]|])[0] == Lower(s[w]);
      assert LowerStr(Months[k])[0] == Lower(Months[k][0]);
    }
  }

  /** A digit, a filler run of day-range shape and a month make a day-range match. */
  lemma DayRangeFrom(s: string, i: nat, q: nat)
    requires i < |s| && IsDigit(s[i]) && SkipDateFiller(s, i) == q
    requires DayRangeShape(s[i..q]) && MonthAt(s, q, true).Some?
    ensures DayRangeAt(s, i).Some?
  {
  }

  /** A day of one or two digits and its spaces, as a slice, have the day-range shape. */
  lemma DayThenSpacesShape(s: string, i: nat, d: nat, w: nat)
    requires i < d <= i + 2 && d < w <= |s|
    requires forall j :: i <= j < d ==> IsDigit(s[j])
    requires forall j :: d <= j < w ==> IsSpace(s[j])
    ensures DayRangeShape(s[i..w])
  {
    var t := s[i..w];
    assert forall j :: 0 <= j < |t| ==> t[j] == s[i + j];
    ShapeOfDayThenSpaces(t, d - i);
  }

  /** Digits then spaces then a non-filler character: the filler run ends there. */
  lemma FillerEnds(s: string, i: nat, w: nat)
    requires i <= w < |s| && !IsDateFiller(s[w])
    requires forall j :: i <= j < w ==> IsDigit(s[j]) || IsSpace(s[j])
    ensures SkipDateFiller(s, i) == w
    decreases w - i
  {
    if i < w {
      FillerEnds(s, i + 1, w);
    }
  }

  /** One or two digits followed by at least one space has the day-range shape. */
  lemma ShapeOfDayThenSpaces(t: string, a: nat)
    requires 1 <= a <= 2 && a < |t|
    requires forall j :: 0 <= j < a ==> IsDigit(t[j])
    requires forall j :: a <= j < |t| ==> IsSpace(t[j])
    ensures DayRangeShape(t)
  {
    assert SkipDigits(t, 0) == a by { SkipDigitsTo(t, 0, a); }
    assert SkipSpaces(t, a) == |t| by { SkipSpacesTo(t, a); }
  }

  lemma SkipDigitsTo(t: string, i: nat, a: nat)
    requires i <= a <= |t| && (a < |t| ==> !IsDigit(t[a]))
    requires forall j :: i <= j < a ==> IsDigit(t[j])
    ensures SkipDigits(t, i) == a
    decreases a - i
  {
    if i < a {
      SkipDigitsTo(t, i + 1, a);
    }
  }

  lemma SkipSpacesTo(t: string, i: nat)
    requires i <= |t| && forall j :: i <= j < |t| ==> IsSpace(t[j])
    ensures SkipSpaces(t, i) == |t|
    decreases |t| - i
  {
    if i < |t| {
      SkipSpacesTo(t, i + 1);
    }
  }

  /** The second date pattern never decides the answer: the span is always
      the leftmost day-range match. */
  lemma DateSpanIsFirstPattern(text: string)
    ensures DateSpan(text) == if |text| == 0 then None else Search(DayRange, text)
  {
    if |text| > 0 && Search(DayRange, text).None? {
      forall j | 0 <= j < |text|
        ensures MatchAt(DayMonthYearAnyCase, text, j).None?
      {
        if MatchAt(DayMonthYearAnyCase, text, j).Some? {
          SecondImpliesFirst(text, j);
        }
      }
    }
  }

  /** `extract_date_from_text`: the matched text, a piece of the input. */
  function ExtractDate(text: string): (r: Option<string>)
    ensures |text| == 0 ==> r == None
    ensures r.Some? ==> exists a, b :: 0 <= a < b <= |text| && r.value == text[a..b]
  {
    match DateSpan(text)
    case Some(sp) => Some(text[sp.start..sp.end])
    case None => None
  }

  /** A date found is a piece of the text that starts with a digit and
      spells a month name; none is found exactly when no day-range matches. */
  lemma ExtractDateShape(text: string)
    ensures ExtractDate(text).Some? ==>
      |ExtractDate(text).value| > 0 && IsDigit(ExtractDate(text).value[0]) && NamesMonth(ExtractDate(text).value)
    ensures ExtractDate(text).None? <==> forall j :: 0 <= j < |text| ==> MatchAt(DayRange, text, j).None?
  {
    DateSpanIsFirstPattern(text);
    if DateSpan(text).Some? {
      var sp := DateSpan(text).value;
      DayRangeNamesMonth(text, sp.start, sp.end);
    }
  }

  /** The day-range pattern matches all of `2024 Januari`. */
  lemma FourDigitDayRange(s: string)
    requires s == "2024 Januari"
    ensures MatchAt(DayRange, s, 0) == Some(12)
  {
    FillerEnds(s, 0, 5);
    var t := s[0..5];
    SkipDigitsTo(t, 0, 4);
    SkipSpacesTo(t, 4);
    assert DayRangeShape(t);
    assert MonthAt(s, 5, true) == Some(12);
    MatchAtDayRange(s, 0);
  }

  /** With no dash and no second number, the two day groups share one run of
      up to four digits: a year-like number before a month is taken whole. */
  lemma ExtractDateFourDigits()
    ensures ExtractDate("2024 Januari") == Some("2024 Januari")
  {
    var s := "2024 Januari";
    FourDigitDayRange(s);
    var sp := Search(DayRange, s).value;
    assert sp == Span(0, 12);
    assert s[0..12] == s;
  }

  /** A table as the PDF reader hands it over: the first row of cells as
      column names (a cell may be missing), the remaining rows, and the page
      and table position recorded in the `_source_page` and `_table_index`
      columns, when present. */
  datatype Table = Table(header: seq<Option<string>>, rows: seq<seq<Option<string>>>,
                         page: Option<int>, index: Option<int>)

  /** A column is rendered unless its name starts with an underscore. */
  predicate Visible(name: string) {
    !StartsWith(name, "_")
  }

  /** The rendered text of one cell: empty for a missing or empty cell and
      for the text `nan`, otherwise the stripped text. */
  function CellText(v: Option<string>): (r: string)
    ensures r != "" ==> v.Some? && v.value != "nan" && r == Strip(v.value)
  {
    match v
    case None => ""
    case Some(x) => if x == "" || x == "nan" then "" else Strip(x)
  }

  /** A cell renders as nothing exactly when it is missing, is `nan`, or is
      blank. */
  lemma CellTextBlank(v: Option<string>)
    ensures CellText(v) == "" <==> v.None? || v.value == "nan" || AllSpaces(v.value)
  {
    if v.Some? {
      StripBlank(v.value);
    }
  }

  /** One rendered `name: value` pair of a row. */
  datatype Cell = Cell(name: string, text: string)

  /** A cell is shown when its column is visible and its text is not empty. */
  predicate Shown(c: Cell) {
    Visible(c.name) && c.text != ""
  }

  /** The shown cells of a row, in column order (pairing names and cells
      position by position). */
  function RowCells(names: seq<string>, row: seq<Option<string>>): (r: seq<Cell>)
    ensures |r| <= |names|
  {
    if |names| == 0 || |row| == 0 then []
    else
      var c := Cell(names[0], CellText(row[0]));
      (if Shown(c) then [c] else []) + RowCells(names[1..], row[1..])
  }

  /** The shown cells are exactly the visible columns with non-empty text. */
  lemma {:induction false} RowCellsSpec(names: seq<string>, row: seq<Option<string>>)
    requires |row| == |names|
    ensures forall m :: 0 <= m < |RowCells(names, row)| ==> Shown(RowCells(names, row)[m])
    ensures forall j :: 0 <= j < |names| && Shown(Cell(names[j], CellText(row[j]))) ==>
      Cell(names[j], CellText(row[j])) in RowCells(names, row)
  {
    if |names| > 0 {
      RowCellsSpec(names[1..], row[1..]);
      forall j | 1 <= j < |names|
        ensures names[j] == names[1..][j - 1] && row[j] == row[1..][j - 1]
      {
      }
    }
  }

  /** Each shown cell comes from a column of the row. */
  lemma {:induction false} RowCellOrigin(names: seq<string>, row: seq<Option<string>>, m: nat) returns (j: nat)
    requires |row| == |names| && m < |RowCells(names, row)|
    ensures j < |names| && RowCells(names, row)[m] == Cell(names[j], CellText(row[j]))
  {
    var c := Cell(names[0], CellText(row[0]));
    if Shown(c) && m == 0 {
      j := 0;
    } else {
      var j' := RowCellOrigin(names[1..], row[1..], if Shown(c) then m - 1 else m);
      j := j' + 1;
    }
  }

  /** A row shows nothing exactly when all its visible columns are blank. */
  lemma RowBlank(names: seq<string>, row: seq<Option<string>>)
    requires |row| == |names|
    ensures RowCells(names, row) == [] <==>
      forall j :: 0 <= j < |names| && Visible(names[j]) ==> CellText(row[j]) == ""
  {
    RowCellsSpec(names, row);
    if RowCells(names, row) != [] {
      var j := RowCellOrigin(names, row, 0);
    }
  }

  /** The present values, in order. */
  function Present<T>(xs: seq<Option<T>>): (r: seq<T>)
    ensures |r| <= |xs|
  {
    if |xs| == 0 then []
    else Present(xs[..|xs| - 1]) + (if xs[|xs| - 1].Some? then [xs[|xs| - 1].value] else [])
  }

  /** `Present` keeps every present value and nothing else. */
  lemma {:induction false} PresentMembers<T>(xs: seq<Option<T>>)
    ensures forall i :: 0 <= i < |Present(xs)| ==> Some(Present(xs)[i]) in xs
    ensures forall k :: 0 <= k < |xs| && xs[k].Some? ==> xs[k].value in Present(xs)
  {
    if |xs| > 0 {
      var init := xs[..|xs| - 1];
      PresentMembers(init);
      forall k | 0 <= k < |xs| - 1
        ensures xs[k] == init[k]
      {
      }
    }
  }

  /** The text of `name: value` for each shown cell. */
  function CellLines(cells: seq<Cell>): (r: seq<string>)
    ensures |r| == |cells|
    ensures forall m :: 0 <= m < |cells| ==> r[m] == cells[m].name + ": " + cells[m].text
  {
    seq(|cells|, m requires 0 <= m < |cells| => cells[m].name + ": " + cells[m].text)
  }

  /** The month each shown cell names, if any. */
  function CellMonths(cells: seq<Cell>): (r: seq<Option<string>>)
    ensures |r| == |cells|
    ensures forall m :: 0 <= m < |cells| ==> r[m] == ExtractMonth(cells[m].text)
  {
    seq(|cells|, m requires 0 <= m < |cells| => ExtractMonth(cells[m].text))
  }

  /** The date each shown cell holds, if any. */
  function CellDates(cells: seq<Cell>): (r: seq<Option<string>>)
    ensures |r| == |cells|
    ensures forall m :: 0 <= m < |cells| ==> r[m] == ExtractDate(cells[m].text)
  {
    seq(|cells|, m requires 0 <= m < |cells| => ExtractDate(cells[m].text))
  }

  /** `months_list` after the loop over the cells: each month found, once,
      in the order first found. */
  function RowMonths(cells: seq<Cell>): seq<string> {
    Dedup(Present(CellMonths(cells)))
  }

  /** `dates_list` after the loop over the cells. */
  function RowDates(cells: seq<Cell>): seq<string> {
    Dedup(Present(CellDates(cells)))
  }

  /** The value lists hold each value found in some cell exactly once, and
      nothing that no cell yields. */
  lemma FoundValues(found: seq<Option<string>>)
    ensures NoDuplicates(Dedup(Present(found)))
    ensures forall i :: 0 <= i < |Dedup(Present(found))| ==> Some(Dedup(Present(found))[i]) in found
    ensures forall m :: 0 <= m < |found| && found[m].Some? ==> found[m].value in Dedup(Present(found))
  {
    var p := Present(found);
    PresentMembers(found);
    DedupMembers(p);
    DedupOrder(p);
    forall m | 0 <= m < |found| && found[m].Some?
      ensures found[m].value in Dedup(p)
    {
      var i :| 0 <= i < |p| && p[i] == found[m].value;
    }
  }

  /** The months list names canonical months, each once, exactly those the
      shown cells mention. */
  lemma RowMonthsSpec(cells: seq<Cell>)
    ensures NoDuplicates(RowMonths(cells))
    ensures forall i :: 0 <= i < |RowMonths(cells)| ==> RowMonths(cells)[i] in Months
    ensures forall m :: 0 <= m < |cells| && ExtractMonth(cells[m].text).Some? ==>
      ExtractMonth(cells[m].text).value in RowMonths(cells)
  {
    FoundValues(CellMonths(cells));
    forall i | 0 <= i < |RowMonths(cells)|
      ensures RowMonths(cells)[i] in Months
    {
      var m :| 0 <= m < |cells| && CellMonths(cells)[m] == Some(RowMonths(cells)[i]);
    }
  }

  /** The dates list holds each date found in a shown cell, once; every entry
      starts with a digit and spells a month. */
  lemma RowDatesSpec(cells: seq<Cell>)
    ensures NoDuplicates(RowDates(cells))
    ensures forall i :: 0 <= i < |RowDates(cells)| ==>
      |RowDates(cells)[i]| > 0 && IsDigit(RowDates(cells)[i][0]) && NamesMonth(RowDates(cells)[i])
    ensures forall m :: 0 <= m < |cells| && ExtractDate(cells[m].text).Some? ==>
      ExtractDate(cells[m].text).value in RowDates(cells)
  {
    FoundValues(CellDates(cells));
    forall i | 0 <= i < |RowDates(cells)|
      ensures |RowDates(cells)[i]| > 0 && IsDigit(RowDates(cells)[i][0]) && NamesMonth(RowDates(cells)[i])
    {
      var m :| 0 <= m < |cells| && CellDates(cells)[m] == Some(RowDates(cells)[i]);
      ExtractDateShape(cells[m].text);
    }
  }

  /** Every key a table chunk's metadata may carry: the internal
      `months_list` and `dates_list` are not among them. */
  const ChunkKeys: set<string> :=
    {"source", "page", "table_index", "doc_type", "month", "months", "date", "dates"}

  /** The metadata of a row's chunk: the fixed fields, then `month`/`months`
      and `date`/`dates` only when the lists are non-empty. */
  function RowMetadata(fileName: string, t: Table, months: seq<string>, dates: seq<string>): (r: Metadata)
    ensures r.Keys <= ChunkKeys
    ensures "source" in r && "page" in r && "table_index" in r && "doc_type" in r
    ensures ("month" in r <==> |months| > 0) && ("months" in r <==> |months| > 0)
    ensures ("date" in r <==> |dates| > 0) && ("dates" in r <==> |dates| > 0)
    ensures r["source"] == Str(fileName) && r["doc_type"] == Str("kalender")
    ensures r["page"] == Int(t.page.GetOr(0)) && r["table_index"] == Int(t.index.GetOr(0))
    ensures |months| > 0 ==> r["month"] == Str(months[0]) && r["months"] == Str(Join(", ", months))
    ensures |dates| > 0 ==> r["date"] == Str(dates[0]) && r["dates"] == Str(Join(", ", dates))
  {
    var base := map["source" := Str(fileName), "page" := Int(t.page.GetOr(0)),
                     "table_index" := Int(t.index.GetOr(0)), "doc_type" := Str("kalender")];
    var withMonths := if |months| > 0
      then base["month" := Str(months[0])]["months" := Str(Join(", ", months))]
      else base;
    if |dates| > 0
    then withMonths["date" := Str(dates[0])]["dates" := Str(Join(", ", dates))]
    else withMonths
  }

  /** The chunk of one row, or nothing when the row shows no cell. */
  function RowChunk(names: seq<string>, row: seq<Option<string>>, fileName: string, t: Table): (r: Option<Doc>)
    ensures r.None? <==> RowCells(names, row) == []
    ensures r.Some? ==> r.value.content == Join(" | ", CellLines(RowCells(names, row)))
    ensures r.Some? ==>
      r.value.metadata == RowMetadata(fileName, t, RowMonths(RowCells(names, row)), RowDates(RowCells(names, row)))
  {
    var cells := RowCells(names, row);
    if |cells| == 0 then None
    else Some(Doc(Join(" | ", CellLines(cells)),
                  RowMetadata(fileName, t, RowMonths(cells), RowDates(cells))))
  }

  /** The column names once none is missing. */
  function Names(header: seq<Option<string>>): (r: seq<string>)
    ensures |r| == |header|
  {
    seq(|header|, j requires 0 <= j < |header| => header[j].GetOr(""))
  }

  /** `table_to_chunks`: a missing column name fails as soon as a row is
      rendered (`None.startswith`); otherwise the chunks of the rows that
      show a cell, in row order. */
  function TableToChunks(t: Table, fileName: string): (r: Result<seq<Doc>>)
    ensures r.Failure? <==> |t.rows| > 0 && None in t.header
    ensures r.Failure? ==> r.error.AttributeError?
  {
    if |t.rows| > 0 && None in t.header
    then Failure(AttributeError("'NoneType' object has no attribute 'startswith'"))
    else Success(FilterMap(row => RowChunk(Names(t.header), row, fileName, t), t.rows))
  }

  /** Some shown cell mentions a month. */
  predicate SomeCellMonth(cells: seq<Cell>) {
    exists m :: 0 <= m < |cells| && ExtractMonth(cells[m].text).Some?
  }

  /** Some shown cell holds a date. */
  predicate SomeCellDate(cells: seq<Cell>) {
    exists m :: 0 <= m < |cells| && ExtractDate(cells[m].text).Some?
  }

  /** Some shown cell mentions a month exactly when the months list is not empty. */
  lemma RowMonthsPresent(cells: seq<Cell>)
    ensures |RowMonths(cells)| > 0 <==> SomeCellMonth(cells)
  {
    FoundValues(CellMonths(cells));
    if |RowMonths(cells)| > 0 {
      var m :| 0 <= m < |cells| && CellMonths(cells)[m] == Some(RowMonths(cells)[0]);
    }
  }

  /** Some shown cell holds a date exactly when the dates list is not empty. */
  lemma RowDatesPresent(cells: seq<Cell>)
    ensures |RowDates(cells)| > 0 <==> SomeCellDate(cells)
  {
    FoundValues(CellDates(cells));
    if |RowDates(cells)| > 0 {
      var m :| 0 <= m < |cells| && CellDates(cells)[m] == Some(RowDates(cells)[0]);
    }
  }

  /** A chunk's month keys are present exactly when some shown cell
      mentions a month, and its date keys when some shown cell holds a date. */
  lemma RowChunkKeys(names: seq<string>, row: seq<Option<string>>, fileName: string, t: Table)
    requires RowChunk(names, row, fileName, t).Some?
    ensures var md := RowChunk(names, row, fileName, t).value.metadata;
      ("month" in md <==> SomeCellMonth(RowCells(names, row))) &&
      ("months" in md <==> SomeCellMonth(RowCells(names, row))) &&
      ("date" in md <==> SomeCellDate(RowCells(names, row))) &&
      ("dates" in md <==> SomeCellDate(RowCells(names, row)))
  {
    var cells := RowCells(names, row);
    RowMonthsPresent(cells);
    RowDatesPresent(cells);
  }

  /** When the table converts, its chunks are those of the rows that show a
      cell, one each, in row order: `idx` says which row each chunk comes
      from, and a row is left out exactly when all its visible cells are
      blank. */
  lemma TableChunksOrigin(t: Table, fileName: string) returns (idx: seq<nat>)
    requires TableToChunks(t, fileName).Success?
    ensures var cs := TableToChunks(t, fileName).value;
      |idx| == |cs| &&
      (forall m :: 0 <= m < |idx| ==>
        idx[m] < |t.rows| && RowChunk(Names(t.header), t.rows[idx[m]], fileName, t) == Some(cs[m])) &&
      (forall a, b :: 0 <= a < b < |idx| ==> idx[a] < idx[b]) &&
      (forall k :: 0 <= k < |t.rows| && RowCells(Names(t.header), t.rows[k]) != [] ==> k in idx)
  {
    var f := row => RowChunk(Names(t.header), row, fileName, t);
    idx := FilterMapOrigin(f, t.rows);
  }

  /** A table converts to no chunk at all exactly when no row shows a cell. */
  lemma TableChunksNone(t: Table, fileName: string)
    requires TableToChunks(t, fileName).Success?
    ensures TableToChunks(t, fileName).value == [] <==>
      forall k :: 0 <= k < |t.rows| ==> RowCells(Names(t.header), t.rows[k]) == []
  {
    var f := row => RowChunk(Names(t.header), row, fileName, t);
    FilterMapEmpty(f, t.rows);
  }

  /** `extract_from_pdf` over the tables the reader found: the first failing
      table's error, else all chunks in table order. */
  function ExtractFromPdf(tables: seq<Table>, fileName: string): Result<seq<Doc>> {
    ConcatAll(t => TableToChunks(t, fileName), tables)
  }

  /** Extraction succeeds exactly when every table converts, and then
      returns their chunks concatenated in table order. */
  lemma ExtractFromPdfSpec(tables: seq<Table>, fileName: string)
    ensures ExtractFromPdf(tables, fileName).Success? <==>
      forall k :: 0 <= k < |tables| ==> TableToChunks(tables[k], fileName).Success?
    ensures ExtractFromPdf(tables, fileName).Success? ==>
      ExtractFromPdf(tables, fileName).value == Flatten(Values(t => TableToChunks(t, fileName), tables))
  {
    ConcatAllSpec(t => TableToChunks(t, fileName), tables);
  }

  /** The fixed fields every table chunk carries. */
  predicate CalendarChunk(d: Doc, fileName: string) {
    && "source" in d.metadata && d.metadata["source"] == Str(fileName)
    && "doc_type" in d.metadata && d.metadata["doc_type"] == Str("kalender")
    && d.metadata.Keys <= ChunkKeys
  }

  /** Every chunk extracted from the tables names the file, is a calendar
      chunk and carries no key beyond the table chunk keys. */
  lemma ExtractedChunksFields(tables: seq<Table>, fileName: string)
    ensures ExtractFromPdf(tables, fileName).Success? ==>
      forall i :: 0 <= i < |ExtractFromPdf(tables, fileName).value| ==>
        CalendarChunk(ExtractFromPdf(tables, fileName).value[i], fileName)
  {
    var P := d => CalendarChunk(d, fileName);
    forall k | 0 <= k < |tables| && TableToChunks(tables[k], fileName).Success?
      ensures forall m :: 0 <= m < |TableToChunks(tables[k], fileName).value| ==>
        P(TableToChunks(tables[k], fileName).value[m])
    {
      var t := tables[k];
      FilterMapKeeps(row => RowChunk(Names(t.header), row, fileName, t), t.rows, P);
    }
    ConcatAllKeeps(t => TableToChunks(t, fileName), tables, P);
  }

  /** Tables found on the pages read so far; a page whose extraction raised
      counts nothing. */
  function TableCount(pages: seq<Option<nat>>): nat {
    if |pages| == 0 then 0 else TableCount(pages[..|pages| - 1]) + pages[|pages| - 1].GetOr(0)
  }

  /** Reading more pages never lowers the count. */
  lemma {:induction false} TableCountGrows(pages: seq<Option<nat>>, a: nat, b: nat)
    requires a <= b <= |pages|
    ensures TableCount(pages[..a]) <= TableCount(pages[..b])
    decreases b - a
  {
    if a < b {
      TableCountGrows(pages, a, b - 1);
      assert pages[..b][..b - 1] == pages[..b - 1];
    }
  }

  /** The first page whose extraction raises, or the page count when none does. */
  function FirstFailure(pages: seq<Option<nat>>): (f: nat)
    ensures f <= |pages|
    ensures forall j :: 0 <= j < f ==> pages[j].Some?
    ensures f < |pages| ==> pages[f].None?
  {
    if |pages| == 0 || pages[0].None? then 0 else 1 + FirstFailure(pages[1..])
  }

  /** The answer the table check should give, stated without the loop: the
      document opens, and the pages read before the first failure already
      hold `minTables` tables (or, when no page fails, all pages together do;
      no page at all counts as zero tables). */
  predicate HasTables(opens: bool, pages: seq<Option<nat>>, minTables: int) {
    var f := FirstFailure(pages);
    opens && (if f == |pages| then TableCount(pages) >= minTables
              else f > 0 && TableCount(pages[..f]) >= minTables)
  }

  /** `pdf_has_tables`: page by page, add the tables found and answer yes as
      soon as the count reaches `minTables`; a failure to open the file or to
      read a page answers no. `pages[j]` is the number of tables on page `j`,
      or nothing when reading that page raises. */
  method PdfHasTables(opens: bool, pages: seq<Option<nat>>, minTables: int) returns (r: bool)
    ensures r == HasTables(opens, pages, minTables)
  {
    if !opens {
      return false;
    }
    var count := 0;
    var i := 0;
    while i < |pages|
      invariant 0 <= i <= |pages|
      invariant forall j :: 0 <= j < i ==> pages[j].Some?
      invariant count == TableCount(pages[..i])
      invariant forall j :: 0 < j <= i ==> TableCount(pages[..j]) < minTables
    {
      match pages[i]
      case None =>
        assert FirstFailure(pages) == i;
        return false;
      case Some(n) =>
        assert pages[..i + 1][..i] == pages[..i];
        count := count + n;
      if count >= minTables {
        TableCountGrows(pages, i + 1, FirstFailure(pages));
        assert pages[..|pages|] == pages;
        return true;
      }
      i := i + 1;
    }
    assert pages[..i] == pages;
    return count >= minTables;
  }

  /** When every page reads, the early exit changes nothing: the answer is
      whether all pages together hold `minTables` tables. */
  lemma HasTablesWithoutFailures(opens: bool, pages: seq<Option<nat>>, minTables: int)
    requires forall j :: 0 <= j < |pages| ==> pages[j].Some?
    ensures HasTables(opens, pages, minTables) <==> opens && TableCount(pages) >= minTables
  {
  }

  /** A failure on the first page, or to open the file, always answers no. */
  lemma HasTablesFirstPageFails(opens: bool, pages: seq<Option<nat>>, minTables: int)
    requires !opens || (|pages| > 0 && pages[0].None?)
    ensures !HasTables(opens, pages, minTables)
  {
  }
}
