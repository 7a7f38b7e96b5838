/**
 * The parsing layer of the reader: the month anchors a download window is split into, the
 * conversion of one month's table rows into a frame, and the merge of monthly frames into
 * one cleaned, date-sorted frame.
 */
module Parsing {
  import opened Wrappers
  import opened Errors
  import opened Text
  import opened Calendar
  import opened Frames

  /** The exchange's table columns, in the order its cells arrive. */
  const HEADERS: seq<string> := ["Date", "Open", "High", "Low", "Close", "Volume"]

  lemma HeadersShape()
    ensures |HEADERS| == 6 && HEADERS[0] == "Date" && HEADERS[1..] == NUMERIC
    ensures "TIME" !in HEADERS
  {
  }

  // ---------------------------------------------------------------- daterange

  /** Months from start's month to end's month, as the anchor loop counts them. */
  function MonthGap(start: Date, end: Date): int
  {
    (end.year - start.year) * 12 + (end.month - start.month)
  }

  /** `count` consecutive firsts of month, beginning with the month of `from`. */
  function MonthAnchors(from: Date, count: nat): (anchors: seq<Date>)
    ensures |anchors| == count
    ensures forall k :: 0 <= k < count ==>
      anchors[k].day == 1 && 1 <= anchors[k].month <= 12 && MonthIndex(anchors[k]) == MonthIndex(from) + k
  {
    var anchors := seq(count, k requires 0 <= k < count => MonthStart(MonthIndex(from) + k));
    assert forall k :: 0 <= k < count ==> anchors[k] == MonthStart(MonthIndex(from) + k);
    anchors
  }

  /**
   * The anchors start at day 1 of `from`'s month, each is one month after the one before,
   * and the anchor `count - 1` months on is day 1 of that month.
   */
  lemma MonthAnchorsStep(from: Date, count: nat)
    requires 1 <= from.month <= 12
    ensures count >= 1 ==> MonthAnchors(from, count)[0] == FirstOfMonth(from)
    ensures forall k :: 0 < k < count ==>
      MonthAnchors(from, count)[k] == AddOneMonth(MonthAnchors(from, count)[k - 1])
    ensures forall k :: 0 <= k < count ==> MonthAnchors(from, count)[k].day == 1
  {
    var a := MonthAnchors(from, count);
    forall k | 0 < k < count ensures a[k] == AddOneMonth(a[k - 1]) {
      AddOneMonthStart(MonthIndex(from) + k - 1);
    }
  }

  /** For an ordered window, the last anchor is day 1 of end's month, and every anchor is a real date. */
  lemma MonthAnchorsSpan(start: Date, end: Date)
    requires ValidDate(start) && ValidDate(end) && NotAfter(start, end)
    ensures MonthGap(start, end) >= 0
    ensures MonthAnchors(start, MonthGap(start, end) + 1)[MonthGap(start, end)] == FirstOfMonth(end)
    ensures forall d :: d in MonthAnchors(start, MonthGap(start, end) + 1) ==>
      ValidDate(d) && MonthIndex(start) <= MonthIndex(d) <= MonthIndex(end)
  {
    NotAfterMonths(start, end);
    var gap := MonthGap(start, end);
    var a := MonthAnchors(start, gap + 1);
    assert MonthIndex(a[gap]) == MonthIndex(end);
    MonthStartOf(a[gap]);
    forall k | 0 <= k < |a| ensures ValidDate(a[k]) && MonthIndex(start) <= MonthIndex(a[k]) <= MonthIndex(end) {
      MonthStartOf(a[k]);
      MonthStartValid(MonthIndex(start) + k, start, end);
    }
  }

  /** Consecutive firsts of month from `from`'s month are exactly the anchors. */
  lemma AnchorsUnique(anchors: seq<Date>, from: Date)
    requires forall k :: 0 <= k < |anchors| ==>
      anchors[k].day == 1 && 1 <= anchors[k].month <= 12 && MonthIndex(anchors[k]) == MonthIndex(from) + k
    ensures anchors == MonthAnchors(from, |anchors|)
  {
    var count := |anchors|;
    forall k | 0 <= k < count ensures anchors[k] == MonthAnchors(from, count)[k] {
      MonthStartOf(anchors[k]);
      MonthStartOf(MonthAnchors(from, count)[k]);
    }
  }

  /**
   * `daterange(start, end)`: ValueError for a reversed window, otherwise the first day of every
   * month from start's to end's, both included. The list always holds the first anchor, so
   * the `or [start]` fallback never applies.
   */
  method Daterange(start: Date, end: Date) returns (r: Result<seq<Date>, Error>)
    requires ValidDate(start) && ValidDate(end)
    ensures r.Err? <==> Before(end, start)
    ensures r.Err? ==> r.error == InvalidRange
    ensures r.Ok? ==> MonthGap(start, end) >= 0 && r.value == MonthAnchors(start, MonthGap(start, end) + 1)
  {
    if Before(end, start) {
      return Err(InvalidRange);
    }
    NotAfterMonths(start, end);
    var months := (end.year - start.year) * 12 + (end.month - start.month);
    var anchors := [FirstOfMonth(start)];
    var i := 0;
    while i < months
      invariant 0 <= i <= months
      invariant |anchors| == i + 1
      invariant forall k :: 0 <= k <= i ==>
        anchors[k].day == 1 && 1 <= anchors[k].month <= 12 && MonthIndex(anchors[k]) == MonthIndex(start) + k
    {
      anchors := anchors + [AddOneMonth(anchors[i])];
      i := i + 1;
    }
    AnchorsUnique(anchors, start);
    return Ok(anchors);
  }

  // ---------------------------------------------------------------- html_to_frame

  /** `stocks[key].append(val)` on a defaultdict of lists. */
  function Append(stocks: map<string, seq<string>>, key: string, val: string): map<string, seq<string>>
  {
    stocks[key := (if key in stocks then stocks[key] else []) + [val]]
  }

  /** The dictionary after the inner loop has paired the first `n` cells with their headers. */
  function Fill(stocks: map<string, seq<string>>, cells: seq<string>, n: nat): map<string, seq<string>>
    requires n <= |cells| && n <= |HEADERS|
  {
    if n == 0 then stocks else Append(Fill(stocks, cells, n - 1), HEADERS[n - 1], cells[n - 1])
  }

  /** How many cells of a row `zip` pairs with a header. */
  function Width(cells: seq<string>): (w: nat)
    ensures w <= |cells| && w <= |HEADERS|
    ensures cells != [] ==> w > 0
  {
    if |cells| < |HEADERS| then |cells| else |HEADERS|
  }

  /** The dictionary after the fill loop has seen `rows`. */
  function Collected(rows: seq<seq<string>>): map<string, seq<string>>
  {
    if rows == [] then map[]
    else
      var last := rows[|rows| - 1];
      Fill(Collected(rows[..|rows| - 1]), last, Width(last))
  }

  /** Cell `j` of every row long enough to have one, in row order. */
  function ColumnOf(rows: seq<seq<string>>, j: nat): (column: seq<string>)
    ensures |column| <= |rows|
  {
    if rows == [] then []
    else
      var last := rows[|rows| - 1];
      ColumnOf(rows[..|rows| - 1], j) + (if j < |last| then [last[j]] else [])
  }

  lemma HeadersDistinct()
    ensures forall a, b :: 0 <= a < b < |HEADERS| ==> HEADERS[a] != HEADERS[b]
  {
    forall a, b | 0 <= a < b < |HEADERS| ensures HEADERS[a] != HEADERS[b] {
      assert HEADERS[a][0] != HEADERS[b][0];
    }
  }

  /** Filling with `n` cells appends cell `m` to the list of header `m` for each `m < n`, and only that. */
  lemma {:induction false} FillAt(stocks: map<string, seq<string>>, cells: seq<string>, n: nat, m: nat)
    requires n <= |cells| && n <= |HEADERS| && m < |HEADERS|
    ensures HEADERS[m] in Fill(stocks, cells, n) <==> HEADERS[m] in stocks || m < n
    ensures HEADERS[m] in Fill(stocks, cells, n) ==> (Fill(stocks, cells, n)[HEADERS[m]] ==
      (if HEADERS[m] in stocks then stocks[HEADERS[m]] else []) + (if m < n then [cells[m]] else []))
    ensures forall k :: k in Fill(stocks, cells, n) ==> k in stocks || k in HEADERS
  {
    if n > 0 {
      FillAt(stocks, cells, n - 1, m);
      HeadersDistinct();
    }
  }

  /**
   * The dictionary holds, under each header, that header's column of the rows seen; a header
   * is a key once some row has reached it, and nothing else is ever a key.
   */
  lemma {:induction false} CollectedColumns(rows: seq<seq<string>>)
    ensures forall k :: k in Collected(rows) ==> k in HEADERS
    ensures forall m :: 0 <= m < |HEADERS| ==> (HEADERS[m] in Collected(rows) <==> ColumnOf(rows, m) != [])
    ensures forall m :: 0 <= m < |HEADERS| && HEADERS[m] in Collected(rows) ==>
      Collected(rows)[HEADERS[m]] == ColumnOf(rows, m)
  {
    if rows != [] {
      var prefix := rows[..|rows| - 1];
      var last := rows[|rows| - 1];
      CollectedColumns(prefix);
      forall m | 0 <= m < |HEADERS|
        ensures HEADERS[m] in Collected(rows) <==> ColumnOf(rows, m) != []
        ensures HEADERS[m] in Collected(rows) ==> Collected(rows)[HEADERS[m]] == ColumnOf(rows, m)
      {
        FillAt(Collected(prefix), last, Width(last), m);
      }
      FillAt(Collected(prefix), last, Width(last), 0);
    }
  }

  /** The first of "Date" and "TIME" that is a key, "Date" when neither is. */
  function DateKey(keys: set<string>): string
  {
    if "Date" in keys then "Date" else if "TIME" in keys then "TIME" else "Date"
  }

  /** Keys only ever come from HEADERS, so the "TIME" alias is never chosen. */
  lemma DateKeyIsDate(keys: set<string>)
    requires forall k :: k in keys ==> k in HEADERS
    ensures DateKey(keys) == "Date"
  {
    HeadersShape();
  }

  /**
   * The `strptime` comprehension with `parse` as the format: every text parsed in order; the
   * first that fails raises.
   */
  function ParseDates(parse: string -> Option<Date>, texts: seq<string>): (r: Result<seq<Date>, Error>)
    ensures r.Ok? <==> forall k :: 0 <= k < |texts| ==> parse(texts[k]).Some?
    ensures r.Ok? ==> |r.value| == |texts|
    ensures r.Ok? ==> forall k :: 0 <= k < |texts| ==> parse(texts[k]) == Some(r.value[k])
    ensures r.Err? ==>
      exists k :: 0 <= k < |texts| && r.error == DateFormat(texts[k]) &&
        parse(texts[k]).None? && (forall i :: 0 <= i < k ==> parse(texts[i]).Some?)
  {
    if texts == [] then Ok([])
    else
      var n := |texts| - 1;
      match ParseDates(parse, texts[..n])
      case Err(e) => Err(e)
      case Ok(dates) =>
        match parse(texts[n])
        case None => Err(DateFormat(texts[n]))
        case Some(d) => Ok(dates + [d])
  }

  /** A date format that only ever yields dates that exist, as `datetime` guarantees. */
  ghost predicate DateParser(parse: string -> Option<Date>)
  {
    forall s :: parse(s).Some? ==> ValidDate(parse(s).value)
  }

  lemma StrptimeIsDateParser()
    ensures DateParser(ParseTableDate)
  {
  }

  /** Parsed dates exist in the calendar. */
  lemma TableDatesValid(parse: string -> Option<Date>, texts: seq<string>, dates: seq<Date>)
    requires DateParser(parse) && ParseDates(parse, texts) == Ok(dates)
    ensures forall k :: 0 <= k < |dates| ==> ValidDate(dates[k])
  {
    forall k | 0 <= k < |dates| ensures ValidDate(dates[k]) {
      assert parse(texts[k]) == Some(dates[k]);
    }
  }

  /** Some value column holds a list whose length differs from the `n` dates. */
  predicate Ragged(stocks: map<string, seq<string>>, n: nat)
  {
    exists j :: 1 <= j < |HEADERS| && HEADERS[j] in stocks && |stocks[HEADERS[j]]| != n
  }

  /** The value cells of record `k`: the text of each value column, NaN for a column that is not a key. */
  function RecordCells(stocks: map<string, seq<string>>, k: nat): (cells: seq<Cell>)
    ensures |cells| == |NUMERIC|
  {
    seq(5, j requires 0 <= j < 5 =>
      if HEADERS[j + 1] in stocks && k < |stocks[HEADERS[j + 1]]| then Str(stocks[HEADERS[j + 1]][k]) else Null)
  }

  /** A row's value cells as text, NaN past the cells it pairs with headers. */
  function PaddedCells(row: seq<string>): (cells: seq<Cell>)
    ensures |cells| == |NUMERIC|
  {
    seq(5, j requires 0 <= j < 5 => if j + 1 < Width(row) then Str(row[j + 1]) else Null)
  }

  /** Record `k` pairs date `k` with the value cells of row `k`. */
  function Records(stocks: map<string, seq<string>>, dates: seq<Date>): (records: seq<Record>)
    ensures |records| == |dates|
    ensures forall k :: 0 <= k < |dates| ==> records[k] == Record(dates[k], RecordCells(stocks, k))
  {
    seq(|dates|, k requires 0 <= k < |dates| => Record(dates[k], RecordCells(stocks, k)))
  }

  /**
   * What follows the fill loop: the date list is parsed, `pd.DataFrame(stocks, columns=HEADERS)`
   * refuses value lists whose length differs from it, and record `k` pairs date `k` with cell
   * `k` of each value column, NaN for a column no row reached. Every column holds text or NaN,
   * so every column is `object`.
   */
  function FrameOf(parse: string -> Option<Date>, stocks: map<string, seq<string>>): (r: Result<Frame, Error>)
    ensures r.Ok? && DateParser(parse) ==> WellFormed(r.value)
    ensures r.Ok? ==> Names(r.value.columns) == NUMERIC
    ensures r.Ok? ==> forall j :: 0 <= j < |r.value.columns| ==> r.value.columns[j].dtype == Object
    ensures r.Ok? ==> TextOnly(r.value)
    ensures r.Err? ==> r.error.DateFormat? || r.error == ColumnLengthMismatch
  {
    var key := DateKey(stocks.Keys);
    var texts := if key in stocks then stocks[key] else [];
    match ParseDates(parse, texts)
    case Err(e) => Err(e)
    case Ok(dates) =>
      if Ragged(stocks, |dates|) then Err(ColumnLengthMismatch)
      else
        var records := Records(stocks, dates);
        assert DateParser(parse) ==> forall x :: x in records ==> ValidDate(x.date) && |x.values| == 5 by {
          if DateParser(parse) {
            TableDatesValid(parse, texts, dates);
            forall x | x in records ensures ValidDate(x.date) && |x.values| == 5 {
              var k :| 0 <= k < |records| && records[k] == x;
            }
          }
        }
        Ok(Frame(ObjectColumns(NUMERIC), records))
  }

  /** `html_to_frame` on the cell texts of the page's `<tr>` rows. */
  function TableSpec(parse: string -> Option<Date>, rows: seq<seq<string>>): (r: Result<Frame, Error>)
    ensures r.Ok? && DateParser(parse) ==> WellFormed(r.value)
    ensures r.Ok? ==> Names(r.value.columns) == NUMERIC
    ensures r.Ok? ==> forall j :: 0 <= j < |r.value.columns| ==> r.value.columns[j].dtype == Object
    ensures r.Ok? ==> TextOnly(r.value)
    ensures r.Err? ==> r.error.DateFormat? || r.error == ColumnLengthMismatch
  {
    if rows == [] then Ok(EmptyFrame()) else FrameOf(parse, Collected(rows))
  }

  /** `html_to_frame`: no rows gives the empty frame; otherwise the fill loop, then the frame. */
  method HtmlToFrame(rows: seq<seq<string>>) returns (r: Result<Frame, Error>)
    ensures r == TableSpec(ParseTableDate, rows)
  {
    if rows == [] {
      return Ok(EmptyFrame());
    }
    var stocks: map<string, seq<string>> := map[];
    var i := 0;
    while i < |rows|
      invariant 0 <= i <= |rows|
      invariant stocks == Collected(rows[..i])
    {
      stocks := FillRow(stocks, rows[i]);
      assert rows[..i + 1][..i] == rows[..i];
      i := i + 1;
    }
    assert rows[..|rows|] == rows;
    return FrameOf(ParseTableDate, stocks);
  }

  /** The inner loop of `html_to_frame`: each header paired with a cell gets that cell appended. */
  method FillRow(stocks: map<string, seq<string>>, cells: seq<string>) returns (filled: map<string, seq<string>>)
    ensures filled == Fill(stocks, cells, Width(cells))
  {
    filled := stocks;
    var j := 0;
    while j < |HEADERS| && j < |cells|
      invariant 0 <= j <= |HEADERS| && j <= |cells|
      invariant filled == Fill(stocks, cells, j)
    {
      var key := HEADERS[j];
      filled := filled[key := (if key in filled then filled[key] else []) + [cells[j]]];
      j := j + 1;
    }
  }

  // ---------------------------------------------------------------- the table, row by row

  /** The rows the fill loop takes anything from: those with at least one cell. */
  function DataRows(rows: seq<seq<string>>): (data: seq<seq<string>>)
    ensures forall k :: 0 <= k < |data| ==> data[k] in rows && data[k] != []
  {
    if rows == [] then []
    else
      var last := rows[|rows| - 1];
      DataRows(rows[..|rows| - 1]) + (if last != [] then [last] else [])
  }

  /**
   * When every row with cells pairs the same number `w` of them with headers, column `j < w`
   * lists cell `j` of each such row and the columns from `w` on are empty.
   */
  lemma {:induction false} UniformColumn(rows: seq<seq<string>>, w: nat, j: nat)
    requires 1 <= w <= |HEADERS| && j < |HEADERS|
    requires forall r :: r in rows && r != [] ==> Width(r) == w
    ensures j < w ==> |ColumnOf(rows, j)| == |DataRows(rows)|
    ensures j < w ==> forall k :: 0 <= k < |DataRows(rows)| ==>
      j < |DataRows(rows)[k]| && ColumnOf(rows, j)[k] == DataRows(rows)[k][j]
    ensures w <= j ==> ColumnOf(rows, j) == []
  {
    if rows != [] {
      var prefix := rows[..|rows| - 1];
      var last := rows[|rows| - 1];
      assert forall r :: r in prefix ==> r in rows;
      UniformColumn(prefix, w, j);
      assert last in rows;
      if last != [] {
        assert DataRows(rows) == DataRows(prefix) + [last];
        assert j < w ==> j < |last|;
        assert w <= j ==> j >= |last|;
      } else {
        assert DataRows(rows) == DataRows(prefix);
      }
    }
  }

  /** A column never lists more cells than the Date column. */
  lemma {:induction false} ColumnNotLonger(rows: seq<seq<string>>, j: nat)
    ensures |ColumnOf(rows, j)| <= |ColumnOf(rows, 0)|
  {
    if rows != [] {
      ColumnNotLonger(rows[..|rows| - 1], j);
    }
  }

  /** A row with cells that stops before column `j` leaves that column shorter than the Date column. */
  lemma {:induction false} ColumnShorter(rows: seq<seq<string>>, j: nat, a: nat)
    requires a < |rows| && 0 < |rows[a]| <= j
    ensures |ColumnOf(rows, j)| < |ColumnOf(rows, 0)|
  {
    var prefix := rows[..|rows| - 1];
    if a == |rows| - 1 {
      ColumnNotLonger(prefix, j);
    } else {
      assert prefix[a] == rows[a];
      ColumnShorter(prefix, j, a);
    }
  }

  /** Cell `j` of any row that has one is in column `j`. */
  lemma {:induction false} ColumnMember(rows: seq<seq<string>>, j: nat, b: nat)
    requires b < |rows| && j < |rows[b]|
    ensures rows[b][j] in ColumnOf(rows, j)
  {
    var prefix := rows[..|rows| - 1];
    if b < |rows| - 1 {
      assert prefix[b] == rows[b];
      ColumnMember(prefix, j, b);
    }
  }

  /** No row reaching column `j` leaves that column empty. */
  lemma {:induction false} ColumnEmpty(rows: seq<seq<string>>, j: nat)
    requires forall r :: r in rows ==> |r| <= j
    ensures ColumnOf(rows, j) == []
  {
    if rows != [] {
      var prefix := rows[..|rows| - 1];
      assert forall r :: r in prefix ==> r in rows;
      ColumnEmpty(prefix, j);
    }
  }

  /** `CollectedColumns` for one header. */
  lemma CollectedColumn(rows: seq<seq<string>>, m: nat)
    requires m < |HEADERS|
    ensures HEADERS[m] in Collected(rows) <==> ColumnOf(rows, m) != []
    ensures HEADERS[m] in Collected(rows) ==> Collected(rows)[HEADERS[m]] == ColumnOf(rows, m)
  {
    CollectedColumns(rows);
  }

  /** The dictionary of a table whose rows with cells all reach `w` columns, described by those rows. */
  lemma UniformStocks(rows: seq<seq<string>>, w: nat)
    requires 1 <= w <= |HEADERS|
    requires forall r :: r in rows && r != [] ==> Width(r) == w
    ensures DateKey(Collected(rows).Keys) == "Date"
    ensures var data := DataRows(rows); var stocks := Collected(rows);
      ("Date" in stocks <==> data != []) &&
      ("Date" in stocks ==> stocks["Date"] == seq(|data|, k requires 0 <= k < |data| => data[k][0]))
    ensures var data := DataRows(rows); var stocks := Collected(rows);
      forall j :: 1 <= j < |HEADERS| && HEADERS[j] in stocks ==>
        j < w && |stocks[HEADERS[j]]| == |data| &&
        forall k :: 0 <= k < |data| ==> j < |data[k]| && stocks[HEADERS[j]][k] == data[k][j]
    ensures var data := DataRows(rows); var stocks := Collected(rows);
      forall j :: 1 <= j < w && data != [] ==> HEADERS[j] in stocks
  {
    CollectedColumns(rows);
    DateKeyIsDate(Collected(rows).Keys);
    UniformDates(rows, w);
    forall j | 1 <= j < |HEADERS|
      ensures var data := DataRows(rows); var stocks := Collected(rows);
        HEADERS[j] in stocks ==>
          j < w && |stocks[HEADERS[j]]| == |data| &&
          forall k :: 0 <= k < |data| ==> j < |data[k]| && stocks[HEADERS[j]][k] == data[k][j]
      ensures 1 <= j < w && DataRows(rows) != [] ==> HEADERS[j] in Collected(rows)
    {
      UniformValues(rows, w, j);
    }
  }

  /** The Date list of such a table: one first cell per row with cells. */
  lemma UniformDates(rows: seq<seq<string>>, w: nat)
    requires 1 <= w <= |HEADERS|
    requires forall r :: r in rows && r != [] ==> Width(r) == w
    ensures var data := DataRows(rows); var stocks := Collected(rows);
      ("Date" in stocks <==> data != []) &&
      ("Date" in stocks ==> stocks["Date"] == seq(|data|, k requires 0 <= k < |data| => data[k][0]))
  {
    var stocks := Collected(rows);
    var data := DataRows(rows);
    HeadersShape();
    CollectedColumn(rows, 0);
    UniformColumn(rows, w, 0);
    if "Date" in stocks {
      var dates := seq(|data|, k requires 0 <= k < |data| => data[k][0]);
      assert stocks["Date"] == ColumnOf(rows, 0);
      assert |dates| == |ColumnOf(rows, 0)|;
      forall k | 0 <= k < |data| ensures dates[k] == ColumnOf(rows, 0)[k] { }
    }
  }

  /** Column `j` of such a table: present when the rows reach it, then one cell per row. */
  lemma UniformValues(rows: seq<seq<string>>, w: nat, j: nat)
    requires 1 <= w <= |HEADERS| && j < |HEADERS|
    requires forall r :: r in rows && r != [] ==> Width(r) == w
    ensures var data := DataRows(rows); var stocks := Collected(rows);
      HEADERS[j] in stocks ==>
        j < w && |stocks[HEADERS[j]]| == |data| &&
        forall k :: 0 <= k < |data| ==> j < |data[k]| && stocks[HEADERS[j]][k] == data[k][j]
    ensures j < w && DataRows(rows) != [] ==> HEADERS[j] in Collected(rows)
  {
    CollectedColumn(rows, j);
    UniformColumn(rows, w, j);
  }

  /**
   * A table whose rows with cells all pair the same number `w` of cells with headers becomes
   * a frame exactly when each such row's first cell is a date, and then record `k` is row `k`
   * of those rows: its parsed date, its next `w - 1` cells as text, NaN for the columns it
   * does not reach.
   */
  lemma TableRowwise(parse: string -> Option<Date>, rows: seq<seq<string>>, w: nat)
    requires rows != [] && 1 <= w <= |HEADERS|
    requires forall r :: r in rows && r != [] ==> Width(r) == w
    ensures TableSpec(parse, rows).Ok? <==>
      forall k :: 0 <= k < |DataRows(rows)| ==> parse(DataRows(rows)[k][0]).Some?
    ensures TableSpec(parse, rows).Ok? ==> |TableSpec(parse, rows).value.rows| == |DataRows(rows)|
    ensures TableSpec(parse, rows).Ok? ==> forall k :: 0 <= k < |DataRows(rows)| ==>
      Some(TableSpec(parse, rows).value.rows[k].date) == parse(DataRows(rows)[k][0]) &&
      TableSpec(parse, rows).value.rows[k].values == PaddedCells(DataRows(rows)[k])
  {
    var stocks := Collected(rows);
    var data := DataRows(rows);
    UniformStocks(rows, w);
    var texts := if "Date" in stocks then stocks["Date"] else [];
    assert |texts| == |data|;
    assert forall k :: 0 <= k < |data| ==> texts[k] == data[k][0];
    assert TableSpec(parse, rows) == FrameOf(parse, stocks);
    match ParseDates(parse, texts)
    case Err(e) =>
      FrameOfFails(parse, stocks, texts);
    case Ok(dates) =>
      assert !Ragged(stocks, |dates|);
      FrameOfRecords(parse, stocks, texts, dates);
      var frame := FrameOf(parse, stocks).value;
      forall k | 0 <= k < |data|
        ensures frame.rows[k].values == PaddedCells(data[k])
      {
        RowwiseCells(rows, w, k);
      }
  }

  /** FrameOf when the date list parses and no column is ragged. */
  lemma FrameOfRecords(parse: string -> Option<Date>, stocks: map<string, seq<string>>, texts: seq<string>, dates: seq<Date>)
    requires DateKey(stocks.Keys) == "Date"
    requires texts == (if "Date" in stocks then stocks["Date"] else [])
    requires ParseDates(parse, texts) == Ok(dates) && !Ragged(stocks, |dates|)
    ensures FrameOf(parse, stocks) ==
      Ok(Frame(ObjectColumns(NUMERIC), Records(stocks, dates)))
  {
  }

  /** FrameOf when the date list does not parse. */
  lemma FrameOfFails(parse: string -> Option<Date>, stocks: map<string, seq<string>>, texts: seq<string>)
    requires DateKey(stocks.Keys) == "Date"
    requires texts == (if "Date" in stocks then stocks["Date"] else [])
    requires ParseDates(parse, texts).Err?
    ensures FrameOf(parse, stocks) == Err(ParseDates(parse, texts).error)
  {
  }

  /** The value cells of record `k` of a table whose rows with cells all reach `w` columns. */
  lemma RowwiseCells(rows: seq<seq<string>>, w: nat, k: nat)
    requires 1 <= w <= |HEADERS|
    requires forall r :: r in rows && r != [] ==> Width(r) == w
    requires k < |DataRows(rows)|
    ensures RecordCells(Collected(rows), k) == PaddedCells(DataRows(rows)[k])
  {
    UniformStocks(rows, w);
    assert DataRows(rows)[k] in rows && DataRows(rows)[k] != [];
  }

  /** Two rows with cells that reach different numbers of columns never make a frame. */
  lemma TableRaggedRows(parse: string -> Option<Date>, rows: seq<seq<string>>, a: nat, b: nat)
    requires a < |rows| && b < |rows| && rows[a] != [] && Width(rows[a]) < Width(rows[b])
    ensures TableSpec(parse, rows).Err?
  {
    var stocks := Collected(rows);
    var j := Width(rows[a]);
    CollectedColumns(rows);
    DateKeyIsDate(stocks.Keys);
    ColumnShorter(rows, j, a);
    ColumnMember(rows, j, b);
    ColumnMember(rows, 0, a);
    assert HEADERS[0] == "Date";
    match ParseDates(parse, ColumnOf(rows, 0))
    case Err(e) =>
    case Ok(dates) =>
      assert Ragged(stocks, |dates|) by {
        assert 1 <= j < |HEADERS| && HEADERS[j] in stocks && |stocks[HEADERS[j]]| != |dates|;
      }
  }

  /** A row whose first cell is not a date makes the whole table fail with a date error. */
  lemma TableBadDate(parse: string -> Option<Date>, rows: seq<seq<string>>, a: nat)
    requires a < |rows| && rows[a] != [] && parse(rows[a][0]).None?
    ensures TableSpec(parse, rows).Err? && TableSpec(parse, rows).error.DateFormat?
    ensures TableSpec(parse, rows).Err? ==> parse(TableSpec(parse, rows).error.text).None?
  {
    var stocks := Collected(rows);
    CollectedColumns(rows);
    DateKeyIsDate(stocks.Keys);
    ColumnMember(rows, 0, a);
    assert HEADERS[0] == "Date";
    var texts := ColumnOf(rows, 0);
    var k :| 0 <= k < |texts| && texts[k] == rows[a][0];
    assert ParseDates(parse, texts).Err?;
  }

  /** Rows without cells, or no rows at all, give the empty frame. */
  lemma TableNoCells(parse: string -> Option<Date>, rows: seq<seq<string>>)
    requires forall r :: r in rows ==> r == []
    ensures TableSpec(parse, rows) == Ok(EmptyFrame())
  {
    if rows != [] {
      var stocks := Collected(rows);
      CollectedColumns(rows);
      forall j | 0 <= j < |HEADERS| ensures HEADERS[j] !in stocks {
        ColumnEmpty(rows, j);
      }
      DateKeyIsDate(stocks.Keys);
      HeadersShape();
      assert "Date" !in stocks;
      assert ParseDates(parse, []) == Ok([]);
      assert !Ragged(stocks, 0);
      var none: seq<Date> := [];
      FrameOfRecords(parse, stocks, [], none);
      assert Records(stocks, none) == [];
      assert TableSpec(parse, rows) == FrameOf(parse, stocks);
    }
  }

  // ---------------------------------------------------------------- preprocess

  /**
   * One cell of a text column after `.str.replace(",", "")` and `pd.to_numeric(errors="coerce")`:
   * text that reads as a number once its separators are gone becomes that number, other text
   * NaN. A cell of a text column that is not text comes out of `.str.replace` as NaN.
   */
  function CoerceCell(c: Cell): (r: Cell)
    ensures !r.Str?
  {
    match c
    case Str(s) => (match ParseNumber(RemoveChar(s, ',')) case Some(v) => Num(v) case None => Null)
    case Num(_) => Null
    case Null => Null
  }

  /** Two different columns carry `name`. */
  predicate Duplicated(names: seq<string>, name: string)
  {
    exists i, j :: 0 <= i < j < |names| && names[i] == name && names[j] == name
  }

  /** Position of the first column called `name`. */
  function IndexOf(names: seq<string>, name: string): (j: nat)
    requires name in names
    ensures j < |names| && names[j] == name
    ensures forall i :: 0 <= i < j ==> names[i] != name
  {
    if names[0] == name then 0 else 1 + IndexOf(names[1..], name)
  }

  /** `.str` refuses an object column that holds numbers and no text: pandas infers it as "floating". */
  predicate StrRefused(rows: seq<Record>, j: nat)
    requires forall x :: x in rows ==> j < |x.values|
  {
    (exists k :: 0 <= k < |rows| && rows[k].values[j].Num?) &&
    !(exists k :: 0 <= k < |rows| && rows[k].values[j].Str?)
  }

  /** The rows with cell `j` coerced. */
  function CoerceAt(rows: seq<Record>, j: nat): (r: seq<Record>)
    requires forall x :: x in rows ==> j < |x.values|
  {
    seq(|rows|, k requires 0 <= k < |rows| =>
      Record(rows[k].date, rows[k].values[j := CoerceCell(rows[k].values[j])]))
  }

  /**
   * One pass of the column loop for `name`: a column that is not there is skipped; a name two
   * columns share makes `df[col]` a frame, which has no `dtype`; a float64 column is kept as it
   * is; an object column is stripped of "," and coerced to float64, unless `.str` refuses it.
   */
  function ConvertColumn(f: Frame, name: string): (r: Result<Frame, Error>)
    requires WellFormed(f)
    ensures r.Ok? ==> WellFormed(r.value)
  {
    var names := Names(f.columns);
    if name !in names then Ok(f)
    else if Duplicated(names, name) then Err(MissingAttribute("dtype"))
    else
      var j := IndexOf(names, name);
      if f.columns[j].dtype == Float64 then Ok(f)
      else if StrRefused(f.rows, j) then Err(MissingAttribute("str"))
      else
        CoerceAtWellFormed(f, j);
        Ok(Frame(f.columns[j := Column(name, Float64)], CoerceAt(f.rows, j)))
  }

  lemma CoerceAtWellFormed(f: Frame, j: nat)
    requires WellFormed(f) && j < |f.columns|
    ensures forall x :: x in f.rows ==> j < |x.values|
    ensures WellFormed(Frame(f.columns[j := Column(f.columns[j].name, Float64)], CoerceAt(f.rows, j)))
  {
    var g := Frame(f.columns[j := Column(f.columns[j].name, Float64)], CoerceAt(f.rows, j));
    forall x | x in g.rows
      ensures |x.values| == |g.columns|
      ensures forall i :: 0 <= i < |g.columns| && g.columns[i].dtype == Float64 ==> !x.values[i].Str?
    {
      var k :| 0 <= k < |g.rows| && g.rows[k] == x;
      assert f.rows[k] in f.rows;
    }
  }

  /** The column loop over `names`, in order; the first failure ends it. */
  function ConvertAll(f: Frame, names: seq<string>): (r: Result<Frame, Error>)
    requires WellFormed(f)
    ensures r.Ok? ==> WellFormed(r.value)
    decreases |names|
  {
    if names == [] then Ok(f)
    else
      match ConvertColumn(f, names[0])
      case Err(e) => Err(e)
      case Ok(g) => ConvertAll(g, names[1..])
  }

  /** `df.rename(columns=str.title)`. */
  function TitleColumns(f: Frame): (g: Frame)
    ensures |g.columns| == |f.columns| && g.rows == f.rows
    ensures forall j :: 0 <= j < |f.columns| ==>
      g.columns[j] == Column(Title(f.columns[j].name), f.columns[j].dtype)
  {
    Frame(seq(|f.columns|, j requires 0 <= j < |f.columns| =>
      Column(Title(f.columns[j].name), f.columns[j].dtype)), f.rows)
  }

  /** The frame the column loop starts from: the inputs concatenated, sorted by date, names title-cased. */
  function Prepared(frames: seq<Frame>): (f: Frame)
    requires |frames| > 0 && SameNames(frames) && forall g :: g in frames ==> WellFormed(g)
    ensures WellFormed(f)
    ensures f.rows == SortByDate(ConcatRows(frames))
  {
    var c := Concat(frames);
    ConcatWellFormed(frames);
    RearrangedWellFormed(c, SortByDate(c.rows));
    TitleColumns(Frame(c.columns, SortByDate(c.rows)))
  }

  /** `preprocess`: the empty frame for no input; otherwise the prepared frame, numeric columns converted. */
  function PreprocessSpec(frames: seq<Frame>): (r: Result<Frame, Error>)
    requires SameNames(frames) && forall g :: g in frames ==> WellFormed(g)
  {
    if frames == [] then Ok(EmptyFrame()) else ConvertAll(Prepared(frames), NUMERIC)
  }

  /** `preprocess`, its column loop reassigning the frame one numeric column at a time. */
  method Preprocess(frames: seq<Frame>) returns (r: Result<Frame, Error>)
    requires SameNames(frames) && forall g :: g in frames ==> WellFormed(g)
    ensures r == PreprocessSpec(frames)
  {
    if |frames| == 0 {
      return Ok(EmptyFrame());
    }
    var df := Prepared(frames);
    var i := 0;
    while i < |NUMERIC|
      invariant 0 <= i <= |NUMERIC| && WellFormed(df)
      invariant ConvertAll(df, NUMERIC[i..]) == PreprocessSpec(frames)
    {
      SuffixStep(NUMERIC, i);
      var step := ConvertColumn(df, NUMERIC[i]);
      if step.Err? {
        return Err(step.error);
      }
      df := step.value;
      i := i + 1;
    }
    return Ok(df);
  }

  // ---------------------------------------------------------------- what preprocess produces

  /** The value cell `j` of a row ends up with once the columns named in `done` are converted. */
  function ConvertedCell(columns: seq<Column>, done: seq<string>, j: nat, c: Cell): Cell
    requires j < |columns|
  {
    if columns[j].name in done && columns[j].dtype == Object then CoerceCell(c) else c
  }

  function ConvertedRecord(x: Record, columns: seq<Column>, done: seq<string>): (y: Record)
    requires |x.values| == |columns|
    ensures y.date == x.date && |y.values| == |columns|
    ensures forall j :: 0 <= j < |columns| ==> y.values[j] == ConvertedCell(columns, done, j, x.values[j])
  {
    Record(x.date, seq(|columns|, j requires 0 <= j < |columns| => ConvertedCell(columns, done, j, x.values[j])))
  }

  function ConvertedColumns(columns: seq<Column>, done: seq<string>): (r: seq<Column>)
    ensures |r| == |columns| && Names(r) == Names(columns)
    ensures forall j :: 0 <= j < |columns| ==>
      r[j] == Column(columns[j].name, if columns[j].name in done then Float64 else columns[j].dtype)
  {
    var r := seq(|columns|, j requires 0 <= j < |columns| =>
      Column(columns[j].name, if columns[j].name in done then Float64 else columns[j].dtype));
    assert Names(r) == Names(columns);
    r
  }

  function ConvertedRows(rows: seq<Record>, columns: seq<Column>, done: seq<string>): (r: seq<Record>)
    requires forall x :: x in rows ==> |x.values| == |columns|
    ensures |r| == |rows| && Dates(r) == Dates(rows)
    ensures forall k :: 0 <= k < |rows| ==> r[k] == ConvertedRecord(rows[k], columns, done)
  {
    seq(|rows|, k requires 0 <= k < |rows| =>
      assert rows[k] in rows; ConvertedRecord(rows[k], columns, done))
  }

  /**
   * The frame the column loop is meant to leave, cell by cell: every column named in `done` is
   * float64 and, when it held text, its cells are coerced; every other column is kept.
   */
  function Converted(base: Frame, done: seq<string>): (f: Frame)
    requires WellFormed(base)
    ensures WellFormed(f) && Names(f.columns) == Names(base.columns)
    ensures |f.rows| == |base.rows| && Dates(f.rows) == Dates(base.rows)
  {
    var columns := ConvertedColumns(base.columns, done);
    var rows := ConvertedRows(base.rows, base.columns, done);
    ConvertedWellFormed(base, done);
    Frame(columns, rows)
  }

  /** The converted columns and rows fit together: every float64 column holds no text. */
  lemma ConvertedWellFormed(base: Frame, done: seq<string>)
    requires WellFormed(base)
    ensures WellFormed(Frame(ConvertedColumns(base.columns, done), ConvertedRows(base.rows, base.columns, done)))
  {
    var columns := ConvertedColumns(base.columns, done);
    var rows := ConvertedRows(base.rows, base.columns, done);
    forall x | x in rows
      ensures |x.values| == |columns|
      ensures forall j :: 0 <= j < |columns| && columns[j].dtype == Float64 ==> !x.values[j].Str?
    {
      var k :| 0 <= k < |rows| && rows[k] == x;
      assert base.rows[k] in base.rows;
      ConvertedRecordFits(base.rows[k], base.columns, done);
    }
  }

  /** A row that fits its columns still fits them once the columns named in `done` are converted. */
  lemma ConvertedRecordFits(x: Record, columns: seq<Column>, done: seq<string>)
    requires |x.values| == |columns|
    requires forall j :: 0 <= j < |columns| && columns[j].dtype == Float64 ==> !x.values[j].Str?
    ensures var y := ConvertedRecord(x, columns, done); var cs := ConvertedColumns(columns, done);
      forall j :: 0 <= j < |cs| && cs[j].dtype == Float64 ==> !y.values[j].Str?
  {
    var y := ConvertedRecord(x, columns, done);
    var cs := ConvertedColumns(columns, done);
    forall j | 0 <= j < |cs| && cs[j].dtype == Float64 ensures !y.values[j].Str? {
      assert y.values[j] == ConvertedCell(columns, done, j, x.values[j]);
    }
  }

  /** Converting no column leaves the frame as it is. */
  lemma ConvertedNone(base: Frame)
    requires WellFormed(base)
    ensures Converted(base, []) == base
  {
    var f := Converted(base, []);
    forall k | 0 <= k < |base.rows| ensures f.rows[k] == base.rows[k] {
      assert base.rows[k] in base.rows;
      assert f.rows[k].values == base.rows[k].values;
    }
    forall j | 0 <= j < |base.columns| ensures f.columns[j] == base.columns[j] {
      assert f.columns[j].name == Names(f.columns)[j];
    }
  }

  /**
   * One pass of the loop on a partly converted frame: it fails exactly as it would on the
   * unconverted frame, and otherwise adds `name` to the converted columns.
   */
  lemma ConvertStep(base: Frame, done: seq<string>, name: string)
    requires WellFormed(base) && name !in done
    ensures ConvertColumn(Converted(base, done), name) ==
      if ConvertColumn(base, name).Err? then ConvertColumn(base, name) else Ok(Converted(base, done + [name]))
  {
    var names := Names(base.columns);
    if name !in names {
      ConvertStepAbsent(base, done, name);
    } else if !Duplicated(names, name) {
      var j := IndexOf(names, name);
      assert base.columns[j].name == name;
      if base.columns[j].dtype == Float64 {
        ConvertStepFloat(base, done, name, j);
      } else {
        ConvertStepRefused(base, done, j);
        if !StrRefused(base.rows, j) {
          ConvertStepObject(base, done, name, j);
        }
      }
    }
  }

  lemma ConvertStepAbsent(base: Frame, done: seq<string>, name: string)
    requires WellFormed(base) && name !in Names(base.columns)
    ensures Converted(base, done) == Converted(base, done + [name])
  {
    forall j | 0 <= j < |base.columns|
      ensures base.columns[j].name in done <==> base.columns[j].name in done + [name]
    {
      assert base.columns[j].name == Names(base.columns)[j];
    }
    ConvertedAgree(base, done, done + [name]);
  }

  /** Two lists of converted names that agree on every object column give the same frame. */
  lemma ConvertedAgree(base: Frame, d1: seq<string>, d2: seq<string>)
    requires WellFormed(base)
    requires forall j :: 0 <= j < |base.columns| && base.columns[j].dtype == Object ==>
      (base.columns[j].name in d1 <==> base.columns[j].name in d2)
    ensures Converted(base, d1) == Converted(base, d2)
  {
    var f, g := Converted(base, d1), Converted(base, d2);
    assert f.columns == g.columns by {
      forall j | 0 <= j < |base.columns| ensures f.columns[j] == g.columns[j] { }
    }
    assert f.rows == g.rows by {
      forall k | 0 <= k < |base.rows| ensures f.rows[k] == g.rows[k] {
        assert base.rows[k] in base.rows;
        RecordsAgree(base.rows[k], base.columns, d1, d2);
      }
    }
  }

  lemma RecordsAgree(x: Record, columns: seq<Column>, d1: seq<string>, d2: seq<string>)
    requires |x.values| == |columns|
    requires forall j :: 0 <= j < |columns| && columns[j].dtype == Object ==>
      (columns[j].name in d1 <==> columns[j].name in d2)
    ensures ConvertedRecord(x, columns, d1) == ConvertedRecord(x, columns, d2)
  {
    var y, z := ConvertedRecord(x, columns, d1), ConvertedRecord(x, columns, d2);
    assert y.values == z.values by {
      forall j | 0 <= j < |columns| ensures y.values[j] == z.values[j] { }
    }
  }

  /** Converting other columns first does not change whether `.str` refuses column `j`. */
  lemma ConvertStepRefused(base: Frame, done: seq<string>, j: nat)
    requires WellFormed(base) && j < |base.columns| && base.columns[j].name !in done
    ensures forall x :: x in Converted(base, done).rows ==> j < |x.values|
    ensures forall x :: x in base.rows ==> j < |x.values|
    ensures StrRefused(Converted(base, done).rows, j) == StrRefused(base.rows, j)
  {
    var f := Converted(base, done);
    forall k | 0 <= k < |base.rows| ensures f.rows[k].values[j] == base.rows[k].values[j] {
      assert base.rows[k] in base.rows;
    }
    RefusedAlike(f.rows, base.rows, j);
  }

  /** Whether `.str` refuses column `j` depends on the cells of that column only. */
  lemma RefusedAlike(a: seq<Record>, b: seq<Record>, j: nat)
    requires forall x :: x in a ==> j < |x.values|
    requires forall x :: x in b ==> j < |x.values|
    requires |a| == |b| && forall k :: 0 <= k < |a| ==> a[k].values[j] == b[k].values[j]
    ensures StrRefused(a, j) == StrRefused(b, j)
  {
  }

  lemma ConvertStepFloat(base: Frame, done: seq<string>, name: string, j: nat)
    requires WellFormed(base) && name !in done
    requires j < |base.columns| && base.columns[j].name == name && base.columns[j].dtype == Float64
    requires !Duplicated(Names(base.columns), name)
    ensures Converted(base, done) == Converted(base, done + [name])
  {
    var names := Names(base.columns);
    forall i | 0 <= i < |base.columns| && base.columns[i].dtype == Object
      ensures base.columns[i].name in done <==> base.columns[i].name in done + [name]
    {
      assert names[i] == base.columns[i].name && names[j] == name;
      SinglePosition(names, name, i, j);
    }
    ConvertedAgree(base, done, done + [name]);
  }

  /** A name that is not duplicated sits at one position only. */
  lemma SinglePosition<T>(names: seq<T>, name: T, i: nat, j: nat)
    requires i < |names| && j < |names| && names[j] == name
    requires !(exists a, b :: 0 <= a < b < |names| && names[a] == name && names[b] == name)
    ensures names[i] == name ==> i == j
  {
  }

  lemma ConvertStepObject(base: Frame, done: seq<string>, name: string, j: nat)
    requires WellFormed(base) && name !in done
    requires j < |base.columns| && base.columns[j].name == name && base.columns[j].dtype == Object
    requires !Duplicated(Names(base.columns), name)
    ensures var f := Converted(base, done);
      Frame(f.columns[j := Column(name, Float64)], CoerceAt(f.rows, j)) == Converted(base, done + [name])
  {
    var f := Converted(base, done);
    var g := Converted(base, done + [name]);
    var names := Names(base.columns);
    forall i | 0 <= i < |base.columns| && base.columns[i].name == name ensures i == j {
      assert names[i] == name && names[j] == name;
    }
    var h := Frame(f.columns[j := Column(name, Float64)], CoerceAt(f.rows, j));
    forall k | 0 <= k < |base.rows| ensures h.rows[k] == g.rows[k] {
      assert base.rows[k] in base.rows;
      RecordStepObject(base.rows[k], base.columns, done, name, j);
    }
  }

  lemma RecordStepObject(x: Record, columns: seq<Column>, done: seq<string>, name: string, j: nat)
    requires |x.values| == |columns| && name !in done
    requires j < |columns| && columns[j].name == name && columns[j].dtype == Object
    requires forall i :: 0 <= i < |columns| && columns[i].name == name ==> i == j
    ensures var y := ConvertedRecord(x, columns, done);
      Record(y.date, y.values[j := CoerceCell(y.values[j])]) == ConvertedRecord(x, columns, done + [name])
  {
    var y := ConvertedRecord(x, columns, done);
    var z := ConvertedRecord(x, columns, done + [name]);
    forall i | 0 <= i < |columns| ensures y.values[j := CoerceCell(y.values[j])][i] == z.values[i] {
    }
  }

  /**
   * The column loop over `cols` on a frame with the columns in `done` already converted fails
   * exactly when one of its passes would fail on the unconverted frame, with that pass's error,
   * and otherwise converts the columns of `cols` too.
   */
  lemma {:induction false} ConvertAllSpec(base: Frame, done: seq<string>, cols: seq<string>)
    requires WellFormed(base)
    requires forall c :: c in cols ==> c !in done
    requires forall a, b :: 0 <= a < b < |cols| ==> cols[a] != cols[b]
    ensures ConvertAll(Converted(base, done), cols).Ok? <==> forall c :: c in cols ==> ConvertColumn(base, c).Ok?
    ensures ConvertAll(Converted(base, done), cols).Ok? ==>
      ConvertAll(Converted(base, done), cols).value == Converted(base, done + cols)
    ensures ConvertAll(Converted(base, done), cols).Err? ==>
      exists c :: c in cols && ConvertColumn(base, c) == ConvertAll(Converted(base, done), cols)
    decreases |cols|
  {
    if cols == [] {
      assert done + cols == done;
    } else if ConvertColumn(base, cols[0]).Ok? {
      DistinctTail(done, cols);
      ConvertAllSpec(base, done + [cols[0]], cols[1..]);
      ConvertAllHeadOk(base, done, cols);
    } else {
      ConvertStep(base, done, cols[0]);
      HeadOrRest(cols);
    }
  }

  /** The step of `ConvertAllSpec` whose first pass succeeds: the rest of the loop decides. */
  lemma ConvertAllHeadOk(base: Frame, done: seq<string>, cols: seq<string>)
    requires WellFormed(base) && cols != [] && cols[0] !in done
    requires ConvertColumn(base, cols[0]).Ok?
    requires var g := ConvertAll(Converted(base, done + [cols[0]]), cols[1..]);
      (g.Ok? <==> forall c :: c in cols[1..] ==> ConvertColumn(base, c).Ok?) &&
      (g.Ok? ==> g.value == Converted(base, (done + [cols[0]]) + cols[1..])) &&
      (g.Err? ==> exists c :: c in cols[1..] && ConvertColumn(base, c) == g)
    ensures ConvertAll(Converted(base, done), cols).Ok? <==> forall c :: c in cols ==> ConvertColumn(base, c).Ok?
    ensures ConvertAll(Converted(base, done), cols).Ok? ==>
      ConvertAll(Converted(base, done), cols).value == Converted(base, done + cols)
    ensures ConvertAll(Converted(base, done), cols).Err? ==>
      exists c :: c in cols && ConvertColumn(base, c) == ConvertAll(Converted(base, done), cols)
  {
    ConvertStep(base, done, cols[0]);
    assert ConvertAll(Converted(base, done), cols) == ConvertAll(Converted(base, done + [cols[0]]), cols[1..]);
    HeadOrRest(cols);
    AppendHead(done, cols);
  }

  lemma NothingBefore<T>(s: seq<T>)
    ensures [] + s == s
  {
  }

  lemma SuffixStep<T>(s: seq<T>, i: nat)
    requires i < |s|
    ensures s[i..] != [] && s[i..][0] == s[i] && s[i..][1..] == s[i + 1..]
  {
  }

  lemma AppendHead<T>(done: seq<T>, cols: seq<T>)
    requires cols != []
    ensures (done + [cols[0]]) + cols[1..] == done + cols
  {
    assert cols == [cols[0]] + cols[1..];
  }

  lemma HeadOrRest<T>(s: seq<T>)
    requires s != []
    ensures forall x :: x in s <==> x == s[0] || x in s[1..]
  {
  }

  /** Moving the first of distinct names not yet done into the done list keeps both conditions. */
  lemma DistinctTail<T>(done: seq<T>, cols: seq<T>)
    requires cols != []
    requires forall c :: c in cols ==> c !in done
    requires forall a, b :: 0 <= a < b < |cols| ==> cols[a] != cols[b]
    ensures forall c :: c in cols[1..] ==> c !in done + [cols[0]]
    ensures forall a, b :: 0 <= a < b < |cols[1..]| ==> cols[1..][a] != cols[1..][b]
  {
    var rest := cols[1..];
    forall c | c in rest ensures c in cols && c != cols[0] {
      var i :| 0 <= i < |rest| && rest[i] == c;
      assert cols[i + 1] == c;
    }
    forall a, b | 0 <= a < b < |rest| ensures rest[a] != rest[b] {
      assert rest[a] == cols[a + 1] && rest[b] == cols[b + 1];
    }
  }

  lemma NumericDistinct()
    ensures forall a, b :: 0 <= a < b < |NUMERIC| ==> NUMERIC[a] != NUMERIC[b]
  {
    forall a, b | 0 <= a < b < |NUMERIC| ensures NUMERIC[a] != NUMERIC[b] {
      assert NUMERIC[a][0] != NUMERIC[b][0];
    }
  }

  /**
   * `preprocess` of a non-empty list is the prepared frame with its numeric columns converted,
   * and fails exactly when the pass for one numeric column fails, with that pass's error.
   */
  lemma PreprocessConverted(frames: seq<Frame>)
    requires |frames| > 0 && SameNames(frames) && forall g :: g in frames ==> WellFormed(g)
    ensures PreprocessSpec(frames).Ok? <==> forall c :: c in NUMERIC ==> ConvertColumn(Prepared(frames), c).Ok?
    ensures PreprocessSpec(frames).Ok? ==> PreprocessSpec(frames).value == Converted(Prepared(frames), NUMERIC)
    ensures PreprocessSpec(frames).Err? ==>
      exists c :: c in NUMERIC && ConvertColumn(Prepared(frames), c) == PreprocessSpec(frames)
  {
    ConvertAllNumeric(Prepared(frames));
  }

  /** The column loop over the numeric names, from a frame none of them has been converted in. */
  lemma ConvertAllNumeric(base: Frame)
    requires WellFormed(base)
    ensures ConvertAll(base, NUMERIC).Ok? <==> forall c :: c in NUMERIC ==> ConvertColumn(base, c).Ok?
    ensures ConvertAll(base, NUMERIC).Ok? ==> ConvertAll(base, NUMERIC).value == Converted(base, NUMERIC)
    ensures ConvertAll(base, NUMERIC).Err? ==>
      exists c :: c in NUMERIC && ConvertColumn(base, c) == ConvertAll(base, NUMERIC)
  {
    ConvertedNone(base);
    NumericDistinct();
    ConvertAllSpec(base, [], NUMERIC);
    NothingBefore(NUMERIC);
  }

  /** Rows with the same dates in the same order are sorted alike. */
  lemma SortedByDates(a: seq<Record>, b: seq<Record>)
    requires Dates(a) == Dates(b) && SortedByDate(a)
    ensures SortedByDate(b)
  {
    forall i, j | 0 <= i < j < |b| ensures NotAfter(b[i].date, b[j].date) {
      assert Dates(a)[i] == Dates(b)[i] && Dates(a)[j] == Dates(b)[j];
    }
  }

  /** Predicate form of the frame shape `preprocess` promises; see `PreprocessShape`. */
  ghost predicate Cleaned(f: Frame, frames: seq<Frame>)
    requires |frames| > 0
  {
    WellFormed(f) && SortedByDate(f.rows) &&
    multiset(Dates(f.rows)) == multiset(Dates(ConcatRows(frames))) &&
    |f.columns| == |frames[0].columns| &&
    forall j :: 0 <= j < |f.columns| ==>
      f.columns[j].name == Title(frames[0].columns[j].name) &&
      (f.columns[j].name in NUMERIC ==> f.columns[j].dtype == Float64)
  }

  lemma ConvertedShape(frames: seq<Frame>)
    requires |frames| > 0 && SameNames(frames) && forall g :: g in frames ==> WellFormed(g)
    ensures Cleaned(Converted(Prepared(frames), NUMERIC), frames)
  {
    var p := Prepared(frames);
    var f := Converted(p, NUMERIC);
    var rows := ConcatRows(frames);
    SortedByDates(p.rows, f.rows);
    DatesRearranged(SortByDate(rows), rows);
    var c := Concat(frames);
    assert |Names(c.columns)| == |Names(frames[0].columns)|;
    forall j | 0 <= j < |f.columns|
      ensures f.columns[j].name == Title(frames[0].columns[j].name)
      ensures f.columns[j].name in NUMERIC ==> f.columns[j].dtype == Float64
    {
      assert Names(f.columns)[j] == Names(p.columns)[j];
      assert Names(c.columns)[j] == Names(frames[0].columns)[j];
    }
  }

  /**
   * What `preprocess` returns for a non-empty list: a frame in ascending date order whose dates
   * are those of all the input rows, whose column names are the inputs' names title-cased, and
   * whose numeric columns are float64.
   */
  lemma PreprocessShape(frames: seq<Frame>)
    requires |frames| > 0 && SameNames(frames) && forall g :: g in frames ==> WellFormed(g)
    ensures PreprocessSpec(frames).Ok? ==> var f := PreprocessSpec(frames).value;
      WellFormed(f) && SortedByDate(f.rows) &&
      multiset(Dates(f.rows)) == multiset(Dates(ConcatRows(frames))) &&
      |f.columns| == |frames[0].columns| &&
      forall j :: 0 <= j < |f.columns| ==>
        f.columns[j].name == Title(frames[0].columns[j].name) &&
        (f.columns[j].name in NUMERIC ==> f.columns[j].dtype == Float64)
  {
    PreprocessConverted(frames);
    ConvertedShape(frames);
  }

  /** No cell of the frame holds a number: everything is text or NaN, as `html_to_frame` leaves it. */
  predicate TextOnly(f: Frame)
  {
    forall x :: x in f.rows ==> forall j :: 0 <= j < |x.values| ==> !x.values[j].Num?
  }

  /** `str.title` leaves the numeric column names as they are. */
  lemma NumericTitled()
    ensures forall j :: 0 <= j < |NUMERIC| ==> Title(NUMERIC[j]) == NUMERIC[j]
  {
    forall j | 0 <= j < |NUMERIC| ensures Title(NUMERIC[j]) == NUMERIC[j] {
      CapitalizedIsTitle(NUMERIC[j]);
    }
  }

  /** Text tables with the exchange's columns stay text tables with those columns once prepared. */
  lemma PreparedText(frames: seq<Frame>)
    requires |frames| > 0 && SameNames(frames) && forall g :: g in frames ==> WellFormed(g)
    requires forall g :: g in frames ==> Names(g.columns) == NUMERIC && TextOnly(g)
    ensures Names(Prepared(frames).columns) == NUMERIC && TextOnly(Prepared(frames))
  {
    var p := Prepared(frames);
    assert Names(p.columns) == NUMERIC by {
      assert frames[0] in frames;
      PreparedNames(frames);
      NumericTitled();
    }
    assert TextOnly(p) by {
      forall x | x in p.rows ensures forall j :: 0 <= j < |x.values| ==> !x.values[j].Num? {
        var g := RowSource(frames, x);
      }
    }
  }

  /** Every row of the prepared frame comes from one of the inputs. */
  lemma RowSource(frames: seq<Frame>, x: Record) returns (g: Frame)
    requires |frames| > 0 && SameNames(frames) && forall g :: g in frames ==> WellFormed(g)
    requires x in Prepared(frames).rows
    ensures g in frames && x in g.rows
  {
    var rows := ConcatRows(frames);
    assert x in rows by {
      MultisetMember(x, SortByDate(rows), rows);
    }
    ConcatRowsMembers(frames);
    g :| g in frames && x in g.rows;
  }

  /** The prepared frame's names are those of the first input, title-cased. */
  lemma PreparedNames(frames: seq<Frame>)
    requires |frames| > 0 && SameNames(frames) && forall g :: g in frames ==> WellFormed(g)
    ensures var names := Names(Prepared(frames).columns);
      |names| == |frames[0].columns| &&
      forall j :: 0 <= j < |names| ==> names[j] == Title(Names(frames[0].columns)[j])
  {
    var c := Concat(frames);
    assert |Names(c.columns)| == |Names(frames[0].columns)|;
    forall j | 0 <= j < |c.columns| ensures Names(c.columns)[j] == Names(frames[0].columns)[j] { }
  }

  /** The pass for a numeric column never fails on a text table with the exchange's columns. */
  lemma ConvertColumnText(p: Frame, c: string)
    requires WellFormed(p) && Names(p.columns) == NUMERIC && TextOnly(p) && c in NUMERIC
    ensures ConvertColumn(p, c).Ok?
  {
    var j := IndexOf(NUMERIC, c);
    assert !Duplicated(NUMERIC, c) by {
      NumericDistinct();
    }
    assert !StrRefused(p.rows, j) by {
      forall k | 0 <= k < |p.rows| ensures !p.rows[k].values[j].Num? {
        assert p.rows[k] in p.rows;
      }
    }
    ConvertColumnSucceeds(p, c);
  }

  /** When a pass succeeds: the column is absent, or it is the only one so named and `.str` accepts it. */
  lemma ConvertColumnSucceeds(f: Frame, name: string)
    requires WellFormed(f)
    ensures var names := Names(f.columns);
      ConvertColumn(f, name).Ok? <==>
        name !in names ||
        (!Duplicated(names, name) &&
         (f.columns[IndexOf(names, name)].dtype == Float64 || !StrRefused(f.rows, IndexOf(names, name))))
  {
  }

  /**
   * Monthly tables as `html_to_frame` returns them never make `preprocess` fail: text that is
   * not a number becomes NaN instead of raising.
   */
  lemma PreprocessTextTables(frames: seq<Frame>)
    requires SameNames(frames) && forall g :: g in frames ==> WellFormed(g)
    requires forall g :: g in frames ==> Names(g.columns) == NUMERIC && TextOnly(g)
    ensures PreprocessSpec(frames).Ok?
  {
    if frames != [] {
      PreprocessConverted(frames);
      PreparedText(frames);
      forall c | c in NUMERIC ensures ConvertColumn(Prepared(frames), c).Ok? {
        ConvertColumnText(Prepared(frames), c);
      }
    }
  }

  /** Converting columns that are all float64 already changes nothing. */
  lemma ConvertedKeeps(f: Frame, done: seq<string>)
    requires WellFormed(f)
    requires forall j :: 0 <= j < |f.columns| && f.columns[j].name in done ==> f.columns[j].dtype == Float64
    ensures Converted(f, done) == f
  {
    var g := Converted(f, done);
    forall k | 0 <= k < |f.rows| ensures g.rows[k] == f.rows[k] {
      assert f.rows[k] in f.rows;
      assert g.rows[k].values == f.rows[k].values;
    }
    forall j | 0 <= j < |f.columns| ensures g.columns[j] == f.columns[j] {
      assert g.columns[j].name == Names(g.columns)[j];
    }
  }

  /** The prepared frame of a single frame that is sorted and already title-cased is that frame. */
  lemma PreparedSingle(g: Frame)
    requires WellFormed(g) && SortedByDate(g.rows)
    requires forall j :: 0 <= j < |g.columns| ==> Title(g.columns[j].name) == g.columns[j].name
    ensures SameNames([g]) && Prepared([g]) == g
  {
    ConcatSingle(g);
    SortSortedUnchanged(g.rows);
    var p := Prepared([g]);
    forall j | 0 <= j < |g.columns| ensures p.columns[j] == g.columns[j] { }
  }

  /** A pass that succeeded on the prepared frame changes nothing once its column is float64. */
  lemma ConvertColumnAgain(p: Frame, f: Frame, c: string)
    requires WellFormed(p) && WellFormed(f) && Names(f.columns) == Names(p.columns)
    requires ConvertColumn(p, c).Ok?
    requires forall j :: 0 <= j < |f.columns| && f.columns[j].name == c ==> f.columns[j].dtype == Float64
    ensures ConvertColumn(f, c) == Ok(f)
  {
    var names := Names(f.columns);
    if c in names {
      var j := IndexOf(names, c);
      assert f.columns[j].name == c;
    }
  }

  /** The converted frame, handed to `preprocess` alone, is its own prepared frame. */
  lemma PreparedResult(frames: seq<Frame>)
    requires |frames| > 0 && SameNames(frames) && forall g :: g in frames ==> WellFormed(g)
    ensures var f := Converted(Prepared(frames), NUMERIC);
      WellFormed(f) && SameNames([f]) && Prepared([f]) == f
    ensures var f := Converted(Prepared(frames), NUMERIC);
      PreprocessSpec([f]) == ConvertAll(f, NUMERIC)
  {
    var f := Converted(Prepared(frames), NUMERIC);
    ConvertedShape(frames);
    forall j | 0 <= j < |f.columns| ensures Title(f.columns[j].name) == f.columns[j].name {
      TitleIdempotent(frames[0].columns[j].name);
    }
    PreparedSingle(f);
  }

  /** The column loop run again over a frame it converted leaves it as it is. */
  lemma ConvertedAgain(p: Frame)
    requires WellFormed(p) && forall c :: c in NUMERIC ==> ConvertColumn(p, c).Ok?
    ensures ConvertAll(Converted(p, NUMERIC), NUMERIC) == Ok(Converted(p, NUMERIC))
  {
    var f := Converted(p, NUMERIC);
    assert forall c :: c in NUMERIC ==> ConvertColumn(f, c).Ok? by {
      forall c | c in NUMERIC ensures ConvertColumn(f, c).Ok? {
        ConvertColumnAgain(p, f, c);
      }
    }
    ConvertAllNumeric(f);
    ConvertedKeeps(f, NUMERIC);
  }

  /** A frame `preprocess` gives back unchanged when it is handed that frame alone. */
  ghost predicate Fixed(f: Frame)
  {
    WellFormed(f) && SameNames([f]) && PreprocessSpec([f]) == Ok(f)
  }

  lemma ConvertedIdempotent(frames: seq<Frame>)
    requires |frames| > 0 && SameNames(frames) && forall g :: g in frames ==> WellFormed(g)
    requires forall c :: c in NUMERIC ==> ConvertColumn(Prepared(frames), c).Ok?
    ensures Fixed(Converted(Prepared(frames), NUMERIC))
  {
    PreparedResult(frames);
    ConvertedAgain(Prepared(frames));
  }

  /** Running `preprocess` again on its own result gives that result back. */
  lemma PreprocessIdempotent(frames: seq<Frame>)
    requires |frames| > 0 && SameNames(frames) && forall g :: g in frames ==> WellFormed(g)
    requires PreprocessSpec(frames).Ok?
    ensures Fixed(PreprocessSpec(frames).value)
  {
    PreprocessConverted(frames);
    ConvertedIdempotent(frames);
  }

  /**
   * `preprocess` does not depend on the order the monthly frames arrive in, as long as no two
   * rows share a date.
   */
  lemma PreprocessRearranged(a: seq<Frame>, b: seq<Frame>)
    requires SameNames(a) && forall g :: g in a ==> WellFormed(g)
    requires multiset(a) == multiset(b) && UniqueDates(ConcatRows(a))
    ensures SameNames(b) && forall g :: g in b ==> WellFormed(g)
    ensures PreprocessSpec(a) == PreprocessSpec(b)
  {
    assert forall g :: g in a <==> g in b by {
      forall g ensures g in a <==> g in b {
        assert g in a <==> g in multiset(a);
      }
    }
    if a == [] {
      assert |b| == |multiset(b)| == 0;
    } else {
      ConcatRearranged(a, b);
      SortIgnoresArrival(ConcatRows(a), ConcatRows(b));
    }
  }

  /** A figure written with thousands separators comes out as its number. */
  lemma CoerceGrouped(n: nat)
    ensures CoerceCell(Str(Grouped(n))) == Num(n as real)
  {
    GroupedParses(n);
  }

  /** Text that is not a number comes out as NaN, and never raises. */
  lemma CoerceUnparseable(s: string)
    requires ParseNumber(RemoveChar(s, ',')).None?
    ensures CoerceCell(Str(s)) == Null
  {
  }
}
