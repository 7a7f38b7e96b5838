/**
 * The older single-file reader that the package grew out of. It shares the table parser and
 * the fetch structure with the current reader, but its `daterange` does not reject a reversed
 * window, its downloads never check the status code, its `stocks` has no "all listed" default,
 * and its `_preprocess` casts the numeric columns strictly: a missing column, a float64 column
 * or text that is not a number raises instead of becoming NaN.
 */
module Web {
  import opened Wrappers
  import opened Errors
  import opened Text
  import opened Calendar
  import opened Frames
  import opened Parsing
  import Reader

  // ---------------------------------------------------------------- daterange

  /**
   * The anchors of the unchecked `daterange`: the loop runs `months` times, none when the
   * count is zero or negative, after the anchor of start's own month.
   */
  function LegacyAnchors(start: Date, end: Date): (anchors: seq<Date>)
  {
    MonthAnchors(start, if MonthGap(start, end) < 0 then 1 else MonthGap(start, end) + 1)
  }

  /** `daterange` without the window check: the first of each month from start's onwards. */
  method LegacyDaterange(start: Date, end: Date) returns (anchors: seq<Date>)
    requires ValidDate(start)
    ensures anchors == LegacyAnchors(start, end)
    ensures |anchors| >= 1 && anchors[0] == FirstOfMonth(start)
  {
    var months := (end.year - start.year) * 12 + (end.month - start.month);
    ghost var count := if months < 0 then 1 else months + 1;
    anchors := [FirstOfMonth(start)];
    var i := 0;
    while i < months
      invariant 0 <= i < count && |anchors| == i + 1 && anchors[0] == FirstOfMonth(start)
      invariant forall k :: 0 <= k <= i ==>
        anchors[k].day == 1 && 1 <= anchors[k].month <= 12 && MonthIndex(anchors[k]) == MonthIndex(start) + k
    {
      anchors := anchors + [AddOneMonth(anchors[i])];
      i := i + 1;
    }
    AnchorsUnique(anchors, start);
  }

  /**
   * There is one anchor more than the month count when that count is not negative, and the
   * single anchor of start's month otherwise; each anchor is one month after the one before.
   */
  lemma LegacyAnchorsStep(start: Date, end: Date)
    requires 1 <= start.month <= 12
    ensures var anchors := LegacyAnchors(start, end);
      |anchors| == (if MonthGap(start, end) < 0 then 1 else MonthGap(start, end) + 1) &&
      anchors[0] == FirstOfMonth(start) &&
      forall k :: 0 < k < |anchors| ==> anchors[k] == AddOneMonth(anchors[k - 1])
  {
    MonthAnchorsStep(start, if MonthGap(start, end) < 0 then 1 else MonthGap(start, end) + 1);
  }

  /** For an ordered window the unchecked anchors are those of the checked `daterange`. */
  lemma LegacyAnchorsOrdered(start: Date, end: Date)
    requires ValidDate(start) && ValidDate(end) && !Before(end, start)
    ensures LegacyAnchors(start, end) == Reader.Anchors(start, end)
    ensures LegacyAnchors(start, end) == MonthAnchors(start, MonthGap(start, end) + 1)
  {
    MonthAnchorsSpan(start, end);
  }

  /**
   * A reversed window is not refused: it yields the single anchor of start's month, where the
   * checked `daterange` raises.
   */
  lemma LegacyAnchorsReversed(start: Date, end: Date)
    requires ValidDate(start) && ValidDate(end) && Before(end, start)
    ensures LegacyAnchors(start, end) == [FirstOfMonth(start)]
  {
    NotAfterMonths(end, start);
    assert MonthGap(start, end) == MonthIndex(end) - MonthIndex(start);
    MonthAnchorsStep(start, 1);
  }

  // ---------------------------------------------------------------- _download_single_month

  /** `_download_single_month` without `raise_for_status`: the page is parsed whatever its status. */
  function LegacyDownload(post: Reader.Form -> Reader.Response, symbol: string, d: Date): (r: Result<Frame, Error>)
    ensures r.Ok? ==> WellFormed(r.value) && Names(r.value.columns) == NUMERIC && TextOnly(r.value)
    ensures r.Err? ==> r.error.DateFormat? || r.error == ColumnLengthMismatch
  {
    StrptimeIsDateParser();
    TableSpec(ParseTableDate, post(Reader.FormFor(symbol, d)).rows)
  }

  /**
   * An error status makes the current download raise, while the legacy one parses the error
   * page as a table; for any other status the two agree.
   */
  lemma LegacyIgnoresStatus(post: Reader.Form -> Reader.Response, symbol: string, d: Date)
    ensures var response := post(Reader.FormFor(symbol, d));
      Reader.IsHttpError(response.status) ==>
        Reader.DownloadSingleMonth(post, symbol, d) == Err(HttpStatus(response.status)) &&
        LegacyDownload(post, symbol, d) == TableSpec(ParseTableDate, response.rows)
    ensures !Reader.IsHttpError(post(Reader.FormFor(symbol, d)).status) ==>
      LegacyDownload(post, symbol, d) == Reader.DownloadSingleMonth(post, symbol, d)
  {
  }

  // ---------------------------------------------------------------- _preprocess

  /**
   * `.str` works on the column `name`: a single column carries the name (a name two columns
   * share gives a frame, which has no `.str`), and it is an object column that does not hold
   * numbers without text, which `.str` refuses.
   */
  predicate StrAccessible(f: Frame, name: string)
    requires WellFormed(f) && name in Names(f.columns)
  {
    var names := Names(f.columns);
    !Duplicated(names, name) &&
    f.columns[IndexOf(names, name)].dtype == Object && !StrRefused(f.rows, IndexOf(names, name))
  }

  /**
   * The checks before `.str` on `df.<name>` or `df[name]`: a column that is not there raises
   * `missing`; otherwise `.str` raises AttributeError unless it works on the column. The
   * result is the column's position.
   */
  function StrColumn(f: Frame, name: string, missing: Error): (r: Result<nat, Error>)
    requires WellFormed(f)
    ensures name !in Names(f.columns) ==> r == Err(missing)
    ensures name in Names(f.columns) ==> (r.Ok? <==> StrAccessible(f, name))
    ensures name in Names(f.columns) && r.Err? ==> r.error == MissingAttribute("str")
    ensures r.Ok? ==> name in Names(f.columns) && r.value == IndexOf(Names(f.columns), name)
  {
    var names := Names(f.columns);
    if name !in names then Err(missing)
    else if !StrAccessible(f, name) then Err(MissingAttribute("str"))
    else Ok(IndexOf(names, name))
  }

  /** Cell `j` of every row, in row order. */
  function CellsAt(rows: seq<Record>, j: nat): (cells: seq<Cell>)
    requires forall x :: x in rows ==> j < |x.values|
    ensures |cells| == |rows| && forall k :: 0 <= k < |rows| ==> cells[k] == rows[k].values[j]
  {
    seq(|rows|, k requires 0 <= k < |rows| => rows[k].values[j])
  }

  /**
   * One cell through `.str.replace(",", "").astype(np.float64)`: text is stripped of "," and
   * must then read as a number, or the cast raises with the stripped text; a cell that is not
   * text comes out of `.str.replace` as NaN.
   */
  function CastCell(c: Cell): (r: Result<Cell, Error>)
    ensures r.Err? <==> c.Str? && ParseNumber(RemoveChar(c.text, ',')).None?
    ensures r.Err? ==> r.error == NotANumber(RemoveChar(c.text, ','))
    ensures r.Ok? ==> r.value == CoerceCell(c)
  {
    match c
    case Str(s) =>
      (match ParseNumber(RemoveChar(s, ',')) case Some(v) => Ok(Num(v)) case None => Err(NotANumber(RemoveChar(s, ','))))
    case Num(_) => Ok(Null)
    case Null => Ok(Null)
  }

  /** The cast of a whole column: the first cell, in row order, that does not cast. */
  function CastFailure(cells: seq<Cell>): (r: Option<Error>)
    ensures r.None? <==> forall k :: 0 <= k < |cells| ==> CastCell(cells[k]).Ok?
    ensures r.Some? ==>
      exists k :: 0 <= k < |cells| && CastCell(cells[k]) == Err(r.value) &&
        forall i :: 0 <= i < k ==> CastCell(cells[i]).Ok?
  {
    if cells == [] then None
    else
      match CastCell(cells[0])
      case Err(e) => Some(e)
      case Ok(_) =>
        var rest := CastFailure(cells[1..]);
        CastFailureStep(cells, rest);
        rest
  }

  /** The step of CastFailure past a first cell that casts: the rest's first failure is the whole column's. */
  lemma CastFailureStep(cells: seq<Cell>, rest: Option<Error>)
    requires cells != [] && CastCell(cells[0]).Ok?
    requires rest.None? <==> forall k :: 0 <= k < |cells| - 1 ==> CastCell(cells[1..][k]).Ok?
    requires rest.Some? ==>
      exists k :: 0 <= k < |cells| - 1 && CastCell(cells[1..][k]) == Err(rest.value) &&
        forall i :: 0 <= i < k ==> CastCell(cells[1..][i]).Ok?
    ensures rest.None? <==> forall k :: 0 <= k < |cells| ==> CastCell(cells[k]).Ok?
    ensures rest.Some? ==>
      exists k :: 0 <= k < |cells| && CastCell(cells[k]) == Err(rest.value) &&
        forall i :: 0 <= i < k ==> CastCell(cells[i]).Ok?
  {
    assert forall k :: 1 <= k < |cells| ==> cells[k] == cells[1..][k - 1];
    if rest.Some? {
      var k :| 0 <= k < |cells| - 1 && CastCell(cells[1..][k]) == Err(rest.value) &&
        forall i :: 0 <= i < k ==> CastCell(cells[1..][i]).Ok?;
      assert CastCell(cells[k + 1]) == Err(rest.value);
      forall i | 0 <= i < k + 1 ensures CastCell(cells[i]).Ok? {
        if i > 0 { assert cells[i] == cells[1..][i - 1]; }
      }
    }
  }

  /**
   * One pass of the legacy column loop, `df[col] = df[col].str.replace(",", "").astype(float64)`:
   * a missing column raises KeyError, `.str` checks as above, and the cast raises on the first
   * cell that is not a number. When it succeeds it does what the current, lenient pass does.
   */
  function StrictColumn(f: Frame, name: string): (r: Result<Frame, Error>)
    requires WellFormed(f)
    ensures r.Ok? ==> WellFormed(r.value)
    ensures r.Err? ==> r.error == MissingColumn(name) || r.error == MissingAttribute("str") || r.error.NotANumber?
  {
    match StrColumn(f, name, MissingColumn(name))
    case Err(e) => Err(e)
    case Ok(j) =>
      match CastFailure(CellsAt(f.rows, j))
      case Some(e) => Err(e)
      case None =>
        CoerceAtWellFormed(f, j);
        Ok(Frame(f.columns[j := Column(name, Float64)], CoerceAt(f.rows, j)))
  }

  /**
   * The strict pass against the lenient one of the current reader: where the strict pass
   * succeeds the two agree; a column the lenient pass skips (absent, float64) makes the strict
   * pass raise, and so does anything that makes the lenient pass raise.
   */
  lemma StrictLenient(f: Frame, name: string)
    requires WellFormed(f)
    ensures StrictColumn(f, name).Ok? ==> ConvertColumn(f, name) == StrictColumn(f, name)
    ensures name !in Names(f.columns) ==> StrictColumn(f, name) == Err(MissingColumn(name))
    ensures ConvertColumn(f, name).Err? ==> StrictColumn(f, name) == Err(MissingAttribute("str"))
    ensures name in Names(f.columns) && f.columns[IndexOf(Names(f.columns), name)].dtype == Float64 ==>
      StrictColumn(f, name) == Err(MissingAttribute("str"))
  {
  }

  /** The legacy column loop over `names`, in order; the first failure ends it. */
  function StrictAll(f: Frame, names: seq<string>): (r: Result<Frame, Error>)
    requires WellFormed(f)
    ensures r.Ok? ==> WellFormed(r.value)
    decreases |names|
  {
    if names == [] then Ok(f)
    else
      match StrictColumn(f, names[0])
      case Err(e) => Err(e)
      case Ok(g) => StrictAll(g, names[1..])
  }

  /** A cell of the `Volume` column after `df.Volume.str.replace(",", "")`. */
  function StripCell(c: Cell): (r: Cell)
    ensures r.Str? <==> c.Str?
    ensures r.Str? ==> ',' !in r.text
  {
    match c
    case Str(s) => Str(RemoveChar(s, ','))
    case _ => Null
  }

  function StripAt(rows: seq<Record>, j: nat): (r: seq<Record>)
    requires forall x :: x in rows ==> j < |x.values|
    ensures |r| == |rows| && Dates(r) == Dates(rows)
    ensures forall k :: 0 <= k < |rows| ==>
      r[k] == Record(rows[k].date, rows[k].values[j := StripCell(rows[k].values[j])])
  {
    seq(|rows|, k requires 0 <= k < |rows| =>
      Record(rows[k].date, rows[k].values[j := StripCell(rows[k].values[j])]))
  }

  /**
   * `df.Volume = df.Volume.str.replace(",", "")`: AttributeError when there is no `Volume`
   * column, the `.str` checks, and otherwise the column's text stripped of separators, still
   * an object column.
   */
  function StripVolume(f: Frame): (r: Result<Frame, Error>)
    requires WellFormed(f)
    ensures r.Err? <==> StrColumn(f, "Volume", MissingAttribute("Volume")).Err?
    ensures r.Err? ==> r.error == MissingAttribute("Volume") || r.error == MissingAttribute("str")
    ensures r.Ok? ==> WellFormed(r.value) && r.value.columns == f.columns
    ensures r.Ok? ==>
      r.value.rows == StripAt(f.rows, StrColumn(f, "Volume", MissingAttribute("Volume")).value)
  {
    match StrColumn(f, "Volume", MissingAttribute("Volume"))
    case Err(e) => Err(e)
    case Ok(j) =>
      StripWellFormed(f, j);
      Ok(Frame(f.columns, StripAt(f.rows, j)))
  }

  /** Stripping an object column keeps the frame well formed. */
  lemma StripWellFormed(f: Frame, j: nat)
    requires WellFormed(f) && j < |f.columns| && f.columns[j].dtype == Object
    ensures forall x :: x in f.rows ==> j < |x.values|
    ensures WellFormed(Frame(f.columns, StripAt(f.rows, j)))
  {
    var g := Frame(f.columns, StripAt(f.rows, j));
    forall x | x in g.rows
      ensures ValidDate(x.date) && |x.values| == |g.columns|
      ensures forall i :: 0 <= i < |g.columns| && g.columns[i].dtype == Float64 ==> !x.values[i].Str?
    {
      var k :| 0 <= k < |g.rows| && g.rows[k] == x;
      assert f.rows[k] in f.rows;
    }
  }

  /** `_preprocess`: the empty frame for no input; otherwise the prepared frame, `Volume` stripped, then cast. */
  function LegacyPreprocessSpec(frames: seq<Frame>): (r: Result<Frame, Error>)
    requires SameNames(frames) && forall g :: g in frames ==> WellFormed(g)
  {
    if frames == [] then Ok(EmptyFrame())
    else
      match StripVolume(Prepared(frames))
      case Err(e) => Err(e)
      case Ok(g) => StrictAll(g, NUMERIC)
  }

  /** `_preprocess`, its column loop reassigning the frame one numeric column at a time. */
  method LegacyPreprocess(frames: seq<Frame>) returns (r: Result<Frame, Error>)
    requires SameNames(frames) && forall g :: g in frames ==> WellFormed(g)
    ensures r == LegacyPreprocessSpec(frames)
  {
    if |frames| == 0 {
      return Ok(EmptyFrame());
    }
    var stripped := StripVolume(Prepared(frames));
    if stripped.Err? {
      return Err(stripped.error);
    }
    var df := stripped.value;
    var i := 0;
    while i < |NUMERIC|
      invariant 0 <= i <= |NUMERIC| && WellFormed(df)
      invariant StrictAll(df, NUMERIC[i..]) == LegacyPreprocessSpec(frames)
    {
      SuffixStep(NUMERIC, i);
      var step := StrictColumn(df, NUMERIC[i]);
      if step.Err? {
        return Err(step.error);
      }
      df := step.value;
      i := i + 1;
    }
    return Ok(df);
  }

  // ---------------------------------------------------------------- what _preprocess produces

  /**
   * One strict pass on a partly converted frame fails exactly as it would on the unconverted
   * frame, and otherwise adds `name` to the converted columns.
   */
  lemma StrictStep(base: Frame, done: seq<string>, name: string)
    requires WellFormed(base) && name !in done
    ensures StrictColumn(Converted(base, done), name) ==
      if StrictColumn(base, name).Err? then StrictColumn(base, name) else Ok(Converted(base, done + [name]))
  {
    var f := Converted(base, done);
    var names := Names(base.columns);
    if name in names && !Duplicated(names, name) {
      var j := IndexOf(names, name);
      assert base.columns[j].name == name;
      ConvertStepRefused(base, done, j);
      assert StrColumn(f, name, MissingColumn(name)) == StrColumn(base, name, MissingColumn(name)) by {
        assert f.columns[j] == base.columns[j];
      }
      if StrColumn(base, name, MissingColumn(name)).Ok? {
        StrictStepCells(base, done, j);
        if StrictColumn(base, name).Ok? {
          ConvertStepObject(base, done, name, j);
        }
      }
    }
  }

  /** Converting other columns leaves the cells of column `j` as they were. */
  lemma StrictStepCells(base: Frame, done: seq<string>, j: nat)
    requires WellFormed(base) && j < |base.columns| && base.columns[j].name !in done
    ensures forall x :: x in Converted(base, done).rows ==> j < |x.values|
    ensures forall x :: x in base.rows ==> j < |x.values|
    ensures CellsAt(Converted(base, done).rows, j) == CellsAt(base.rows, j)
  {
    var f := Converted(base, done);
    ConvertStepRefused(base, done, j);
    forall k | 0 <= k < |base.rows| ensures f.rows[k].values[j] == base.rows[k].values[j] {
      assert base.rows[k] in base.rows;
    }
  }

  /**
   * The legacy column loop over `cols`, on a frame with the columns in `done` already
   * converted, fails exactly when one of its passes would fail on the unconverted frame, with
   * that pass's error, and otherwise converts the columns of `cols` too.
   */
  lemma {:induction false} StrictAllSpec(base: Frame, done: seq<string>, cols: seq<string>)
    requires WellFormed(base)
    requires forall c :: c in cols ==> c !in done
    requires forall a, b :: 0 <= a < b < |cols| ==> cols[a] != cols[b]
    ensures StrictAll(Converted(base, done), cols).Ok? <==> forall c :: c in cols ==> StrictColumn(base, c).Ok?
    ensures StrictAll(Converted(base, done), cols).Ok? ==>
      StrictAll(Converted(base, done), cols).value == Converted(base, done + cols)
    ensures StrictAll(Converted(base, done), cols).Err? ==>
      exists c :: c in cols && StrictColumn(base, c) == StrictAll(Converted(base, done), cols)
    decreases |cols|
  {
    if cols == [] {
      assert done + cols == done;
    } else if StrictColumn(base, cols[0]).Ok? {
      DistinctTail(done, cols);
      StrictAllSpec(base, done + [cols[0]], cols[1..]);
      StrictAllHeadOk(base, done, cols);
    } else {
      StrictStep(base, done, cols[0]);
      HeadOrRest(cols);
    }
  }

  /** The step of `StrictAllSpec` whose first pass succeeds: the rest of the loop decides. */
  lemma StrictAllHeadOk(base: Frame, done: seq<string>, cols: seq<string>)
    requires WellFormed(base) && cols != [] && cols[0] !in done
    requires StrictColumn(base, cols[0]).Ok?
    requires var g := StrictAll(Converted(base, done + [cols[0]]), cols[1..]);
      (g.Ok? <==> forall c :: c in cols[1..] ==> StrictColumn(base, c).Ok?) &&
      (g.Ok? ==> g.value == Converted(base, (done + [cols[0]]) + cols[1..])) &&
      (g.Err? ==> exists c :: c in cols[1..] && StrictColumn(base, c) == g)
    ensures StrictAll(Converted(base, done), cols).Ok? <==> forall c :: c in cols ==> StrictColumn(base, c).Ok?
    ensures StrictAll(Converted(base, done), cols).Ok? ==>
      StrictAll(Converted(base, done), cols).value == Converted(base, done + cols)
    ensures StrictAll(Converted(base, done), cols).Err? ==>
      exists c :: c in cols && StrictColumn(base, c) == StrictAll(Converted(base, done), cols)
  {
    StrictStep(base, done, cols[0]);
    assert StrictAll(Converted(base, done), cols) == StrictAll(Converted(base, done + [cols[0]]), cols[1..]);
    HeadOrRest(cols);
    AppendHead(done, cols);
  }

  /**
   * The legacy column loop over the numeric columns fails exactly when the strict pass for one
   * of them fails on the frame it starts from, with that pass's error; otherwise it converts
   * them all, as the lenient loop does.
   */
  lemma StrictConverted(g: Frame)
    requires WellFormed(g)
    ensures StrictAll(g, NUMERIC).Ok? <==> forall c :: c in NUMERIC ==> StrictColumn(g, c).Ok?
    ensures StrictAll(g, NUMERIC).Ok? ==> StrictAll(g, NUMERIC).value == Converted(g, NUMERIC)
    ensures StrictAll(g, NUMERIC).Err? ==> exists c :: c in NUMERIC && StrictColumn(g, c) == StrictAll(g, NUMERIC)
  {
    ConvertedNone(g);
    NumericDistinct();
    StrictAllSpec(g, [], NUMERIC);
    NothingBefore(NUMERIC);
  }

  /** Stripping "," twice is stripping it once. */
  lemma RemoveCharTwice(s: string)
    ensures RemoveChar(RemoveChar(s, ','), ',') == RemoveChar(s, ',')
  {
    RemoveCharAbsent(RemoveChar(s, ','), ',');
  }

  /** `_preprocess` handed one frame alone. */
  function LegacyRerun(f: Frame): Result<Frame, Error>
    requires WellFormed(f)
  {
    LegacyPreprocessSpec([f])
  }

  /** The position of the `Volume` column in a frame whose `Volume` column can be stripped. */
  function VolumeAt(p: Frame): (v: nat)
    requires WellFormed(p) && StripVolume(p).Ok?
    ensures v < |p.columns| && p.columns[v].name == "Volume" && p.columns[v].dtype == Object
    ensures StrAccessible(p, "Volume") && v == IndexOf(Names(p.columns), "Volume")
  {
    StrColumn(p, "Volume", MissingAttribute("Volume")).value
  }

  /** Stripping the `Volume` column first changes nothing the lenient conversion would produce. */
  lemma StripAbsorbed(p: Frame)
    requires WellFormed(p) && StripVolume(p).Ok?
    ensures Converted(StripVolume(p).value, NUMERIC) == Converted(p, NUMERIC)
  {
    var g := StripVolume(p).value;
    var a := Converted(g, NUMERIC);
    var b := Converted(p, NUMERIC);
    assert a.columns == b.columns by {
      assert g.columns == p.columns;
    }
    assert a.rows == b.rows by {
      forall k | 0 <= k < |p.rows| ensures a.rows[k] == b.rows[k] {
        StripAbsorbedRow(p, k);
      }
    }
  }

  lemma StripAbsorbedRow(p: Frame, k: nat)
    requires WellFormed(p) && StripVolume(p).Ok? && k < |p.rows|
    ensures Converted(StripVolume(p).value, NUMERIC).rows[k] == Converted(p, NUMERIC).rows[k]
  {
    var g := StripVolume(p).value;
    var v := VolumeAt(p);
    assert p.rows[k] in p.rows;
    StripAbsorbedRecord(p.rows[k], p.columns, v);
  }

  /** Coercion after stripping one text cell of "," is coercion of the unstripped cell. */
  lemma StripAbsorbedRecord(x: Record, columns: seq<Column>, v: nat)
    requires |x.values| == |columns| && v < |columns|
    requires columns[v].name == "Volume" && columns[v].dtype == Object
    ensures ConvertedRecord(Record(x.date, x.values[v := StripCell(x.values[v])]), columns, NUMERIC) ==
      ConvertedRecord(x, columns, NUMERIC)
  {
    assert "Volume" in NUMERIC;
    var c := x.values[v];
    if c.Str? {
      RemoveCharTwice(c.text);
    }
    var a := ConvertedRecord(Record(x.date, x.values[v := StripCell(x.values[v])]), columns, NUMERIC);
    var b := ConvertedRecord(x, columns, NUMERIC);
    forall j | 0 <= j < |columns| ensures a.values[j] == b.values[j] {
    }
  }

  /** A lenient pass that succeeds on the stripped frame succeeds on the unstripped one. */
  lemma StripLenient(p: Frame, c: string)
    requires WellFormed(p) && StripVolume(p).Ok?
    ensures ConvertColumn(StripVolume(p).value, c).Ok? ==> ConvertColumn(p, c).Ok?
  {
    var g := StripVolume(p).value;
    var v := VolumeAt(p);
    var names := Names(p.columns);
    ConvertColumnSucceeds(g, c);
    ConvertColumnSucceeds(p, c);
    if c in names && !Duplicated(names, c) {
      var j := IndexOf(names, c);
      if j != v {
        StripOtherColumn(p, j);
      }
    }
  }

  /** Stripping the `Volume` column leaves whether `.str` refuses another column unchanged. */
  lemma StripOtherColumn(p: Frame, j: nat)
    requires WellFormed(p) && StripVolume(p).Ok? && j < |p.columns| && j != VolumeAt(p)
    ensures StrRefused(StripVolume(p).value.rows, j) == StrRefused(p.rows, j)
  {
    var g := StripVolume(p).value;
    forall k | 0 <= k < |p.rows| ensures g.rows[k].values[j] == p.rows[k].values[j] {
      assert p.rows[k] in p.rows;
    }
    RefusedAlike(g.rows, p.rows, j);
  }

  /**
   * Where the legacy `_preprocess` succeeds, the current `preprocess` returns the same frame:
   * the two differ only in what raises.
   */
  lemma LegacyAgrees(frames: seq<Frame>)
    requires SameNames(frames) && forall g :: g in frames ==> WellFormed(g)
    ensures LegacyPreprocessSpec(frames).Ok? ==> PreprocessSpec(frames) == LegacyPreprocessSpec(frames)
  {
    if frames != [] && LegacyPreprocessSpec(frames).Ok? {
      var p := Prepared(frames);
      var g := StripVolume(p).value;
      StrictConverted(g);
      StripAbsorbed(p);
      forall c | c in NUMERIC ensures ConvertColumn(p, c).Ok? {
        StrictLenient(g, c);
        StripLenient(p, c);
      }
      PreprocessConverted(frames);
    }
  }

  /**
   * The legacy `_preprocess` cannot take its own result back: its numeric columns are float64,
   * so `df.Volume.str` raises (the current `preprocess` returns such a frame unchanged, as
   * `PreprocessIdempotent` shows).
   */
  lemma LegacyRejectsOwnOutput(frames: seq<Frame>)
    requires |frames| > 0 && SameNames(frames) && forall g :: g in frames ==> WellFormed(g)
    requires LegacyPreprocessSpec(frames).Ok?
    ensures LegacyRerun(LegacyPreprocessSpec(frames).value) == Err(MissingAttribute("str"))
  {
    var f := LegacyPreprocessSpec(frames).value;
    LegacyAgrees(frames);
    VolumeConverted(frames);
    FloatVolumeRejected(f);
  }

  /** The `Volume` column survives the conversion, as a float64 column. */
  lemma VolumeConverted(frames: seq<Frame>)
    requires |frames| > 0 && SameNames(frames) && forall g :: g in frames ==> WellFormed(g)
    requires StripVolume(Prepared(frames)).Ok?
    ensures var f := Converted(Prepared(frames), NUMERIC);
      WellFormed(f) && SameNames([f]) && Prepared([f]) == f &&
      "Volume" in Names(f.columns) && f.columns[IndexOf(Names(f.columns), "Volume")].dtype == Float64
    ensures PreprocessSpec(frames).Ok? ==> PreprocessSpec(frames).value == Converted(Prepared(frames), NUMERIC)
  {
    var p := Prepared(frames);
    var f := Converted(p, NUMERIC);
    PreprocessConverted(frames);
    PreparedResult(frames);
    var v := VolumeAt(p);
    assert "Volume" in NUMERIC;
    assert Names(f.columns) == Names(p.columns);
  }

  /** A frame handed back alone whose `Volume` column is float64 makes `df.Volume.str` raise. */
  lemma FloatVolumeRejected(f: Frame)
    requires WellFormed(f) && SameNames([f]) && Prepared([f]) == f
    requires "Volume" in Names(f.columns) && f.columns[IndexOf(Names(f.columns), "Volume")].dtype == Float64
    ensures LegacyPreprocessSpec([f]) == Err(MissingAttribute("str"))
  {
    assert !StrAccessible(f, "Volume");
  }

  /**
   * A numeric cell whose text is not a number once "," is gone makes the legacy `_preprocess`
   * raise, where the current `preprocess` turns it into NaN.
   */
  lemma LegacyRejectsUnparseable(frames: seq<Frame>, k: nat, j: nat)
    requires |frames| > 0 && SameNames(frames) && forall g :: g in frames ==> WellFormed(g)
    requires var p := Prepared(frames);
      k < |p.rows| && j < |p.columns| && p.columns[j].name in NUMERIC &&
      p.rows[k].values[j].Str? && ParseNumber(RemoveChar(p.rows[k].values[j].text, ',')).None?
    ensures LegacyPreprocessSpec(frames).Err?
  {
    var p := Prepared(frames);
    if StripVolume(p).Ok? {
      var g := StripVolume(p).value;
      StripKeepsUnparseable(p, k, j);
      StrictRejectsText(g, k, j);
      StrictConverted(g);
    }
  }

  /** Stripping `Volume` leaves text that is not a number as text that is not a number. */
  lemma StripKeepsUnparseable(p: Frame, k: nat, j: nat)
    requires WellFormed(p) && StripVolume(p).Ok?
    requires k < |p.rows| && j < |p.columns|
    requires p.rows[k].values[j].Str? && ParseNumber(RemoveChar(p.rows[k].values[j].text, ',')).None?
    ensures var g := StripVolume(p).value;
      k < |g.rows| && j < |g.columns| && g.columns[j] == p.columns[j] &&
      g.rows[k].values[j].Str? && ParseNumber(RemoveChar(g.rows[k].values[j].text, ',')).None?
  {
    assert p.rows[k] in p.rows;
    RemoveCharTwice(p.rows[k].values[j].text);
  }

  /** A text cell that is not a number makes the strict pass for its column raise. */
  lemma StrictRejectsText(g: Frame, k: nat, j: nat)
    requires WellFormed(g) && k < |g.rows| && j < |g.columns|
    requires g.rows[k].values[j].Str? && ParseNumber(RemoveChar(g.rows[k].values[j].text, ',')).None?
    ensures StrictColumn(g, g.columns[j].name).Err?
  {
    var name := g.columns[j].name;
    var names := Names(g.columns);
    assert names[j] == name;
    if StrColumn(g, name, MissingColumn(name)).Ok? {
      var i := IndexOf(names, name);
      forall a | 0 <= a < |names| && names[a] == name ensures a == i {
        assert names[a] == name && names[i] == name;
      }
      assert g.rows[k] in g.rows;
      assert CastCell(CellsAt(g.rows, i)[k]).Err?;
    }
  }

  // ---------------------------------------------------------------- get_psx_data

  /** The legacy month downloads of `symbol`, in submission order. */
  function LegacyDownloads(post: Reader.Form -> Reader.Response, symbol: string, dates: seq<Date>)
    : (r: seq<Result<Frame, Error>>)
    ensures |r| == |dates| && forall i :: 0 <= i < |dates| ==> r[i] == LegacyDownload(post, symbol, dates[i])
  {
    seq(|dates|, i requires 0 <= i < |dates| => LegacyDownload(post, symbol, dates[i]))
  }

  /**
   * The legacy `get_psx_data` with the downloads completing in `order`: the first failure in
   * that order, or the legacy `_preprocess` of the monthly frames in that order.
   */
  function LegacyFetchSpec(post: Reader.Form -> Reader.Response, symbol: string, dates: seq<Date>, order: seq<nat>)
    : (r: Result<Frame, Error>)
    requires Reader.IsArrivalOrder(order, |dates|)
  {
    var results := LegacyDownloads(post, symbol, dates);
    Reader.ArrivalOrderBounds(order, |dates|);
    Reader.GatheredFrames(Reader.Pick(results, order));
    match Reader.Gather(Reader.Pick(results, order))
    case Err(e) => Err(e)
    case Ok(frames) => LegacyPreprocessSpec(frames)
  }

  /**
   * The legacy `get_psx_data`: one task per anchor, posting that anchor's form; each page is
   * parsed by `_html_to_frame`, which is the same table parser as the current one; the
   * results are taken as they complete, in `order`, and merged by the legacy `_preprocess`.
   */
  method LegacyGetPsxData(post: Reader.Form -> Reader.Response, symbol: string, dates: seq<Date>, order: seq<nat>)
    returns (posted: seq<Reader.Form>, r: Result<Frame, Error>)
    requires Reader.IsArrivalOrder(order, |dates|)
    ensures |posted| == |dates| && forall i :: 0 <= i < |dates| ==> posted[i] == Reader.FormFor(symbol, dates[i])
    ensures r == LegacyFetchSpec(post, symbol, dates, order)
  {
    posted := Reader.SubmitForms(symbol, dates);
    Reader.ArrivalOrderBounds(order, |dates|);
    var data := LegacyCollectArrivals(post, posted, symbol, dates, order);
    LegacyGathered(post, symbol, dates, order);
    if data.Err? {
      return posted, Err(data.error);
    }
    r := LegacyPreprocess(data.value);
  }

  /** The `as_completed` loop of the legacy `get_psx_data`, each answer parsed by `_html_to_frame`. */
  method LegacyCollectArrivals(post: Reader.Form -> Reader.Response, posted: seq<Reader.Form>, symbol: string,
                               dates: seq<Date>, order: seq<nat>) returns (r: Result<seq<Frame>, Error>)
    requires Reader.IsArrivalOrder(order, |dates|)
    requires |posted| == |dates| && forall i :: 0 <= i < |dates| ==> posted[i] == Reader.FormFor(symbol, dates[i])
    ensures forall k :: 0 <= k < |order| ==> order[k] < |dates|
    ensures r == Reader.Gather(Reader.Pick(LegacyDownloads(post, symbol, dates), order))
  {
    Reader.ArrivalOrderBounds(order, |dates|);
    ghost var arrived := Reader.Pick(LegacyDownloads(post, symbol, dates), order);
    var data: seq<Frame> := [];
    var k := 0;
    while k < |order|
      invariant 0 <= k <= |order|
      invariant Reader.Gather(arrived[..k]) == Ok(data)
    {
      var result := HtmlToFrame(post(posted[order[k]]).rows);
      assert result == arrived[k];
      Reader.GatherStep(arrived, k);
      if result.Err? {
        Reader.GatherErrPrefix(arrived, k + 1);
        return Err(result.error);
      }
      data := data + [result.value];
      k := k + 1;
    }
    assert arrived[..k] == arrived;
    r := Ok(data);
  }

  /** Every month's frame that arrives is a text table with the exchange's columns. */
  lemma LegacyGathered(post: Reader.Form -> Reader.Response, symbol: string, dates: seq<Date>, order: seq<nat>)
    requires Reader.IsArrivalOrder(order, |dates|)
    ensures forall k :: 0 <= k < |order| ==> order[k] < |dates|
    ensures var gathered := Reader.Gather(Reader.Pick(LegacyDownloads(post, symbol, dates), order));
      gathered.Ok? ==> forall g :: g in gathered.value ==> WellFormed(g) && Names(g.columns) == NUMERIC && TextOnly(g)
    ensures var gathered := Reader.Gather(Reader.Pick(LegacyDownloads(post, symbol, dates), order));
      gathered.Ok? ==> LegacyFetchSpec(post, symbol, dates, order) == LegacyPreprocessSpec(gathered.value)
    ensures var gathered := Reader.Gather(Reader.Pick(LegacyDownloads(post, symbol, dates), order));
      gathered.Err? ==> LegacyFetchSpec(post, symbol, dates, order) == Err(gathered.error)
  {
    Reader.ArrivalOrderBounds(order, |dates|);
    var arrived := Reader.Pick(LegacyDownloads(post, symbol, dates), order);
    var gathered := Reader.Gather(arrived);
    if gathered.Ok? {
      forall g | g in gathered.value ensures WellFormed(g) && Names(g.columns) == NUMERIC && TextOnly(g) {
        var k :| 0 <= k < |gathered.value| && gathered.value[k] == g;
        assert arrived[k] == Ok(g);
      }
    }
  }

  /** A legacy fetch that succeeds is the current merge of the same months: sorted, with the exchange's columns. */
  lemma LegacyFetchShape(post: Reader.Form -> Reader.Response, symbol: string, dates: seq<Date>, order: seq<nat>)
    requires Reader.IsArrivalOrder(order, |dates|)
    ensures var r := LegacyFetchSpec(post, symbol, dates, order);
      r.Ok? ==> WellFormed(r.value) && Names(r.value.columns) == NUMERIC && SortedByDate(r.value.rows)
  {
    LegacyGathered(post, symbol, dates, order);
    var gathered := Reader.Gather(Reader.Pick(LegacyDownloads(post, symbol, dates), order));
    if gathered.Ok? {
      LegacyAgrees(gathered.value);
      Reader.MergedTables(gathered.value);
    }
  }

  /**
   * When no month's page comes back with an error status, a legacy fetch that succeeds
   * returns what the current fetch returns.
   */
  lemma LegacyFetchAgrees(post: Reader.Form -> Reader.Response, symbol: string, dates: seq<Date>, order: seq<nat>)
    requires Reader.IsArrivalOrder(order, |dates|)
    requires forall i :: 0 <= i < |dates| ==> !Reader.IsHttpError(post(Reader.FormFor(symbol, dates[i])).status)
    ensures LegacyFetchSpec(post, symbol, dates, order).Ok? ==>
      LegacyFetchSpec(post, symbol, dates, order) == Reader.FetchSpec(post, symbol, dates, order)
  {
    assert LegacyDownloads(post, symbol, dates) == Reader.Downloads(post, symbol, dates) by {
      forall i | 0 <= i < |dates| ensures LegacyDownload(post, symbol, dates[i]) == Reader.DownloadSingleMonth(post, symbol, dates[i]) {
        LegacyIgnoresStatus(post, symbol, dates[i]);
      }
    }
    LegacyGathered(post, symbol, dates, order);
    Reader.GatheredTables(post, symbol, dates, order);
    var gathered := Reader.Gather(Reader.Pick(LegacyDownloads(post, symbol, dates), order));
    if gathered.Ok? {
      LegacyAgrees(gathered.value);
    }
  }

  // ---------------------------------------------------------------- stocks

  /** The list `stocks` iterates: a lone symbol is wrapped in a list; `None` cannot be iterated. */
  function LegacySymbols(tickers: Reader.Tickers): (r: Result<seq<string>, Error>)
    ensures r.Err? <==> tickers.AllListed?
    ensures r.Err? ==> r.error == NotIterable
    ensures r.Ok? ==> forall master :: r.value == Reader.Symbols(master, tickers)
  {
    match tickers
    case AllListed => Err(NotIterable)
    case One(s) => Ok([s])
    case Many(symbols) => Ok(symbols)
  }

  /** One arrival order per symbol, each over the legacy anchors. */
  predicate LegacyArrivals(tickers: Reader.Tickers, start: Date, end: Date, arrivals: seq<seq<nat>>)
  {
    LegacySymbols(tickers).Ok? ==>
      |arrivals| == |LegacySymbols(tickers).value| &&
      forall k :: 0 <= k < |arrivals| ==> Reader.IsArrivalOrder(arrivals[k], |LegacyAnchors(start, end)|)
  }

  /** Each symbol's legacy fetch over the anchors, cut to the window, in symbol order. */
  function LegacyFetches(post: Reader.Form -> Reader.Response, symbols: seq<string>, dates: seq<Date>,
                         arrivals: seq<seq<nat>>, start: Date, end: Date): (r: seq<Result<Frame, Error>>)
    requires |arrivals| == |symbols| && forall k :: 0 <= k < |symbols| ==> Reader.IsArrivalOrder(arrivals[k], |dates|)
    ensures |r| == |symbols| && forall k :: 0 <= k < |symbols| ==>
      r[k] == Reader.WindowedResult(LegacyFetchSpec(post, symbols[k], dates, arrivals[k]), start, end)
  {
    seq(|symbols|, k requires 0 <= k < |symbols| =>
      Reader.WindowedResult(LegacyFetchSpec(post, symbols[k], dates, arrivals[k]), start, end))
  }

  /** Every symbol's windowed frame is a sorted, well-formed table with the exchange's columns. */
  lemma LegacyFetchedTables(post: Reader.Form -> Reader.Response, symbols: seq<string>, dates: seq<Date>,
                            arrivals: seq<seq<nat>>, start: Date, end: Date)
    requires |arrivals| == |symbols| && forall k :: 0 <= k < |symbols| ==> Reader.IsArrivalOrder(arrivals[k], |dates|)
    ensures var gathered := Reader.Gather(LegacyFetches(post, symbols, dates, arrivals, start, end));
      gathered.Ok? ==> forall g :: g in gathered.value ==>
        WellFormed(g) && Names(g.columns) == NUMERIC && SortedByDate(g.rows) &&
        forall x :: x in g.rows ==> NotAfter(start, x.date) && NotAfter(x.date, end)
  {
    var gathered := Reader.Gather(LegacyFetches(post, symbols, dates, arrivals, start, end));
    if gathered.Ok? {
      forall g | g in gathered.value
        ensures WellFormed(g) && Names(g.columns) == NUMERIC && SortedByDate(g.rows) &&
          forall x :: x in g.rows ==> NotAfter(start, x.date) && NotAfter(x.date, end)
      {
        var k :| 0 <= k < |gathered.value| && gathered.value[k] == g;
        LegacyFetchShape(post, symbols[k], dates, arrivals[k]);
      }
    }
  }

  /**
   * The legacy `stocks`: the symbols (`None` fails when the loop starts), the unchecked
   * anchors, then each symbol's fetch in turn, cut to the window; the first failing symbol
   * ends the call; the same shaping as the current reader.
   */
  function LegacyStocksSpec(post: Reader.Form -> Reader.Response, tickers: Reader.Tickers, start: Date, end: Date,
                            arrivals: seq<seq<nat>>): (r: Result<Reader.Stocked, Error>)
    requires LegacyArrivals(tickers, start, end, arrivals)
  {
    match LegacySymbols(tickers)
    case Err(e) => Err(e)
    case Ok(symbols) =>
      var dates := LegacyAnchors(start, end);
      LegacyFetchedTables(post, symbols, dates, arrivals, start, end);
      match Reader.Gather(LegacyFetches(post, symbols, dates, arrivals, start, end))
      case Err(e) => Err(e)
      case Ok(frames) => Reader.Shape(symbols, frames)
  }

  /** The loop of the legacy `stocks`: each symbol's fetch in turn, cut to the window, stopping at the first failure. */
  method LegacyFetchAll(post: Reader.Form -> Reader.Response, symbols: seq<string>, dates: seq<Date>,
                        arrivals: seq<seq<nat>>, start: Date, end: Date) returns (r: Result<seq<Frame>, Error>)
    requires |arrivals| == |symbols| && forall k :: 0 <= k < |symbols| ==> Reader.IsArrivalOrder(arrivals[k], |dates|)
    ensures r == Reader.Gather(LegacyFetches(post, symbols, dates, arrivals, start, end))
  {
    ghost var results := LegacyFetches(post, symbols, dates, arrivals, start, end);
    var frames: seq<Frame> := [];
    var k := 0;
    while k < |symbols|
      invariant 0 <= k <= |symbols|
      invariant Reader.Gather(results[..k]) == Ok(frames)
    {
      var posted, frame := LegacyGetPsxData(post, symbols[k], dates, arrivals[k]);
      assert results[k] == Reader.WindowedResult(frame, start, end);
      Reader.GatherStep(results, k);
      if frame.Err? {
        Reader.GatherErrPrefix(results, k + 1);
        return Err(frame.error);
      }
      frames := frames + [Reader.Windowed(frame.value, start, end)];
      k := k + 1;
    }
    assert results[..k] == results;
    r := Ok(frames);
  }

  /** The legacy `stocks`: wrap the symbols, compute the anchors, fetch every symbol, shape the result. */
  method LegacyStocks(post: Reader.Form -> Reader.Response, tickers: Reader.Tickers, start: Date, end: Date,
                      arrivals: seq<seq<nat>>) returns (r: Result<Reader.Stocked, Error>)
    requires ValidDate(start)
    requires LegacyArrivals(tickers, start, end, arrivals)
    ensures r == LegacyStocksSpec(post, tickers, start, end, arrivals)
  {
    var wrapped := LegacySymbols(tickers);
    var dates := LegacyDaterange(start, end);
    if wrapped.Err? {
      return Err(wrapped.error);
    }
    var symbols := wrapped.value;
    var fetched := LegacyFetchAll(post, symbols, dates, arrivals, start, end);
    if fetched.Err? {
      return Err(fetched.error);
    }
    LegacyFetchedTables(post, symbols, dates, arrivals, start, end);
    r := Reader.Shape(symbols, fetched.value);
  }

  /** A reversed window keeps no row. */
  lemma {:induction false} WindowReversed(rows: seq<Record>, start: Date, end: Date)
    requires Before(end, start)
    ensures Window(rows, start, end) == []
  {
    if rows != [] {
      WindowReversed(rows[1..], start, end);
    }
  }

  /** Frames without rows concatenate to no rows. */
  lemma {:induction false} ConcatNoRows(frames: seq<Frame>)
    requires forall g :: g in frames ==> g.rows == []
    ensures ConcatRows(frames) == []
  {
    if frames != [] {
      assert frames[0] in frames;
      assert forall g :: g in frames[1..] ==> g in frames;
      ConcatNoRows(frames[1..]);
    }
  }

  /** Over a reversed window every symbol's frame is cut to no rows. */
  lemma LegacyReversedFrames(post: Reader.Form -> Reader.Response, symbols: seq<string>, dates: seq<Date>,
                             arrivals: seq<seq<nat>>, start: Date, end: Date)
    requires |arrivals| == |symbols| && forall k :: 0 <= k < |symbols| ==> Reader.IsArrivalOrder(arrivals[k], |dates|)
    requires Before(end, start)
    ensures var gathered := Reader.Gather(LegacyFetches(post, symbols, dates, arrivals, start, end));
      gathered.Ok? ==> forall g :: g in gathered.value ==> g.rows == []
  {
    var results := LegacyFetches(post, symbols, dates, arrivals, start, end);
    var gathered := Reader.Gather(results);
    if gathered.Ok? {
      forall g | g in gathered.value ensures g.rows == [] {
        var k :| 0 <= k < |gathered.value| && gathered.value[k] == g;
        assert results[k] == Ok(g);
        WindowReversed(LegacyFetchSpec(post, symbols[k], dates, arrivals[k]).value.rows, start, end);
      }
    }
  }

  /** Shaping frames without rows gives a result without rows. */
  lemma NoRowsShaped(keys: seq<string>, frames: seq<Frame>)
    requires |keys| == |frames| && SameNames(frames)
    requires forall g :: g in frames ==> g.rows == []
    ensures var r := Reader.Shape(keys, frames);
      r.Ok? ==> (r.value.Single? ==> r.value.frame.rows == []) && (r.value.Keyed? ==> r.value.rows == [])
  {
    if |frames| == 1 {
      assert frames[0] in frames;
    } else if frames != [] {
      ConcatNoRows(frames);
      Reader.KeyedRecords(keys, frames);
    }
  }

  /**
   * A reversed window is not an error for the legacy reader: every symbol downloads the one
   * month of `start` and the result, cut to the empty window, has no rows.
   */
  lemma LegacyStocksReversed(post: Reader.Form -> Reader.Response, tickers: Reader.Tickers, start: Date, end: Date,
                             arrivals: seq<seq<nat>>)
    requires ValidDate(start) && ValidDate(end) && Before(end, start)
    requires LegacyArrivals(tickers, start, end, arrivals)
    ensures LegacyAnchors(start, end) == [FirstOfMonth(start)]
    ensures var r := LegacyStocksSpec(post, tickers, start, end, arrivals);
      r.Ok? ==> (r.value.Single? ==> r.value.frame.rows == []) && (r.value.Keyed? ==> r.value.rows == [])
  {
    LegacyAnchorsReversed(start, end);
    if !tickers.AllListed? {
      var symbols := LegacySymbols(tickers).value;
      var dates := LegacyAnchors(start, end);
      LegacyReversedFrames(post, symbols, dates, arrivals, start, end);
      LegacyFetchedTables(post, symbols, dates, arrivals, start, end);
      var gathered := Reader.Gather(LegacyFetches(post, symbols, dates, arrivals, start, end));
      if gathered.Ok? {
        NoRowsShaped(symbols, gathered.value);
      }
    }
  }

  /** Without error statuses, legacy fetches that all succeed are the current fetches. */
  lemma LegacyFetchesAgree(post: Reader.Form -> Reader.Response, symbols: seq<string>, dates: seq<Date>,
                           arrivals: seq<seq<nat>>, start: Date, end: Date)
    requires |arrivals| == |symbols| && forall k :: 0 <= k < |symbols| ==> Reader.IsArrivalOrder(arrivals[k], |dates|)
    requires forall k, i :: 0 <= k < |symbols| && 0 <= i < |dates| ==>
      !Reader.IsHttpError(post(Reader.FormFor(symbols[k], dates[i])).status)
    ensures Reader.Gather(LegacyFetches(post, symbols, dates, arrivals, start, end)).Ok? ==>
      LegacyFetches(post, symbols, dates, arrivals, start, end) == Reader.Fetches(post, symbols, dates, arrivals, start, end)
  {
    var legacy := LegacyFetches(post, symbols, dates, arrivals, start, end);
    var current := Reader.Fetches(post, symbols, dates, arrivals, start, end);
    if Reader.Gather(legacy).Ok? {
      forall k | 0 <= k < |symbols| ensures legacy[k] == current[k] {
        LegacyFetchAgrees(post, symbols[k], dates, arrivals[k]);
      }
    }
  }

  /**
   * For an ordered window and pages that never come back with an error status, the legacy
   * `stocks` returns, when it succeeds, what the current one returns.
   */
  lemma LegacyStocksAgrees(post: Reader.Form -> Reader.Response, master: seq<Reader.Listing>, tickers: Reader.Tickers,
                           start: Date, end: Date, arrivals: seq<seq<nat>>)
    requires ValidDate(start) && ValidDate(end) && !Before(end, start) && !tickers.AllListed?
    requires |arrivals| == |Reader.Symbols(master, tickers)|
    requires forall k :: 0 <= k < |arrivals| ==> Reader.IsArrivalOrder(arrivals[k], |Reader.Anchors(start, end)|)
    requires forall k, i :: 0 <= k < |Reader.Symbols(master, tickers)| && 0 <= i < |Reader.Anchors(start, end)| ==>
      !Reader.IsHttpError(post(Reader.FormFor(Reader.Symbols(master, tickers)[k], Reader.Anchors(start, end)[i])).status)
    ensures LegacyArrivals(tickers, start, end, arrivals)
    ensures LegacyStocksSpec(post, tickers, start, end, arrivals).Ok? ==>
      LegacyStocksSpec(post, tickers, start, end, arrivals) == Reader.StocksSpec(post, master, tickers, start, end, arrivals)
  {
    LegacyAnchorsOrdered(start, end);
    var symbols := Reader.Symbols(master, tickers);
    LegacyFetchesAgree(post, symbols, Reader.Anchors(start, end), arrivals, start, end);
  }
}
