/**
 * The reader's price-history side: which symbols to fetch, one download per month anchor with
 * the answers collected in whatever order they complete, the merge of those months, and the
 * shaping of one or several symbols' frames into the result.
 */
module Reader {
  import opened Wrappers
  import opened Errors
  import opened Calendar
  import opened Frames
  import opened Parsing

  // ---------------------------------------------------------------- _download_single_month

  /** The form posted to the history endpoint. */
  datatype Form = Form(month: int, year: int, symbol: string)

  /** What the endpoint answers: a status code and the cell texts of the page's `<tr>` rows. */
  datatype Response = Response(status: int, rows: seq<seq<string>>)

  /** `raise_for_status` raises for client errors (4xx) and server errors (5xx). */
  predicate IsHttpError(status: int)
  {
    400 <= status < 600
  }

  /** The form for the month of anchor `d`. */
  function FormFor(symbol: string, d: Date): (form: Form)
    ensures form.month == d.month && form.year == d.year && form.symbol == symbol
  {
    Form(d.month, d.year, symbol)
  }

  /** The frame a response turns into: the status is checked first, then the table is parsed. */
  function Outcome(response: Response): (r: Result<Frame, Error>)
    ensures r.Err? && r.error.HttpStatus? <==> IsHttpError(response.status)
    ensures r.Err? && r.error.HttpStatus? ==> r.error.code == response.status
    ensures !IsHttpError(response.status) ==> r == TableSpec(ParseTableDate, response.rows)
    ensures r.Ok? ==> WellFormed(r.value) && Names(r.value.columns) == NUMERIC && TextOnly(r.value)
  {
    StrptimeIsDateParser();
    if IsHttpError(response.status) then Err(HttpStatus(response.status))
    else TableSpec(ParseTableDate, response.rows)
  }

  /** `_download_single_month`: post the anchor's month, year and symbol; check; parse. */
  function DownloadSingleMonth(post: Form -> Response, symbol: string, d: Date): (r: Result<Frame, Error>)
  {
    Outcome(post(FormFor(symbol, d)))
  }

  // ---------------------------------------------------------------- get_psx_data

  /** The indexes `0 .. n-1`, in order. */
  function Range(n: nat): (r: seq<nat>)
    ensures |r| == n && forall i :: 0 <= i < n ==> r[i] == i
  {
    seq(n, i requires 0 <= i < n => i)
  }

  /**
   * An order in which `n` submitted tasks can complete under `as_completed`: every task
   * exactly once.
   */
  predicate IsArrivalOrder(order: seq<nat>, n: nat)
  {
    multiset(order) == multiset(Range(n))
  }

  lemma ArrivalOrderBounds(order: seq<nat>, n: nat)
    requires IsArrivalOrder(order, n)
    ensures |order| == n && forall k :: 0 <= k < |order| ==> order[k] < n
  {
    assert |order| == |multiset(order)| == |multiset(Range(n))| == n;
    forall k | 0 <= k < |order| ensures order[k] < n {
      assert order[k] in multiset(Range(n));
    }
  }

  /** The items of `xs` at the positions listed in `order`. */
  function Pick<T>(xs: seq<T>, order: seq<nat>): (r: seq<T>)
    requires forall k :: 0 <= k < |order| ==> order[k] < |xs|
    ensures |r| == |order| && forall k :: 0 <= k < |order| ==> r[k] == xs[order[k]]
  {
    seq(|order|, k requires 0 <= k < |order| => xs[order[k]])
  }

  /** Picking by a rearranged list of positions picks a rearrangement. */
  lemma PickRearranged<T>(xs: seq<T>, a: seq<nat>, b: seq<nat>)
    requires forall k :: 0 <= k < |a| ==> a[k] < |xs|
    requires multiset(a) == multiset(b)
    ensures forall k :: 0 <= k < |b| ==> b[k] < |xs|
    ensures multiset(Pick(xs, a)) == multiset(Pick(xs, b))
  {
    forall k | 0 <= k < |b| ensures b[k] < |xs| {
      MultisetMember(b[k], b, a);
    }
    if xs == [] {
      assert a == [] && b == [];
    } else {
      var at := (i: nat) => if i < |xs| then xs[i] else xs[0];
      MapRearranged(at, a, b);
      assert Pick(xs, a) == Map(at, a) && Pick(xs, b) == Map(at, b);
    }
  }

  /** Every task's result in an arrival order is a rearrangement of the results in submission order. */
  lemma ArrivalRearranges<T>(xs: seq<T>, order: seq<nat>)
    requires IsArrivalOrder(order, |xs|)
    ensures forall k :: 0 <= k < |order| ==> order[k] < |xs|
    ensures multiset(Pick(xs, order)) == multiset(xs)
  {
    ArrivalOrderBounds(order, |xs|);
    PickRearranged(xs, order, Range(|xs|));
    assert Pick(xs, Range(|xs|)) == xs;
  }

  /**
   * `data.append(fut.result())` over the results in arrival order: `fut.result()` re-raises a
   * task's exception, so the first failure in that order ends the collection.
   */
  function Gather<T>(results: seq<Result<T, Error>>): (r: Result<seq<T>, Error>)
    ensures r.Ok? <==> forall k :: 0 <= k < |results| ==> results[k].Ok?
    ensures r.Ok? ==> |r.value| == |results| && forall k :: 0 <= k < |results| ==> results[k] == Ok(r.value[k])
    ensures r.Err? ==>
      exists k :: 0 <= k < |results| && results[k] == Err(r.error) &&
        forall i :: 0 <= i < k ==> results[i].Ok?
  {
    if results == [] then Ok([])
    else
      var n := |results| - 1;
      var prefix := results[..n];
      assert forall k :: 0 <= k < n ==> prefix[k] == results[k];
      match Gather(prefix)
      case Err(e) => Err(e)
      case Ok(items) =>
        match results[n]
        case Err(e) => Err(e)
        case Ok(x) => Ok(items + [x])
  }

  /** The month downloads of `symbol`, in submission order. */
  function Downloads(post: Form -> Response, symbol: string, dates: seq<Date>): (r: seq<Result<Frame, Error>>)
    ensures |r| == |dates| && forall i :: 0 <= i < |dates| ==> r[i] == DownloadSingleMonth(post, symbol, dates[i])
  {
    seq(|dates|, i requires 0 <= i < |dates| => DownloadSingleMonth(post, symbol, dates[i]))
  }

  /**
   * `get_psx_data` with the downloads completing in `order`: the first failure in that order,
   * or `preprocess` of the monthly frames in that order.
   */
  function FetchSpec(post: Form -> Response, symbol: string, dates: seq<Date>, order: seq<nat>): (r: Result<Frame, Error>)
    requires IsArrivalOrder(order, |dates|)
  {
    var results := Downloads(post, symbol, dates);
    ArrivalOrderBounds(order, |dates|);
    GatheredFrames(Pick(results, order));
    match Gather(Pick(results, order))
    case Err(e) => Err(e)
    case Ok(frames) => PreprocessSpec(frames)
  }

  /** The frames collected from results that are all well-formed tables with the exchange's columns. */
  lemma GatheredFrames(arrived: seq<Result<Frame, Error>>)
    requires forall k :: 0 <= k < |arrived| && arrived[k].Ok? ==>
      WellFormed(arrived[k].value) && Names(arrived[k].value.columns) == NUMERIC
    ensures Gather(arrived).Ok? ==>
      forall g :: g in Gather(arrived).value ==> WellFormed(g) && Names(g.columns) == NUMERIC
  {
    if Gather(arrived).Ok? {
      var frames := Gather(arrived).value;
      forall g | g in frames ensures WellFormed(g) && Names(g.columns) == NUMERIC {
        var k :| 0 <= k < |frames| && frames[k] == g;
        assert arrived[k] == Ok(g);
      }
    }
  }

  /**
   * `get_psx_data`: one task per anchor, posting that anchor's form; the results are taken
   * as they complete, in `order`; the monthly frames are merged by `preprocess`.
   */
  method GetPsxData(post: Form -> Response, symbol: string, dates: seq<Date>, order: seq<nat>)
    returns (posted: seq<Form>, r: Result<Frame, Error>)
    requires IsArrivalOrder(order, |dates|)
    ensures |posted| == |dates| && forall i :: 0 <= i < |dates| ==> posted[i] == FormFor(symbol, dates[i])
    ensures r == FetchSpec(post, symbol, dates, order)
  {
    posted := SubmitForms(symbol, dates);
    ArrivalOrderBounds(order, |dates|);
    var data := CollectArrivals(post, posted, symbol, dates, order);
    GatheredTables(post, symbol, dates, order);
    if data.Err? {
      return posted, Err(data.error);
    }
    r := Preprocess(data.value);
  }

  /** The submission loop of `get_psx_data`: one form per anchor, in anchor order. */
  method SubmitForms(symbol: string, dates: seq<Date>) returns (posted: seq<Form>)
    ensures |posted| == |dates| && forall i :: 0 <= i < |dates| ==> posted[i] == FormFor(symbol, dates[i])
  {
    posted := [];
    var i := 0;
    while i < |dates|
      invariant 0 <= i <= |dates| && |posted| == i
      invariant forall j :: 0 <= j < i ==> posted[j] == FormFor(symbol, dates[j])
    {
      posted := posted + [FormFor(symbol, dates[i])];
      i := i + 1;
    }
  }

  /** The `as_completed` loop of `get_psx_data`: each answer parsed as it arrives, the first failure re-raised. */
  method CollectArrivals(post: Form -> Response, posted: seq<Form>, symbol: string, dates: seq<Date>, order: seq<nat>)
    returns (r: Result<seq<Frame>, Error>)
    requires IsArrivalOrder(order, |dates|)
    requires |posted| == |dates| && forall i :: 0 <= i < |dates| ==> posted[i] == FormFor(symbol, dates[i])
    ensures forall k :: 0 <= k < |order| ==> order[k] < |dates|
    ensures r == Gather(Pick(Downloads(post, symbol, dates), order))
  {
    ArrivalOrderBounds(order, |dates|);
    ghost var arrived := Pick(Downloads(post, symbol, dates), order);
    var data: seq<Frame> := [];
    var k := 0;
    while k < |order|
      invariant 0 <= k <= |order|
      invariant Gather(arrived[..k]) == Ok(data)
    {
      var result := Outcome(post(posted[order[k]]));
      assert result == arrived[k];
      GatherStep(arrived, k);
      if result.Err? {
        GatherErrPrefix(arrived, k + 1);
        return Err(result.error);
      }
      data := data + [result.value];
      k := k + 1;
    }
    assert arrived[..k] == arrived;
    r := Ok(data);
  }

  /** One more result collected. */
  lemma GatherStep<T>(results: seq<Result<T, Error>>, k: nat)
    requires k < |results|
    ensures Gather(results[..k + 1]) ==
      match Gather(results[..k])
      case Err(e) => Err(e)
      case Ok(items) => (match results[k] case Err(e) => Err(e) case Ok(x) => Ok(items + [x]))
  {
    assert results[..k + 1][..k] == results[..k];
  }

  /** Once a failure is collected, later results change nothing. */
  lemma {:induction false} GatherErrPrefix<T>(results: seq<Result<T, Error>>, k: nat)
    requires k <= |results| && Gather(results[..k]).Err?
    ensures Gather(results) == Gather(results[..k])
    decreases |results| - k
  {
    if k < |results| {
      GatherStep(results, k);
      GatherErrPrefix(results, k + 1);
    } else {
      assert results[..k] == results;
    }
  }

  /** Every month's frame that arrives is a text table with the exchange's columns. */
  lemma GatheredTables(post: Form -> Response, symbol: string, dates: seq<Date>, order: seq<nat>)
    requires IsArrivalOrder(order, |dates|)
    ensures forall k :: 0 <= k < |order| ==> order[k] < |dates|
    ensures var gathered := Gather(Pick(Downloads(post, symbol, dates), order));
      gathered.Ok? ==> forall g :: g in gathered.value ==> WellFormed(g) && Names(g.columns) == NUMERIC && TextOnly(g)
    ensures var gathered := Gather(Pick(Downloads(post, symbol, dates), order));
      gathered.Ok? ==> FetchSpec(post, symbol, dates, order) == PreprocessSpec(gathered.value)
    ensures var gathered := Gather(Pick(Downloads(post, symbol, dates), order));
      gathered.Err? ==> FetchSpec(post, symbol, dates, order) == Err(gathered.error)
  {
    ArrivalOrderBounds(order, |dates|);
    var arrived := Pick(Downloads(post, symbol, dates), order);
    var gathered := Gather(arrived);
    if gathered.Ok? {
      forall g | g in gathered.value ensures WellFormed(g) && Names(g.columns) == NUMERIC && TextOnly(g) {
        var k :| 0 <= k < |gathered.value| && gathered.value[k] == g;
        assert arrived[k] == Ok(g);
      }
    }
  }

  /** Merging monthly text tables with the exchange's columns succeeds, sorted, with those columns. */
  lemma MergedTables(frames: seq<Frame>)
    requires SameNames(frames) && forall g :: g in frames ==> WellFormed(g)
    requires forall g :: g in frames ==> Names(g.columns) == NUMERIC && TextOnly(g)
    ensures PreprocessSpec(frames).Ok?
    ensures var f := PreprocessSpec(frames).value;
      WellFormed(f) && Names(f.columns) == NUMERIC && SortedByDate(f.rows)
  {
    PreprocessTextTables(frames);
    if frames != [] {
      PreprocessShape(frames);
      PreprocessConverted(frames);
      PreparedText(frames);
    }
  }

  /** The fetch succeeds exactly when every month downloads, and then it is sorted by date. */
  lemma FetchSucceeds(post: Form -> Response, symbol: string, dates: seq<Date>, order: seq<nat>)
    requires IsArrivalOrder(order, |dates|)
    ensures FetchSpec(post, symbol, dates, order).Ok? <==>
      forall i :: 0 <= i < |dates| ==> DownloadSingleMonth(post, symbol, dates[i]).Ok?
    ensures FetchSpec(post, symbol, dates, order).Ok? ==>
      WellFormed(FetchSpec(post, symbol, dates, order).value) &&
      Names(FetchSpec(post, symbol, dates, order).value.columns) == NUMERIC &&
      SortedByDate(FetchSpec(post, symbol, dates, order).value.rows)
  {
    var results := Downloads(post, symbol, dates);
    ArrivalRearranges(results, order);
    var arrived := Pick(results, order);
    AllOkRearranged(arrived, results);
    GatheredTables(post, symbol, dates, order);
    var gathered := Gather(arrived);
    if gathered.Ok? {
      MergedTables(gathered.value);
    }
  }

  /** Every result of a rearrangement succeeds exactly when every original result does. */
  lemma AllOkRearranged<T>(a: seq<Result<T, Error>>, b: seq<Result<T, Error>>)
    requires multiset(a) == multiset(b)
    ensures (forall k :: 0 <= k < |a| ==> a[k].Ok?) <==> (forall i :: 0 <= i < |b| ==> b[i].Ok?)
  {
    forall i | 0 <= i < |b| && (forall k :: 0 <= k < |a| ==> a[k].Ok?) ensures b[i].Ok? {
      MultisetMember(b[i], b, a);
    }
    forall k | 0 <= k < |a| && (forall i :: 0 <= i < |b| ==> b[i].Ok?) ensures a[k].Ok? {
      MultisetMember(a[k], a, b);
    }
  }

  /** A month whose download fails makes the whole fetch fail, with a download's error. */
  lemma FetchFails(post: Form -> Response, symbol: string, dates: seq<Date>, order: seq<nat>, i: nat)
    requires IsArrivalOrder(order, |dates|)
    requires i < |dates| && DownloadSingleMonth(post, symbol, dates[i]).Err?
    ensures FetchSpec(post, symbol, dates, order).Err?
    ensures exists j :: 0 <= j < |dates| && DownloadSingleMonth(post, symbol, dates[j]) == FetchSpec(post, symbol, dates, order)
  {
    var results := Downloads(post, symbol, dates);
    ArrivalRearranges(results, order);
    GatheredTables(post, symbol, dates, order);
    var arrived := Pick(results, order);
    assert results[i] in multiset(arrived);
    var gathered := Gather(arrived);
    assert gathered.Err?;
    var k :| 0 <= k < |arrived| && arrived[k] == Err(gathered.error);
    assert results[order[k]] == FetchSpec(post, symbol, dates, order);
  }

  /** An HTTP error status on any month's answer surfaces as that error from the fetch when it arrives first. */
  lemma FetchHttpError(post: Form -> Response, symbol: string, dates: seq<Date>, order: seq<nat>, j: nat)
    requires IsArrivalOrder(order, |dates|) && j < |dates| && |order| > 0 && order[0] == j
    requires IsHttpError(post(FormFor(symbol, dates[j])).status)
    ensures FetchSpec(post, symbol, dates, order) == Err(HttpStatus(post(FormFor(symbol, dates[j])).status))
  {
    ArrivalOrderBounds(order, |dates|);
    var results := Downloads(post, symbol, dates);
    var arrived := Pick(results, order);
    var e := Gather(arrived).error;
    var k :| 0 <= k < |arrived| && arrived[k] == Err(e) && forall i :: 0 <= i < k ==> arrived[i].Ok?;
    assert k == 0;
  }

  /** Gathering rearranged successes gives the same rearrangement of their values. */
  lemma PickGathered<T>(results: seq<Result<T, Error>>, order: seq<nat>)
    requires Gather(results).Ok? && IsArrivalOrder(order, |results|)
    ensures forall k :: 0 <= k < |order| ==> order[k] < |results|
    ensures Gather(Pick(results, order)) == Ok(Pick(Gather(results).value, order))
  {
    ArrivalOrderBounds(order, |results|);
    var values := Gather(results).value;
    var arrived := Pick(results, order);
    var picked := Pick(values, order);
    assert forall k :: 0 <= k < |arrived| ==> arrived[k] == Ok(picked[k]) by {
      forall k | 0 <= k < |arrived| ensures arrived[k] == Ok(picked[k]) {
        assert arrived[k] == results[order[k]];
      }
    }
    GatherOks(arrived, picked);
  }

  /** Results that are all values gather to those values. */
  lemma GatherOks<T>(results: seq<Result<T, Error>>, values: seq<T>)
    requires |results| == |values| && forall k :: 0 <= k < |results| ==> results[k] == Ok(values[k])
    ensures Gather(results) == Ok(values)
  {
    var gathered := Gather(results);
    assert gathered.Ok?;
    assert gathered.value == values;
  }

  /** When every month downloads, the frames gathered in `order` are the monthly frames rearranged. */
  lemma ArrivedFrames(post: Form -> Response, symbol: string, dates: seq<Date>, order: seq<nat>)
    requires IsArrivalOrder(order, |dates|)
    requires Gather(Downloads(post, symbol, dates)).Ok?
    ensures forall k :: 0 <= k < |order| ==> order[k] < |dates|
    ensures var gathered := Gather(Pick(Downloads(post, symbol, dates), order));
      gathered.Ok? &&
      multiset(gathered.value) == multiset(Gather(Downloads(post, symbol, dates)).value) &&
      FetchSpec(post, symbol, dates, order) == PreprocessSpec(gathered.value)
  {
    var results := Downloads(post, symbol, dates);
    PickGathered(results, order);
    ArrivalRearranges(Gather(results).value, order);
    GatheredTables(post, symbol, dates, order);
  }

  /**
   * When no two trading days of the months share a date, the merged frame is the same whatever
   * order the downloads complete in.
   */
  lemma FetchOrderIrrelevant(post: Form -> Response, symbol: string, dates: seq<Date>, a: seq<nat>, b: seq<nat>)
    requires IsArrivalOrder(a, |dates|) && IsArrivalOrder(b, |dates|)
    requires forall i :: 0 <= i < |dates| ==> DownloadSingleMonth(post, symbol, dates[i]).Ok?
    requires UniqueDates(ConcatRows(Gather(Downloads(post, symbol, dates)).value))
    ensures FetchSpec(post, symbol, dates, a) == FetchSpec(post, symbol, dates, b)
  {
    var results := Downloads(post, symbol, dates);
    var monthly := Gather(results).value;
    ArrivedFrames(post, symbol, dates, a);
    ArrivedFrames(post, symbol, dates, b);
    GatheredTables(post, symbol, dates, a);
    var ga := Gather(Pick(results, a)).value;
    var gb := Gather(Pick(results, b)).value;
    assert SameNames(ga) && forall g :: g in ga ==> WellFormed(g);
    ConcatRowsPermutation(monthly, ga);
    UniqueDatesRearranged(ConcatRows(monthly), ConcatRows(ga));
    PreprocessRearranged(ga, gb);
  }
  // ---------------------------------------------------------------- stocks

  /** One row of the exchange's master symbol list. */
  datatype Listing = Listing(symbol: string, isDebt: bool)

  /** The `tickers` argument of `stocks`: `None`, one symbol, or a list of symbols. */
  datatype Tickers = AllListed | One(symbol: string) | Many(symbols: seq<string>)

  /** The symbols of the listings that are not debt instruments, in list order. */
  function Listed(master: seq<Listing>): (symbols: seq<string>)
    ensures |symbols| <= |master|
    ensures forall s :: s in symbols <==> exists l :: l in master && !l.isDebt && l.symbol == s
  {
    if master == [] then []
    else
      assert forall l :: l in master <==> l == master[0] || l in master[1..];
      (if master[0].isDebt then [] else [master[0].symbol]) + Listed(master[1..])
  }

  /** Filtering the master list piecewise is filtering it whole: the order of the list is kept. */
  lemma {:induction false} ListedAppend(a: seq<Listing>, b: seq<Listing>)
    ensures Listed(a + b) == Listed(a) + Listed(b)
  {
    if a == [] {
      assert a + b == b;
    } else {
      assert (a + b)[1..] == a[1..] + b;
      ListedAppend(a[1..], b);
    }
  }

  /** The symbols `stocks` fetches, in the order it fetches them. */
  function Symbols(master: seq<Listing>, tickers: Tickers): seq<string>
  {
    match tickers
    case AllListed => Listed(master)
    case One(s) => [s]
    case Many(symbols) => symbols
  }

  /** The month anchors `daterange(start, end)` yields for an ordered window. */
  function Anchors(start: Date, end: Date): seq<Date>
  {
    MonthAnchors(start, if MonthGap(start, end) < 0 then 0 else MonthGap(start, end) + 1)
  }

  /** `frame[start:end]` on the date index: the rows dated from `start` to `end`, both included. */
  function Windowed(f: Frame, start: Date, end: Date): (w: Frame)
    ensures w.columns == f.columns
    ensures forall x :: x in w.rows <==> x in f.rows && NotAfter(start, x.date) && NotAfter(x.date, end)
    ensures SortedByDate(f.rows) ==> SortedByDate(w.rows)
    ensures WellFormed(f) ==> WellFormed(w)
  {
    Frame(f.columns, Window(f.rows, start, end))
  }

  function WindowedResult(r: Result<Frame, Error>, start: Date, end: Date): Result<Frame, Error>
  {
    match r
    case Err(e) => Err(e)
    case Ok(f) => Ok(Windowed(f, start, end))
  }

  /** Each symbol's fetch over the anchors, cut to the window, in symbol order. */
  function Fetches(post: Form -> Response, symbols: seq<string>, dates: seq<Date>, arrivals: seq<seq<nat>>,
                   start: Date, end: Date): (r: seq<Result<Frame, Error>>)
    requires |arrivals| == |symbols| && forall k :: 0 <= k < |symbols| ==> IsArrivalOrder(arrivals[k], |dates|)
    ensures |r| == |symbols| && forall k :: 0 <= k < |symbols| ==>
      r[k] == WindowedResult(FetchSpec(post, symbols[k], dates, arrivals[k]), start, end)
  {
    seq(|symbols|, k requires 0 <= k < |symbols| =>
      WindowedResult(FetchSpec(post, symbols[k], dates, arrivals[k]), start, end))
  }

  /** Every symbol's windowed frame is a sorted, well-formed table with the exchange's columns. */
  lemma FetchedTables(post: Form -> Response, symbols: seq<string>, dates: seq<Date>, arrivals: seq<seq<nat>>,
                      start: Date, end: Date)
    requires |arrivals| == |symbols| && forall k :: 0 <= k < |symbols| ==> IsArrivalOrder(arrivals[k], |dates|)
    ensures var gathered := Gather(Fetches(post, symbols, dates, arrivals, start, end));
      gathered.Ok? ==> forall g :: g in gathered.value ==>
        WellFormed(g) && Names(g.columns) == NUMERIC && SortedByDate(g.rows) &&
        forall x :: x in g.rows ==> NotAfter(start, x.date) && NotAfter(x.date, end)
  {
    var results := Fetches(post, symbols, dates, arrivals, start, end);
    var gathered := Gather(results);
    if gathered.Ok? {
      forall g | g in gathered.value
        ensures WellFormed(g) && Names(g.columns) == NUMERIC && SortedByDate(g.rows) &&
          forall x :: x in g.rows ==> NotAfter(start, x.date) && NotAfter(x.date, end)
      {
        var k :| 0 <= k < |gathered.value| && gathered.value[k] == g;
        FetchSucceeds(post, symbols[k], dates, arrivals[k]);
      }
    }
  }

  /** A row of the multi-symbol result: the `Ticker` level of the index, then the dated record. */
  datatype KeyedRow = KeyedRow(ticker: string, record: Record)

  /** What `stocks` returns: one symbol's frame, or the frames concatenated under their symbols. */
  datatype Stocked = Single(frame: Frame) | Keyed(columns: seq<Column>, rows: seq<KeyedRow>)

  function Tagged(ticker: string, rows: seq<Record>): (r: seq<KeyedRow>)
    ensures |r| == |rows| && forall i :: 0 <= i < |rows| ==> r[i] == KeyedRow(ticker, rows[i])
  {
    seq(|rows|, i requires 0 <= i < |rows| => KeyedRow(ticker, rows[i]))
  }

  /** `concat(frames, keys=tickers)`: each frame's rows under its key, frame after frame. */
  function KeyedRows(keys: seq<string>, frames: seq<Frame>): (r: seq<KeyedRow>)
    requires |keys| == |frames|
    ensures forall x :: x in r <==>
      exists k :: 0 <= k < |frames| && x.ticker == keys[k] && x.record in frames[k].rows
  {
    if frames == [] then []
    else
      var rest := KeyedRows(keys[1..], frames[1..]);
      assert forall x :: x in rest <==>
        exists k :: 1 <= k < |frames| && x.ticker == keys[k] && x.record in frames[k].rows by {
        forall x ensures x in rest <==>
          exists k :: 1 <= k < |frames| && x.ticker == keys[k] && x.record in frames[k].rows {
          if x in rest {
            var k :| 0 <= k < |frames| - 1 && x.ticker == keys[1..][k] && x.record in frames[1..][k].rows;
            assert x.ticker == keys[k + 1] && x.record in frames[k + 1].rows;
          }
          if exists k :: 1 <= k < |frames| && x.ticker == keys[k] && x.record in frames[k].rows {
            var k :| 1 <= k < |frames| && x.ticker == keys[k] && x.record in frames[k].rows;
            assert x.ticker == keys[1..][k - 1] && x.record in frames[1..][k - 1].rows;
          }
        }
      }
      Tagged(keys[0], frames[0].rows) + rest
  }

  /** The records of the records under their keys. */
  function Untagged(rows: seq<KeyedRow>): (r: seq<Record>)
    ensures |r| == |rows| && forall i :: 0 <= i < |rows| ==> r[i] == rows[i].record
  {
    seq(|rows|, i requires 0 <= i < |rows| => rows[i].record)
  }

  /** Dropping the `Ticker` level of the keyed concatenation leaves the plain concatenation. */
  lemma {:induction false} KeyedRecords(keys: seq<string>, frames: seq<Frame>)
    requires |keys| == |frames|
    ensures Untagged(KeyedRows(keys, frames)) == ConcatRows(frames)
  {
    if frames != [] {
      KeyedRecords(keys[1..], frames[1..]);
      var head := Tagged(keys[0], frames[0].rows);
      var rest := KeyedRows(keys[1..], frames[1..]);
      assert Untagged(head + rest) == Untagged(head) + Untagged(rest);
      assert Untagged(head) == frames[0].rows;
    }
  }

  /** The final shaping: one frame is returned as is; several are concatenated under their keys. */
  function Shape(keys: seq<string>, frames: seq<Frame>): (r: Result<Stocked, Error>)
    requires |keys| == |frames| && SameNames(frames)
  {
    if |frames| == 1 then Ok(Single(frames[0]))
    else if frames == [] then Err(NoObjectsToConcatenate)
    else Ok(Keyed(Concat(frames).columns, KeyedRows(keys, frames)))
  }

  /**
   * `stocks`: the symbols, then the month anchors (a reversed window fails before any download),
   * then each symbol's fetch in turn, cut to the window; the first failing symbol ends the call.
   */
  function StocksSpec(post: Form -> Response, master: seq<Listing>, tickers: Tickers, start: Date, end: Date,
                      arrivals: seq<seq<nat>>): (r: Result<Stocked, Error>)
    requires ValidDate(start) && ValidDate(end)
    requires |arrivals| == |Symbols(master, tickers)|
    requires forall k :: 0 <= k < |arrivals| ==> IsArrivalOrder(arrivals[k], |Anchors(start, end)|)
  {
    if Before(end, start) then Err(InvalidRange)
    else
      var symbols := Symbols(master, tickers);
      FetchedTables(post, symbols, Anchors(start, end), arrivals, start, end);
      Collect(symbols, Fetches(post, symbols, Anchors(start, end), arrivals, start, end))
  }

  /** The end of `stocks` once every symbol's result is known: the first failure, or the frames shaped. */
  function Collect(symbols: seq<string>, results: seq<Result<Frame, Error>>): Result<Stocked, Error>
    requires |results| == |symbols| && (Gather(results).Ok? ==> SameNames(Gather(results).value))
  {
    match Gather(results)
    case Err(e) => Err(e)
    case Ok(frames) => Shape(symbols, frames)
  }

  /**
   * Collecting succeeds exactly when some symbol is asked for and every result is a frame;
   * otherwise it is the first failing result's error, or the empty concatenation's.
   */
  lemma CollectOutcome(symbols: seq<string>, results: seq<Result<Frame, Error>>)
    requires |results| == |symbols| && (Gather(results).Ok? ==> SameNames(Gather(results).value))
    ensures Collect(symbols, results).Ok? <==> |symbols| > 0 && forall k :: 0 <= k < |results| ==> results[k].Ok?
    ensures symbols == [] ==> Collect(symbols, results) == Err(NoObjectsToConcatenate)
    ensures var r := Collect(symbols, results);
      r.Err? && |symbols| > 0 ==>
        exists k :: 0 <= k < |results| && results[k] == Err(r.error) && forall j :: 0 <= j < k ==> results[j].Ok?
  {
  }

  /** `stocks`, fetching the symbols one after another. */
  method Stocks(post: Form -> Response, master: seq<Listing>, tickers: Tickers, start: Date, end: Date,
                arrivals: seq<seq<nat>>) returns (r: Result<Stocked, Error>)
    requires ValidDate(start) && ValidDate(end)
    requires |arrivals| == |Symbols(master, tickers)|
    requires forall k :: 0 <= k < |arrivals| ==> IsArrivalOrder(arrivals[k], |Anchors(start, end)|)
    ensures r == StocksSpec(post, master, tickers, start, end, arrivals)
  {
    var symbols := Symbols(master, tickers);
    var anchors := Daterange(start, end);
    if anchors.Err? {
      return Err(anchors.error);
    }
    var dates := anchors.value;
    assert dates == Anchors(start, end);
    var fetched := FetchAll(post, symbols, dates, arrivals, start, end);
    if fetched.Err? {
      return Err(fetched.error);
    }
    FetchedTables(post, symbols, dates, arrivals, start, end);
    r := Shape(symbols, fetched.value);
  }

  /** The symbol loop of `stocks`: each symbol's fetch in turn, cut to the window, stopping at the first failure. */
  method FetchAll(post: Form -> Response, symbols: seq<string>, dates: seq<Date>, arrivals: seq<seq<nat>>,
                  start: Date, end: Date) returns (r: Result<seq<Frame>, Error>)
    requires |arrivals| == |symbols| && forall k :: 0 <= k < |symbols| ==> IsArrivalOrder(arrivals[k], |dates|)
    ensures r == Gather(Fetches(post, symbols, dates, arrivals, start, end))
  {
    ghost var results := Fetches(post, symbols, dates, arrivals, start, end);
    var frames: seq<Frame> := [];
    var k := 0;
    while k < |symbols|
      invariant 0 <= k <= |symbols|
      invariant Gather(results[..k]) == Ok(frames)
    {
      var posted, frame := GetPsxData(post, symbols[k], dates, arrivals[k]);
      assert results[k] == WindowedResult(frame, start, end);
      GatherStep(results, k);
      if frame.Err? {
        GatherErrPrefix(results, k + 1);
        return Err(frame.error);
      }
      frames := frames + [Windowed(frame.value, start, end)];
      k := k + 1;
    }
    assert results[..k] == results;
    r := Ok(frames);
  }

  /** A result is one symbol's frame or a keyed concatenation, every row inside the window. */
  lemma StocksShape(post: Form -> Response, master: seq<Listing>, tickers: Tickers, start: Date, end: Date,
                    arrivals: seq<seq<nat>>)
    requires ValidDate(start) && ValidDate(end)
    requires |arrivals| == |Symbols(master, tickers)|
    requires forall k :: 0 <= k < |arrivals| ==> IsArrivalOrder(arrivals[k], |Anchors(start, end)|)
    ensures var r := StocksSpec(post, master, tickers, start, end, arrivals);
      r.Ok? && r.value.Single? ==> var f := r.value.frame;
        |Symbols(master, tickers)| == 1 &&
        WellFormed(f) && Names(f.columns) == NUMERIC && SortedByDate(f.rows) &&
        forall x :: x in f.rows ==> NotAfter(start, x.date) && NotAfter(x.date, end)
    ensures var r := StocksSpec(post, master, tickers, start, end, arrivals);
      r.Ok? && r.value.Keyed? ==>
        |Symbols(master, tickers)| > 1 && Names(r.value.columns) == NUMERIC &&
        forall x :: x in r.value.rows ==>
          x.ticker in Symbols(master, tickers) && NotAfter(start, x.record.date) && NotAfter(x.record.date, end)
  {
    var r := StocksSpec(post, master, tickers, start, end, arrivals);
    if r.Ok? {
      var symbols := Symbols(master, tickers);
      FetchedTables(post, symbols, Anchors(start, end), arrivals, start, end);
      var frames := Gather(Fetches(post, symbols, Anchors(start, end), arrivals, start, end)).value;
      if |frames| == 1 {
        assert frames[0] in frames;
      } else {
        assert frames[0] in frames;
        forall x | x in r.value.rows
          ensures x.ticker in symbols && NotAfter(start, x.record.date) && NotAfter(x.record.date, end)
        {
          var k :| 0 <= k < |frames| && x.ticker == symbols[k] && x.record in frames[k].rows;
          assert frames[k] in frames;
        }
      }
    }
  }

  /**
   * The call succeeds exactly when the window is ordered, some symbol is asked for, and every
   * month of every symbol downloads.
   */
  lemma StocksSucceeds(post: Form -> Response, master: seq<Listing>, tickers: Tickers, start: Date, end: Date,
                       arrivals: seq<seq<nat>>)
    requires ValidDate(start) && ValidDate(end)
    requires |arrivals| == |Symbols(master, tickers)|
    requires forall k :: 0 <= k < |arrivals| ==> IsArrivalOrder(arrivals[k], |Anchors(start, end)|)
    ensures var symbols := Symbols(master, tickers);
      var dates := Anchors(start, end);
      StocksSpec(post, master, tickers, start, end, arrivals).Ok? <==>
        (!Before(end, start) && |symbols| > 0 &&
         forall k, i :: 0 <= k < |symbols| && 0 <= i < |dates| ==> DownloadSingleMonth(post, symbols[k], dates[i]).Ok?)
  {
    if !Before(end, start) {
      var symbols := Symbols(master, tickers);
      var dates := Anchors(start, end);
      var results := Fetches(post, symbols, dates, arrivals, start, end);
      FetchedTables(post, symbols, dates, arrivals, start, end);
      CollectOutcome(symbols, results);
      FetchesSucceed(post, symbols, dates, arrivals, start, end);
    }
  }

  /** Every symbol's windowed result is a frame exactly when every month of every symbol downloads. */
  lemma FetchesSucceed(post: Form -> Response, symbols: seq<string>, dates: seq<Date>, arrivals: seq<seq<nat>>,
                       start: Date, end: Date)
    requires |arrivals| == |symbols| && forall k :: 0 <= k < |symbols| ==> IsArrivalOrder(arrivals[k], |dates|)
    ensures var results := Fetches(post, symbols, dates, arrivals, start, end);
      (forall k :: 0 <= k < |results| ==> results[k].Ok?) <==>
        forall k, i :: 0 <= k < |symbols| && 0 <= i < |dates| ==> DownloadSingleMonth(post, symbols[k], dates[i]).Ok?
  {
    var results := Fetches(post, symbols, dates, arrivals, start, end);
    forall k | 0 <= k < |symbols|
      ensures results[k].Ok? <==> forall i :: 0 <= i < |dates| ==> DownloadSingleMonth(post, symbols[k], dates[i]).Ok?
    {
      FetchSucceeds(post, symbols[k], dates, arrivals[k]);
    }
  }

  /**
   * A reversed window fails before any download, an empty list of symbols fails at the
   * concatenation, and otherwise a failure is that of the first symbol whose fetch fails.
   */
  lemma StocksFailure(post: Form -> Response, master: seq<Listing>, tickers: Tickers, start: Date, end: Date,
                      arrivals: seq<seq<nat>>)
    requires ValidDate(start) && ValidDate(end)
    requires |arrivals| == |Symbols(master, tickers)|
    requires forall k :: 0 <= k < |arrivals| ==> IsArrivalOrder(arrivals[k], |Anchors(start, end)|)
    ensures Before(end, start) ==> StocksSpec(post, master, tickers, start, end, arrivals) == Err(InvalidRange)
    ensures !Before(end, start) && Symbols(master, tickers) == [] ==>
      StocksSpec(post, master, tickers, start, end, arrivals) == Err(NoObjectsToConcatenate)
    ensures var r := StocksSpec(post, master, tickers, start, end, arrivals);
      var symbols := Symbols(master, tickers);
      var dates := Anchors(start, end);
      r.Err? && !Before(end, start) && |symbols| > 0 ==>
        exists k :: 0 <= k < |symbols| && FetchSpec(post, symbols[k], dates, arrivals[k]) == Err(r.error) &&
          forall j :: 0 <= j < k ==> FetchSpec(post, symbols[j], dates, arrivals[j]).Ok?
  {
    var symbols := Symbols(master, tickers);
    if !Before(end, start) {
      var dates := Anchors(start, end);
      var results := Fetches(post, symbols, dates, arrivals, start, end);
      FetchedTables(post, symbols, dates, arrivals, start, end);
      CollectOutcome(symbols, results);
      var r := Collect(symbols, results);
      if r.Err? && |symbols| > 0 {
        var k :| 0 <= k < |results| && results[k] == Err(r.error) && forall j :: 0 <= j < k ==> results[j].Ok?;
        FailedFetch(post, symbols, dates, arrivals, start, end, k);
      }
    }
  }

  /** A symbol's windowed result fails exactly as its fetch does. */
  lemma FailedFetch(post: Form -> Response, symbols: seq<string>, dates: seq<Date>, arrivals: seq<seq<nat>>,
                    start: Date, end: Date, k: nat)
    requires |arrivals| == |symbols| && forall k :: 0 <= k < |symbols| ==> IsArrivalOrder(arrivals[k], |dates|)
    requires k < |symbols|
    ensures var results := Fetches(post, symbols, dates, arrivals, start, end);
      results[k].Err? ==> FetchSpec(post, symbols[k], dates, arrivals[k]) == Err(results[k].error)
    ensures var results := Fetches(post, symbols, dates, arrivals, start, end);
      forall j :: 0 <= j < k && results[j].Ok? ==> FetchSpec(post, symbols[j], dates, arrivals[j]).Ok?
  {
  }

  /** The listing used in the master-list example: two equities around a debt instrument. */
  function ExampleMaster(): seq<Listing>
  {
    [Listing("OGDC", false), Listing("BOND", true), Listing("LUCK", false)]
  }

  /** A fetch that answers exactly one trading day, `day`. */
  predicate OneDay(r: Result<Frame, Error>, day: Date)
  {
    r.Ok? && |r.value.rows| == 1 && r.value.rows[0].date == day
  }

  /** Cutting a one-day answer to the window of that day keeps its row. */
  lemma WindowOneDay(r: Result<Frame, Error>, day: Date)
    requires OneDay(r, day)
    ensures OneDay(WindowedResult(r, day, day), day)
  {
    var rows := r.value.rows;
    assert rows == [rows[0]];
    assert Window(rows, day, day) == [rows[0]];
  }

  /** Two one-day frames shaped under two keys give one keyed row per key. */
  lemma KeyedPair(keys: seq<string>, frames: seq<Frame>, day: Date)
    requires |keys| == 2 && |frames| == 2 && SameNames(frames)
    requires forall k :: 0 <= k < 2 ==> |frames[k].rows| == 1 && frames[k].rows[0].date == day
    ensures var r := Shape(keys, frames);
      r.Ok? && r.value.Keyed? && |r.value.rows| == 2 &&
      (set x | x in r.value.rows :: x.ticker) == {keys[0], keys[1]}
  {
    var rows := KeyedRows(keys, frames);
    assert KeyedRows(keys[1..], frames[1..]) == Tagged(keys[1], frames[1].rows) + KeyedRows(keys[2..], frames[2..]);
    assert rows == [KeyedRow(keys[0], frames[0].rows[0]), KeyedRow(keys[1], frames[1].rows[0])];
  }

  /** Both equities of the example answer one day each, and their windowed frames keep it. */
  lemma ExampleFetched(post: Form -> Response, day: Date, arrivals: seq<seq<nat>>)
    requires |arrivals| == 2 && forall k :: 0 <= k < 2 ==> IsArrivalOrder(arrivals[k], |Anchors(day, day)|)
    requires forall k :: 0 <= k < 2 ==> OneDay(FetchSpec(post, ["OGDC", "LUCK"][k], Anchors(day, day), arrivals[k]), day)
    ensures var gathered := Gather(Fetches(post, ["OGDC", "LUCK"], Anchors(day, day), arrivals, day, day));
      gathered.Ok? && |gathered.value| == 2 && SameNames(gathered.value) &&
      forall k :: 0 <= k < 2 ==> |gathered.value[k].rows| == 1 && gathered.value[k].rows[0].date == day
  {
    var symbols := ["OGDC", "LUCK"];
    var dates := Anchors(day, day);
    var results := Fetches(post, symbols, dates, arrivals, day, day);
    FetchedTables(post, symbols, dates, arrivals, day, day);
    forall k | 0 <= k < 2 ensures OneDay(results[k], day) {
      WindowOneDay(FetchSpec(post, symbols[k], dates, arrivals[k]), day);
    }
  }

  /**
   * The master-list example: with the debt instrument dropped, the two equity symbols, each
   * answering one trading day inside a one-day window, come back keyed, one row per symbol.
   */
  lemma AllListedExample(post: Form -> Response, day: Date, arrivals: seq<seq<nat>>)
    requires ValidDate(day)
    requires |arrivals| == 2 && forall k :: 0 <= k < 2 ==> IsArrivalOrder(arrivals[k], |Anchors(day, day)|)
    requires forall k :: 0 <= k < 2 ==> OneDay(FetchSpec(post, ["OGDC", "LUCK"][k], Anchors(day, day), arrivals[k]), day)
    ensures var r := StocksSpec(post, ExampleMaster(), AllListed, day, day, arrivals);
      r.Ok? && r.value.Keyed? && |r.value.rows| == 2 &&
      (set x | x in r.value.rows :: x.ticker) == {"OGDC", "LUCK"}
  {
    var symbols := ["OGDC", "LUCK"];
    assert Listed(ExampleMaster()) == symbols;
    ExampleFetched(post, day, arrivals);
    KeyedPair(symbols, Gather(Fetches(post, symbols, Anchors(day, day), arrivals, day, day)).value, day);
  }
}
