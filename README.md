# PSX data reader — a verified model

This project models the core of a scraper for the Pakistan Stock Exchange data portal. The
scraper downloads daily OHLCV (open, high, low, close, volume) tables month by month and merges
them into one date-sorted table per symbol. It also walks a company's announcement pages down to
a cutoff date and collects each entry's title, date and content.

The model covers three source files:

- `src/psx/parsing.py`: the month anchors of a download window, the table parser and the merge
  of monthly tables.
- `src/psx/reader.py`: the current `DataReader`. This is `stocks`, with its per-month fetch
  (`get_psx_data`, `_download_single_month`), and `reports`, the announcement crawler.
- `src/psx/web.py`: the older fork of the reader. Its `daterange` does not check the window, its
  downloads ignore the status code, and its `_preprocess` casts strictly.

Modules, one per file:

| file | module | what it holds |
|---|---|---|
| `wrappers.dfy` | `Wrappers`, `Errors` | `Option`, `Result`, and one error constructor per exception the core raises |
| `text.dfy` | `Text` | the string operations the core relies on: `str.title`, `str.replace`, the number syntax `pd.to_numeric` and `float()` accept, zero-padded and grouped digits |
| `calendar.dfy` | `Calendar` | dates, their order, month arithmetic, the `"%b %d, %Y"` parser and the ISO format with their round trips |
| `frames.dfy` | `Frames` | a DataFrame stand-in: columns with a dtype, date-indexed records, sorting by date, concatenation, date slicing |
| `parsing.dfy` | `Parsing` | `HEADERS`, `daterange`, `html_to_frame`, `preprocess` |
| `reader.dfy` | `Reader` | `_download_single_month`, `get_psx_data`, ticker resolution, `stocks` |
| `reports.dfy` | `Reports` | `reports` in both listing modes |
| `web.dfy` | `Web` | the older fork: `daterange`, `_download_single_month`, `_preprocess`, `get_psx_data`, `stocks` |

Modelling choices:

- Where the source works by looping and appending, the model has a method with a loop. Each such
  method is proved equal to a specification function: `Parsing.Daterange`, `Parsing.HtmlToFrame`,
  `Parsing.Preprocess`, `Reader.GetPsxData`, `Reader.Stocks`, `Reports.Reports`,
  `Web.LegacyDaterange`, `Web.LegacyPreprocess`, `Web.LegacyGetPsxData` and `Web.LegacyStocks`.
  The properties are then proved as lemmas about those functions.
- The transport is a parameter:
  - for prices, a function from the posted form to a status code and the cell texts of the
    page's `<tr>` rows;
  - for announcements, a `Site` value holding the page fetchers, the two text extractors,
    dateutil's parser and `urljoin`. Each of these either answers or fails.
- The thread pool's completion order is a parameter: a permutation of the month indices. The
  results are taken in that order.
- The announcement cutoff is a parameter. Pagination carries a page budget, so the loop always
  ends. Running out of budget is reported as the error `PageBudgetExhausted`.
- Numbers are exact rationals (`real`). A NaN is a null cell. Each column carries its dtype,
  `object` or `float64`, because the behaviour of `.str` and of the numeric coercion depends on
  it.

Pagination in the announcements mode follows the code. In `src/psx/reader.py:133-135` a row
dated before the cutoff sets `next_url = None` and ends the row loop. Lines 162-163 then set
`next_url` from the page's next link. So another page is fetched exactly when the page has a
next link. `Reports.NextPageFollowed` states this behaviour.

## Model

| member | source | states |
|---|---|---|
| Parsing.HeadersShape | src/psx/parsing.py:8 | the header list is Date followed by the five numeric columns, and "TIME" is not among them |
| Parsing.MonthAnchors | src/psx/parsing.py:16-19 | the anchors are `count` first-of-month dates with consecutive month indices starting at start's month |
| Parsing.MonthAnchorsStep | src/psx/parsing.py:17-19 | the first anchor is day 1 of start's month; each later one is exactly one month after the previous one; all are on day 1 |
| Parsing.MonthAnchorsSpan | src/psx/parsing.py:16-20 | for start ≤ end the month count is not negative; the last anchor is day 1 of end's month; every anchor is a valid date between the two months |
| Parsing.Daterange | src/psx/parsing.py:11-20 | raises `InvalidRange` exactly when end is before start; otherwise returns the (months + 1) anchors from start's month, so the list is never empty and the `or [start]` fallback is unreachable |
| Calendar.BeforeIsLexicographic | src/psx/parsing.py:13 | the date order `end < start` is the lexicographic order on (year, month, day) |
| Calendar.FirstOfMonth | src/psx/parsing.py:17 | `datetime(start.year, start.month, 1)` is the first day of the month with start's month index |
| Calendar.AddOneMonth | src/psx/parsing.py:19 | adding `relativedelta(months=1)` moves to the next month index and keeps a day of 28 or less |
| Calendar.AddOneMonthStart | src/psx/parsing.py:19 | one month after the first of a month is the first of the next month |
| Calendar.MonthStartValid | src/psx/parsing.py:17-19 | a first-of-month between two valid dates' months is a valid date |
| Calendar.NotAfterMonths | src/psx/parsing.py:16 | start ≤ end implies start's month index is at most end's |
| Parsing.CollectedColumns | src/psx/parsing.py:29-33 | after the fill loop, the dictionary's keys are header names; a header is present exactly when some row has a cell at its position; its list is that position's cells in row order |
| Parsing.FillAt | src/psx/parsing.py:32-33 | one row's `zip(HEADERS, cols)` appends cell m to header m exactly for the positions the row reaches, and adds no other key |
| Parsing.UniformColumn | src/psx/parsing.py:32-33 | when all non-empty rows have the same width, a column within it holds one cell per data row, that row's cell, and a column beyond it stays empty |
| Parsing.ColumnShorter | src/psx/parsing.py:32-33 | a row that stops before position j makes column j shorter than the Date column |
| Parsing.ColumnMember | src/psx/parsing.py:32-33 | every cell at position j of some row lands in column j |
| Parsing.ColumnEmpty | src/psx/parsing.py:32-33 | when no row reaches position j, column j stays empty (zip truncation) |
| Parsing.DataRows | src/psx/parsing.py:30-31 | the rows that contribute cells are rows of the page that have at least one `<td>` |
| Parsing.DateKeyIsDate | src/psx/parsing.py:36 | since every key comes from the header list, the date key is always "Date"; the "TIME" alias is never chosen |
| Parsing.ParseDates | src/psx/parsing.py:37-39 | the date column parses exactly when every cell parses, giving one date per cell in order; otherwise the error names the first cell that does not parse |
| Calendar.ParseTableDate | src/psx/parsing.py:38 | a `"%b %d, %Y"` parse that succeeds yields a valid calendar date |
| Calendar.MonthOfAbbreviation | src/psx/parsing.py:38 | `%b` accepts a month abbreviation whatever its case and yields that month's number |
| Calendar.AbbreviationRoundTrip | src/psx/parsing.py:38 | each month's abbreviation reads back as that month |
| Calendar.TableDateRoundTrip | src/psx/parsing.py:38 | every valid date written as "Mon DD, YYYY" parses back to itself |
| Calendar.GapFields | src/psx/parsing.py:38 | a month abbreviation, a whitespace character, two day digits, a comma, a whitespace character and four year digits read as that date when it exists, whichever Unicode whitespace fills each gap |
| Calendar.WhitespaceGapDate | src/psx/parsing.py:38 | a non-breaking space, a file separator or an ideographic space in the gaps still reads as the date, as strptime's `\s+` allows |
| Parsing.StrptimeIsDateParser | src/psx/parsing.py:38 | the strptime parser only returns valid dates |
| Parsing.TableDatesValid | src/psx/parsing.py:37-39 | every date of a parsed date column is a valid date |
| Parsing.PaddedCells | src/psx/parsing.py:41 | a row's value cells are always five, one per numeric column |
| Parsing.Records | src/psx/parsing.py:41-43 | the frame has one record per parsed date, in row order, indexed by that date |
| Parsing.FrameOf | src/psx/parsing.py:36-43 | the DataFrame constructor yields a well-formed frame with columns Open..Volume, all object dtype and all text; it fails only on a date that does not parse or on columns of unequal length |
| Parsing.TableSpec | src/psx/parsing.py:23-44 | the same guarantees for the whole parse, including the empty-page branch |
| Parsing.HtmlToFrame | src/psx/parsing.py:23-44 | the loop that fills the column lists returns exactly the table the specification function describes |
| Parsing.FillRow | src/psx/parsing.py:31-33 | appending one row's cells, zipped against the headers, leaves the column lists the specification function describes |
| Parsing.TableNoCells | src/psx/parsing.py:25-27 | a page without cells gives the empty frame: index Date, columns Open..Volume, no rows |
| Parsing.TableRowwise | src/psx/parsing.py:29-43 | for rows of equal width the parse succeeds exactly when every row's first cell is a date; it then gives one record per data row, holding that row's date and its cells paired by position |
| Parsing.RowwiseCells | src/psx/parsing.py:41 | for rows of equal width, record k's cells are row k's cells padded to five |
| Parsing.UniformStocks | src/psx/parsing.py:29-36 | for rows of equal width, the Date list is the rows' first cells and every other filled column has one cell per row |
| Parsing.FrameOfRecords | src/psx/parsing.py:41-43 | parsed dates and columns of equal length give the frame of those records |
| Parsing.FrameOfFails | src/psx/parsing.py:37-39 | a date that does not parse makes the whole parse fail with that error |
| Parsing.TableRaggedRows | src/psx/parsing.py:41 | two data rows of different widths make the DataFrame constructor fail |
| Parsing.TableBadDate | src/psx/parsing.py:37-39 | a row whose first cell is not a date makes the parse fail with a date-format error naming unparseable text |
| Frames.EmptyFrame | src/psx/parsing.py:27 | the empty frame is well formed, has no rows and has the numeric columns |
| Frames.ObjectColumns | src/psx/parsing.py:27 | the columns made from the header names carry those names, all of object dtype |
| Frames.InsertByDate | src/psx/parsing.py:52 | inserting a record into date-sorted rows keeps them sorted and adds exactly that record |
| Frames.SortByDate | src/psx/parsing.py:52 | `sort_index()` returns a date-sorted permutation of its rows |
| Frames.SortSortedUnchanged | src/psx/parsing.py:52 | sorting rows that are already sorted changes nothing |
| Frames.UniqueDatesRearranged | src/psx/parsing.py:52 | distinct dates stay distinct under any permutation |
| Frames.SortedArrangementUnique | src/psx/parsing.py:52 | two sorted permutations of rows with distinct dates are equal |
| Frames.SortIgnoresArrival | src/psx/parsing.py:52 | with distinct dates, the sorted result does not depend on the input order |
| Frames.ConcatRows | src/psx/parsing.py:52 | concatenating a single frame gives its rows |
| Frames.ConcatRowsMembers | src/psx/parsing.py:52 | the concatenated rows are exactly the rows of the input frames |
| Frames.ConcatRowsAppend | src/psx/parsing.py:52 | concatenation distributes over joining lists of frames |
| Frames.ConcatRowsPermutation | src/psx/parsing.py:52 | permuting the frames permutes the concatenated rows |
| Frames.Concat | src/psx/parsing.py:52 | `pd.concat` keeps the first frame's column names and concatenates the rows; a column is object when any input's is |
| Frames.ConcatWellFormed | src/psx/parsing.py:52 | concatenating well-formed frames with the same columns gives a well-formed frame |
| Frames.ConcatSingle | src/psx/parsing.py:52 | concatenating one frame gives that frame |
| Frames.ConcatRearranged | src/psx/parsing.py:52 | concatenating the frames in another order gives the same columns and the same multiset of rows |
| Frames.RearrangedWellFormed | src/psx/parsing.py:52 | a permutation of a well-formed frame's rows is still well formed |
| Frames.DatesRearranged | src/psx/parsing.py:52 | permuting the rows permutes the index |
| Text.TitleAt | src/psx/parsing.py:53 | a character is upper-cased at a word start and lower-cased after a cased character |
| Text.TitleIdempotent | src/psx/parsing.py:53 | title-casing twice is title-casing once |
| Text.CapitalizedIsTitle | src/psx/parsing.py:53 | a name that is already capitalised is unchanged |
| Parsing.TitleColumns | src/psx/parsing.py:53 | renaming with `str.title` title-cases every name, keeps dtypes and leaves the rows alone |
| Parsing.NumericTitled | src/psx/parsing.py:53-55 | the numeric column names are already title case |
| Parsing.Prepared | src/psx/parsing.py:52-53 | the concatenated, sorted, renamed frame is well formed and its rows are the date-sorted concatenation |
| Text.RemoveChar | src/psx/parsing.py:59 | removing "," keeps every other character and removes every comma |
| Text.RemoveCharAppend | src/psx/parsing.py:59 | removing a character distributes over concatenation |
| Text.RemoveCharAbsent | src/psx/parsing.py:59 | text without commas is unchanged |
| Text.GroupedStripped | src/psx/parsing.py:59-60 | a grouped number without its commas is the digit string of that number |
| Text.SeparatorBlocksParse | src/psx/parsing.py:59-60 | text that still holds a comma is not a number, which is why the separators are stripped first |
| Text.DigitsParse | src/psx/parsing.py:60 | a digit string reads as its value |
| Text.DecimalParses | src/psx/parsing.py:60 | a number's decimal string reads back as that number |
| Text.GroupedParses | src/psx/parsing.py:59-60 | a number with thousands separators, once stripped, reads back as that number |
| Parsing.CoerceCell | src/psx/parsing.py:59-60 | after the strip and `to_numeric(errors="coerce")` a cell is a number or NaN, never text |
| Parsing.CoerceGrouped | src/psx/parsing.py:59-60 | "1,000"-style text becomes the number it spells |
| Parsing.CoerceUnparseable | src/psx/parsing.py:60 | text that is not a number once stripped becomes NaN instead of raising |
| Parsing.IndexOf | src/psx/parsing.py:57 | `df[col]` finds the first column with that name |
| Parsing.ConvertColumn | src/psx/parsing.py:55-60 | converting one column keeps the frame well formed |
| Parsing.CoerceAtWellFormed | src/psx/parsing.py:59-60 | coercing one column and marking it float64 keeps the frame well formed |
| Parsing.ConvertAll | src/psx/parsing.py:55-60 | converting the columns in turn keeps the frame well formed |
| Parsing.Preprocess | src/psx/parsing.py:47-61 | the loop reassigning one numeric column at a time returns exactly the specified merge |
| Parsing.ConvertedRecord | src/psx/parsing.py:55-60 | a converted record keeps its date and has cell j converted when column j's name was converted |
| Parsing.ConvertedColumns | src/psx/parsing.py:60 | converted columns keep their names and become float64 |
| Parsing.ConvertedRows | src/psx/parsing.py:55-60 | conversion keeps the row count and the index |
| Parsing.Converted | src/psx/parsing.py:55-60 | the fully converted frame is well formed and keeps names, row count and index |
| Parsing.ConvertedNone | src/psx/parsing.py:55 | converting no column changes nothing |
| Parsing.ConvertStep | src/psx/parsing.py:55-60 | one more pass of the loop either fails as the pass on the original frame would, or adds that column to the converted set |
| Parsing.ConvertStepAbsent | src/psx/parsing.py:56 | a column that is not there is skipped |
| Parsing.ConvertStepRefused | src/psx/parsing.py:59 | whether `.str` refuses a column does not depend on other columns having been converted |
| Parsing.ConvertStepFloat | src/psx/parsing.py:58 | a float64 column skips the strip and the coercion leaves it as it is |
| Parsing.ConvertStepObject | src/psx/parsing.py:58-60 | an object column is stripped and coerced in place and becomes float64 |
| Parsing.RecordStepObject | src/psx/parsing.py:59-60 | the same step on one record |
| Parsing.ConvertAllSpec | src/psx/parsing.py:55-60 | the loop succeeds exactly when every column converts on its own; it then yields the frame with all of them converted, and otherwise the failure of one of them |
| Parsing.NumericDistinct | src/psx/parsing.py:55 | the loop visits five distinct columns |
| Parsing.PreprocessConverted | src/psx/parsing.py:52-60 | `preprocess` succeeds exactly when each numeric column converts; its result is the prepared frame with all of them converted |
| Parsing.SortedByDates | src/psx/parsing.py:52 | rows with the index of sorted rows are sorted |
| Parsing.ConvertedShape | src/psx/parsing.py:52-60 | the converted merge is well formed, sorted by date, holds exactly the input rows' dates, has title-cased names and makes the numeric columns float64 |
| Parsing.PreprocessShape | src/psx/parsing.py:47-61 | the result of `preprocess` has those same properties |
| Parsing.PreparedText | src/psx/parsing.py:52-53 | merging parsed tables keeps the column names Open..Volume and text-only cells |
| Parsing.ConvertColumnText | src/psx/parsing.py:57-60 | a numeric column of a parsed table always converts |
| Parsing.PreprocessTextTables | src/psx/parsing.py:47-61 | merging tables produced by the parser never fails |
| Parsing.ConvertedKeeps | src/psx/parsing.py:58 | a frame whose converted columns are already float64 is unchanged by the conversion |
| Parsing.PreparedSingle | src/psx/parsing.py:52-53 | a single sorted, title-cased frame is its own preparation |
| Parsing.ConvertColumnAgain | src/psx/parsing.py:58 | a column that is already float64 is left as it is |
| Parsing.PreparedResult | src/psx/parsing.py:47-61 | the output of `preprocess`, passed back alone, is its own preparation |
| Parsing.ConvertedAgain | src/psx/parsing.py:55-60 | converting a converted frame again changes nothing |
| Parsing.ConvertedIdempotent | src/psx/parsing.py:47-61 | the converted merge is a fixed point of `preprocess` |
| Parsing.PreprocessIdempotent | src/psx/parsing.py:47-61 | re-running `preprocess` on its own output returns that output |
| Parsing.PreprocessRearranged | src/psx/parsing.py:52 | with distinct dates, the order the monthly frames come in does not change the result |
| Reader.FormFor | src/psx/reader.py:195 | the posted form holds the anchor's month and year and the symbol |
| Reader.Outcome | src/psx/reader.py:196-199 | an error status (4xx or 5xx) raises `HTTPError` with that code; any other status gives the parsed table, which has the numeric columns and text cells |
| Reader.Downloads | src/psx/reader.py:177-178 | one download per anchor, in anchor order |
| Reader.Pick | src/psx/reader.py:179-180 | results taken in completion order are the downloads at those indices |
| Reader.ArrivalRearranges | src/psx/reader.py:179-180 | the completed results are a permutation of the submitted ones |
| Reader.PickRearranged | src/psx/reader.py:179-180 | two completion orders collect the same multiset of results |
| Reader.Gather | src/psx/reader.py:179-180 | collecting succeeds exactly when every result succeeds, keeping them in order; otherwise the first failure in that order propagates |
| Reader.GetPsxData | src/psx/reader.py:172-190 | posts exactly one form per anchor, in order, and returns the specified fetch |
| Reader.SubmitForms | src/psx/reader.py:177-178 | one form is submitted per month anchor, in the order of the anchors, carrying the symbol, month and year |
| Reader.CollectArrivals | src/psx/reader.py:179-181 | the results are collected in arrival order and the first failure is the one raised |
| Reader.GatheredTables | src/psx/reader.py:179-184 | collected monthly frames are parsed tables, and the fetch is `preprocess` of them or the first failure |
| Reader.MergedTables | src/psx/reader.py:184 | merging parsed tables succeeds and gives a well-formed, date-sorted frame with the numeric columns |
| Reader.FetchSucceeds | src/psx/reader.py:172-184 | a fetch succeeds exactly when every month's download does, and is then well formed, sorted and has the numeric columns |
| Reader.FetchFails | src/psx/reader.py:179-180 | a failed month fails the fetch, with the error of one of the failing months |
| Reader.FetchHttpError | src/psx/reader.py:179-197 | when the first month to complete answered with an error status, the fetch raises that status |
| Reader.PickGathered | src/psx/reader.py:179-180 | when all downloads succeed, collecting in completion order yields the frames in that order |
| Reader.ArrivedFrames | src/psx/reader.py:176-184 | when all downloads succeed, the collected frames are a permutation of the downloaded ones and the fetch is their merge |
| Reader.FetchOrderIrrelevant | src/psx/reader.py:176-184 | with distinct dates, the fetched frame does not depend on the completion order |
| Reader.Listed | src/psx/reader.py:47-49 | the listed symbols are exactly those of master entries that are not debt |
| Reader.ListedAppend | src/psx/reader.py:49 | the filter keeps master-list order |
| Reader.Windowed | src/psx/reader.py:56 | `frame[start:end]` keeps exactly the rows dated in [start, end], both ends included, keeps the columns and keeps the rows sorted |
| Frames.Window | src/psx/reader.py:56 | the date slice keeps exactly the rows inside the window and keeps sorted rows sorted |
| Reader.Fetches | src/psx/reader.py:54-56 | one windowed fetch per symbol, in symbol order |
| Reader.FetchedTables | src/psx/reader.py:54-56 | every symbol's frame is well formed, sorted, has the numeric columns and lies inside the window |
| Reader.Tagged | src/psx/reader.py:62 | each record of a frame is keyed with its ticker |
| Reader.KeyedRows | src/psx/reader.py:62 | a keyed row is exactly a record of the frame under that key |
| Reader.Untagged | src/psx/reader.py:62 | dropping the Ticker level keeps one record per keyed row |
| Reader.KeyedRecords | src/psx/reader.py:62 | without the Ticker level, the keyed concatenation is the plain concatenation in ticker order |
| Reader.Stocks | src/psx/reader.py:45-62 | the per-symbol loop returns exactly the specified result |
| Reader.FetchAll | src/psx/reader.py:54-56 | the per-symbol loop collects each symbol's sliced fetch, in order, stopping at the first failure |
| Reader.CollectOutcome | src/psx/reader.py:54-62 | `stocks` succeeds exactly when there is at least one symbol and every fetch succeeds; no symbols raise "No objects to concatenate"; otherwise the error is the first failing symbol's |
| Reader.FetchesSucceed | src/psx/reader.py:54-56 | every symbol's fetch succeeds exactly when every monthly download of every symbol succeeds |
| Reader.FailedFetch | src/psx/reader.py:54-56 | a failing symbol's result is its own fetch's error, and every earlier symbol's fetch succeeded |
| Reader.StocksShape | src/psx/reader.py:54-62 | one symbol gives its frame unkeyed, inside the window; several give rows keyed by symbols of the list, inside the window, with the numeric columns |
| Reader.StocksSucceeds | src/psx/reader.py:45-62 | `stocks` succeeds exactly when the window is ordered, there is at least one symbol and every month of every symbol downloads |
| Reader.StocksFailure | src/psx/reader.py:45-62 | a reversed window raises; no symbols makes `pd.concat` raise; otherwise the error is that of the first symbol whose fetch fails |
| Reader.WindowOneDay | src/psx/reader.py:56 | a one-day frame sliced to that day is unchanged |
| Reader.KeyedPair | src/psx/reader.py:60-62 | two one-day frames give two keyed rows, one per key |
| Reader.ExampleFetched | tests/test_web.py:104-109 | two symbols whose fetch gives one row each collect into two one-row frames |
| Reader.AllListedExample | tests/test_web.py:94-113 | with no tickers and a master list of OGDC, a debt BOND and LUCK, the result is keyed by exactly OGDC and LUCK with two rows |
| Reports.Base | src/psx/reader.py:81 | the company page is the home url followed by the symbol |
| Reports.BodyRows | src/psx/reader.py:89 | `select("tbody tr")` keeps exactly the rows inside a table body |
| Reports.ViewContent | src/psx/reader.py:147-151 | succeeds exactly when the view link has an `href` and its extraction succeeds, and then the content is that extracted text with source "View"; a missing `href` raises `KeyError`, a failed extraction raises with the joined URL |
| Reports.ContentOf | src/psx/reader.py:137-151 | the source is "PDF" exactly when there is a pdf link whose extraction succeeds, and then the content is the PDF text; "View" content is the view link's extracted text; "" exactly when the PDF fails or is absent and there is no view link, and then the content is ""; it raises exactly when the view extraction it falls back to fails, with that extraction's error |
| Reports.ReportContent | src/psx/reader.py:103-107 | a financial report's source is "PDF" exactly when its extraction succeeds, and then the content is the PDF text; otherwise source and content are both "" |
| Reports.Scan | src/psx/reader.py:89-160 | a page yields at most one entry per row |
| Reports.ScanPage | src/psx/reader.py:126-160 | the row loop appends to the results exactly the page's scanned entries |
| Reports.Crawling | src/psx/reader.py:85-163 | the loop requests at most as many pages as its budget |
| Reports.VisitPage | src/psx/reader.py:86-163 | one pass of the loop body appends the page's entries and yields the next url |
| Reports.Reports | src/psx/reader.py:65-169 | `reports` requests exactly the specified pages and returns the specified entries with the file they are saved under |
| Reports.CrawlPages | src/psx/reader.py:85-160 | the page loop visits exactly the specified pages and ends with the specified entries or error |
| Reports.RowStepKept | src/psx/reader.py:94-116 | an entry added for a row has an ISO date not before the cutoff and a source allowed in its mode |
| Reports.ScanKept | src/psx/reader.py:126-160 | every entry a page yields has such a date and source |
| Reports.ScanStopsAtCutoff | src/psx/reader.py:95-97 | the first row dated before the cutoff ends the page's scan and is not appended |
| Reports.ScanSkipsRow | src/psx/reader.py:129-130 | a skipped row leaves the scan as if it were not there |
| Reports.UntitledRowSkipped | src/psx/reader.py:127-130 | an announcement row without a title or a date element is skipped |
| Reports.ShortRowSkipped | src/psx/reader.py:90-92 | a financial row with fewer than 3 cells is skipped |
| Reports.ReportCutoffBeforeLink | src/psx/reader.py:94-101 | a financial row dated before the cutoff ends the scan even when it has no link |
| Reports.AnnouncementCutoff | src/psx/reader.py:132-135 | an announcement row dated before the cutoff ends the page's scan |
| Reports.NextPageFollowed | src/psx/reader.py:132-163 | after a page scanned without error, a second page is requested exactly when the page has a next link, and it is that link |
| Reports.FinancialSinglePage | src/psx/reader.py:118-119 | the financial listing requests exactly one page |
| Reports.FinancialIgnoresStaticPages | src/psx/reader.py:86-87 | the financial listing never uses the static page fetcher |
| Reports.ScanIgnoresStaticPages | src/psx/reader.py:89-116 | scanning rows never uses the static page fetcher |
| Reports.CrawlingKept | src/psx/reader.py:85-163 | every entry of a crawl has an ISO date not before the cutoff and an allowed source |
| Reports.ReportsKept | src/psx/reader.py:86-160 | every entry `reports` returns has an ISO date not before the cutoff and a source in {"PDF", "View", ""} ({"PDF", ""} for financial reports), with empty content when the source is empty |
| Reports.TwoWordTabId | src/psx/reader.py:124 | the tab id is the tab name with its spaces removed, e.g. "Financial Results" gives "FinancialResults" |
| Reports.TwoWordReportFile | src/psx/reader.py:166 | the file name puts underscores where the tab name has spaces |
| Text.ReplaceChar | src/psx/reader.py:166 | `replace(' ', '_')` replaces exactly the spaces |
| Calendar.ParseIso | src/psx/reader.py:112 | an ISO string that reads back yields a valid date |
| Calendar.IsoRoundTrip | src/psx/reader.py:156 | every valid date's ISO form reads back as that date |
| Text.PaddedRoundTrip | src/psx/reader.py:112 | a zero-padded number reads back as that number |
| Text.DecimalRoundTrip | src/psx/reader.py:112 | a number's decimal string reads back as that number |
| Web.LegacyDaterange | src/psx/web.py:136-143 | the loop without a window check returns the unchecked anchors; the list is never empty and starts at day 1 of start's month |
| Web.LegacyAnchorsStep | src/psx/web.py:139-143 | there are max(months, 0) + 1 anchors, the first on day 1 of start's month, each later one one month after the previous one |
| Web.LegacyAnchorsOrdered | src/psx/web.py:137-143 | for an ordered window the anchors are those of the checked `daterange` |
| Web.LegacyAnchorsReversed | src/psx/web.py:139-143 | a reversed window yields the single anchor of start's month instead of raising |
| Web.LegacyDownload | src/psx/web.py:104-132 | a download that succeeds is a parsed table; it fails only on a bad date or ragged columns |
| Web.LegacyIgnoresStatus | src/psx/web.py:104-108 | an error status, where the current reader raises, is parsed as a page; any other status gives what the current reader gives |
| Web.StrColumn | src/psx/web.py:152-156 | an absent column raises the given error; a present one is usable through `.str` exactly when it is unique, object and not inferred as numbers, and otherwise raises `AttributeError` for `.str` |
| Web.CellsAt | src/psx/web.py:156 | the column's cells, one per row |
| Web.CastCell | src/psx/web.py:156 | `astype(float64)` raises exactly on text that is not a number once its commas are gone, naming that text; otherwise it gives what coercion gives |
| Web.CastFailure | src/psx/web.py:156 | the cast fails exactly when some cell fails, and then on the first such cell |
| Web.StrictColumn | src/psx/web.py:156 | the strict conversion keeps the frame well formed and fails only with a missing column, `.str` on a non-text column, or text that is not a number |
| Web.StrictLenient | src/psx/web.py:156 | a strict conversion that succeeds agrees with the coercing one; a missing column raises `KeyError`; a float64 column, or one the coercing conversion refuses, raises for `.str` |
| Web.StrictAll | src/psx/web.py:155-156 | the column loop keeps the frame well formed |
| Web.StripCell | src/psx/web.py:152 | `.str.replace(",", "")` leaves text without commas and makes any other cell NaN |
| Web.StripAt | src/psx/web.py:152 | stripping the Volume column changes that cell of every row and nothing else |
| Web.StripVolume | src/psx/web.py:152 | `df.Volume.str.replace` fails exactly when Volume is missing or not usable through `.str`; otherwise only the Volume cells are stripped |
| Web.LegacyPreprocess | src/psx/web.py:145-157 | the column loop returns exactly the specified strict merge |
| Web.StrictStep | src/psx/web.py:155-156 | one pass of the strict loop either fails as on the original frame or adds that column to the converted set |
| Web.StrictAllSpec | src/psx/web.py:155-156 | the strict loop succeeds exactly when every column converts strictly on its own, and then yields all of them converted |
| Web.StrictConverted | src/psx/web.py:155-156 | the same for the five numeric columns, with the failing column named otherwise |
| Web.RemoveCharTwice | src/psx/web.py:152-156 | stripping commas twice is stripping them once |
| Web.VolumeAt | src/psx/web.py:152 | when the Volume strip succeeds, Volume is a unique object column |
| Web.StripAbsorbed | src/psx/web.py:152-156 | stripping Volume first does not change the converted frame |
| Web.StripAbsorbedRow | src/psx/web.py:152-156 | the same for each row |
| Web.StripAbsorbedRecord | src/psx/web.py:152-156 | the same for one record |
| Web.StripLenient | src/psx/web.py:152 | a column that converts after the Volume strip also converts before it |
| Web.LegacyAgrees | src/psx/web.py:145-157 | whenever the legacy merge succeeds, it equals the current `preprocess` |
| Web.LegacyRejectsOwnOutput | src/psx/web.py:152-156 | feeding the legacy merge its own output raises `AttributeError` for `.str`, whereas the current `preprocess` is idempotent |
| Web.VolumeConverted | src/psx/web.py:152-156 | the converted merge is its own preparation and its Volume column is float64 |
| Web.FloatVolumeRejected | src/psx/web.py:152 | a float64 Volume column makes the legacy merge raise |
| Web.LegacyRejectsUnparseable | src/psx/web.py:156 | a numeric cell holding text that is not a number makes the legacy merge raise, where the current one gives NaN |
| Web.StripKeepsUnparseable | src/psx/web.py:152 | the Volume strip keeps such a cell unparseable |
| Web.StrictRejectsText | src/psx/web.py:156 | the strict cast of a column holding such a cell fails |
| Web.LegacyDownloads | src/psx/web.py:88-90 | one legacy download per anchor, in order |
| Web.LegacyGetPsxData | src/psx/web.py:80-102 | posts one form per anchor, in order, and returns the specified legacy fetch |
| Web.LegacyCollectArrivals | src/psx/web.py:92-94 | the legacy results are collected in arrival order and the first failure is the one raised |
| Web.LegacyGathered | src/psx/web.py:92-97 | collected frames are parsed tables, and the fetch is the legacy merge of them or the first failure |
| Web.LegacyFetchShape | src/psx/web.py:80-102 | a legacy fetch that succeeds is well formed, sorted by date and has the numeric columns |
| Web.LegacyFetchAgrees | src/psx/web.py:80-108 | with no error statuses, a legacy fetch that succeeds equals the current fetch |
| Web.LegacySymbols | src/psx/web.py:63-67 | a string becomes a one-element list, a list is kept, and `None` fails when the loop starts |
| Web.LegacyFetches | src/psx/web.py:67-69 | one windowed legacy fetch per symbol, in order |
| Web.LegacyFetchedTables | src/psx/web.py:67-69 | every symbol's frame is well formed, sorted, has the numeric columns and lies inside the window |
| Web.LegacyFetchAll | src/psx/web.py:66-71 | the symbol loop collects the windowed fetches, stopping at the first failure |
| Web.LegacyStocks | src/psx/web.py:56-76 | the legacy `stocks` returns exactly the specified result |
| Web.WindowReversed | src/psx/web.py:69 | a slice with end before start keeps no row |
| Web.ConcatNoRows | src/psx/web.py:76 | frames without rows concatenate to no rows |
| Web.LegacyReversedFrames | src/psx/web.py:64-69 | over a reversed window every symbol's frame is empty |
| Web.NoRowsShaped | src/psx/web.py:73-76 | shaping empty frames gives a result without rows |
| Web.LegacyStocksReversed | src/psx/web.py:63-76 | a reversed window downloads only start's month and returns no rows instead of raising |
| Web.LegacyFetchesAgree | src/psx/web.py:66-71 | with no error statuses, legacy fetches that all succeed are the current fetches |
| Web.LegacyStocksAgrees | src/psx/web.py:56-76 | for an ordered window and no error statuses, a legacy `stocks` that succeeds returns what the current one returns |

## Left out

- Network I/O. This covers `requests` sessions, timeouts, Selenium, pdfminer and the thread that guards it (`src/psx/network.py`). These become the `post` parameter and the `Site` fetchers and extractors, which either answer or fail.
- `ThreadPoolExecutor`, `as_completed` and `tqdm`. The fan-out is sequential. The completion order is a permutation parameter.
- The thread-local `session` property and the `DataReader` constructor. They hold no state the core's logic depends on, so no class is modelled.
- The `verbose` prints and the `__main__` demo of the older reader.
- `tickers()` reads the master list over the network. The master list is a parameter.
- `date.today() - relativedelta(years=years)`. The cutoff is a parameter.
- dateutil's fuzzy parser and `urljoin`. Both are abstract functions of `Site`.
- The JSON file writing and `os.makedirs`. Only the file name is modelled.
- BeautifulSoup. Pages are values: price pages are the stripped texts of each `<tr>`'s cells, and announcement pages are rows with optional title, date and links. `get_text(strip=True)` is taken as already applied.
- IEEE float64. Numbers are exact rationals, so rounding, overflow, `inf` and `nan` spellings, exponents, signs other than a leading one, and surrounding spaces are not modelled. The number syntax is a plain decimal with an optional sign and fraction.
- Character case outside ASCII, in `str.title` and in `%b` matching.
- Calendar.ParseTableDate: reads only the ASCII digits 0-9 for `%d` and `%Y`. strptime's `\d` also accepts every other Unicode decimal digit, so a date written with, say, Arabic-Indic digits parses in Python and is refused here. Whitespace follows `\s` in full, Unicode whitespace included.
- The `isinstance(df, pd.DataFrame)` filter in both `get_psx_data` versions. Every download that returns, returns a frame, so the filter keeps everything.
- A `tickers` argument that is neither a string, a list nor `None` is not modelled.
- Reports.Crawling: the page budget is a bound the source does not have. A listing whose next links never end is reported as `PageBudgetExhausted` instead of looping forever.
- Frames.SortByDate: this is a stable insertion sort. pandas' default `sort_index` is not stable. So the model fixes one order for rows with equal dates, where pandas may choose another.
- Parsing.PreprocessRearranged: holds only when no date repeats across the monthly frames, because of the sort order above.
- Reader.FetchOrderIrrelevant: holds only when no date repeats across months, for the same reason.
- Parsing.Preprocess: requires its frames to have the same column names and to be well formed. Every caller passes frames from the parser, which have both properties. Frames with differing columns, which pandas would align, are not modelled.
- Web.LegacyPreprocess: has the same requirement, for the same reason.
- Web.LegacyAgrees: states only that a legacy merge which succeeds agrees with the current one. The legacy merge raises on input the current one accepts, as `Web.LegacyRejectsUnparseable` and `Web.LegacyRejectsOwnOutput` show.
- Web.LegacyStocksAgrees: compares the two readers only for an ordered window with no error statuses. Reversed windows and error pages are covered by `Web.LegacyStocksReversed` and `Web.LegacyIgnoresStatus`.
