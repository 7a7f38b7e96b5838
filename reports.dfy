/**
 * The reader's announcements side: a company's listing pages scanned row by row down to a
 * cutoff date, each entry's content taken from its PDF or from its plain-text view, and the
 * name of the file the entries are saved under.
 */
module Reports {
  import opened Wrappers
  import opened Errors
  import opened Calendar
  import opened Text
  import opened Parsing

  // ---------------------------------------------------------------- pages as values

  /** A link: its `href` attribute, if it has one, and its stripped text. */
  datatype Anchor = Anchor(href: Option<string>, text: string)

  /** A `<td>`: its stripped text and the first link inside it, if any. */
  datatype Td = Td(text: string, link: Option<Anchor>)

  /**
   * A `<tr>` as the scans query it: whether it sits inside a `<tbody>`, the stripped texts of
   * its `.title` and `.date` elements, its `a.pdf` and `a.view` links, and its cells.
   */
  datatype Row = Row(inBody: bool, title: Option<string>, date: Option<string>,
                     pdf: Option<Anchor>, view: Option<Anchor>, cells: seq<Td>)

  /** An element the scan looks into: its rows in document order and its first `a.next` link. */
  datatype Section = Section(rows: seq<Row>, next: Option<Anchor>)

  /** A parsed page: the elements that carry an `id`, and the whole document. */
  datatype Page = Page(byId: map<string, Section>, whole: Section)

  /**
   * What the reader cannot see into: the static and the browser-rendered page fetchers, the
   * PDF and the view text extractors (`None` where they raise), dateutil's parser, and `urljoin`.
   */
  datatype Site = Site(getPage: string -> Option<Page>, getPageDynamic: string -> Option<Page>,
                       extractPdf: string -> Option<string>, extractView: string -> Option<string>,
                       parseDate: string -> Option<Date>, join: (string, string) -> string)

  /** One scraped announcement, as saved: the date is in ISO form. */
  datatype Entry = Entry(title: string, date: string, source: string, content: string)

  /** Where an entry's content came from, and the content. */
  datatype Content = Content(source: string, text: string)

  /** The two listing modes: the rendered `Financial Reports` table, or an announcements tab. */
  datatype Mode = Standard | Financial

  const HOME: string := "https://dps.psx.com.pk/company/"
  const FINANCIAL_REPORTS: string := "Financial Reports"
  const REPORTS_ID: string := "reports"

  /** The company page every listing starts from and every link is resolved against. */
  function Base(symbol: string): (url: string)
    ensures |url| == |HOME| + |symbol| && url[..|HOME|] == HOME && url[|HOME|..] == symbol
  {
    HOME + symbol
  }

  /** `soup.find(id=...) or soup`: the element with that id, else the whole page. */
  function Tab(page: Page, id: string): Section
  {
    if id in page.byId then page.byId[id] else page.whole
  }

  /** `select("tbody tr")`: the rows inside a table body, in document order. */
  function BodyRows(rows: seq<Row>): (r: seq<Row>)
    ensures forall x :: x in r <==> x in rows && x.inBody
  {
    if rows == [] then []
    else
      assert forall x :: x in rows <==> x == rows[0] || x in rows[1..];
      (if rows[0].inBody then [rows[0]] else []) + BodyRows(rows[1..])
  }

  // ---------------------------------------------------------------- content source

  /** The PDF text behind a link; a missing `href` raises inside the `try` just as a failed extraction does. */
  function PdfText(site: Site, base: string, link: Anchor): Option<string>
  {
    match link.href
    case None => None
    case Some(href) => site.extractPdf(site.join(base, href))
  }

  /** The view text behind a link; nothing catches a missing `href` or a failed extraction here. */
  function ViewContent(site: Site, base: string, link: Anchor): (r: Result<Content, Error>)
    ensures r.Ok? <==> link.href.Some? && site.extractView(site.join(base, link.href.value)).Some?
    ensures r.Ok? ==> r.value == Content("View", site.extractView(site.join(base, link.href.value)).value)
    ensures link.href.None? ==> r == Err(MissingHref)
    ensures link.href.Some? && site.extractView(site.join(base, link.href.value)).None? ==>
      r == Err(ViewUnavailable(site.join(base, link.href.value)))
  {
    match link.href
    case None => Err(MissingHref)
    case Some(href) =>
      var url := site.join(base, href);
      match site.extractView(url)
      case None => Err(ViewUnavailable(url))
      case Some(text) => Ok(Content("View", text))
  }

  /** An announcement's content: its PDF first, its view when there is no PDF text, else nothing. */
  function ContentOf(site: Site, base: string, pdf: Option<Anchor>, view: Option<Anchor>): (r: Result<Content, Error>)
    ensures r.Ok? ==> r.value.source in {"PDF", "View", ""} && (r.value.source == "" ==> r.value.text == "")
    ensures (r.Ok? && r.value.source == "PDF") <==> pdf.Some? && PdfText(site, base, pdf.value).Some?
    ensures (r.Ok? && r.value.source == "") <==> (pdf.None? || PdfText(site, base, pdf.value).None?) && view.None?
    ensures r.Err? <==>
      (pdf.None? || PdfText(site, base, pdf.value).None?) && view.Some? && ViewContent(site, base, view.value).Err?
    ensures r.Ok? && r.value.source == "PDF" ==> r.value.text == PdfText(site, base, pdf.value).value
    ensures r.Ok? && r.value.source == "View" ==>
      view.Some? && view.value.href.Some? && r.value.text == site.extractView(site.join(base, view.value.href.value)).value
    ensures r.Err? ==> r == ViewContent(site, base, view.value)
  {
    match pdf
    case Some(link) =>
      (match PdfText(site, base, link)
       case Some(text) => Ok(Content("PDF", text))
       case None => if view.Some? then ViewContent(site, base, view.value) else Ok(Content("", "")))
    case None =>
      if view.Some? then ViewContent(site, base, view.value) else Ok(Content("", ""))
  }

  /** A `Financial Reports` row's content: its PDF text, or nothing when that fails in any way. */
  function ReportContent(site: Site, base: string, link: Anchor): (c: Content)
    ensures c.source in {"PDF", ""} && (c.source == "PDF" <==> PdfText(site, base, link).Some?)
    ensures c.source == "PDF" ==> c.text == PdfText(site, base, link).value
    ensures c.source == "" ==> c.text == ""
  {
    match PdfText(site, base, link)
    case Some(text) => Content("PDF", text)
    case None => Content("", "")
  }

  // ---------------------------------------------------------------- one row, one page

  /** What the scan does with one row. */
  datatype Step = Skip | Stop | Add(entry: Entry)

  /** One row of either listing; the date is checked against the cutoff before any link is looked at. */
  function RowStep(site: Site, base: string, cutoff: Date, mode: Mode, row: Row): (r: Result<Step, Error>)
    requires DateParser(site.parseDate)
  {
    match mode
    case Standard =>
      if row.title.None? || row.date.None? then Ok(Skip)
      else
        (match site.parseDate(row.date.value)
         case None => Err(UnparseableDate(row.date.value))
         case Some(when) =>
           if Before(when, cutoff) then Ok(Stop)
           else
             (match ContentOf(site, base, row.pdf, row.view)
              case Err(e) => Err(e)
              case Ok(c) => Ok(Add(Entry(row.title.value, IsoFormat(when), c.source, c.text)))))
    case Financial =>
      if |row.cells| < 3 then Ok(Skip)
      else
        (match site.parseDate(row.cells[2].text)
         case None => Err(UnparseableDate(row.cells[2].text))
         case Some(when) =>
           if Before(when, cutoff) then Ok(Stop)
           else
             (match row.cells[0].link
              case None => Ok(Skip)
              case Some(link) =>
                var c := ReportContent(site, base, link);
                Ok(Add(Entry(link.text, IsoFormat(when), c.source, c.text)))))
  }

  /** Entries found so far put in front of what follows, a failure passing through. */
  function Prepend(found: seq<Entry>, r: Result<seq<Entry>, Error>): Result<seq<Entry>, Error>
  {
    match r
    case Err(e) => Err(e)
    case Ok(entries) => Ok(found + entries)
  }

  lemma PrependTwice(a: seq<Entry>, b: seq<Entry>, r: Result<seq<Entry>, Error>)
    ensures Prepend(a, Prepend(b, r)) == Prepend(a + b, r)
  {
    if r.Ok? {
      assert a + (b + r.value) == (a + b) + r.value;
    }
  }

  /** The entries of a page's rows, in row order, up to the first row dated before the cutoff. */
  function Scan(site: Site, base: string, cutoff: Date, mode: Mode, rows: seq<Row>): (r: Result<seq<Entry>, Error>)
    requires DateParser(site.parseDate)
    ensures r.Ok? ==> |r.value| <= |rows|
  {
    if rows == [] then Ok([])
    else
      match RowStep(site, base, cutoff, mode, rows[0])
      case Err(e) => Err(e)
      case Ok(Stop) => Ok([])
      case Ok(Skip) => Scan(site, base, cutoff, mode, rows[1..])
      case Ok(Add(entry)) => Prepend([entry], Scan(site, base, cutoff, mode, rows[1..]))
  }

  /** The `for row in ...` loop: appends each row's entry to `results`, and breaks at the cutoff. */
  method ScanPage(site: Site, base: string, cutoff: Date, mode: Mode, rows: seq<Row>, results: seq<Entry>)
    returns (r: Result<seq<Entry>, Error>)
    requires DateParser(site.parseDate)
    ensures r == Prepend(results, Scan(site, base, cutoff, mode, rows))
  {
    var found := results;
    var i := 0;
    while i < |rows|
      invariant 0 <= i <= |rows|
      invariant Prepend(results, Scan(site, base, cutoff, mode, rows)) ==
        Prepend(found, Scan(site, base, cutoff, mode, rows[i..]))
    {
      assert rows[i..][1..] == rows[i + 1..];
      var step := RowStep(site, base, cutoff, mode, rows[i]);
      match step {
        case Err(e) =>
          return Err(e);
        case Ok(Stop) =>
          assert rows[i..][0] == rows[i] && found + [] == found;
          return Ok(found);
        case Ok(Skip) =>
        case Ok(Add(entry)) =>
          assert rows[i..][0] == rows[i];
          PrependTwice(found, [entry], Scan(site, base, cutoff, mode, rows[i + 1..]));
          found := found + [entry];
      }
      i := i + 1;
    }
    assert rows[i..] == [] && found + [] == found;
    return Ok(found);
  }

  // ---------------------------------------------------------------- pagination

  /** What one page gives: its entries, and the url of the page to fetch next (empty for none). */
  datatype Visit = Visit(entries: seq<Entry>, next: string)

  /** `urljoin(base, next_link["href"]) if next_link else None`; the empty url ends the loop. */
  function NextUrl(site: Site, base: string, next: Option<Anchor>): Result<string, Error>
  {
    match next
    case None => Ok("")
    case Some(link) =>
      match link.href
      case None => Err(MissingHref)
      case Some(href) => Ok(site.join(base, href))
  }

  /**
   * One pass of the loop body. The `Financial Reports` listing fetches the rendered page, scans
   * its `reports` table body and names no next page; an announcements tab fetches the page,
   * scans the tab's rows, then takes its next link whether or not the scan met the cutoff.
   */
  function PageVisit(site: Site, base: string, id: string, cutoff: Date, mode: Mode, url: string): Result<Visit, Error>
    requires DateParser(site.parseDate)
  {
    match mode
    case Financial =>
      (match site.getPageDynamic(url)
       case None => Err(PageUnavailable(url))
       case Some(page) =>
         match Scan(site, base, cutoff, Financial, BodyRows(Tab(page, REPORTS_ID).rows))
         case Err(e) => Err(e)
         case Ok(entries) => Ok(Visit(entries, "")))
    case Standard =>
      match site.getPage(url)
      case None => Err(PageUnavailable(url))
      case Some(page) =>
        var tab := Tab(page, id);
        match Scan(site, base, cutoff, Standard, tab.rows)
        case Err(e) => Err(e)
        case Ok(entries) =>
          match NextUrl(site, base, tab.next)
          case Err(e) => Err(e)
          case Ok(next) => Ok(Visit(entries, next))
  }

  /** The pages requested, in order, and what the listing yields. */
  datatype Crawl = Crawl(visited: seq<string>, outcome: Result<seq<Entry>, Error>)

  /** The pages visited before, and the entries found before, in front of the rest of a crawl. */
  function After(visited: seq<string>, found: seq<Entry>, rest: Crawl): Crawl
  {
    Crawl(visited + rest.visited, Prepend(found, rest.outcome))
  }

  lemma AfterNothing(c: Crawl)
    ensures After([], [], c) == c
  {
    assert [] + c.visited == c.visited;
    if c.outcome.Ok? {
      assert [] + c.outcome.value == c.outcome.value;
    }
  }

  lemma AfterErr(visited: seq<string>, found: seq<Entry>, more: seq<string>, e: Error)
    ensures After(visited, found, Crawl(more, Err(e))) == Crawl(visited + more, Err(e))
  {
  }

  lemma AfterDone(visited: seq<string>, found: seq<Entry>)
    ensures After(visited, found, Crawl([], Ok([]))) == Crawl(visited, Ok(found))
  {
    assert visited + [] == visited && found + [] == found;
  }

  lemma AfterTwice(visited: seq<string>, found: seq<Entry>, more: seq<string>, next: seq<Entry>, c: Crawl)
    ensures After(visited, found, After(more, next, c)) == After(visited + more, found + next, c)
  {
    assert visited + (more + c.visited) == (visited + more) + c.visited;
    PrependTwice(found, next, c.outcome);
  }

  /** The loop from `url` on, fetching at most `budget` more pages. */
  function Crawling(site: Site, base: string, id: string, cutoff: Date, mode: Mode, url: string, budget: nat): (c: Crawl)
    requires DateParser(site.parseDate)
    ensures |c.visited| <= budget
    decreases budget
  {
    if url == "" then Crawl([], Ok([]))
    else if budget == 0 then Crawl([], Err(PageBudgetExhausted))
    else
      match PageVisit(site, base, id, cutoff, mode, url)
      case Err(e) => Crawl([url], Err(e))
      case Ok(visit) => After([url], visit.entries, Crawling(site, base, id, cutoff, mode, visit.next, budget - 1))
  }

  /** The listing mode a tab name selects. */
  function ModeOf(tabName: string): Mode
  {
    if tabName == FINANCIAL_REPORTS then Financial else Standard
  }

  /** `reports`: the listing the tab name selects, starting from the company page. */
  function ReportsSpec(site: Site, symbol: string, tabName: string, cutoff: Date, budget: nat): Crawl
    requires DateParser(site.parseDate)
  {
    Crawling(site, Base(symbol), RemoveChar(tabName, ' '), cutoff, ModeOf(tabName), Base(symbol), budget)
  }

  /** The file the entries are saved in: the symbol, the tab name with underscores for spaces, a suffix. */
  function ReportFile(symbol: string, tabName: string): string
  {
    symbol + "_" + ReplaceChar(tabName, ' ', '_') + "_reports.json"
  }

  /** The saved listing: where it was written and what it holds. */
  datatype Saved = Saved(path: string, entries: seq<Entry>)

  /** The loop body: fetch the page, append its entries to `results`, and find the next url. */
  method VisitPage(site: Site, base: string, id: string, cutoff: Date, mode: Mode, url: string, results: seq<Entry>)
    returns (r: Result<Visit, Error>)
    requires DateParser(site.parseDate)
    ensures r == match PageVisit(site, base, id, cutoff, mode, url)
      case Err(e) => Err(e)
      case Ok(visit) => Ok(Visit(results + visit.entries, visit.next))
  {
    if mode == Financial {
      var page := site.getPageDynamic(url);
      if page.None? {
        return Err(PageUnavailable(url));
      }
      var tab := Tab(page.value, REPORTS_ID);
      var scanned := ScanPage(site, base, cutoff, Financial, BodyRows(tab.rows), results);
      if scanned.Err? {
        return Err(scanned.error);
      }
      return Ok(Visit(scanned.value, ""));
    } else {
      var page := site.getPage(url);
      if page.None? {
        return Err(PageUnavailable(url));
      }
      var tab := Tab(page.value, id);
      var scanned := ScanPage(site, base, cutoff, Standard, tab.rows, results);
      if scanned.Err? {
        return Err(scanned.error);
      }
      var next := NextUrl(site, base, tab.next);
      if next.Err? {
        return Err(next.error);
      }
      return Ok(Visit(scanned.value, next.value));
    }
  }

  /** `reports`: the listing the tab name selects, crawled from the company page, then saved. */
  method Reports(site: Site, symbol: string, tabName: string, cutoff: Date, budget: nat)
    returns (visited: seq<string>, r: Result<Saved, Error>)
    requires DateParser(site.parseDate)
    ensures visited == ReportsSpec(site, symbol, tabName, cutoff, budget).visited
    ensures r == match ReportsSpec(site, symbol, tabName, cutoff, budget).outcome
      case Err(e) => Err(e)
      case Ok(entries) => Ok(Saved(ReportFile(symbol, tabName), entries))
  {
    var base := Base(symbol);
    var outcome;
    visited, outcome := CrawlPages(site, base, RemoveChar(tabName, ' '), cutoff, ModeOf(tabName), budget);
    if outcome.Err? {
      return visited, Err(outcome.error);
    }
    r := Ok(Saved(ReportFile(symbol, tabName), outcome.value));
  }

  /** The `while next_url` loop of `reports`, reassigning the next url and appending to `results`. */
  method CrawlPages(site: Site, base: string, id: string, cutoff: Date, mode: Mode, budget: nat)
    returns (visited: seq<string>, outcome: Result<seq<Entry>, Error>)
    requires DateParser(site.parseDate)
    ensures Crawl(visited, outcome) == Crawling(site, base, id, cutoff, mode, base, budget)
  {
    ghost var spec := Crawling(site, base, id, cutoff, mode, base, budget);
    var results: seq<Entry> := [];
    var url := base;
    var fuel := budget;
    visited := [];
    AfterNothing(spec);
    while url != ""
      invariant spec == After(visited, results, Crawling(site, base, id, cutoff, mode, url, fuel))
      decreases fuel
    {
      if fuel == 0 {
        AfterErr(visited, results, [], PageBudgetExhausted);
        assert visited + [] == visited;
        return visited, Err(PageBudgetExhausted);
      }
      var visit := VisitPage(site, base, id, cutoff, mode, url, results);
      CrawlingTurn(site, base, id, cutoff, mode, url, fuel, visited, results, visit);
      if visit.Err? {
        return visited + [url], Err(visit.error);
      }
      visited := visited + [url];
      results := visit.value.entries;
      url := visit.value.next;
      fuel := fuel - 1;
    }
    AfterDone(visited, results);
    outcome := Ok(results);
  }

  /** What one turn of the loop leaves to do, whether its page fails or gives entries and a next url. */
  lemma CrawlingTurn(site: Site, base: string, id: string, cutoff: Date, mode: Mode, url: string, budget: nat,
                     visited: seq<string>, results: seq<Entry>, visit: Result<Visit, Error>)
    requires DateParser(site.parseDate) && url != "" && budget > 0
    requires visit == match PageVisit(site, base, id, cutoff, mode, url)
      case Err(e) => Err(e)
      case Ok(v) => Ok(Visit(results + v.entries, v.next))
    ensures visit.Err? ==>
      After(visited, results, Crawling(site, base, id, cutoff, mode, url, budget)) == Crawl(visited + [url], Err(visit.error))
    ensures visit.Ok? ==>
      After(visited, results, Crawling(site, base, id, cutoff, mode, url, budget)) ==
      After(visited + [url], visit.value.entries, Crawling(site, base, id, cutoff, mode, visit.value.next, budget - 1))
  {
    CrawlingStep(site, base, id, cutoff, mode, url, budget);
    if visit.Err? {
      AfterErr(visited, results, [url], visit.error);
    } else {
      var page := PageVisit(site, base, id, cutoff, mode, url).value;
      AfterTwice(visited, results, [url], page.entries, Crawling(site, base, id, cutoff, mode, page.next, budget - 1));
    }
  }

  /** One turn of the loop from a url that is not empty, with pages left to fetch. */
  lemma CrawlingStep(site: Site, base: string, id: string, cutoff: Date, mode: Mode, url: string, budget: nat)
    requires DateParser(site.parseDate) && url != "" && budget > 0
    ensures Crawling(site, base, id, cutoff, mode, url, budget) ==
      match PageVisit(site, base, id, cutoff, mode, url)
      case Err(e) => Crawl([url], Err(e))
      case Ok(visit) => After([url], visit.entries, Crawling(site, base, id, cutoff, mode, visit.next, budget - 1))
  {
  }

  // ---------------------------------------------------------------- properties

  /** An entry as saved: an ISO date not before the cutoff, and a source the listing can give. */
  predicate Kept(e: Entry, cutoff: Date, mode: Mode)
  {
    ParseIso(e.date).Some? && NotAfter(cutoff, ParseIso(e.date).value) &&
    (if mode == Financial then e.source in {"PDF", ""} else e.source in {"PDF", "View", ""}) &&
    (e.source == "" ==> e.content == "")
  }

  lemma RowStepKept(site: Site, base: string, cutoff: Date, mode: Mode, row: Row)
    requires DateParser(site.parseDate)
    ensures var r := RowStep(site, base, cutoff, mode, row);
      r.Ok? && r.value.Add? ==> Kept(r.value.entry, cutoff, mode)
  {
    var r := RowStep(site, base, cutoff, mode, row);
    if r.Ok? && r.value.Add? {
      var text := if mode == Financial then row.cells[2].text else row.date.value;
      IsoRoundTrip(site.parseDate(text).value);
    }
  }

  /** Every entry of a scan is dated on or after the cutoff and names where its content came from. */
  lemma {:induction false} ScanKept(site: Site, base: string, cutoff: Date, mode: Mode, rows: seq<Row>)
    requires DateParser(site.parseDate)
    ensures var r := Scan(site, base, cutoff, mode, rows);
      r.Ok? ==> forall e :: e in r.value ==> Kept(e, cutoff, mode)
  {
    if rows != [] {
      RowStepKept(site, base, cutoff, mode, rows[0]);
      ScanKept(site, base, cutoff, mode, rows[1..]);
    }
  }

  /** The first row dated before the cutoff ends the page: no row after it is looked at. */
  lemma {:induction false} ScanStopsAtCutoff(site: Site, base: string, cutoff: Date, mode: Mode, rows: seq<Row>, k: nat)
    requires DateParser(site.parseDate)
    requires k < |rows| && RowStep(site, base, cutoff, mode, rows[k]) == Ok(Stop)
    ensures Scan(site, base, cutoff, mode, rows) == Scan(site, base, cutoff, mode, rows[..k])
  {
    if k > 0 {
      ScanStopsAtCutoff(site, base, cutoff, mode, rows[1..], k - 1);
      assert rows[1..][..k - 1] == rows[..k][1..];
    }
  }

  /** A skipped row leaves the scan as if it were not there. */
  lemma {:induction false} ScanSkipsRow(site: Site, base: string, cutoff: Date, mode: Mode, rows: seq<Row>, k: nat)
    requires DateParser(site.parseDate)
    requires k < |rows| && RowStep(site, base, cutoff, mode, rows[k]) == Ok(Skip)
    ensures Scan(site, base, cutoff, mode, rows) == Scan(site, base, cutoff, mode, rows[..k] + rows[k + 1..])
  {
    var without := rows[..k] + rows[k + 1..];
    if k == 0 {
      assert without == rows[1..];
    } else {
      ScanSkipsRow(site, base, cutoff, mode, rows[1..], k - 1);
      assert without[0] == rows[0];
      assert without[1..] == rows[1..][..k - 1] + rows[1..][k..];
    }
  }

  /** An announcements row without a title or without a date is passed over. */
  lemma UntitledRowSkipped(site: Site, base: string, cutoff: Date, rows: seq<Row>, k: nat)
    requires DateParser(site.parseDate)
    requires k < |rows| && (rows[k].title.None? || rows[k].date.None?)
    ensures Scan(site, base, cutoff, Standard, rows) == Scan(site, base, cutoff, Standard, rows[..k] + rows[k + 1..])
  {
    ScanSkipsRow(site, base, cutoff, Standard, rows, k);
  }

  /** A `Financial Reports` row with fewer than three cells is passed over. */
  lemma ShortRowSkipped(site: Site, base: string, cutoff: Date, rows: seq<Row>, k: nat)
    requires DateParser(site.parseDate)
    requires k < |rows| && |rows[k].cells| < 3
    ensures Scan(site, base, cutoff, Financial, rows) == Scan(site, base, cutoff, Financial, rows[..k] + rows[k + 1..])
  {
    ScanSkipsRow(site, base, cutoff, Financial, rows, k);
  }

  /**
   * A `Financial Reports` row dated before the cutoff ends the page even when it has no link:
   * the date is checked first.
   */
  lemma ReportCutoffBeforeLink(site: Site, base: string, cutoff: Date, rows: seq<Row>, k: nat)
    requires DateParser(site.parseDate)
    requires k < |rows| && |rows[k].cells| >= 3
    requires site.parseDate(rows[k].cells[2].text).Some? && Before(site.parseDate(rows[k].cells[2].text).value, cutoff)
    ensures Scan(site, base, cutoff, Financial, rows) == Scan(site, base, cutoff, Financial, rows[..k])
  {
    ScanStopsAtCutoff(site, base, cutoff, Financial, rows, k);
  }

  /** An announcements row dated before the cutoff ends the page, whatever links it has. */
  lemma AnnouncementCutoff(site: Site, base: string, cutoff: Date, rows: seq<Row>, k: nat)
    requires DateParser(site.parseDate)
    requires k < |rows| && rows[k].title.Some? && rows[k].date.Some?
    requires site.parseDate(rows[k].date.value).Some? && Before(site.parseDate(rows[k].date.value).value, cutoff)
    ensures Scan(site, base, cutoff, Standard, rows) == Scan(site, base, cutoff, Standard, rows[..k])
  {
    ScanStopsAtCutoff(site, base, cutoff, Standard, rows, k);
  }

  /**
   * On an announcements tab another page is fetched exactly when the page names a next page,
   * and it is that page, whether or not the scan met the cutoff.
   */
  lemma NextPageFollowed(site: Site, base: string, id: string, cutoff: Date, url: string, budget: nat, page: Page)
    requires DateParser(site.parseDate)
    requires url != "" && budget >= 2 && site.getPage(url) == Some(page)
    requires Scan(site, base, cutoff, Standard, Tab(page, id).rows).Ok?
    requires NextUrl(site, base, Tab(page, id).next).Ok?
    ensures var c := Crawling(site, base, id, cutoff, Standard, url, budget);
      var next := NextUrl(site, base, Tab(page, id).next).value;
      |c.visited| >= 1 && c.visited[0] == url &&
      (|c.visited| >= 2 <==> next != "") &&
      (next != "" ==> c.visited[1] == next)
  {
    var next := NextUrl(site, base, Tab(page, id).next).value;
    var rest := Crawling(site, base, id, cutoff, Standard, next, budget - 1);
    assert PageVisit(site, base, id, cutoff, Standard, url).value.next == next;
    if next != "" {
      assert PageVisit(site, base, id, cutoff, Standard, next).Ok? ==> rest.visited[0] == next;
    }
  }

  /** The `Financial Reports` listing fetches the company page once and only that. */
  lemma FinancialSinglePage(site: Site, base: string, id: string, cutoff: Date, budget: nat)
    requires DateParser(site.parseDate) && base != ""
    ensures Crawling(site, base, id, cutoff, Financial, base, budget).visited ==
      (if budget == 0 then [] else [base])
  {
    if budget > 0 {
      var v := PageVisit(site, base, id, cutoff, Financial, base);
      if v.Ok? {
        AfterNothingLeft(Crawling(site, base, id, cutoff, Financial, "", budget - 1));
      }
    }
  }

  /** The `Financial Reports` listing never consults the static page fetcher. */
  lemma FinancialIgnoresStaticPages(site: Site, base: string, id: string, cutoff: Date, budget: nat,
                                    other: string -> Option<Page>)
    requires DateParser(site.parseDate)
    ensures Crawling(site, base, id, cutoff, Financial, base, budget) ==
      Crawling(site.(getPage := other), base, id, cutoff, Financial, base, budget)
  {
    var alt := site.(getPage := other);
    if base != "" && budget > 0 {
      var page := site.getPageDynamic(base);
      if page.Some? {
        ScanIgnoresStaticPages(site, other, base, cutoff, Financial, BodyRows(Tab(page.value, REPORTS_ID).rows));
      }
      assert PageVisit(site, base, id, cutoff, Financial, base) == PageVisit(alt, base, id, cutoff, Financial, base);
      var v := PageVisit(site, base, id, cutoff, Financial, base);
      if v.Ok? {
        assert Crawling(site, base, id, cutoff, Financial, "", budget - 1) ==
          Crawling(alt, base, id, cutoff, Financial, "", budget - 1);
      }
    }
  }

  lemma {:induction false} ScanIgnoresStaticPages(site: Site, other: string -> Option<Page>, base: string,
                                                  cutoff: Date, mode: Mode, rows: seq<Row>)
    requires DateParser(site.parseDate)
    ensures Scan(site, base, cutoff, mode, rows) == Scan(site.(getPage := other), base, cutoff, mode, rows)
  {
    if rows != [] {
      var alt := site.(getPage := other);
      assert RowStep(site, base, cutoff, mode, rows[0]) == RowStep(alt, base, cutoff, mode, rows[0]);
      ScanIgnoresStaticPages(site, other, base, cutoff, mode, rows[1..]);
    }
  }

  lemma AfterNothingLeft(c: Crawl)
    requires c == Crawl([], Ok([]))
    ensures forall visited, found :: After(visited, found, c) == Crawl(visited, Ok(found))
  {
    forall visited, found ensures After(visited, found, c) == Crawl(visited, Ok(found)) {
      assert visited + [] == visited && found + [] == found;
    }
  }

  /** Every saved entry is dated on or after the cutoff and names where its content came from. */
  lemma {:induction false} CrawlingKept(site: Site, base: string, id: string, cutoff: Date, mode: Mode,
                                        url: string, budget: nat)
    requires DateParser(site.parseDate)
    ensures var c := Crawling(site, base, id, cutoff, mode, url, budget);
      c.outcome.Ok? ==> forall e :: e in c.outcome.value ==> Kept(e, cutoff, mode)
    decreases budget
  {
    if url != "" && budget > 0 {
      var v := PageVisit(site, base, id, cutoff, mode, url);
      CrawlingStep(site, base, id, cutoff, mode, url, budget);
      if v.Ok? {
        PageVisitKept(site, base, id, cutoff, mode, url);
        CrawlingKept(site, base, id, cutoff, mode, v.value.next, budget - 1);
        PrependKept(v.value.entries, Crawling(site, base, id, cutoff, mode, v.value.next, budget - 1).outcome, cutoff, mode);
      }
    }
  }

  lemma PrependKept(found: seq<Entry>, r: Result<seq<Entry>, Error>, cutoff: Date, mode: Mode)
    requires forall e :: e in found ==> Kept(e, cutoff, mode)
    requires r.Ok? ==> forall e :: e in r.value ==> Kept(e, cutoff, mode)
    ensures Prepend(found, r).Ok? ==> forall e :: e in Prepend(found, r).value ==> Kept(e, cutoff, mode)
  {
  }

  /** Every entry one page gives is kept. */
  lemma PageVisitKept(site: Site, base: string, id: string, cutoff: Date, mode: Mode, url: string)
    requires DateParser(site.parseDate)
    ensures var v := PageVisit(site, base, id, cutoff, mode, url);
      v.Ok? ==> forall e :: e in v.value.entries ==> Kept(e, cutoff, mode)
  {
    if PageVisit(site, base, id, cutoff, mode, url).Ok? {
      match mode {
        case Financial =>
          ScanKept(site, base, cutoff, Financial, BodyRows(Tab(site.getPageDynamic(url).value, REPORTS_ID).rows));
        case Standard =>
          ScanKept(site, base, cutoff, Standard, Tab(site.getPage(url).value, id).rows);
      }
    }
  }

  lemma ReportsKept(site: Site, symbol: string, tabName: string, cutoff: Date, budget: nat)
    requires DateParser(site.parseDate)
    ensures var c := ReportsSpec(site, symbol, tabName, cutoff, budget);
      c.outcome.Ok? ==> forall e :: e in c.outcome.value ==> Kept(e, cutoff, ModeOf(tabName))
  {
    CrawlingKept(site, Base(symbol), RemoveChar(tabName, ' '), cutoff, ModeOf(tabName), Base(symbol), budget);
  }

  /** A two-word tab name such as `Financial Results` is looked up by the id without its space. */
  lemma TwoWordTabId(first: string, second: string)
    requires ' ' !in first && ' ' !in second
    ensures RemoveChar(first + " " + second, ' ') == first + second
  {
    var tail := " " + second;
    assert first + " " + second == first + tail;
    RemoveCharAppend(first, tail, ' ');
    RemoveCharAbsent(first, ' ');
    assert tail[0] == ' ' && tail[1..] == second;
    assert RemoveChar(tail, ' ') == RemoveChar(second, ' ');
    RemoveCharAbsent(second, ' ');
  }

  /** A two-word tab name is saved under a file name with an underscore in place of the space. */
  lemma TwoWordReportFile(first: string, second: string)
    requires ' ' !in first && ' ' !in second
    ensures ReplaceChar(first + " " + second, ' ', '_') == first + "_" + second
  {
    var tab := first + " " + second;
    var name := ReplaceChar(tab, ' ', '_');
    var expected := first + "_" + second;
    forall i | 0 <= i < |tab| ensures name[i] == expected[i] {
      if i < |first| {
        assert tab[i] == first[i] && first[i] in first;
      } else if i > |first| {
        assert tab[i] == second[i - |first| - 1] && second[i - |first| - 1] in second;
      }
    }
  }
}
