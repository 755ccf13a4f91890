/** `GoogleNewsFeedScraper` (scrapingReforma.py): per window, the feed's
    entries become four column lists, the outlet and clean-summary columns
    are derived from them, the six columns are zipped into rows, and the rows
    of all windows are concatenated in window order.

    The methods follow the shape of `scrapingReforma.py` (column lists, loops, early abort);
    `RowsOf` is the reference they are proved against: one row per entry of
    the concatenated feeds, or the first entry's error. */
module Scraper {
  import opened Wrappers
  import opened Text
  import opened Fields
  import opened Windowing

  /** A feed entry as the feed parser exposes it; `summary` is `None` when
      the entry has no `summary` key. */
  datatype Entry = Entry(title: string, link: string, published: string, summary: Option<string>)

  /** The dictionary `scrape_google_news_feed` returns: the columns
      `Título`, `Resumo`, `Link` and `Data`. */
  datatype Columns = Columns(titles: seq<string>, leads: seq<string>, links: seq<string>, dates: seq<string>)

  /** One zipped tuple: `Título`, `Veículo`, `Resumo clean`, `Resumo`,
      `Link`, `Data`. */
  datatype Row = Row(title: string, outlet: string, summary: string, rawSummary: string, link: string, date: string)

  /** What aborts a run: a date bound `strptime` rejects, a window start
      whose `+ timedelta(days=30)` passes the last representable day
      (`OverflowError`), or a summary in which the anchor pattern finds
      nothing (`.group` on `None`). */
  datatype Error = BadDate(text: string) | DateOverflow | NoAnchor(summary: string)

  /** The outside world, as total functions:
      - `feed`: RSS search URL to the entries the feed parser returns;
      - `dayText`: day number to its `"%Y-%m-%d"` text (`strftime`);
      - `parseDay`: `"%Y-%m-%d"` text to a day number (`strptime`);
      - `parsePublished`: a feed timestamp to its `"%Y-%m-%d"` form when it
        matches `"%a, %d %b %Y %H:%M:%S %Z"`;
      - `maxDay`: the day number of 9999-12-31, the last day a `datetime`
        can hold. */
  datatype Env = Env(
    feed: string -> seq<Entry>,
    dayText: int -> string,
    parseDay: string -> Option<int>,
    parsePublished: string -> Option<string>,
    maxDay: int)

  /** The scraper's configuration: the query and the two date bounds as text. */
  datatype Scraper = Scraper(query: string, startDate: string, endDate: string)

  const SummaryPlaceholder := "Resumo não disponível"

  /** The CSV header, in the order of the zipped tuple. */
  const Header := ["Título", "Veículo", "Resumo", "Resumo bruto", "Link", "Data"]

  // ------------------------------------------------------------ entries

  /** The lead of an entry: its summary, or the placeholder when it has none. */
  function Lead(e: Entry): (r: string)
    ensures e.summary.Some? ==> r == e.summary.value
    ensures e.summary.None? ==> r == SummaryPlaceholder
  {
    match e.summary
    case Some(s) => s
    case None => SummaryPlaceholder
  }

  /** The publication date column: reformatted when the timestamp parses,
      the raw timestamp unchanged when it does not. */
  function PublishedDate(parsePublished: string -> Option<string>, raw: string): (r: string)
    ensures parsePublished(raw).Some? ==> r == parsePublished(raw).value
    ensures parsePublished(raw).None? ==> r == raw
  {
    match parsePublished(raw)
    case Some(d) => d
    case None => raw
  }

  /** The row one entry becomes, or the error it raises. */
  function RowOf(parsePublished: string -> Option<string>, e: Entry): (r: Result<Row, Error>)
    ensures r.Success? <==> CleanSummary(Lead(e)).Some?
    ensures r.Failure? ==> r.error == NoAnchor(Lead(e))
    ensures r.Success? ==> r.value.title == e.title && r.value.link == e.link && r.value.rawSummary == Lead(e)
    ensures r.Success? ==> '-' !in r.value.outlet && Trimmed(r.value.outlet)
  {
    var lead := Lead(e);
    match CleanSummary(lead)
    case None => Failure(NoAnchor(lead))
    case Some(clean) =>
      Success(Row(e.title, Outlet(e.title), clean, lead, e.link, PublishedDate(parsePublished, e.published)))
  }

  /** `k` is the first entry whose lead holds no anchor. */
  ghost predicate FirstBadEntry(es: seq<Entry>, k: int) {
    0 <= k < |es| && CleanSummary(Lead(es[k])).None? &&
    forall j :: 0 <= j < k ==> CleanSummary(Lead(es[j])).Some?
  }

  /** Reference: every entry's row in feed order, or the error of the first
      entry whose summary holds no anchor. */
  function RowsOf(parsePublished: string -> Option<string>, es: seq<Entry>): (r: Result<seq<Row>, Error>)
    ensures r.Success? <==> forall i :: 0 <= i < |es| ==> CleanSummary(Lead(es[i])).Some?
    ensures r.Success? ==> |r.value| == |es| &&
                           forall i :: 0 <= i < |es| ==> Success(r.value[i]) == RowOf(parsePublished, es[i])
    ensures r.Failure? ==> exists k :: FirstBadEntry(es, k) && r.error == NoAnchor(Lead(es[k]))
  {
    var f := e => RowOf(parsePublished, e);
    var r := MapAll(f, es);
    assert r.Failure? ==> exists k :: FirstBadEntry(es, k) && r.error == NoAnchor(Lead(es[k])) by {
      if r.Failure? {
        var k :| FirstFailure(f, es, k) && r.error == f(es[k]).error;
        FirstFailureIsBadEntry(parsePublished, f, es, k);
      }
    }
    r
  }

  /** Where `f` computes rows, its first failure is the first bad entry. */
  lemma FirstFailureIsBadEntry(parsePublished: string -> Option<string>, f: Entry -> Result<Row, Error>,
                               es: seq<Entry>, k: int)
    requires forall e :: f(e) == RowOf(parsePublished, e)
    requires FirstFailure(f, es, k)
    ensures FirstBadEntry(es, k)
  {
  }

  /** Rows of concatenated feeds are the concatenated rows; the first error
      wins. */
  lemma RowsOfAppend(parsePublished: string -> Option<string>, a: seq<Entry>, b: seq<Entry>)
    ensures RowsOf(parsePublished, a).Failure? ==> RowsOf(parsePublished, a + b) == RowsOf(parsePublished, a)
    ensures RowsOf(parsePublished, a).Success? && RowsOf(parsePublished, b).Failure? ==>
              RowsOf(parsePublished, a + b) == RowsOf(parsePublished, b)
    ensures RowsOf(parsePublished, a).Success? && RowsOf(parsePublished, b).Success? ==>
              RowsOf(parsePublished, a + b) == Success(RowsOf(parsePublished, a).value + RowsOf(parsePublished, b).value)
  {
    MapAllAppend(e => RowOf(parsePublished, e), a, b);
  }

  /** An entry without a summary gets the placeholder lead, which holds no
      anchor, so the whole batch aborts. */
  lemma MissingSummaryAborts(parsePublished: string -> Option<string>, es: seq<Entry>, i: int)
    requires 0 <= i < |es| && es[i].summary.None?
    ensures RowsOf(parsePublished, es).Failure?
  {
    NoTagNoClean(SummaryPlaceholder);
  }

  // ------------------------------------------------------------ columns

  /** The columns hold, index for index, the fields of `es`. */
  ghost predicate ScrapedFrom(cols: Columns, es: seq<Entry>, parsePublished: string -> Option<string>) {
    |cols.titles| == |es| && |cols.leads| == |es| && |cols.links| == |es| && |cols.dates| == |es| &&
    forall i :: 0 <= i < |es| ==>
      cols.titles[i] == es[i].title && cols.leads[i] == Lead(es[i]) &&
      cols.links[i] == es[i].link && cols.dates[i] == PublishedDate(parsePublished, es[i].published)
  }

  /** The `for entry in feed.entries` loop of `scrape_google_news_feed`:
      one value per entry appended to each of the four lists. */
  method ScrapeEntries(entries: seq<Entry>, parsePublished: string -> Option<string>) returns (cols: Columns)
    ensures ScrapedFrom(cols, entries, parsePublished)
  {
    var titles, leads, links, dates := [], [], [], [];
    var i := 0;
    while i < |entries|
      invariant 0 <= i <= |entries|
      invariant |titles| == i && |leads| == i && |links| == i && |dates| == i
      invariant forall j :: 0 <= j < i ==>
                  titles[j] == entries[j].title && leads[j] == Lead(entries[j]) &&
                  links[j] == entries[j].link && dates[j] == PublishedDate(parsePublished, entries[j].published)
    {
      var entry := entries[i];
      titles := titles + [entry.title];
      links := links + [entry.link];
      dates := dates + [PublishedDate(parsePublished, entry.published)];
      leads := leads + [Lead(entry)];
      i := i + 1;
    }
    cols := Columns(titles, leads, links, dates);
  }

  /** `scrape_google_news_feed(start, end)`: fetch the window's feed and
      collect its columns. */
  method ScrapeGoogleNewsFeed(env: Env, query: string, start: string, end: string) returns (cols: Columns)
    ensures ScrapedFrom(cols, env.feed(FeedUrl(query, start, end)), env.parsePublished)
  {
    var entries := env.feed(FeedUrl(query, start, end));
    cols := ScrapeEntries(entries, env.parsePublished);
  }

  /** Number of tuples `zip` yields over the six columns. */
  function ZipLength(cols: Columns): nat {
    Min(Min(|cols.titles|, |cols.leads|), Min(|cols.links|, |cols.dates|))
  }

  /** `rows` is the `zip` of the six columns, `Veículo` and `Resumo clean`
      derived from `Título` and `Resumo`. */
  ghost predicate Zipped(cols: Columns, rows: seq<Row>) {
    |rows| == ZipLength(cols) &&
    forall i :: 0 <= i < |rows| ==>
      CleanSummary(cols.leads[i]).Some? &&
      rows[i] == Row(cols.titles[i], Outlet(cols.titles[i]), CleanSummary(cols.leads[i]).value,
                     cols.leads[i], cols.links[i], cols.dates[i])
  }

  /** `k` is the first lead in which the anchor pattern finds nothing. */
  ghost predicate FirstWithoutAnchor(leads: seq<string>, k: int) {
    0 <= k < |leads| && CleanSummary(leads[k]).None? &&
    forall j :: 0 <= j < k ==> CleanSummary(leads[j]).Some?
  }

  /** `[re.search(...).group(1) for s in df['Resumo bruto']]`: the clean
      summary of every lead, raising at the first lead without an anchor. */
  method CleanLeads(leads: seq<string>) returns (r: Result<seq<string>, Error>)
    ensures r.Failure? ==> exists k :: FirstWithoutAnchor(leads, k) && r.error == NoAnchor(leads[k])
    ensures r.Success? ==> |r.value| == |leads| &&
                           forall j :: 0 <= j < |leads| ==> CleanSummary(leads[j]) == Some(r.value[j])
  {
    var cleans: seq<string> := [];
    var i := 0;
    while i < |leads|
      invariant 0 <= i <= |leads| && |cleans| == i
      invariant forall j :: 0 <= j < i ==> CleanSummary(leads[j]) == Some(cleans[j])
    {
      match CleanSummary(leads[i])
      case None =>
        assert FirstWithoutAnchor(leads, i);
        r := Failure(NoAnchor(leads[i]));
        return;
      case Some(text) =>
        cleans := cleans + [text];
      i := i + 1;
    }
    r := Success(cleans);
  }

  /** The body of the batch loop after the fetch: derive `Veículo` from every
      title and `Resumo clean` from every lead (raising at the first lead
      without an anchor), then zip the six columns. */
  method AssembleBatch(cols: Columns) returns (r: Result<seq<Row>, Error>)
    ensures r.Failure? <==> exists k :: 0 <= k < |cols.leads| && CleanSummary(cols.leads[k]).None?
    ensures r.Failure? ==> exists k :: FirstWithoutAnchor(cols.leads, k) && r.error == NoAnchor(cols.leads[k])
    ensures r.Success? ==> Zipped(cols, r.value)
  {
    var outlets := seq(|cols.titles|, i requires 0 <= i < |cols.titles| => Outlet(cols.titles[i]));
    var cleaned := CleanLeads(cols.leads);
    if cleaned.Failure? {
      r := Failure(cleaned.error);
      return;
    }
    var cleans := cleaned.value;
    var n := ZipLength(cols);
    var rows := seq(n, k requires 0 <= k < n =>
      Row(cols.titles[k], outlets[k], cleans[k], cols.leads[k], cols.links[k], cols.dates[k]));
    assert Zipped(cols, rows);
    r := Success(rows);
  }

  /** Column-wise assembly of a scraped feed agrees with the row-per-entry
      reference when it aborts. */
  lemma BatchAgreesOnFailure(cols: Columns, es: seq<Entry>, parsePublished: string -> Option<string>, k: int)
    requires ScrapedFrom(cols, es, parsePublished)
    requires FirstWithoutAnchor(cols.leads, k)
    ensures RowsOf(parsePublished, es) == Failure(NoAnchor(cols.leads[k]))
  {
    var ref := RowsOf(parsePublished, es);
    assert FirstBadEntry(es, k);
    assert ref.Failure?;
    var k' :| FirstBadEntry(es, k') && ref.error == NoAnchor(Lead(es[k']));
    assert k == k';
  }

  /** Column-wise assembly of a scraped feed agrees with the row-per-entry
      reference when it succeeds. */
  lemma BatchAgreesOnSuccess(cols: Columns, es: seq<Entry>, parsePublished: string -> Option<string>, rows: seq<Row>)
    requires ScrapedFrom(cols, es, parsePublished)
    requires Zipped(cols, rows)
    ensures RowsOf(parsePublished, es) == Success(rows)
  {
    var ref := RowsOf(parsePublished, es);
    assert ref.Success?;
    assert rows == ref.value;
  }

  // ------------------------------------------------------------ batches

  /** The entries fetched for one window. */
  function Fetch(env: Env, query: string, w: Window): seq<Entry> {
    env.feed(FeedUrl(query, env.dayText(w.start), env.dayText(w.end)))
  }

  /** The feeds of all windows, concatenated in window order. */
  function AllEntries(env: Env, query: string, ws: seq<Window>): (r: seq<Entry>)
    ensures ws == [] ==> r == []
    ensures |ws| == 1 ==> r == Fetch(env, query, ws[0])
  {
    if ws == [] then [] else AllEntries(env, query, ws[..|ws| - 1]) + Fetch(env, query, ws[|ws| - 1])
  }

  lemma {:induction false} AllEntriesAppend(env: Env, query: string, a: seq<Window>, b: seq<Window>)
    ensures AllEntries(env, query, a + b) == AllEntries(env, query, a) + AllEntries(env, query, b)
    decreases |b|
  {
    if b == [] {
      assert a + b == a;
    } else {
      var m := |b| - 1;
      assert (a + b)[..|a + b| - 1] == a + b[..m];
      assert (a + b)[|a + b| - 1] == b[m];
      AllEntriesAppend(env, query, a, b[..m]);
    }
  }

  /** One iteration of the batch loop: fetch the window's feed, build its
      columns, derive and zip. */
  method FetchWindow(env: Env, query: string, w: Window) returns (batch: Result<seq<Row>, Error>)
    ensures batch == RowsOf(env.parsePublished, Fetch(env, query, w))
  {
    var cols := ScrapeGoogleNewsFeed(env, query, env.dayText(w.start), env.dayText(w.end));
    batch := AssembleBatch(cols);
    if batch.Failure? {
      ghost var k :| FirstWithoutAnchor(cols.leads, k) && batch.error == NoAnchor(cols.leads[k]);
      BatchAgreesOnFailure(cols, Fetch(env, query, w), env.parsePublished, k);
    } else {
      BatchAgreesOnSuccess(cols, Fetch(env, query, w), env.parsePublished, batch.value);
    }
  }

  /** The feeds of the first `i + 1` windows are those of the first `i`
      followed by window `i`'s. */
  lemma AllEntriesStep(env: Env, query: string, ranges: seq<Window>, i: int)
    requires 0 <= i < |ranges|
    ensures AllEntries(env, query, ranges[..i + 1]) == AllEntries(env, query, ranges[..i]) + Fetch(env, query, ranges[i])
  {
    assert ranges[..i + 1][..i] == ranges[..i];
  }

  /** The feeds of all windows split at `i + 1`. */
  lemma AllEntriesSplit(env: Env, query: string, ranges: seq<Window>, i: int)
    requires 0 <= i < |ranges|
    ensures AllEntries(env, query, ranges) ==
            AllEntries(env, query, ranges[..i]) + Fetch(env, query, ranges[i]) + AllEntries(env, query, ranges[i + 1..])
  {
    assert ranges == ranges[..i + 1] + ranges[i + 1..];
    AllEntriesAppend(env, query, ranges[..i + 1], ranges[i + 1..]);
    AllEntriesStep(env, query, ranges, i);
  }

  /** What one more window does to the collected rows: an error ends the
      whole run with that error, rows are appended. */
  lemma CollectStep(env: Env, query: string, ranges: seq<Window>, i: int, all: seq<Row>, batch: Result<seq<Row>, Error>)
    requires 0 <= i < |ranges|
    requires RowsOf(env.parsePublished, AllEntries(env, query, ranges[..i])) == Success(all)
    requires batch == RowsOf(env.parsePublished, Fetch(env, query, ranges[i]))
    ensures batch.Failure? ==> RowsOf(env.parsePublished, AllEntries(env, query, ranges)) == Failure(batch.error)
    ensures batch.Success? ==> RowsOf(env.parsePublished, AllEntries(env, query, ranges[..i + 1])) == Success(all + batch.value)
  {
    var done := AllEntries(env, query, ranges[..i]);
    var entries := Fetch(env, query, ranges[i]);
    if batch.Failure? {
      AllEntriesSplit(env, query, ranges, i);
      RowsOfAbort(env.parsePublished, done, entries, AllEntries(env, query, ranges[i + 1..]));
    } else {
      AllEntriesStep(env, query, ranges, i);
      RowsOfAppend(env.parsePublished, done, entries);
    }
  }

  /** A failing feed aborts everything after a successful prefix. */
  lemma RowsOfAbort(parsePublished: string -> Option<string>, done: seq<Entry>, entries: seq<Entry>, rest: seq<Entry>)
    requires RowsOf(parsePublished, done).Success? && RowsOf(parsePublished, entries).Failure?
    ensures RowsOf(parsePublished, done + entries + rest) == RowsOf(parsePublished, entries)
  {
    RowsOfAppend(parsePublished, done, entries);
    RowsOfAppend(parsePublished, done + entries, rest);
  }

  /** The `for start_date, end_date in date_ranges` loop: extend `all_data`
      with each window's rows, in window order; the first error aborts. */
  method FetchAll(env: Env, query: string, ranges: seq<Window>) returns (r: Result<seq<Row>, Error>)
    ensures r == RowsOf(env.parsePublished, AllEntries(env, query, ranges))
  {
    var all: seq<Row> := [];
    var i := 0;
    while i < |ranges|
      invariant 0 <= i <= |ranges|
      invariant RowsOf(env.parsePublished, AllEntries(env, query, ranges[..i])) == Success(all)
    {
      var batch := FetchWindow(env, query, ranges[i]);
      CollectStep(env, query, ranges, i, all, batch);
      if batch.Failure? {
        return Failure(batch.error);
      }
      all := all + batch.value;
      i := i + 1;
    }
    assert ranges[..|ranges|] == ranges;
    r := Success(all);
  }

  /** `get_news_in_batches`: parse the two date bounds, cut the range into
      windows, and collect every window's rows. An overflowing window start
      raises while `date_ranges` is built, before anything is fetched. */
  method GetNewsInBatches(env: Env, s: Scraper) returns (r: Result<seq<Row>, Error>)
    ensures env.parseDay(s.startDate).None? ==> r == Failure(BadDate(s.startDate))
    ensures env.parseDay(s.startDate).Some? && env.parseDay(s.endDate).None? ==> r == Failure(BadDate(s.endDate))
    ensures env.parseDay(s.startDate).Some? && env.parseDay(s.endDate).Some? ==>
      var start, end := env.parseDay(s.startDate).value, env.parseDay(s.endDate).value;
      if Overflows(start, end, env.maxDay) then r == Failure(DateOverflow)
      else r == RowsOf(env.parsePublished, AllEntries(env, s.query, Windows(start, end)))
  {
    var start := env.parseDay(s.startDate);
    if start.None? {
      return Failure(BadDate(s.startDate));
    }
    var end := env.parseDay(s.endDate);
    if end.None? {
      return Failure(BadDate(s.endDate));
    }
    var ranges := DateRanges(start.value, end.value, env.maxDay);
    if ranges.None? {
      return Failure(DateOverflow);
    }
    r := FetchAll(env, s.query, ranges.value);
  }

  /** The rows a run collects once both bounds parse and no window
      overflows. */
  ghost function Collected(env: Env, s: Scraper): Result<seq<Row>, Error>
    requires env.parseDay(s.startDate).Some? && env.parseDay(s.endDate).Some?
  {
    RowsOf(env.parsePublished,
           AllEntries(env, s.query, Windows(env.parseDay(s.startDate).value, env.parseDay(s.endDate).value)))
  }

  // ---------------------------------------------------------------- csv

  /** The table `convert_data_to_csv` writes, with its file name. */
  datatype CsvFile = CsvFile(name: string, header: seq<string>, rows: seq<Row>)

  /** `convert_data_to_csv` up to the write: either the file it would save,
      or the error that aborts the run before anything is saved. */
  method ConvertDataToCsv(env: Env, s: Scraper) returns (r: Result<CsvFile, Error>)
    ensures r.Success? ==> r.value.name == CsvName(s.query, s.startDate, s.endDate) &&
                           r.value.header == Header && ' ' !in r.value.name
    ensures r.Success? <==> (env.parseDay(s.startDate).Some? && env.parseDay(s.endDate).Some? &&
      !Overflows(env.parseDay(s.startDate).value, env.parseDay(s.endDate).value, env.maxDay) &&
      Collected(env, s).Success?)
    ensures env.parseDay(s.startDate).None? ==> r == Failure(BadDate(s.startDate))
    ensures env.parseDay(s.startDate).Some? && env.parseDay(s.endDate).None? ==> r == Failure(BadDate(s.endDate))
    ensures env.parseDay(s.startDate).Some? && env.parseDay(s.endDate).Some? ==>
      if Overflows(env.parseDay(s.startDate).value, env.parseDay(s.endDate).value, env.maxDay) then
        r == Failure(DateOverflow)
      else if Collected(env, s).Failure? then
        r == Failure(Collected(env, s).error)
      else
        r == Success(CsvFile(CsvName(s.query, s.startDate, s.endDate), Header, Collected(env, s).value))
  {
    var all := GetNewsInBatches(env, s);
    if all.Failure? {
      return Failure(all.error);
    }
    r := Success(CsvFile(CsvName(s.query, s.startDate, s.endDate), Header, all.value));
  }
}
