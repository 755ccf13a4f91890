# ScrapingReforma in Dafny

A Dafny model of `GoogleNewsFeedScraper` from `scrapingReforma.py`. The
script collects Google News RSS results for a query over a date range and
saves them as a CSV file. The range is cut into windows of at most thirty
days. Each window's feed becomes four column lists: `Título`, `Resumo`,
`Link` and `Data`. Two more columns are derived from them: `Veículo`, the
outlet after the last dash of the title, and `Resumo clean`, the text of the
first `<a …>…</a>` in the summary. The six columns are zipped into rows, and
the rows of every window are concatenated in window order.

The model has five modules, one file each:

- `Wrappers` (`wrappers.dfy`): `Option`, `Result`, and `MapAll`. `MapAll`
  applies a fallible function in order and stops at the first failure, which
  is what a Python loop or list comprehension does when it raises.
- `Text` (`text.dfy`): the Python string operations the script uses, on
  Python's `str.isspace` set: `split()`, `join`, `strip()`,
  `split(c)[-1]` and single-character `replace`.
- `Windowing` (`windowing.dfy`): the `date_ranges` loop, with dates as day
  numbers.
- `Fields` (`fields.dfy`): query encoding, the feed URL, the outlet, the
  clean summary (the regular expression `<a [^>]*>(.*?)</a>` with
  `re.search` semantics), and the CSV file name.
- `Scraper` (`scraper.dfy`): entries, columns and rows, and the batch
  pipeline. The pipeline is written as methods that follow the source's
  loops. They are proved equal to the functional reference `RowsOf`: one row
  per entry of the concatenated feeds, or the error of the first entry whose
  summary has no anchor.

The outside world is the `Env` datatype, a record of total functions. It
holds the feed fetch (URL to entries), `strftime` of a day number,
`strptime` of a date bound, the parse-and-reformat of a feed timestamp, and
`maxDay`, the day number of 9999-12-31, the last day a `datetime` can hold.
The methods take it as a parameter.

## Model

| member | source | states |
|---|---|---|
| Windowing.Windows | scrapingReforma.py:61-65 | The window list is empty exactly when `start >= end`. Otherwise it starts at `start` and ends at `end`. `WindowsPartition`, `WindowsGreedy` and `WindowsUnique` show it is the only greedy partition of the range. |
| Windowing.DateRanges | scrapingReforma.py:61-65 | The loop raises `OverflowError` exactly when some window start plus 30 days passes the last representable day. Otherwise it builds exactly the recursive window list. That list partitions `[start, end)` greedily and has `ceil((end - start) / 30)` windows. It is empty when `start >= end`. |
| Windowing.OverflowsAtLast | scrapingReforma.py:62-63 | Because window starts ascend, the loop overflows exactly when the range is non-empty and its last window starts within 30 days of the last representable day. |
| Windowing.LastStartIsLatest | scrapingReforma.py:65 | No window of a partition starts after the last one. |
| Windowing.NearMaxOverflows | scrapingReforma.py:63 | A 56-day range ending on the last representable day overflows: its second window starts 26 days before that day. |
| Windowing.WindowsPartition | scrapingReforma.py:62-65 | The windows cover the range exactly. The first starts at `start`, each starts where the previous ended, and the last ends at `end`. Each window is non-empty, inside the range and at most 30 days long. |
| Windowing.WindowsGreedy | scrapingReforma.py:63 | Every window but the last is a full 30 days: `min` clamps only the final one. |
| Windowing.WindowCount | scrapingReforma.py:62-65 | There are `ceil((end - start) / 30)` windows, or none when `start >= end`. |
| Windowing.WindowsUnique | scrapingReforma.py:62-65 | Any greedy partition of the range equals the loop's output, so those two properties fully specify the windows. |
| Windowing.PartitionTail | scrapingReforma.py:65 | After the first window, the rest is a greedy partition of what remains, starting where the first window ended. |
| Windowing.StartsAscend | scrapingReforma.py:65 | Window starts never decrease along a partition. |
| Windowing.ShortRange | scrapingReforma.py:62-63 | A range of at most 30 days gives one window equal to the range. |
| Windowing.SixtyFiveDays | scrapingReforma.py:62-65 | A 65-day range gives three windows: days 0-30, 30-60 and 60-65. |
| Text.Words | scrapingReforma.py:15 | Every token `split()` yields is non-empty and has no whitespace. |
| Text.WordLength | scrapingReforma.py:15 | A token runs up to the first whitespace character or the end of the string. |
| Text.WordLengthStopsAtSpace | scrapingReforma.py:15 | A token ends at a whitespace character, whatever follows it. |
| Text.WordsSplitAtSpace | scrapingReforma.py:15 | Any whitespace character splits the token list: `Words(a + [c] + b) == Words(a) + Words(b)`. |
| Text.WordsOfWord | scrapingReforma.py:15 | A single non-empty word without whitespace splits to itself. |
| Text.Join | scrapingReforma.py:15 | `sep.join`: a single word joins to itself. `WordsOfJoin` shows that splitting words joined by single spaces gives them back. `JoinNoSpace` shows that joining words with a whitespace-free separator adds no whitespace. |
| Text.WordsOfJoin | scrapingReforma.py:15 | Round trip: splitting words joined by single spaces gives back the words. |
| Text.JoinNoSpace | scrapingReforma.py:15 | Words joined by a separator without whitespace contain no whitespace. |
| Text.TrimStart | scrapingReforma.py:71 | `lstrip` returns a suffix. Everything it removed is whitespace, and the result does not start with whitespace. |
| Text.TrimEnd | scrapingReforma.py:71 | `rstrip` returns a prefix. Everything it removed is whitespace, and the result does not end with whitespace. |
| Text.Strip | scrapingReforma.py:71 | The result has no leading or trailing whitespace. The input is the result with only whitespace added on each side. |
| Text.StripUnique | scrapingReforma.py:71 | Any trimmed string that pads out to `s` with whitespace is `Strip(s)`. |
| Text.PaddedKeepsAbsent | scrapingReforma.py:71 | A character missing from `s` is missing from every string that pads out to `s`. |
| Text.LastSegment | scrapingReforma.py:71 | `split(sep)[-1]` is a suffix without `sep`. It is either the whole string or comes right after a `sep`. |
| Text.LastSegmentAfterSeparator | scrapingReforma.py:71 | For `a + [sep] + b` with no `sep` in `b`, the last segment is `b`, whatever `a` holds. |
| Text.ReplaceChar | scrapingReforma.py:85 | Length is kept. A character changes exactly when it equals the one being replaced. |
| Text.ReplaceCharConcat | scrapingReforma.py:85 | Replacement distributes over concatenation. |
| Text.ReplaceCharAbsent | scrapingReforma.py:85 | Replacing a character that does not occur changes nothing. |
| Fields.EncodeQuery | scrapingReforma.py:15 | The encoded query has no whitespace. |
| Fields.EncodeWords | scrapingReforma.py:15 | A query of words separated by single spaces encodes to those words, in order, joined by `%20`. |
| Fields.EncodeSplitsAtSpace | scrapingReforma.py:15 | Any whitespace character, of any kind, splits the encoded token list at that point. |
| Fields.FeedUrl | scrapingReforma.py:16-19 | The URL starts with the Google News RSS search endpoint. Its body ends the URL with the locale suffix `hl=pt-BR&gl=BR&ceid=BR%3Apt`, as at line 18. |
| Fields.FeedUrlNoSpace | scrapingReforma.py:15-19 | If the date bounds have no whitespace, the URL has none. |
| Fields.Outlet | scrapingReforma.py:71 | The outlet has no `-`, no leading or trailing whitespace, and sits inside the title's last dash-separated segment with only whitespace around it. |
| Fields.OutletAfterLastDash | scrapingReforma.py:71 | The outlet of `headline + "-" + name`, with no dash in `name`, is `name` stripped, whatever the headline holds. |
| Fields.OutletWithoutDash | scrapingReforma.py:71 | A title without a dash gives itself, stripped, as the outlet. |
| Fields.FindChar | scrapingReforma.py:72 | `[^>]*>` consumes input up to the first `>` at or after the given index, or finds none. |
| Fields.LazyClose | scrapingReforma.py:72 | `(.*?)</a>` stops at the first `</a>` reachable without crossing a newline. It fails only if no `</a>` is reachable that way. |
| Fields.MatchAt | scrapingReforma.py:72 | The pattern matches at a position exactly when the anchor predicate holds there. |
| Fields.Search | scrapingReforma.py:72 | `re.search` returns the leftmost match, or none when no position matches. |
| Fields.AnchorUnique | scrapingReforma.py:72 | At a given start the pattern can match in only one way. |
| Fields.FirstAnchorUnique | scrapingReforma.py:72 | There is only one leftmost match. |
| Fields.CleanSummary | scrapingReforma.py:72 | Extraction fails exactly when the pattern matches nowhere. Otherwise it returns the group of the leftmost match. |
| Fields.CleanSummaryOfFirst | scrapingReforma.py:72 | The leftmost match alone decides the result: its group is what is extracted. |
| Fields.CleanSummaryText | scrapingReforma.py:72 | An extracted text has no newline and contains no `</a>`. |
| Fields.AnchorTextHasNoClose | scrapingReforma.py:72 | The group of any match contains no `</a>`. |
| Fields.NoTagNoClean | scrapingReforma.py:72 | A summary without `<` has no anchor, so extraction fails. |
| Fields.CsvName | scrapingReforma.py:84-85 | The file name has no space. Its length is the three parts plus the nine fixed characters. |
| Fields.CsvNameParts | scrapingReforma.py:84-85 | The name is the query and the two dates, each with spaces turned into underscores, joined by `_`, `_to_` and `.csv`. |
| Fields.EncodeQueryExample | scrapingReforma.py:91 | The script's query `reforma tributária` encodes to `reforma%20tributária`. |
| Fields.CsvNameExample | scrapingReforma.py:91-93 | The script's own settings write `reforma_tributária_2019-01-01_to_2023-12-20.csv`. |
| Fields.OutletExample | scrapingReforma.py:71 | `Some Headline - Outlet Name` has outlet `Outlet Name`. |
| Fields.CleanSummaryExample | scrapingReforma.py:72 | `<a href='x'>Clean text</a>` gives `Clean text`. |
| Scraper.Lead | scrapingReforma.py:48 | The lead is the entry's summary when it has one. Otherwise it is the placeholder `Resumo não disponível`. |
| Scraper.PublishedDate | scrapingReforma.py:39-45 | The date column holds the reformatted timestamp when it parses, and the raw timestamp unchanged when it does not. |
| Scraper.RowOf | scrapingReforma.py:29-75 | An entry gives a row exactly when its lead holds an anchor; otherwise it raises on that lead. The row keeps the title, link and raw lead. Its outlet has no dash and no surrounding whitespace. |
| Scraper.RowsOf | scrapingReforma.py:71-76 | A feed gives rows exactly when every lead holds an anchor. The rows are the entries' rows, one per entry, in feed order. Otherwise the error is that of the first entry without an anchor. |
| Scraper.FirstFailureIsBadEntry | scrapingReforma.py:72 | The first failing entry of the row mapping is the first entry whose lead has no anchor. |
| Scraper.RowsOfAppend | scrapingReforma.py:74-76 | Rows of concatenated feeds are the concatenated rows. The first feed's error wins, then the second's. |
| Scraper.MissingSummaryAborts | scrapingReforma.py:48-49 | An entry without a summary gets the placeholder lead. The placeholder has no anchor, so the whole batch raises. |
| Scraper.ScrapeEntries | scrapingReforma.py:28-49 | Each entry adds exactly one value to each of the four columns, in feed order: title, lead (the placeholder when the summary is missing), link and date. |
| Scraper.ScrapeGoogleNewsFeed | scrapingReforma.py:13-53 | The window's columns are those of the feed `env.feed(FeedUrl(query, start, end))`, fetched from the RSS URL of lines 16-20. In the batch loop, `start` and `end` are the window's bounds as `%Y-%m-%d` text (`Env.dayText`). |
| Scraper.CleanLeads | scrapingReforma.py:72 | The clean column holds each lead's extracted text, in order, or the error of the first lead without an anchor. |
| Scraper.AssembleBatch | scrapingReforma.py:71-75 | The batch raises exactly when some lead has no anchor, with the first such lead. Otherwise the rows are the zip of the six columns. |
| Scraper.BatchAgreesOnFailure | scrapingReforma.py:71-75 | When assembly raises on a scraped feed, the reference raises with the same error. |
| Scraper.BatchAgreesOnSuccess | scrapingReforma.py:71-75 | When assembly succeeds on a scraped feed, its rows equal the reference rows. |
| Scraper.FetchWindow | scrapingReforma.py:69-76 | One window's loop body gives the reference result for that window's feed. |
| Scraper.AllEntries | scrapingReforma.py:68-69 | No windows give no entries, and one window gives that window's feed. `AllEntriesAppend`, `AllEntriesStep` and `AllEntriesSplit` show that the feeds concatenate in window order. |
| Scraper.AllEntriesAppend | scrapingReforma.py:68-76 | The feeds of consecutive window lists concatenate. |
| Scraper.AllEntriesStep | scrapingReforma.py:68-69 | Adding a window appends that window's feed. |
| Scraper.AllEntriesSplit | scrapingReforma.py:68-69 | The feeds split around any window. |
| Scraper.CollectStep | scrapingReforma.py:68-76 | A failing window ends the run with its error. A successful one appends its rows. |
| Scraper.RowsOfAbort | scrapingReforma.py:68-76 | A failing feed after successful ones decides the result, whatever comes later. |
| Scraper.FetchAll | scrapingReforma.py:68-78 | `all_data` is the rows of all windows' feeds concatenated in window order, or the first error. |
| Scraper.GetNewsInBatches | scrapingReforma.py:55-78 | An unparsable start date raises, then an unparsable end date. Next, a window start whose `+ 30` days overflows raises before anything is fetched. Otherwise the result is the reference rows over the windows of the parsed range. |
| Scraper.ConvertDataToCsv | scrapingReforma.py:80-87 | A file is produced exactly when both bounds parse, no window start overflows, and collection succeeds. Otherwise the error of `get_news_in_batches` passes through unchanged: the start date's `BadDate`, then the end date's, then `DateOverflow`, then the first lead without an anchor. The file holds the collected rows under the six-column header, and its name is the space-free CSV name. |
| Wrappers.MapAll | scrapingReforma.py:72 | Mapping succeeds exactly when every element succeeds, and then gives the values in order. Otherwise it gives the first failure. |
| Wrappers.FirstFailureUnique | scrapingReforma.py:72 | The first failure is unique. |
| Wrappers.MapAllAppend | scrapingReforma.py:74-75 | Mapping a concatenation: a failure in the first part wins, then one in the second part. Otherwise the values concatenate. |
| Wrappers.MapAllAllSucceed | scrapingReforma.py:72 | When every element maps to a success, the result is exactly those values. |

## Left out

- The HTTP fetch and `feedparser.parse` (line 20): network I/O. The feed is `Env.feed`, a function from URL to a sequence of entries. An entry's `summary` is an `Option` for the `'summary' in entry` test.
- `datetime.strptime` and `strftime` (lines 41-44, 57-58, 64): calendar parsing and formatting. Dates are day numbers. The bounds are parsed by `Env.parseDay`, windows are printed by `Env.dayText`, and feed timestamps are reformatted by `Env.parsePublished`. `+ timedelta(days=30)` is `+ 30` because every value is a midnight. Its `OverflowError` past 9999-12-31 is modelled through `Env.maxDay`. The model does not assume that `Env.parseDay` stays within that bound.
- The `ValueError` handler (lines 40-44) is modelled only as "parse returned nothing". The exact `%a, %d %b %Y %H:%M:%S %Z` format is not modelled.
- `tqdm` (line 68), the pandas DataFrame, `to_csv` with the `utf-8-sig` BOM, and `print` (lines 82, 86-87): progress display and file output. `ConvertDataToCsv` returns the file name, header and rows it would write.
- The `__main__` block (lines 90-96) is not a member. Its constants appear only in `EncodeQueryExample` and `CsvNameExample`.
- Python regular expressions in general: only the one pattern `<a [^>]*>(.*?)</a>` is modelled, without flags.
- Unicode beyond code points: whitespace is the fixed set of code points that `str.isspace` accepts. There is no normalisation or case folding.
- Scraper.GetNewsInBatches, Scraper.ConvertDataToCsv: `entry.title`, `entry.link` and `entry.published` (lines 31, 35, 39) raise `AttributeError` when the feed entry lacks them. `Entry` makes them always present, so that error path is not modelled.
- The `if feed.entries:` test (line 28): an empty entry list makes the loop do nothing either way.
- `zip` truncation (line 75): `ZipLength` is the shortest column. The scraped columns always have equal length (`ScrapeEntries`), so nothing is dropped.
- Fields.FeedUrl: the contract states only the endpoint prefix and, through `FeedUrlNoSpace`, the absence of whitespace. The rest of the URL is given by the body.
- Fields.EncodeQuery: the contract states only that the result has no whitespace. The link to the query's tokens is in `EncodeWords` and `EncodeSplitsAtSpace`.
