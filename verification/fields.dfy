/** The per-field normalisations of the scraper: query encoding and the feed
    URL (scrapingReforma.py, `scrape_google_news_feed`), the outlet and clean
    summary derived from each entry (`get_news_in_batches`), and the CSV file
    name (`convert_data_to_csv`). */
module Fields {
  import opened Wrappers
  import opened Text

  // ------------------------------------------------------------- query

  const QuerySeparator := "%20"

  /** `'%20'.join(query.split())`. */
  function EncodeQuery(query: string): (r: string)
    ensures NoSpace(r)
  {
    JoinNoSpace(Words(query), QuerySeparator);
    Join(Words(query), QuerySeparator)
  }

  /** The encoded query is the query's words, in order, separated by `%20`:
      a query written as words separated by single spaces encodes to those
      words joined by `%20`. */
  lemma EncodeWords(ws: seq<string>)
    requires AllWords(ws)
    ensures EncodeQuery(Join(ws, " ")) == Join(ws, QuerySeparator)
  {
    WordsOfJoin(ws);
  }

  /** Any whitespace character splits the query at that point, whichever
      character it is and however many surround it. */
  lemma EncodeSplitsAtSpace(a: string, c: char, b: string)
    requires IsSpace(c)
    ensures EncodeQuery(a + [c] + b) == Join(Words(a) + Words(b), QuerySeparator)
  {
    WordsSplitAtSpace(a, c, b);
  }

  const FeedEndpoint := "https://news.google.com/rss/search?q="
  const FeedLocale := "&hl=pt-BR&gl=BR&ceid=BR%3Apt"

  /** The RSS search URL for one window, with `after:`/`before:` date bounds. */
  function FeedUrl(query: string, after: string, before: string): (url: string)
    ensures |url| >= |FeedEndpoint| && url[..|FeedEndpoint|] == FeedEndpoint
  {
    var rest := EncodeQuery(query) + "+after:" + after + "+before:" + before + FeedLocale;
    assert (FeedEndpoint + rest)[..|FeedEndpoint|] == FeedEndpoint;
    FeedEndpoint + rest
  }

  /** The fixed parts of the URL hold no whitespace. */
  lemma EndpointNoSpace()
    ensures NoSpace(FeedEndpoint)
  {
  }

  lemma LocaleNoSpace()
    ensures NoSpace(FeedLocale)
  {
  }

  /** With whitespace-free date bounds the URL has no whitespace at all: the
      query's whitespace is the only whitespace that could reach it, and the
      encoding removes it. */
  lemma FeedUrlNoSpace(query: string, after: string, before: string)
    requires NoSpace(after) && NoSpace(before)
    ensures NoSpace(FeedUrl(query, after, before))
  {
    EndpointNoSpace();
    LocaleNoSpace();
    var q := EncodeQuery(query);
    var s1 := q + "+after:";
    NoSpaceAppend(q, "+after:");
    var s2 := s1 + after;
    NoSpaceAppend(s1, after);
    var s3 := s2 + "+before:";
    NoSpaceAppend(s2, "+before:");
    var s4 := s3 + before;
    NoSpaceAppend(s3, before);
    var s5 := s4 + FeedLocale;
    NoSpaceAppend(s4, FeedLocale);
    NoSpaceAppend(FeedEndpoint, s5);
  }

  // ------------------------------------------------------------ outlet

  /** `title.split("-")[-1].strip()`: the outlet name a Google News title
      carries after its last dash. */
  function Outlet(title: string): (r: string)
    ensures '-' !in r
    ensures Trimmed(r)
    ensures exists i :: Padded(LastSegment(title, '-'), i, r)
  {
    var seg := LastSegment(title, '-');
    var r := Strip(seg);
    PaddedKeepsAbsent(seg, r, '-');
    r
  }

  /** The outlet is the trimmed text after the title's last dash, whatever
      comes before it (including further dashes). */
  lemma OutletAfterLastDash(headline: string, name: string)
    requires '-' !in name
    ensures Outlet(headline + "-" + name) == Strip(name)
  {
    LastSegmentAfterSeparator(headline, '-', name);
  }

  /** A title without any dash is its own outlet, trimmed. */
  lemma OutletWithoutDash(title: string)
    requires '-' !in title
    ensures Outlet(title) == Strip(title)
  {
    var seg := LastSegment(title, '-');
    assert forall j :: 0 <= j < |title| ==> title[j] != '-';
    assert seg == title;
  }

  // ----------------------------------------------------- clean summary

  const AnchorOpen := "<a "
  const AnchorClose := "</a>"

  /** No newline in `s[from..to]`, so `.` can consume it. */
  ghost predicate LineFree(s: string, from: int, to: int)
    requires 0 <= from <= to <= |s|
  {
    forall k :: from <= k < to ==> s[k] != '\n'
  }

  /** The pattern `<a [^>]*>(.*?)</a>` matches `s` at `p`: the opening tag
      runs to its first `>` at `g`, the group is `s[g+1..e]`, and `e` is the
      first `</a>` after `g` (the lazy group is as short as possible); the
      group never spans a newline. */
  ghost predicate AnchorAt(s: string, p: int, g: int, e: int) {
    OccursAt(s, p, AnchorOpen) && p + |AnchorOpen| <= g < e && OccursAt(s, e, AnchorClose) &&
    s[g] == '>' && (forall k :: p + |AnchorOpen| <= k < g ==> s[k] != '>') &&
    LineFree(s, g + 1, e) &&
    (forall k :: g < k < e ==> !OccursAt(s, k, AnchorClose))
  }

  /** The match `re.search` reports: the leftmost position where the pattern
      matches. */
  ghost predicate FirstAnchor(s: string, p: int, g: int, e: int) {
    AnchorAt(s, p, g, e) && forall p', g', e' :: 0 <= p' < p ==> !AnchorAt(s, p', g', e')
  }

  /** At a given start the pattern can match in only one way. */
  lemma AnchorUnique(s: string, p: int, g: int, e: int, g': int, e': int)
    requires AnchorAt(s, p, g, e) && AnchorAt(s, p, g', e')
    ensures g == g' && e == e'
  {
  }

  /** First index at or after `i` holding `c`: how `[^>]*>` consumes input. */
  function FindChar(s: string, i: nat, c: char): (r: Option<nat>)
    requires i <= |s|
    ensures r.Some? ==> i <= r.value < |s| && s[r.value] == c &&
                        forall k :: i <= k < r.value ==> s[k] != c
    ensures r.None? ==> forall k :: i <= k < |s| ==> s[k] != c
    decreases |s| - i
  {
    if i == |s| then None
    else if s[i] == c then Some(i)
    else FindChar(s, i + 1, c)
  }

  /** How `(.*?)</a>` proceeds from `q`: try `</a>` here, otherwise let `.`
      consume one non-newline character and try again. */
  function LazyClose(s: string, q: nat): (r: Option<nat>)
    requires q <= |s|
    ensures r.Some? ==> q <= r.value && OccursAt(s, r.value, AnchorClose) && LineFree(s, q, r.value) &&
                        forall k :: q <= k < r.value ==> !OccursAt(s, k, AnchorClose)
    ensures r.None? ==> forall e :: q <= e <= |s| && OccursAt(s, e, AnchorClose) ==> !LineFree(s, q, e)
    decreases |s| - q
  {
    if OccursAt(s, q, AnchorClose) then Some(q)
    else if q == |s| || s[q] == '\n' then None
    else
      var r := LazyClose(s, q + 1);
      assert r.None? ==> forall e :: q <= e <= |s| && OccursAt(s, e, AnchorClose) ==> !LineFree(s, q, e) by {
        if r.None? {
          forall e | q <= e <= |s| && OccursAt(s, e, AnchorClose) ensures !LineFree(s, q, e) {
            if e > q {
              assert !LineFree(s, q + 1, e);
            }
          }
        }
      }
      r
  }

  /** Where the pattern matches at `p`, as (end of opening tag, start of
      closing tag). */
  function MatchAt(s: string, p: nat): (r: Option<(nat, nat)>)
    requires p <= |s|
    ensures r.Some? ==> AnchorAt(s, p, r.value.0, r.value.1)
    ensures r.None? ==> forall g, e :: !AnchorAt(s, p, g, e)
  {
    if !OccursAt(s, p, AnchorOpen) then None
    else
      match FindChar(s, p + |AnchorOpen|, '>')
      case None => None
      case Some(g) =>
        match LazyClose(s, g + 1)
        case None => None
        case Some(e) => Some((g, e))
  }

  /** A match of the anchor pattern: start, end of opening tag, start of
      closing tag. */
  datatype Anchor = Anchor(start: nat, tagEnd: nat, close: nat)

  /** `re.search` from `i` onwards: try each start position in turn. */
  function Search(s: string, i: nat): (r: Option<Anchor>)
    requires i <= |s|
    ensures r.Some? ==> i <= r.value.start && AnchorAt(s, r.value.start, r.value.tagEnd, r.value.close) &&
                        forall p, g, e :: i <= p < r.value.start ==> !AnchorAt(s, p, g, e)
    ensures r.None? ==> forall p, g, e :: i <= p ==> !AnchorAt(s, p, g, e)
    decreases |s| - i
  {
    if i == |s| then None
    else
      match MatchAt(s, i)
      case Some((g, e)) => Some(Anchor(i, g, e))
      case None => Search(s, i + 1)
  }

  /** `re.search(r'<a [^>]*>(.*?)</a>', summary).group(1)`; `None` is the
      case where `re.search` returns `None` and `.group` raises. */
  function CleanSummary(summary: string): (r: Option<string>)
    ensures r.None? <==> forall p, g, e :: !AnchorAt(summary, p, g, e)
    ensures r.Some? ==> exists p, g, e :: FirstAnchor(summary, p, g, e) && r.value == summary[g + 1..e]
  {
    match Search(summary, 0)
    case None => None
    case Some(m) =>
      var text := summary[m.tagEnd + 1..m.close];
      assert FirstAnchor(summary, m.start, m.tagEnd, m.close);
      Some(text)
  }

  /** The leftmost match alone decides the result: whatever anchor comes
      first, its group is what is extracted. */
  lemma CleanSummaryOfFirst(s: string, p: int, g: int, e: int)
    requires FirstAnchor(s, p, g, e)
    ensures CleanSummary(s) == Some(s[g + 1..e])
  {
    var m := Search(s, 0);
    assert m.Some? by {
      assert AnchorAt(s, p, g, e);
    }
    var a := m.value;
    assert FirstAnchor(s, a.start, a.tagEnd, a.close);
    FirstAnchorUnique(s, p, g, e, a.start, a.tagEnd, a.close);
  }

  /** The leftmost match is unique. */
  lemma FirstAnchorUnique(s: string, p: int, g: int, e: int, p': int, g': int, e': int)
    requires FirstAnchor(s, p, g, e) && FirstAnchor(s, p', g', e')
    ensures p == p' && g == g' && e == e'
  {
    assert !(p' < p) && !(p < p');
    AnchorUnique(s, p, g, e, g', e');
  }

  /** The extracted text is a single line (`.` does not match a newline)
      and never contains the closing tag (the lazy group stops at the first
      one). */
  lemma CleanSummaryText(summary: string)
    ensures CleanSummary(summary).Some? ==> '\n' !in CleanSummary(summary).value
    ensures CleanSummary(summary).Some? ==> forall k :: !OccursAt(CleanSummary(summary).value, k, AnchorClose)
  {
    if CleanSummary(summary).Some? {
      var text := CleanSummary(summary).value;
      var p, g, e :| FirstAnchor(summary, p, g, e) && text == summary[g + 1..e];
      forall k | 0 <= k < |text| ensures text[k] != '\n' {
        assert text[k] == summary[g + 1 + k];
      }
      AnchorTextHasNoClose(summary, p, g, e, text);
    }
  }

  /** The text a match captures never contains the closing tag: the lazy
      group stops at the first one. */
  lemma AnchorTextHasNoClose(s: string, p: int, g: int, e: int, text: string)
    requires AnchorAt(s, p, g, e) && text == s[g + 1..e]
    ensures forall k :: !OccursAt(text, k, AnchorClose)
  {
    forall k ensures !OccursAt(text, k, AnchorClose) {
      if 0 <= k && k + |AnchorClose| <= |text| {
        var n := g + 1 + k;
        assert !OccursAt(s, n, AnchorClose);
        assert text[k..k + |AnchorClose|] != AnchorClose by {
          assert forall j :: k <= j < k + |AnchorClose| ==> text[j] == s[g + 1 + j];
        }
      }
    }
  }

  /** A summary without any `<` has no anchor, so extraction fails. */
  lemma NoTagNoClean(summary: string)
    requires '<' !in summary
    ensures CleanSummary(summary).None?
  {
    forall p, g, e ensures !AnchorAt(summary, p, g, e) {
      if 0 <= p && p + |AnchorOpen| <= |summary| {
        assert summary[p..p + |AnchorOpen|][0] == summary[p];
        assert summary[p] in summary;
      }
    }
  }

  // ---------------------------------------------------------- csv name

  /** `f"{query}_{start}_to_{end}.csv".replace(" ", "_")`. */
  function CsvName(query: string, startDate: string, endDate: string): (r: string)
    ensures ' ' !in r
    ensures |r| == |query| + |startDate| + |endDate| + 9
  {
    var r := ReplaceChar(query + "_" + startDate + "_to_" + endDate + ".csv", ' ', '_');
    assert forall k :: 0 <= k < |r| ==> r[k] != ' ';
    r
  }

  /** The file name is the query and the dates, each with its spaces turned
      into underscores, around the fixed `_`, `_to_` and `.csv` pieces. */
  lemma CsvNameParts(query: string, startDate: string, endDate: string)
    ensures CsvName(query, startDate, endDate) ==
            ReplaceChar(query, ' ', '_') + "_" + ReplaceChar(startDate, ' ', '_') + "_to_" +
            ReplaceChar(endDate, ' ', '_') + ".csv"
  {
    var u := ' ';
    ReplaceCharConcat(query + "_" + startDate + "_to_" + endDate, ".csv", u, '_');
    ReplaceCharConcat(query + "_" + startDate + "_to_", endDate, u, '_');
    ReplaceCharConcat(query + "_" + startDate, "_to_", u, '_');
    ReplaceCharConcat(query + "_", startDate, u, '_');
    ReplaceCharConcat(query, "_", u, '_');
    assert ReplaceChar(".csv", u, '_') == ".csv";
    assert ReplaceChar("_to_", u, '_') == "_to_";
    assert ReplaceChar("_", u, '_') == "_";
  }

  // ---------------------------------------------------------- examples
  // The values the script itself runs with, and a typical title and summary.

  /** A Google News title yields the outlet after its dash. */
  lemma OutletExample(title: string)
    requires title == "Some Headline - Outlet Name"
    ensures Outlet(title) == "Outlet Name"
  {
    assert title == "Some Headline " + "-" + " Outlet Name";
    OutletAfterLastDash("Some Headline ", " Outlet Name");
    StripExample();
  }

  /** Stripping the leading space of the outlet segment. */
  lemma StripExample()
    ensures Strip(" Outlet Name") == "Outlet Name"
  {
    var s := " Outlet Name";
    assert s[..1] == " " && s[1..12] == "Outlet Name" && s[12..] == [];
    assert Padded(s, 1, "Outlet Name");
    StripUnique(s, 1, "Outlet Name");
  }

  /** The group of a typical feed summary is the anchor text. */
  lemma CleanSummaryExample(s: string)
    requires s == "<a href='x'>Clean text</a>"
    ensures CleanSummary(s) == Some("Clean text")
  {
    ExampleAnchor(s);
    CleanSummaryOfFirst(s, 0, 11, 22);
    ExampleGroup(s);
  }

  /** The typical summary has its leftmost match at 0, tag end 11, close 22. */
  lemma ExampleAnchor(s: string)
    requires s == "<a href='x'>Clean text</a>"
    ensures FirstAnchor(s, 0, 11, 22)
  {
    SearchExample();
  }

  /** Positions 12 to 22 of the typical summary hold the anchor text. */
  lemma ExampleGroup(s: string)
    requires s == "<a href='x'>Clean text</a>"
    ensures s[12..22] == "Clean text"
  {
    var tag, text, close := "<a href='x'>", "Clean text", "</a>";
    assert s == tag + text + close;
    SliceOfConcat(tag, text, close);
  }

  /** The middle part of a three-part concatenation. */
  lemma SliceOfConcat(a: string, b: string, c: string)
    ensures (a + b + c)[|a|..|a| + |b|] == b
  {
  }

  /** The search finds the match at the very start of the typical summary. */
  lemma SearchExample()
    ensures Search("<a href='x'>Clean text</a>", 0) == Some(Anchor(0, 11, 22))
  {
    var s := "<a href='x'>Clean text</a>";
    assert OccursAt(s, 0, AnchorOpen);
    FindCharExample();
    LazyCloseExample();
  }

  /** The opening tag of the typical summary ends at index 11. */
  lemma FindCharExample()
    ensures FindChar("<a href='x'>Clean text</a>", 3, '>') == Some(11)
  {
    var s := "<a href='x'>Clean text</a>";
    assert s[11] == '>';
    assert forall k :: 3 <= k < 11 ==> s[k] != '>';
    FindCharFirst(s, 3, '>', 11);
  }

  /** `FindChar` returns the first occurrence at or after `i`. */
  lemma FindCharFirst(s: string, i: nat, c: char, n: nat)
    requires i <= n < |s| && s[n] == c && forall k :: i <= k < n ==> s[k] != c
    ensures FindChar(s, i, c) == Some(n)
  {
  }

  /** The lazy group of the typical summary stops at the `</a>` at 22. */
  lemma LazyCloseExample()
    ensures LazyClose("<a href='x'>Clean text</a>", 12) == Some(22)
  {
    var s := "<a href='x'>Clean text</a>";
    assert OccursAt(s, 22, AnchorClose);
    assert LineFree(s, 12, 22);
    forall k | 12 <= k < 22 ensures !OccursAt(s, k, AnchorClose) {
      assert s[k] != '<';
      if k + 4 <= |s| {
        assert s[k..k + 4][0] == s[k];
      }
    }
  }

  /** The script's query encodes to `reforma%20tributária`. */
  lemma EncodeQueryExample(query: string)
    requires query == "reforma tributária"
    ensures EncodeQuery(query) == "reforma%20tributária"
  {
    var a, b := "reforma", "tributária";
    ExampleWords(a, b);
    ExampleQuery(query, a, b);
    JoinTwo(a, b, " ");
    JoinTwo(a, b, QuerySeparator);
    EncodeWords([a, b]);
  }

  /** The query is its two words around a space. */
  lemma ExampleQuery(query: string, a: string, b: string)
    requires query == "reforma tributária" && a == "reforma" && b == "tributária"
    ensures query == a + " " + b && a + QuerySeparator + b == "reforma%20tributária"
  {
  }

  /** Both words of the query are whitespace-free and non-empty. */
  lemma ExampleWords(a: string, b: string)
    requires a == "reforma" && b == "tributária"
    ensures AllWords([a, b])
  {
    assert IsWord(a) && IsWord(b);
  }

  /** The file the script writes with its own query and dates. */
  lemma CsvNameExample(query: string, startDate: string, endDate: string)
    requires query == "reforma tributária" && startDate == "2019-01-01" && endDate == "2023-12-20"
    ensures CsvName(query, startDate, endDate) == "reforma_tributária_2019-01-01_to_2023-12-20.csv"
  {
    CsvNameParts(query, startDate, endDate);
    ReplaceCharAbsent(startDate, ' ', '_');
    ReplaceCharAbsent(endDate, ' ', '_');
    QueryUnderscored();
    CsvNameLiteral("reforma_tributária", startDate, endDate);
  }

  /** The pieces of the example file name, put together. */
  lemma CsvNameLiteral(q: string, startDate: string, endDate: string)
    requires q == "reforma_tributária" && startDate == "2019-01-01" && endDate == "2023-12-20"
    ensures q + "_" + startDate + "_to_" + endDate + ".csv" == "reforma_tributária_2019-01-01_to_2023-12-20.csv"
  {
  }

  /** The query with its space turned into an underscore. */
  lemma QueryUnderscored()
    ensures ReplaceChar("reforma tributária", ' ', '_') == "reforma_tributária"
  {
    assert "reforma tributária" == "reforma" + (" " + "tributária");
    ReplaceCharConcat("reforma", " " + "tributária", ' ', '_');
    ReplaceCharConcat(" ", "tributária", ' ', '_');
    ReplaceCharAbsent("reforma", ' ', '_');
    ReplaceCharAbsent("tributária", ' ', '_');
    assert ReplaceChar(" ", ' ', '_') == "_";
  }
}
