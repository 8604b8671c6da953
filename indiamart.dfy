/**
 * The IndiaMART fetcher: its search-URL builder, `iter_search` over result
 * pages 1..max_pages, and `iter_category_pages` over given URLs.  Items carry
 * site "indiamart" and come from anchors whose `href` contains "/proddetail/".
 */
module IndiaMart {
  import opened Basics
  import opened Text
  import opened Jsonl
  import opened UrlEncode
  import opened Models
  import opened Fetcher

  const IndiaMartSite: Site := Site("indiamart", "/proddetail/")

  /** Everything of a search URL before the encoded query. */
  const SearchPrefix: string := "https://dir.indiamart.com/search.mp?ss="

  /** `_build_search_url`: `urlencode({"ss": query, "pg": page})` after the search endpoint. */
  function BuildSearchUrl(query: string, page: int): (url: string)
    ensures |url| > |SearchPrefix| && url[..|SearchPrefix|] == SearchPrefix
  {
    SearchPrefix + QuotePlus(query) + "&pg=" + QuotePlus(DecimalString(page))
  }

  /** The two encoded values of a search URL: what follows "ss=" up to the first "&", and what follows "&pg=". */
  function SplitSearchUrl(url: string): Option<(string, string)> {
    if |url| < |SearchPrefix| || url[..|SearchPrefix|] != SearchPrefix then None
    else
      var rest := url[|SearchPrefix|..];
      if '&' !in rest then None
      else
        var i := IndexOf(rest, '&');
        var tail := rest[i + 1..];
        if |tail| < 3 || tail[..3] != "pg=" then None else Some((rest[..i], tail[3..]))
  }

  /** The text of some bytes, one character per byte. */
  function Latin1(bs: seq<byte>): string {
    seq(|bs|, k requires 0 <= k < |bs| => bs[k] as int as char)
  }

  /** Reading a search URL back: the query's UTF-8 bytes and the page number. */
  function ParseSearchUrl(url: string): Option<(seq<byte>, int)> {
    var parts := SplitSearchUrl(url);
    if parts.None? then None
    else
      var query, pageBytes := UnquotePlus(parts.value.0), UnquotePlus(parts.value.1);
      if query.None? || pageBytes.None? then None
      else
        var page := ParseDecimal(Latin1(pageBytes.value));
        if page.None? then None else Some((query.value, page.value))
  }

  lemma SplitSearchUrlParts(q: string, d: string)
    requires '&' !in q
    ensures SplitSearchUrl(SearchPrefix + q + "&pg=" + d) == Some((q, d))
  {
    var url := SearchPrefix + q + "&pg=" + d;
    assert url[..|SearchPrefix|] == SearchPrefix;
    var rest := url[|SearchPrefix|..];
    assert rest == q + "&pg=" + d;
    assert rest[|q|] == '&';
    var i := IndexOf(rest, '&');
    assert rest[..i] == q;
    assert rest[i + 1..] == "pg=" + d;
    assert ("pg=" + d)[3..] == d;
  }

  /** Text made of unreserved ASCII characters is left as it is by `quote_plus`. */
  lemma {:induction false} QuotePlusKeepsUnreserved(s: string)
    requires forall k :: 0 <= k < |s| ==> UnreservedChar(s[k])
    ensures QuotePlus(s) == s
  {
    if s != [] {
      QuotePlusKeepsUnreserved(s[1..]);
      assert Utf8(s) == Utf8Char(s[0]) + Utf8(s[1..]);
      assert Utf8Char(s[0]) == [s[0] as int as byte];
      assert QuoteBytes(Utf8(s)) == QuoteByte(s[0] as int as byte) + QuoteBytes(Utf8(s[1..]));
    }
  }

  lemma DecimalIsUnreserved(page: int)
    ensures QuotePlus(DecimalString(page)) == DecimalString(page)
  {
    var d := DecimalString(page);
    forall k | 0 <= k < |d| ensures UnreservedChar(d[k]) {
    }
    QuotePlusKeepsUnreserved(d);
  }

  lemma {:induction false} AsciiUtf8(s: string)
    requires forall k :: 0 <= k < |s| ==> s[k] as int < 0x80
    ensures Latin1(Utf8(s)) == s
  {
    if s != [] {
      var b, t := s[0] as int as byte, Utf8(s[1..]);
      assert forall k :: 0 <= k < |s| - 1 ==> s[1..][k] == s[k + 1];
      AsciiUtf8(s[1..]);
      assert Utf8Char(s[0]) == [b];
      assert Utf8(s) == [b] + t;
      assert Latin1([b] + t) == [s[0]] + Latin1(t);
      assert s == [s[0]] + s[1..];
    }
  }

  /** A search URL reads back as the query (UTF-8 encoded) and the page it was built from. */
  lemma SearchUrlRoundTrip(query: string, page: int)
    ensures ParseSearchUrl(BuildSearchUrl(query, page)) == Some((Utf8(query), page))
  {
    var q, d := QuotePlus(query), DecimalString(page);
    var url := BuildSearchUrl(query, page);
    DecimalIsUnreserved(page);
    assert url == SearchPrefix + q + "&pg=" + d;
    SplitSearchUrlParts(q, d);
    QuotePlusRoundTrip(query);
    QuotePlusRoundTrip(d);
    AsciiUtf8(d);
    DecimalRoundTrip(page);
    ParseSearchUrlOf(url, q, d, Utf8(query), Utf8(d), page);
  }

  lemma ParseSearchUrlOf(url: string, q: string, d: string, query: seq<byte>, pageBytes: seq<byte>, page: int)
    requires SplitSearchUrl(url) == Some((q, d))
    requires UnquotePlus(q) == Some(query) && UnquotePlus(d) == Some(pageBytes)
    requires ParseDecimal(Latin1(pageBytes)) == Some(page)
    ensures ParseSearchUrl(url) == Some((query, page))
  {
  }

  /** The URLs `iter_search` visits: pages 1..max_pages, none when max_pages < 1. */
  function SearchUrls(query: string, maxPages: int): (urls: seq<string>)
    ensures |urls| == Max(maxPages, 0)
    ensures forall p :: 0 <= p < |urls| ==> urls[p] == BuildSearchUrl(query, p + 1)
    ensures forall p :: 0 <= p < |urls| ==> ParseSearchUrl(urls[p]) == Some((Utf8(query), p + 1))
  {
    var urls := seq(Max(maxPages, 0), p requires 0 <= p => BuildSearchUrl(query, p + 1));
    forall p | 0 <= p < |urls| ensures ParseSearchUrl(urls[p]) == Some((Utf8(query), p + 1)) {
      SearchUrlRoundTrip(query, p + 1);
    }
    urls
  }

  /** `iter_search`: one client, then each result page in ascending order; items are labelled with the query. */
  function Search(w: World, f: Fetcher, query: string, maxPages: int, baseDelay: real, jitter: real, log: Log)
    : (res: (seq<ProductItem>, Log))
  {
    PagesOf(w, f, Job(IndiaMartSite, query, baseDelay, jitter), SearchUrls(query, maxPages), log)
  }

  lemma NoEmptySearchUrl(query: string, maxPages: int)
    ensures NonEmpty(SearchUrls(query, maxPages)) == SearchUrls(query, maxPages)
  {
    NonEmptyKeepsFull(SearchUrls(query, maxPages));
  }

  lemma {:induction false} NonEmptyKeepsFull(urls: seq<string>)
    requires forall k :: 0 <= k < |urls| ==> urls[k] != ""
    ensures NonEmpty(urls) == urls
  {
    if urls != [] {
      NonEmptyKeepsFull(urls[..|urls| - 1]);
    }
  }

  /**
   * `iter_search` pauses once per result page, at least 0.05 s each time, asks only
   * for its own result pages, and yields "indiamart" items labelled with the
   * query, each from one of those pages.  Whatever the network answers, the
   * pages are requested 1, 2, ..., max_pages in order, each between once and
   * `Attempts(f)` times in a row; when every request is answered, once each.
   */
  lemma SearchFacts(w: World, f: Fetcher, query: string, maxPages: int, baseDelay: real, jitter: real, log: Log)
    ensures var res := Search(w, f, query, maxPages, baseDelay, jitter, log);
      var es := Added(log, res.1);
      && Tally(es, PauseKind) == Max(maxPages, 0)
      && (forall e :: e in es && e.Pause? ==> e.seconds >= 0.05)
      && (forall e :: e in es && e.Sent? ==> exists p :: 1 <= p <= maxPages && e.url == BuildSearchUrl(query, p))
      && (forall it :: it in res.0 ==> it.site == "indiamart" && it.category == query && OnlyListingFields(it))
      && RetriedInOrder(SentUrls(es), SearchUrls(query, maxPages), Attempts(f))
      && ((forall k :: w.net(k).Page?) ==> SentUrls(es) == SearchUrls(query, maxPages))
  {
    var job := Job(IndiaMartSite, query, baseDelay, jitter);
    var urls := SearchUrls(query, maxPages);
    NoEmptySearchUrl(query, maxPages);
    PagesOfEvents(w, f, job, urls, log);
    PagesOfRetried(w, f, job, urls, log);
    var es := Added(log, Search(w, f, query, maxPages, baseDelay, jitter, log).1);
    forall e | e in es && e.Sent? ensures exists p :: 1 <= p <= maxPages && e.url == BuildSearchUrl(query, p) {
      var k :| 0 <= k < |urls| && urls[k] == e.url;
      assert e.url == BuildSearchUrl(query, k + 1);
    }
    if forall k :: w.net(k).Page? {
      var (client, l1) := OpenClient(w, f, log);
      VisitAllInOrder(w, f, client, job, urls, l1);
      assert es == Added(l1, VisitAll(w, f, client, job, urls, l1).1);
    }
  }

  lemma SearchUrlsStep(query: string, maxPages: int, page: int)
    requires 1 <= page <= maxPages
    ensures SearchUrls(query, maxPages)[..page] == SearchUrls(query, maxPages)[..page - 1] + [BuildSearchUrl(query, page)]
  {
    var urls := SearchUrls(query, maxPages);
    assert urls[page - 1] == BuildSearchUrl(query, page);
  }

  /** `iter_search` itself: open the client, then the loop over page numbers. */
  method IterSearch(w: World, f: Fetcher, query: string, maxPages: int, baseDelay: real, jitter: real, log: Log)
    returns (items: seq<ProductItem>, log': Log)
    ensures (items, log') == Search(w, f, query, maxPages, baseDelay, jitter, log)
  {
    var (client, start) := OpenClient(w, f, log);
    var job := Job(IndiaMartSite, query, baseDelay, jitter);
    items, log' := SearchPages(w, f, client, job, query, maxPages, start);
    SearchUnfold(w, f, query, maxPages, baseDelay, jitter, log, client, start);
  }

  lemma SearchUnfold(w: World, f: Fetcher, query: string, maxPages: int, baseDelay: real, jitter: real, log: Log,
                     client: Client, start: Log)
    requires (client, start) == OpenClient(w, f, log)
    ensures Search(w, f, query, maxPages, baseDelay, jitter, log)
            == VisitAll(w, f, client, Job(IndiaMartSite, query, baseDelay, jitter), SearchUrls(query, maxPages), start)
  {
    PagesOfUnfold(w, f, Job(IndiaMartSite, query, baseDelay, jitter), SearchUrls(query, maxPages), log, client, start);
  }

  /** `for page in range(1, max_pages + 1)`: build the page's URL, then the page loop's body. */
  method SearchPages(w: World, f: Fetcher, client: Client, job: Job, query: string, maxPages: int, start: Log)
    returns (items: seq<ProductItem>, log': Log)
    ensures (items, log') == VisitAll(w, f, client, job, SearchUrls(query, maxPages), start)
  {
    items, log' := [], start;
    var page := 1;
    ghost var urls := SearchUrls(query, maxPages);
    while page <= maxPages
      invariant 1 <= page <= |urls| + 1
      invariant (items, log') == VisitAll(w, f, client, job, urls[..page - 1], start)
    {
      var url := BuildSearchUrl(query, page);
      SearchUrlsStep(query, maxPages, page);
      var more, log2 := VisitPage(w, f, client, job, url, log');
      VisitAllStep(w, f, client, job, urls[..page - 1], url, start, items, log', more, log2);
      items, log' := items + more, log2;
      page := page + 1;
    }
    assert urls[..page - 1] == urls;
  }

  /** `iter_category_pages`: one client, then each non-empty URL in order; items are labelled with `categoryLabel`. */
  function CategoryPages(w: World, f: Fetcher, urls: seq<string>, categoryLabel: string, baseDelay: real, jitter: real, log: Log)
    : (res: (seq<ProductItem>, Log))
    ensures forall it :: it in res.0 ==> it.site == "indiamart" && it.category == categoryLabel && it.url.Some? && it.url.value in urls
  {
    PagesOf(w, f, Job(IndiaMartSite, categoryLabel, baseDelay, jitter), urls, log)
  }

  method IterCategoryPages(w: World, f: Fetcher, urls: seq<string>, categoryLabel: string, baseDelay: real, jitter: real, log: Log)
    returns (items: seq<ProductItem>, log': Log)
    ensures (items, log') == CategoryPages(w, f, urls, categoryLabel, baseDelay, jitter, log)
  {
    items, log' := IterPages(w, f, Job(IndiaMartSite, categoryLabel, baseDelay, jitter), urls, log);
  }
}
