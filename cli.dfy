/**
 * The command line: `crawl`, which walks the configured categories with both
 * fetchers and appends every item to one JSONL file, and `clean`, which reads
 * that file back and keeps the first row for each product.
 */
module Cli {
  import opened Basics
  import opened Text
  import opened Jsonl
  import opened Models
  import opened Fetcher
  import opened WriteJsonl
  import opened Dedup
  import IndiaMart
  import Alibaba

  // ---------------------------------------------------------------- configuration

  /** One entry of the categories file; a missing list reads as empty. */
  datatype Category = Category(
    slug: string,
    searchQueries: seq<string>,   // indiamart.search_queries
    categoryUrls: seq<string>,    // indiamart.category_urls
    showroomUrls: seq<string>)    // alibaba.showroom_urls

  /** What `crawl` reads from the settings file, defaults applied (1.2 s base delay, 1.0 s jitter). */
  datatype CrawlSettings = CrawlSettings(
    userAgents: seq<string>,
    proxy: Option<string>,
    respectRobots: bool,
    baseDelay: real,
    jitter: real)

  /**
   * The fetchers `crawl` builds: it passes the user-agent list where the fetcher
   * expects its settings, so the fetcher loads `{}`: no user-agent pool, the
   * 20 s timeout and three attempts per page.
   */
  function CrawlFetcher(st: CrawlSettings): (f: Fetcher)
    ensures f.settings == NoSettings && f.userAgentPool == [] && f.timeout == 20.0 && Attempts(f) == 3
    ensures f.respectRobots == st.respectRobots
    ensures f.proxy == if st.proxy.Some? && st.proxy.value != "" then st.proxy else None
  {
    var proxy := if st.proxy.Some? && st.proxy.value != "" then st.proxy else None;
    NewFetcher(ListArg(st.userAgents), proxy, st.respectRobots)
  }

  /** Every request of a crawl goes out with the fixed Chrome user agent, whatever the settings list. */
  lemma CrawlUserAgent(w: World, st: CrawlSettings, log: Log)
    ensures OpenClient(w, CrawlFetcher(st), log).0.userAgent == DefaultUserAgent
  {
  }

  predicate RunsIndiaMart(site: string) { site == "indiamart" || site == "both" }

  predicate RunsAlibaba(site: string) { site == "alibaba" || site == "both" }

  // ---------------------------------------------------------------- traversal order

  /** The items of `iter_search` for each query in turn. */
  function SearchAll(w: World, f: Fetcher, queries: seq<string>, maxPages: int, baseDelay: real, jitter: real, log: Log)
    : (res: (seq<ProductItem>, Log))
    ensures forall it :: it in res.0 ==> it.site == "indiamart" && it.category in queries
    decreases |queries|
  {
    if queries == [] then ([], log)
    else
      var front := queries[..|queries| - 1];
      var (before, l1) := SearchAll(w, f, front, maxPages, baseDelay, jitter, log);
      var q := queries[|queries| - 1];
      IndiaMart.SearchFacts(w, f, q, maxPages, baseDelay, jitter, l1);
      var (more, l2) := IndiaMart.Search(w, f, q, maxPages, baseDelay, jitter, l1);
      assert forall c :: c in front ==> c in queries;
      (before + more, l2)
  }

  lemma SearchAllStep(w: World, f: Fetcher, queries: seq<string>, q: string, maxPages: int, baseDelay: real, jitter: real, log: Log,
                      before: seq<ProductItem>, l1: Log, more: seq<ProductItem>, l2: Log)
    requires (before, l1) == SearchAll(w, f, queries, maxPages, baseDelay, jitter, log)
    requires (more, l2) == IndiaMart.Search(w, f, q, maxPages, baseDelay, jitter, l1)
    ensures SearchAll(w, f, queries + [q], maxPages, baseDelay, jitter, log) == (before + more, l2)
  {
    assert (queries + [q])[..|queries|] == queries;
  }

  /** `do_ind(cat)`: the category's searches, then its category URLs labelled with its slug. */
  function IndiaMartItems(w: World, f: Fetcher, cat: Category, maxPages: int, baseDelay: real, jitter: real, log: Log)
    : (res: (seq<ProductItem>, Log))
    ensures forall it :: it in res.0 ==>
              it.site == "indiamart" && (it.category in cat.searchQueries || it.category == cat.slug)
  {
    var (searched, l1) := SearchAll(w, f, cat.searchQueries, maxPages, baseDelay, jitter, log);
    var (listed, l2) := IndiaMart.CategoryPages(w, f, cat.categoryUrls, cat.slug, baseDelay, jitter, l1);
    (searched + listed, l2)
  }

  /** `do_ali(cat)`: the category's showroom URLs, labelled with its slug. */
  function AlibabaItems(w: World, f: Fetcher, cat: Category, baseDelay: real, jitter: real, log: Log)
    : (res: (seq<ProductItem>, Log))
    ensures forall it :: it in res.0 ==> it.site == "alibaba" && it.category == cat.slug
  {
    Alibaba.ShowroomPages(w, f, cat.showroomUrls, cat.slug, baseDelay, jitter, log)
  }

  lemma IndiaMartItemsParts(w: World, f: Fetcher, cat: Category, maxPages: int, baseDelay: real, jitter: real, log: Log,
                            searched: seq<ProductItem>, l1: Log, listed: seq<ProductItem>, l2: Log)
    requires (searched, l1) == SearchAll(w, f, cat.searchQueries, maxPages, baseDelay, jitter, log)
    requires (listed, l2) == IndiaMart.CategoryPages(w, f, cat.categoryUrls, cat.slug, baseDelay, jitter, l1)
    ensures IndiaMartItems(w, f, cat, maxPages, baseDelay, jitter, log) == (searched + listed, l2)
  {
  }

  /** One category: IndiaMART first when selected, then Alibaba when selected. */
  function CategoryItems(w: World, ind: Fetcher, ali: Fetcher, site: string, cat: Category, maxPages: int,
                         baseDelay: real, jitter: real, log: Log): (res: (seq<ProductItem>, Log))
  {
    var (a, l1) := if RunsIndiaMart(site) then IndiaMartItems(w, ind, cat, maxPages, baseDelay, jitter, log) else ([], log);
    var (b, l2) := if RunsAlibaba(site) then AlibabaItems(w, ali, cat, baseDelay, jitter, l1) else ([], l1);
    (a + b, l2)
  }

  /** `main()`: the categories in configuration order. */
  function CrawlItems(w: World, ind: Fetcher, ali: Fetcher, site: string, cats: seq<Category>, maxPages: int,
                      baseDelay: real, jitter: real, log: Log): (res: (seq<ProductItem>, Log))
    decreases |cats|
  {
    if cats == [] then ([], log)
    else
      var (before, l1) := CrawlItems(w, ind, ali, site, cats[..|cats| - 1], maxPages, baseDelay, jitter, log);
      var (more, l2) := CategoryItems(w, ind, ali, site, cats[|cats| - 1], maxPages, baseDelay, jitter, l1);
      (before + more, l2)
  }

  lemma CrawlItemsStep(w: World, ind: Fetcher, ali: Fetcher, site: string, cats: seq<Category>, cat: Category, maxPages: int,
                       baseDelay: real, jitter: real, log: Log, before: seq<ProductItem>, l1: Log, more: seq<ProductItem>, l2: Log)
    requires (before, l1) == CrawlItems(w, ind, ali, site, cats, maxPages, baseDelay, jitter, log)
    requires (more, l2) == CategoryItems(w, ind, ali, site, cat, maxPages, baseDelay, jitter, l1)
    ensures CrawlItems(w, ind, ali, site, cats + [cat], maxPages, baseDelay, jitter, log) == (before + more, l2)
  {
    assert (cats + [cat])[..|cats|] == cats;
  }

  /**
   * The site option selects the branches: "indiamart" yields only IndiaMART items,
   * "alibaba" only Alibaba items, and any value other than those and "both"
   * yields nothing and sends no request.
   */
  lemma {:induction false} SiteSelects(w: World, ind: Fetcher, ali: Fetcher, site: string, cats: seq<Category>, maxPages: int,
                                       baseDelay: real, jitter: real, log: Log)
    ensures var res := CrawlItems(w, ind, ali, site, cats, maxPages, baseDelay, jitter, log);
      && (site == "indiamart" ==> forall it :: it in res.0 ==> it.site == "indiamart")
      && (site == "alibaba" ==> forall it :: it in res.0 ==> it.site == "alibaba")
      && (!RunsIndiaMart(site) && !RunsAlibaba(site) ==> res == ([], log))
    decreases |cats|
  {
    if cats != [] {
      SiteSelects(w, ind, ali, site, cats[..|cats| - 1], maxPages, baseDelay, jitter, log);
    }
  }

  /** Every item carries the slug of its category, or, for IndiaMART searches, the query. */
  lemma {:induction false} CrawlLabels(w: World, ind: Fetcher, ali: Fetcher, site: string, cats: seq<Category>, maxPages: int,
                                       baseDelay: real, jitter: real, log: Log)
    ensures forall it :: it in CrawlItems(w, ind, ali, site, cats, maxPages, baseDelay, jitter, log).0 ==>
              exists c :: c in cats && (it.category == c.slug || (it.site == "indiamart" && it.category in c.searchQueries))
    decreases |cats|
  {
    if cats != [] {
      var front, cat := cats[..|cats| - 1], cats[|cats| - 1];
      CrawlLabels(w, ind, ali, site, front, maxPages, baseDelay, jitter, log);
      var (before, l1) := CrawlItems(w, ind, ali, site, front, maxPages, baseDelay, jitter, log);
      var more := CategoryItems(w, ind, ali, site, cat, maxPages, baseDelay, jitter, l1).0;
      CategoryLabels(w, ind, ali, site, cat, maxPages, baseDelay, jitter, l1);
      assert CrawlItems(w, ind, ali, site, cats, maxPages, baseDelay, jitter, log).0 == before + more;
      forall it | it in before + more
        ensures exists c :: c in cats && (it.category == c.slug || (it.site == "indiamart" && it.category in c.searchQueries))
      {
        if it in before {
          var c :| c in front && (it.category == c.slug || (it.site == "indiamart" && it.category in c.searchQueries));
          assert c in cats;
        } else {
          assert it in more && cat in cats;
        }
      }
    }
  }

  /** The items of one category carry its slug, or, for IndiaMART searches, one of its queries. */
  lemma CategoryLabels(w: World, ind: Fetcher, ali: Fetcher, site: string, cat: Category, maxPages: int,
                       baseDelay: real, jitter: real, log: Log)
    ensures forall it :: it in CategoryItems(w, ind, ali, site, cat, maxPages, baseDelay, jitter, log).0 ==>
              it.category == cat.slug || (it.site == "indiamart" && it.category in cat.searchQueries)
  {
  }

  // ---------------------------------------------------------------- writing

  /** The lines the writer receives for some items: `dumps(item.model_dump())` each, in order. */
  function Records(items: seq<ProductItem>, dumps: Row -> string): (rs: seq<string>)
    ensures |rs| == |items|
  {
    seq(|items|, k requires 0 <= k < |items| => dumps(ItemRow(items[k])))
  }

  lemma RecordsAppend(a: seq<ProductItem>, b: seq<ProductItem>, dumps: Row -> string)
    ensures Records(a + b, dumps) == Records(a, dumps) + Records(b, dumps)
  {
  }

  /** Writing `a` and then `b` after `start` leaves the records of `a + b` after `start`. */
  lemma RecordsAfter(start: seq<string>, a: seq<ProductItem>, b: seq<ProductItem>, dumps: Row -> string)
    ensures start + Records(a, dumps) + Records(b, dumps) == start + Records(a + b, dumps)
  {
    RecordsAppend(a, b, dumps);
  }

  /** One more item of a prefix adds its one record. */
  lemma RecordsStep(items: seq<ProductItem>, k: nat, dumps: Row -> string)
    requires k < |items|
    ensures Records(items[..k + 1], dumps) == Records(items[..k], dumps) + [dumps(ItemRow(items[k]))]
  {
    assert items[..k + 1] == items[..k] + [items[k]];
    RecordsAppend(items[..k], [items[k]], dumps);
  }

  /** `async for item in ...: jw.write_one(item.model_dump())`. */
  method WriteItems(jw: JsonlWriter, items: seq<ProductItem>)
    requires jw.Valid() && !jw.closed
    modifies jw
    ensures jw.Valid() && !jw.closed
    ensures jw.records == old(jw.records) + Records(items, jw.dumps)
  {
    var k := 0;
    while k < |items|
      invariant 0 <= k <= |items|
      invariant jw.Valid() && !jw.closed
      invariant jw.records == old(jw.records) + Records(items[..k], jw.dumps)
    {
      var ok := jw.WriteOne(ItemRow(items[k]));
      RecordsStep(items, k, jw.dumps);
      k := k + 1;
    }
    assert items[..k] == items;
  }

  /** `do_ind(cat)` with its writes. */
  method CrawlIndiaMart(w: World, f: Fetcher, jw: JsonlWriter, cat: Category, maxPages: int, baseDelay: real, jitter: real, log: Log)
    returns (log': Log)
    requires jw.Valid() && !jw.closed
    modifies jw
    ensures jw.Valid() && !jw.closed
    ensures var (items, l) := IndiaMartItems(w, f, cat, maxPages, baseDelay, jitter, log);
      jw.records == old(jw.records) + Records(items, jw.dumps) && log' == l
  {
    ghost var done: seq<ProductItem> := [];
    ghost var queries := cat.searchQueries;
    ghost var start := jw.records;
    log' := log;
    var i := 0;
    while i < |cat.searchQueries|
      invariant 0 <= i <= |queries|
      invariant jw.Valid() && !jw.closed
      invariant (done, log') == SearchAll(w, f, queries[..i], maxPages, baseDelay, jitter, log)
      invariant jw.records == start + Records(done, jw.dumps)
    {
      var q := cat.searchQueries[i];
      var items, l := IndiaMart.IterSearch(w, f, q, maxPages, baseDelay, jitter, log');
      WriteItems(jw, items);
      RecordsAfter(start, done, items, jw.dumps);
      SearchAllStep(w, f, queries[..i], q, maxPages, baseDelay, jitter, log, done, log', items, l);
      PrefixSnoc(queries, i);
      done, log' := done + items, l;
      i := i + 1;
    }
    assert queries[..i] == queries;
    var items, l := IndiaMart.IterCategoryPages(w, f, cat.categoryUrls, cat.slug, baseDelay, jitter, log');
    WriteItems(jw, items);
    RecordsAfter(start, done, items, jw.dumps);
    IndiaMartItemsParts(w, f, cat, maxPages, baseDelay, jitter, log, done, log', items, l);
    log' := l;
  }

  /** `do_ali(cat)` with its writes. */
  method CrawlAlibaba(w: World, f: Fetcher, jw: JsonlWriter, cat: Category, baseDelay: real, jitter: real, log: Log)
    returns (log': Log)
    requires jw.Valid() && !jw.closed
    modifies jw
    ensures jw.Valid() && !jw.closed
    ensures var (items, l) := AlibabaItems(w, f, cat, baseDelay, jitter, log);
      jw.records == old(jw.records) + Records(items, jw.dumps) && log' == l
  {
    var items;
    items, log' := Alibaba.IterShowrooms(w, f, cat.showroomUrls, cat.slug, baseDelay, jitter, log);
    WriteItems(jw, items);
  }

  /** One pass of `main()`'s loop: the selected branches for one category, with their writes. */
  method CrawlCategory(w: World, ind: Fetcher, ali: Fetcher, jw: JsonlWriter, site: string, cat: Category, maxPages: int,
                       baseDelay: real, jitter: real, log: Log)
    returns (log': Log)
    requires jw.Valid() && !jw.closed
    modifies jw
    ensures jw.Valid() && !jw.closed
    ensures var (items, l) := CategoryItems(w, ind, ali, site, cat, maxPages, baseDelay, jitter, log);
      jw.records == old(jw.records) + Records(items, jw.dumps) && log' == l
  {
    ghost var start := jw.records;
    ghost var a: seq<ProductItem> := [];
    log' := log;
    if RunsIndiaMart(site) {
      log' := CrawlIndiaMart(w, ind, jw, cat, maxPages, baseDelay, jitter, log);
      a := IndiaMartItems(w, ind, cat, maxPages, baseDelay, jitter, log).0;
    }
    var l1 := log';
    assert jw.records == start + Records(a, jw.dumps);
    ghost var b: seq<ProductItem> := [];
    if RunsAlibaba(site) {
      log' := CrawlAlibaba(w, ali, jw, cat, baseDelay, jitter, l1);
      b := AlibabaItems(w, ali, cat, baseDelay, jitter, l1).0;
    }
    RecordsAfter(start, a, b, jw.dumps);
    assert CategoryItems(w, ind, ali, site, cat, maxPages, baseDelay, jitter, log) == (a + b, log');
  }

  /**
   * `crawl`: open (and truncate) the output, walk the categories in order, write
   * every item once as it is yielded, and close.  The output file holds exactly
   * the serialized items in traversal order, one per line.
   */
  method Crawl(w: World, site: string, cats: seq<Category>, st: CrawlSettings, maxPages: int,
               out: string, dumps: Row -> string, log: Log)
    returns (jw: JsonlWriter, log': Log)
    ensures fresh(jw) && jw.Valid() && jw.closed && jw.path == out
    ensures var f := CrawlFetcher(st);
      var (items, l) := CrawlItems(w, f, f, site, cats, maxPages, st.baseDelay, st.jitter, log);
      jw.content == JoinLines(Records(items, dumps)) && log' == l
  {
    var ind := CrawlFetcher(st);
    var ali := CrawlFetcher(st);
    jw := new JsonlWriter(out, dumps);
    ghost var done: seq<ProductItem> := [];
    log' := log;
    var i := 0;
    while i < |cats|
      invariant 0 <= i <= |cats|
      invariant fresh(jw) && jw.Valid() && !jw.closed && jw.dumps == dumps && jw.path == out
      invariant (done, log') == CrawlItems(w, ind, ali, site, cats[..i], maxPages, st.baseDelay, st.jitter, log)
      invariant jw.records == Records(done, dumps)
    {
      ghost var more := CategoryItems(w, ind, ali, site, cats[i], maxPages, st.baseDelay, st.jitter, log').0;
      var l := CrawlCategory(w, ind, ali, jw, site, cats[i], maxPages, st.baseDelay, st.jitter, log');
      RecordsAppend(done, more, dumps);
      CrawlItemsStep(w, ind, ali, site, cats[..i], cats[i], maxPages, st.baseDelay, st.jitter, log, done, log', more, l);
      PrefixSnoc(cats, i);
      done, log' := done + more, l;
      i := i + 1;
    }
    assert cats[..i] == cats;
    assert ind == ali == CrawlFetcher(st);
    assert (done, log') == CrawlItems(w, ind, ali, site, cats, maxPages, st.baseDelay, st.jitter, log);
    jw.Close();
    assert jw.content == JoinLines(Records(done, dumps));
  }

  // ---------------------------------------------------------------- clean

  /** What `clean` stops with instead of writing its output. */
  datatype CleanError =
    | NoInputRows           // "No input rows.", exit code 1
    | BadLine(index: nat)   // the line that `json.loads` rejects
    | MissingColumn         // no `title` or no `site` column to deduplicate by

  /** A data frame built from records: every key of any record is a column. */
  datatype Table = Table(columns: set<string>, rows: seq<Row>)

  function Columns(rows: seq<Row>): (cs: set<string>)
    ensures forall c :: c in cs <==> exists k :: 0 <= k < |rows| && c in rows[k]
  {
    if rows == [] then {}
    else
      var rest := Columns(rows[1..]);
      assert forall k :: 1 <= k < |rows| ==> rows[k] == rows[1..][k - 1];
      rows[0].Keys + rest
  }

  function FromRecords(rows: seq<Row>): Table { Table(Columns(rows), rows) }

  /** The key of `drop_duplicates(subset=["product_page_url"])`; a missing cell is null. */
  function UrlKey(row: Row): seq<Cell> { [Jsonl.Get(row, "product_page_url")] }

  /** The key of `drop_duplicates(subset=["title", "site"])`. */
  function TitleSiteKey(row: Row): seq<Cell> { [Jsonl.Get(row, "title"), Jsonl.Get(row, "site")] }

  /** Deduplication by URL when the column exists, else by (title, site). */
  function DropDuplicates(t: Table): (r: Result<Table, CleanError>)
    ensures r.Ok? ==> r.value.columns == t.columns
    ensures r.Err? <==> "product_page_url" !in t.columns && ("title" !in t.columns || "site" !in t.columns)
  {
    if "product_page_url" in t.columns then Ok(t.(rows := KeepFirst(t.rows, UrlKey)))
    else if "title" !in t.columns || "site" !in t.columns then Err(MissingColumn)
    else Ok(t.(rows := KeepFirst(t.rows, TitleSiteKey)))
  }

  /** The key `DropDuplicates` uses for a table. */
  function KeyFor(t: Table): Row -> seq<Cell> {
    if "product_page_url" in t.columns then UrlKey else TitleSiteKey
  }

  /**
   * The output is the input with later duplicates removed: an order-preserving
   * subsequence with one row per key, keeping every key and exactly the first row
   * of each.
   */
  lemma DropDuplicatesKeepsFirsts(t: Table)
    requires DropDuplicates(t).Ok?
    ensures var out := DropDuplicates(t).value.rows;
      var key := KeyFor(t);
      && Subsequence(out, t.rows)
      && UniqueKeys(out, key)
      && KeySet(out, key) == KeySet(t.rows, key)
      && (forall i :: 0 <= i < |t.rows| && IsFirst(t.rows, key, i) ==> t.rows[i] in out)
      && (forall x :: x in out ==> exists i :: 0 <= i < |t.rows| && IsFirst(t.rows, key, i) && t.rows[i] == x)
  {
    KeepFirstKeepsFirsts(t.rows, KeyFor(t));
  }

  /** Cleaning a cleaned table changes nothing. */
  lemma DropDuplicatesIdempotent(t: Table)
    requires DropDuplicates(t).Ok?
    ensures DropDuplicates(DropDuplicates(t).value) == DropDuplicates(t)
  {
    KeepFirstIdempotent(t.rows, KeyFor(t));
  }

  /** Rows without a product URL all share the null key: at most one of them survives. */
  lemma NullUrlsCollapse(t: Table)
    requires "product_page_url" in t.columns
    ensures var out := DropDuplicates(t).value.rows;
      forall a, b :: 0 <= a < b < |out| ==> !(Jsonl.Get(out[a], "product_page_url").Null? && Jsonl.Get(out[b], "product_page_url").Null?)
  {
    KeepFirstKeepsFirsts(t.rows, UrlKey);
    var out := DropDuplicates(t).value.rows;
    forall a, b | 0 <= a < b < |out| ensures !(Jsonl.Get(out[a], "product_page_url").Null? && Jsonl.Get(out[b], "product_page_url").Null?) {
      assert UrlKey(out[a]) != UrlKey(out[b]);
    }
  }

  /** The rows some lines decode to; every line decodes. */
  function Decoded(lines: seq<string>, decode: string -> Option<Row>): (rows: seq<Row>)
    requires forall k :: 0 <= k < |lines| ==> decode(lines[k]).Some?
    ensures |rows| == |lines|
  {
    seq(|lines|, k requires 0 <= k < |lines| => decode(lines[k]).value)
  }

  /** The lines `clean` decodes: the input file's lines, split after each "\n", that are not blank bytes. */
  function CleanLines(input: string): seq<string> {
    NonBlank(Lines(input), ByteSpace)
  }

  /** What `clean` ends with: its error, or the table it writes. */
  function CleanOf(rows: seq<Row>): (r: Result<Table, CleanError>)
    ensures rows == [] <==> r == Err(NoInputRows)
  {
    if rows == [] then Err(NoInputRows) else DropDuplicates(FromRecords(rows))
  }

  /**
   * `clean`: read the input's non-blank lines, one row each in file order; stop
   * when a line does not decode or there is no row; otherwise deduplicate.
   */
  method Clean(input: string, decode: string -> Option<Row>) returns (r: Result<Table, CleanError>)
    ensures (forall line :: line in CleanLines(input) ==> decode(line).Some?) ==>
              r == CleanOf(Decoded(CleanLines(input), decode))
    ensures (exists line :: line in CleanLines(input) && decode(line).None?) <==> r.Err? && r.error.BadLine?
  {
    var all := Lines(input);
    var read := ReadRows(all, ByteSpace, decode);
    ghost var kept := CleanLines(input);
    NonBlankMembers(all, ByteSpace);
    if read.Err? {
      assert all[read.error] in kept;
      return Err(BadLine(read.error));
    }
    assert forall line :: line in kept ==> decode(line).Some? by {
      forall line | line in kept ensures decode(line).Some? {
        assert line in all;
        var j :| 0 <= j < |all| && all[j] == line;
      }
    }
    var rows := read.value;
    assert rows == Decoded(kept, decode);
    if rows == [] {
      return Err(NoInputRows);
    }
    r := DropDuplicates(FromRecords(rows));
  }

  // ---------------------------------------------------------------- crawl, then clean

  /** Lines that are all non-blank pass the blank-line filter unchanged. */
  lemma {:induction false} NonBlankKeepsAll(lines: seq<string>, kind: Whitespace)
    requires forall k :: 0 <= k < |lines| ==> !IsBlank(kind, lines[k])
    ensures NonBlank(lines, kind) == lines
  {
    if lines != [] {
      NonBlankKeepsAll(lines[1..], kind);
    }
  }

  /**
   * What `crawl` writes, `clean` reads back as one row per item, in order, and
   * deduplicates by product URL (every written row has that field).  This holds
   * for any serializer that writes a record as one line starting with a
   * non-space character, which `decode` reads back.
   */
  lemma CleanOfCrawl(items: seq<ProductItem>, dumps: Row -> string, decode: string -> Option<Row>)
    requires forall k :: 0 <= k < |items| ==>
               var line := dumps(ItemRow(items[k]));
               && '\n' !in line && line != [] && !IsSpace(ByteSpace, line[0])
               && decode(line + "\n") == Some(ItemRow(items[k]))
    ensures var kept := CleanLines(JoinLines(Records(items, dumps)));
      && |kept| == |items|
      && (forall k :: 0 <= k < |items| ==> decode(kept[k]) == Some(ItemRow(items[k])))
      && (items == [] ==> CleanOf(Decoded(kept, decode)) == Err(NoInputRows))
      && (items != [] ==> "product_page_url" in FromRecords(Decoded(kept, decode)).columns)
  {
    var recs := Records(items, dumps);
    assert forall k :: 0 <= k < |recs| ==> recs[k] == dumps(ItemRow(items[k]));
    LinesOfJoinLines(recs);
    var lines := Lines(JoinLines(recs));
    assert |lines| == |items|;
    forall k | 0 <= k < |lines| ensures !IsBlank(ByteSpace, lines[k]) && decode(lines[k]) == Some(ItemRow(items[k])) {
      assert lines[k] == recs[k] + "\n";
      assert lines[k][0] == recs[k][0];
    }
    NonBlankKeepsAll(lines, ByteSpace);
    var kept := CleanLines(JoinLines(recs));
    assert kept == lines;
    if items != [] {
      var rows := Decoded(kept, decode);
      assert rows[0] == ItemRow(items[0]);
      assert "product_page_url" == FieldNames[15];
      assert "product_page_url" in rows[0];
    }
  }
}
