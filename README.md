# B2B product crawler, modelled in Dafny

The system crawls two B2B marketplaces, IndiaMART and Alibaba, for product listings. It writes one JSON line per listing and cleans the file into a deduplicated table. A small report stage then turns free-text prices into numeric bounds.

This project models the deterministic core of that pipeline and proves what it promises:

- **`ProductItem`** (`Models`): the record shared by every stage, and `model_dump` as a row of cells.
- **`parse_price`** (`Util`):
  - currency detection, first from the symbol table and then from the code pattern;
  - the `\d+(?:\.\d+)?` tokeniser with its "not after a word character" guard;
  - the first-two-token bounds;
  - `jittered_delay`.
- **The two site fetchers** (`Fetcher`, shared line for line by both sites; `IndiaMart`; `Alibaba`):
  - settings loading, and proxy and user-agent resolution;
  - the bounded retry loop of `_get`;
  - the per-page loop that turns product anchors into items and pauses once per page;
  - the IndiaMART search URL and its round trip through URL decoding;
  - the Alibaba delegating aliases.
- **`JsonlWriter`** (`WriteJsonl`): a class whose file content grows by one serialised record and a newline per `write_one`.
- **The `crawl` driver** (`Cli`): categories in order, and per category the IndiaMART searches, then the IndiaMART category pages, then the Alibaba showrooms, each selected by `site`. Every item goes to the writer.
- **`clean`** (`Cli`, `Jsonl`, `Dedup`):
  - blank-line skipping and line decoding;
  - the "No input rows." exit;
  - keep-first deduplication by `product_page_url`, or by (`title`, `site`) when that column is absent.
- **`_norm_price`, `_read_any` and the empty-table return of `run`** (`EdaReport`).

Several things outside the model are passed in as parameters:

- The network: `net(k)` answers the k-th request.
- Randomness: `random(k)` is the k-th `random.random()` draw, and `choice(k)` the k-th `random.choice` index.
- HTML selection: each page is given as its anchors, `(href?, title?)`, in document order.
- JSON serialisation and decoding: the functions `dumps` and `decode`.

Each run keeps a `Log` that records every request, cooldown and pause in order. Delays are exact `real` values, and so are prices.

The code does some things a reader might not expect, and the model follows the code:

- `respect_robots` is stored and never read.
- `crawl` passes the user-agent list where the fetchers expect their settings, so the fetchers always run with `{}`.
- A user agent is chosen once per client, not once per request.
- `parse_price` turns commas into spaces instead of deleting them (see Findings).
- A line that does not decode makes `clean` and `_read_any` raise. It is not skipped.
- Rows whose `product_page_url` is null share one key and collapse into one row.
- `run` stops with "No data found." only when the table is empty. A table built from records that are all empty dictionaries counts as empty.

## Model

| member | source | states |
|---|---|---|
| Models.DefaultsAreUnset | src/common/models.py:6-23 | an item built from `site` and `category` alone has both set as given and every other field unset, with `images` empty |
| Models.ItemRow | src/common/models.py:6-23 | `model_dump` has one key per declared field and no other; `site` and `category` are their strings; every optional text field (`title`, `price_text`, `currency`, `moq`, `unit`, the three supplier fields, `url`, `product_page_url`) is its string or null; `price_min`, `price_max`, `rating` and `reviews_count` are their number or null; `images` is its list |
| Util.SymbolCurrency | src/common/util.py:6-14 | the symbol scan yields nothing or one of the seven currency codes |
| Util.SymbolCurrencyIsFirstEntry | src/common/util.py:6-14 | the scan finds nothing iff no table symbol occurs; otherwise it returns the code of the first table entry, in table order, whose symbol occurs anywhere in the text |
| Util.CodeSearch | src/common/util.py:16-17 | the fallback search yields nothing or one of the seven codes |
| Util.CodeSearchIsLeftmost | src/common/util.py:16-17 | the fallback finds nothing iff no whole-word, case-insensitive code occurs; otherwise it returns the upper-cased leftmost occurrence |
| Util.DetectCurrency | src/common/util.py:14-17 | the currency is the first-symbol code when any symbol occurs, and the code-pattern result only when none does |
| Util.NumeralValue | src/common/util.py:18 | a token's value is never negative |
| Util.WholeValue | src/common/util.py:18 | a token without a fraction has the value of its digits |
| Util.NumeralAt | src/common/util.py:18 | the token at a digit is a valid numeral and ends where no digit follows |
| Util.NumeralAtMatch | src/common/util.py:18 | the token at a digit is read from exactly the text it spans: the whole digit run from there, then a fraction exactly when that run is followed by "." and a digit, the fraction being the digit run after the "."; a token without a fraction is not followed by "." and a digit |
| Util.PriceTokensFrom | src/common/util.py:18 | every token found is a valid numeral |
| Util.PriceTokensScan | src/common/util.py:18 | `findall` returns the leftmost-greedy, non-overlapping matches: each token is read from its own span of the text, which starts at a digit not preceded by a word character; the spans are in increasing order; every such digit at or after the scan start lies inside some token's span |
| Util.GluedDigitsAreSkipped | src/common/util.py:18 | a digit run right after a word character yields no token |
| Util.TokenRange | src/common/util.py:19-21 | no token gives no bounds; one token gives lo = hi = its value; otherwise lo and hi are the min and max of the first two tokens; lo ≤ hi always |
| Util.ParsePrice | src/common/util.py:11-21 | empty or missing text gives (None, None, None); otherwise the currency is detected on the comma-to-space, stripped text and the bounds come from its tokens; lo and hi are both set or both unset, with lo ≤ hi |
| Util.ParsePriceGrouped | src/common/util.py:11-21 | the corrected parser that deletes grouping commas keeps every other promise of `parse_price` |
| Util.ParsePriceGroupedAgrees | src/common/util.py:13 | on text without commas the corrected parser agrees with `parse_price` |
| Util.DigitsHaveNoCurrency | src/common/util.py:14-17 | a plain digit string has no currency |
| Util.DigitsAreOneToken | src/common/util.py:18 | a plain digit string is exactly one token |
| Util.GroupedNumberReadsWhole | src/common/util.py:13-18 | under the corrected parser a comma-grouped number reads as one value, its digits without the commas |
| Util.JitteredDelay | src/common/util.py:8-9 | the delay is never negative; it is base + jitter·r unless that is negative, and then 0; for a draw in [0,1] and non-negative base and jitter it lies in [base, base + jitter] |
| PriceExamples.TableOrderWins | src/common/util.py:6-21 | "€5 or $6" gives (5, 6, USD): `$` precedes `€` in the table |
| PriceExamples.GluedDigitsAreNoPrice | src/common/util.py:12-19 | "Rs10" gives (None, None, None) |
| PriceExamples.GroupedRangeAsWritten | src/common/util.py:13-21 | "₹ 3,50,000 - ₹ 4,00,000" gives (3, 50, INR) as written |
| PriceExamples.GroupedRangeCorrected | src/common/util.py:13-21 | the same text gives (350000, 400000, INR) under the corrected parser |
| PriceExamples.DollarRange | src/eda/eda_report.py:24-36 | "$10 - $15" normalises to (10, 15) |
| PriceExamples.GroupedUnitPrice | src/eda/eda_report.py:24-36 | "₹ 3,50,000 / Piece" normalises to (350000, 350000) |
| Text.Strip | src/eda/eda_report.py:17 | `strip()` gives "" exactly when the line is all whitespace, and otherwise starts and ends with a non-space |
| Text.OccursIff | src/common/util.py:14 | the substring test used for `sym in txt` agrees with "some slice equals the symbol" |
| Text.ReplaceChar | src/common/util.py:13 | `replace(a, b)` turns exactly the occurrences of a into b and keeps the length; for a ≠ b no a remains, the count of b becomes the old count of a plus that of b, and every other character keeps its count |
| Text.RemoveChar | src/eda/eda_report.py:31 | deleting a character removes every occurrence and adds nothing |
| UrlEncode.QuotePlusRoundTrip | src/sites/indiamart.py:81 | `quote_plus` output decodes back to the UTF-8 bytes of the query |
| UrlEncode.QuotePlus | src/sites/indiamart.py:81 | the encoded query has only unreserved characters, `%` and `+`, so never `&`, `=`, `#` or a space |
| UrlEncode.DecimalRoundTrip | src/sites/indiamart.py:81 | the page number's decimal text parses back to the page, negative pages included |
| IndiaMart.BuildSearchUrl | src/sites/indiamart.py:80-81 | every search URL starts with the IndiaMART search endpoint and `ss=` |
| IndiaMart.SearchUrlRoundTrip | src/sites/indiamart.py:80-81 | reading a search URL back gives exactly the query's UTF-8 bytes and the page number |
| IndiaMart.SearchUrls | src/sites/indiamart.py:98-99 | `iter_search` visits max(max_pages, 0) URLs, the p-th being the URL of page p + 1, and each reads back as the query's UTF-8 bytes and its page number |
| IndiaMart.SearchFacts | src/sites/indiamart.py:85-121 | a search pauses exactly once per page, every pause ≥ 0.05 s, and fetches only its own page URLs; whatever the network answers, it requests pages 1..max_pages in order, each between once and the attempt count times in a row, and exactly once each when every request succeeds; every item is an IndiaMART item labelled with the query |
| IndiaMart.IterSearch | src/sites/indiamart.py:85-121 | the generator yields the items and log of the search specification |
| IndiaMart.SearchUnfold | src/sites/indiamart.py:92-99 | a search is one client opened, then the URL loop over pages 1..max_pages |
| IndiaMart.SearchPages | src/sites/indiamart.py:98-121 | the page loop equals the per-URL traversal over the search URLs |
| IndiaMart.CategoryPages | src/sites/indiamart.py:123-160 | every category-page item is an IndiaMART item carrying the label and one of the given URLs |
| IndiaMart.IterCategoryPages | src/sites/indiamart.py:123-160 | the generator yields the items and log of that specification |
| Alibaba.ShowroomPages | src/sites/alibaba.py:86-128 | every item is an Alibaba item carrying the label, one of the given URLs and a `/product-detail/` link |
| Alibaba.ShowroomPagesFacts | src/sites/alibaba.py:86-128 | one pause ≥ 0.05 s per non-empty URL; only non-empty given URLs are fetched, all through one client, whose user agent comes from the pool when the pool is non-empty; whatever the network answers, the non-empty URLs are requested in order, each between once and the attempt count times in a row, and once each when every request is answered |
| Alibaba.IterShowroomPages | src/sites/alibaba.py:86-128 | the generator yields the items and log of the showroom specification |
| Alibaba.IterCategoryPages | src/sites/alibaba.py:132-148 | the alias yields exactly what `iter_showroom_pages` yields |
| Alibaba.IterShowrooms | src/sites/alibaba.py:150-166 | the alias yields exactly what `iter_showroom_pages` yields |
| Fetcher.LoadSettings | src/sites/indiamart.py:16-25 | a dictionary is kept; None and any other non-path value give `{}`; a readable YAML file gives its dictionary, and an unreadable or empty one gives `{}` |
| Fetcher.ResolveProxy | src/sites/indiamart.py:49 | a non-empty argument wins; otherwise the stripped settings proxy, with missing or blank becoming None; the result is never "" |
| Fetcher.NewFetcher | src/sites/indiamart.py:40-50 | the fetcher keeps the loaded settings and `respect_robots`; the pool is the settings' `user_agent_pool`, empty when absent; the timeout is the settings' `timeout_seconds`, 20 s when absent; the proxy is resolved from the argument and the settings' proxy as `ResolveProxy` states |
| Fetcher.Attempts | src/sites/indiamart.py:69-70 | at least one attempt; three by default; `max_retries` when it is at least 1 |
| Fetcher.ChooseUserAgent | src/sites/indiamart.py:56-59 | a user agent from the pool, or the fixed Chrome string when the pool is empty |
| Fetcher.Headers | src/sites/indiamart.py:60-65 | the headers carry the chosen user agent |
| Fetcher.OpenClient | src/sites/indiamart.py:92-97 | a client is opened with the fetcher's proxy and timeout and one user-agent choice, which it keeps for every request |
| Fetcher.FirstAnswered | src/sites/indiamart.py:70-74 | the index of the first answered attempt, with every attempt before it failed |
| Fetcher.FetchFacts | src/sites/indiamart.py:67-78 | `_get` sends between 1 and max(1, max_retries) requests to its URL; all but the last failed; the result is the last request's page or, after exactly that many failures, its error; each failure is followed by one 0.75 s cooldown |
| Fetcher.TriesOutcome | src/sites/indiamart.py:67-78 | the retry trace of the first answered attempt, or of all attempts failing, meets the outcome above |
| Fetcher.Get | src/sites/indiamart.py:67-78 | the retry loop returns the result and log of the `_get` specification |
| Fetcher.JitteredDelay | src/sites/indiamart.py:11-13 | the pause is max(0.05, base − jitter + 2·jitter·r), base plus the `uniform(−jitter, jitter)` draw for r, floored at 0.05 s; for a draw in [0,1] it lies within [base − jitter, max(0.05, base + jitter)] |
| Fetcher.CleanTitle | src/sites/indiamart.py:116 | the title is None exactly when missing or blank, and otherwise stripped |
| Fetcher.ItemOfAnchor | src/sites/indiamart.py:113-119 | an item from an anchor has only the listing fields set and carries the anchor's href |
| Fetcher.ItemsOf | src/sites/indiamart.py:108-119 | every item of a page is a listing item of that page |
| Fetcher.ItemsOfFollowAnchors | src/sites/indiamart.py:108-119 | the items' product URLs are exactly the hrefs of the selected anchors, in document order |
| Fetcher.Visit | src/sites/indiamart.py:139-160 | a page's items are listing items of it, and a failed page yields none |
| Fetcher.VisitFacts | src/sites/indiamart.py:139-160 | each page ends with exactly one pause ≥ 0.05 s, and all its requests go to its URL through its client |
| Fetcher.VisitSentUrls | src/sites/indiamart.py:139-160 | a page answered at once is requested exactly once |
| Fetcher.VisitAll | src/sites/indiamart.py:136-160 | every item comes from one of the URLs |
| Fetcher.VisitAllEvents | src/sites/indiamart.py:136-160 | one pause per non-empty URL and none for empty ones; only non-empty given URLs are requested |
| Fetcher.VisitAllInOrder | src/sites/indiamart.py:136-160 | with every request answered, the non-empty URLs are requested once each, in order |
| Fetcher.FetchRequests | src/sites/indiamart.py:67-78 | whatever the network answers, `_get` requests only its URL, between once and the attempt count times |
| Fetcher.VisitRetries | src/sites/indiamart.py:136-160 | whatever the network answers, a page's requests all go to its URL, between once and the attempt count times; its pause adds no request |
| Fetcher.VisitAllRetried | src/sites/indiamart.py:136-160 | whatever the network answers, the loop requests the non-empty URLs in order, each between once and the attempt count times in a row |
| Fetcher.VisitAllIgnoresRobots | src/sites/indiamart.py:50 | the traversal is the same whatever `respect_robots` is |
| Fetcher.VisitUrls | src/sites/indiamart.py:136-160 | the URL loop returns the items and log of the traversal specification |
| Fetcher.VisitPage | src/sites/indiamart.py:139-160 | one iteration returns the items and log of the page specification |
| Fetcher.PagesOfEvents | src/sites/alibaba.py:96-128 | one client per iterator call: all requests share it, with the fetcher's proxy and a user agent from the pool, or the fixed Chrome string when the pool is empty |
| Fetcher.PagesOfRetried | src/sites/alibaba.py:96-128 | whatever the network answers, an iterator requests its non-empty URLs in order, each between once and the attempt count times in a row |
| Fetcher.IterPages | src/sites/alibaba.py:96-128 | the iterator returns the items and log of the page-loop specification |
| WriteJsonl.JsonlWriter.constructor | src/pipelines/write_jsonl.py:4-6 | opening the writer truncates the file to empty |
| WriteJsonl.JsonlWriter.WriteOne | src/pipelines/write_jsonl.py:7-8 | an open writer appends exactly the serialised record and one newline, leaving earlier content unchanged |
| WriteJsonl.JsonlWriter.Close | src/pipelines/write_jsonl.py:9-10 | closing leaves the content unchanged |
| Jsonl.JoinLinesAppend | src/pipelines/write_jsonl.py:7-8 | the file after k+1 writes is the file after k writes plus the new line |
| Jsonl.LinesOfJoinLines | src/pipelines/write_jsonl.py:8 | records free of newlines are read back as one line each, in order |
| Jsonl.NonBlankMembers | src/cli.py:46 | the kept lines are exactly the non-blank lines |
| Jsonl.NonBlankAppend | src/cli.py:45-47 | the blank-line filter keeps order and adds a line exactly when it is not blank |
| Jsonl.ReadRows | src/cli.py:44-47 | the loop decodes the non-blank lines in order, or fails at the first non-blank line that does not decode |
| Dedup.KeepFirstKeepsFirsts | src/cli.py:50-51 | keep-first yields an order-preserving subsequence with unique keys, the same key set, and exactly the first row of each key |
| Dedup.KeepFirstIdempotent | src/cli.py:50-51 | keep-first applied to its own output changes nothing |
| Dedup.KeepFirstOfUnique | src/cli.py:50-51 | a sequence with unique keys is left as it is |
| Cli.CrawlFetcher | src/cli.py:19-22 | the fetchers `crawl` builds load `{}`: no pool, 20 s timeout, three attempts; the proxy is kept unless empty |
| Cli.CrawlUserAgent | src/cli.py:21-22 | every client `crawl` opens uses the fixed Chrome user agent |
| Cli.SiteSelects | src/cli.py:36-38 | "indiamart" gives only IndiaMART items, "alibaba" only Alibaba items, and any other value crawls nothing |
| Cli.CrawlLabels | src/cli.py:24-38 | every item is labelled with a category's slug or, for IndiaMART, one of its search queries |
| Cli.CrawlItemsStep | src/cli.py:36-38 | the crawl of one more category appends that category's items after the earlier ones |
| Cli.IndiaMartItemsParts | src/cli.py:24-30 | per category the IndiaMART searches come first, then the category pages |
| Cli.WriteItems | src/cli.py:26-30 | writing items appends one record per item, in order |
| Cli.CrawlIndiaMart | src/cli.py:24-30 | the IndiaMART branch writes exactly its items, in traversal order |
| Cli.CrawlAlibaba | src/cli.py:31-34 | the Alibaba branch writes exactly its items |
| Cli.CrawlCategory | src/cli.py:36-38 | a category writes its selected branches' items, IndiaMART first |
| Cli.Crawl | src/cli.py:12-39 | the output file is exactly one line per crawled item in traversal order, and the writer is closed |
| Cli.Columns | src/cli.py:49 | the table's columns are the keys found in any record |
| Cli.DropDuplicates | src/cli.py:50-51 | dedup keeps the columns, and fails only when neither `product_page_url` nor both `title` and `site` are columns |
| Cli.DropDuplicatesKeepsFirsts | src/cli.py:50-51 | the output keeps exactly the first row of each key, in order, with no key lost and none repeated |
| Cli.DropDuplicatesIdempotent | src/cli.py:50-51 | cleaning a cleaned table changes nothing |
| Cli.NullUrlsCollapse | src/cli.py:50 | no two output rows both lack `product_page_url` |
| Cli.CleanOf | src/cli.py:48 | no rows is exactly the "No input rows." error |
| Cli.Clean | src/cli.py:41-51 | when every non-blank line decodes, `clean` yields the dedup of the decoded rows; it fails on a line exactly when some non-blank line does not decode |
| Cli.CleanOfCrawl | src/cli.py:46-50 | `clean` reads back one row per crawled item, in order; no items is the "No input rows." error; otherwise the URL column exists |
| EdaReport.GroupedEnd | src/eda/eda_report.py:30 | the token at a digit has the grouped shape and is the greedy match |
| EdaReport.NormTokensFrom | src/eda/eda_report.py:30 | every token is grouped, and there are none exactly when no digit remains |
| EdaReport.NormTokensScan | src/eda/eda_report.py:30 | `findall` returns exactly the texts of the greedy matches: each starts at a digit and ends where the greedy match from there ends; they are in increasing, non-overlapping order; every digit at or after the scan start lies inside one of them |
| EdaReport.CommasDeleted | src/eda/eda_report.py:31 | deleting commas from a token leaves digits and dots, with the same dots |
| EdaReport.TokenValue | src/eda/eda_report.py:31-33 | conversion succeeds exactly when the token has at most one dot, and the value of a plain digit token is its digits |
| EdaReport.TokenValues | src/eda/eda_report.py:33 | all tokens convert, in order, or the first token with two or more dots raises |
| EdaReport.Least | src/eda/eda_report.py:34 | the minimum is one of the values and below every value |
| EdaReport.Greatest | src/eda/eda_report.py:35 | the maximum is one of the values and above every value |
| EdaReport.ValuesRange | src/eda/eda_report.py:32-35 | min and max are token values bounding every token value |
| EdaReport.NormPrice | src/eda/eda_report.py:24-36 | stored bounds are returned unless both are missing and the text is a string; then no tokens leaves both missing, a token with two dots raises, and otherwise lo ≤ hi are the least and greatest token values |
| EdaReport.ReadAny | src/eda/eda_report.py:12-21 | a `.jsonl` path, read in text mode, yields one row per non-blank line, in order, and fails exactly when one does not decode; any other path is read as CSV |
| Jsonl.UniversalNewlines | src/eda/eda_report.py:15-16 | reading in text mode leaves no "\r": "\r\n" and a lone "\r" both end a line as "\n" does, and nothing grows |
| Jsonl.NoCarriageReturnKept | src/eda/eda_report.py:15-16 | text without "\r" reads the same in text mode as in binary mode |
| EdaReport.NonBlankDecoded | src/eda/eda_report.py:16-19 | every non-blank line decodes iff every kept line does |
| EdaReport.PriceColumnsOf | src/eda/eda_report.py:47-49 | the price columns hold each row's normalised pair, in row order, unless some row raises |
| EdaReport.Run | src/eda/eda_report.py:39-49 | "No data found." exactly when the table is empty; otherwise the price columns, or the error of a row that raises |

## Left out

- Networking (httpx clients, timeouts, redirects and HTTP/2) is replaced by the answer sequence `net`. `raise_for_status` is folded into it: an answer is either a page or an error.
- `asyncio.sleep` timing: cooldowns and pauses are recorded as events with their lengths, not waited for. The async generators are sequences, because the driver awaits everything in turn.
- HTML parsing with parsel is left out. A page is given as its anchors, and the `a[href*=…]` selector is a substring test on the href.
- `random.uniform` and `random.choice` are left out. Their draws are parameters, and `uniform(a, b)` is `a + (b − a)·r`.
- Floating point: prices and delays are exact `real` values, so rounding of very long numerals is not modelled.
- YAML and file reading in `_load_settings` and `load_yaml`, and directory creation, are I/O. Only the outcomes are modelled (a dictionary, None, an unreadable path, another value).
- orjson and `json.loads` are the parameters `dumps` and `decode`. Their escaping of control characters is stated as a precondition of Cli.CleanOfCrawl: no newline in a record, and it does not start with a space.
- `scraped_at` is left out of `ProductItem`: a clock reading, set by a default factory.
- pandas CSV reading and writing, `value_counts` summaries and matplotlib charts in `run`. Only the empty-table return and the price columns are modelled.
- The `print` and `typer.echo` messages are left out; the error they report is returned instead.
- The robots.txt helper, the HTTP API wrapper and the path constants are not part of this model.
- Text.IsSpace: `str.isspace` is listed for the Latin-1 and common Unicode spaces only.
- Text.IsWordChar: Python's `\w`, `\d` and `\b` in `str` patterns are Unicode-aware, but the model's word and digit classes are ASCII. So Util.TokenStart, Util.PriceTokensFrom and Util.CodeAt differ on non-ASCII letters and digits. "é10" yields the token 10 in the model and none in Python. "१०" (Devanagari digits) yields 10.0 in Python and no token in the model. The `[0-9]` pattern of `_norm_price` is ASCII in both.
- Text.Upper: it upper-cases ASCII letters only, and Util.CodeAt folds case the same way. Python's `re.I` also matches "ı" and "İ" with "i", and "ſ" with "s". So "ınr 5" gives the currency INR in Python and None in the model.
- Fetcher.LoadSettings: a YAML file holding something other than a dictionary (a list, a string) makes the fetcher's constructor raise in Python. `PathArg` carries a dictionary or nothing, so that case is not represented.
- Fetcher.Attempts: `Settings` holds typed values, so wrongly typed settings are not represented. A `max_retries` of null or "x" makes `int()` raise inside `_get` before any request, so each page gets its pause and no request. A `timeout_seconds` that is not a number makes the constructor raise.
- Cli.DropDuplicates: pandas compares the float NaN cells that a missing field leaves as equal for deduplication. The model gives a missing key and an explicit null the same null cell.

## Findings

| source | as written | input that shows it | evidently intended | confidence | as-written member | corrected member |
|---|---|---|---|---|---|---|
| src/common/util.py:13 | commas are replaced by spaces before tokenising, so an Indian-grouped amount splits into several tokens | "₹ 3,50,000 - ₹ 4,00,000" gives (3, 50, INR) | drop the grouping commas, giving (350000, 400000, INR), as `_norm_price` does | not executed | PriceExamples.GroupedRangeAsWritten | Util.ParsePriceGrouped (Util.GroupedNumberReadsWhole, PriceExamples.GroupedRangeCorrected) |
