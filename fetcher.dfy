/**
 * What the IndiaMART and Alibaba fetchers share, line for line: settings
 * loading, proxy and user-agent resolution, the bounded retry loop of `_get`,
 * the clamped jittered delay, and the per-page loop that turns a listing page's
 * product anchors into items and pauses once per page.
 *
 * The outside world is a parameter.  `net(k)` is the answer to the k-th request
 * of the whole run, `random(k)` the k-th `random.random()` draw behind
 * `random.uniform`, and `choice(k)` the k-th `random.choice` index.  A `Log`
 * counts what has been used and records every request and every sleep.
 */
module Fetcher {
  import opened Basics
  import opened Text
  import opened Models

  // ---------------------------------------------------------------- settings

  /** The keys of a settings dictionary that a fetcher reads; a missing key is None. */
  datatype Settings = Settings(
    userAgentPool: Option<seq<string>>,
    timeoutSeconds: Option<real>,
    proxy: Option<string>,
    maxRetries: Option<int>)

  /** The empty dictionary `{}`. */
  const NoSettings := Settings(None, None, None, None)

  /** The forms the `settings` argument takes. */
  datatype SettingsArg =
    | DictArg(dict: Settings)
    | NoneArg
      /** A YAML path; `loaded` is None when it cannot be opened or parsed, or holds nothing. */
    | PathArg(loaded: Option<Settings>)
      /** Any other value, such as a list of user-agent strings. */
    | ListArg(items: seq<string>)

  /** `_load_settings`: a dictionary as given, a YAML file's dictionary, and `{}` otherwise. */
  function LoadSettings(arg: SettingsArg): (s: Settings)
    ensures arg.NoneArg? || arg.ListArg? ==> s == NoSettings
    ensures arg.PathArg? && arg.loaded.None? ==> s == NoSettings
    ensures arg.DictArg? ==> s == arg.dict
    ensures arg.PathArg? && arg.loaded.Some? ==> s == arg.loaded.value
  {
    match arg
    case DictArg(d) => d
    case NoneArg => NoSettings
    case PathArg(loaded) => if loaded.Some? then loaded.value else NoSettings
    case ListArg(_) => NoSettings
  }

  const DefaultUserAgent: string :=
    "Mozilla/5.0 (Windows NT 10.0; Win64; x64) AppleWebKit/537.36 (KHTML, like Gecko) Chrome/124.0 Safari/537.36"

  /** A fetcher's state after `__init__`; none of it changes afterwards. */
  datatype Fetcher = Fetcher(
    settings: Settings,
    userAgentPool: seq<string>,
    timeout: real,
    proxy: Option<string>,
    respectRobots: bool)

  /** `proxy or (settings.get("proxy") or "").strip() or None`. */
  function ResolveProxy(arg: Option<string>, fromSettings: Option<string>): (p: Option<string>)
    ensures p.None? || p.value != ""
    ensures arg.Some? && arg.value != "" ==> p == arg
    ensures arg.None? || arg.value == "" ==>
              (p.None? <==> fromSettings.None? || IsBlank(StrSpace, fromSettings.value))
    ensures (arg.None? || arg.value == "") && p.Some? ==> p == Some(Strip(StrSpace, fromSettings.value))
  {
    if arg.Some? && arg.value != "" then arg
    else
      var s := Strip(StrSpace, if fromSettings.Some? then fromSettings.value else "");
      if s == "" then None else Some(s)
  }

  /** `__init__`: settings, user-agent pool, timeout (default 20 s) and proxy. */
  function NewFetcher(settings: SettingsArg, proxy: Option<string>, respectRobots: bool): (f: Fetcher)
    ensures f.settings == LoadSettings(settings) && f.respectRobots == respectRobots
    ensures f.proxy.None? || f.proxy.value != ""
    ensures f.settings.userAgentPool.None? ==> f.userAgentPool == []
    ensures f.settings.timeoutSeconds.None? ==> f.timeout == 20.0
    ensures f.settings.userAgentPool.Some? ==> f.userAgentPool == f.settings.userAgentPool.value
    ensures f.settings.timeoutSeconds.Some? ==> f.timeout == f.settings.timeoutSeconds.value
    ensures f.proxy == ResolveProxy(proxy, f.settings.proxy)
  {
    var s := LoadSettings(settings);
    Fetcher(
      s,
      if s.userAgentPool.Some? then s.userAgentPool.value else [],
      if s.timeoutSeconds.Some? then s.timeoutSeconds.value else 20.0,
      ResolveProxy(proxy, s.proxy),
      respectRobots)
  }

  /** `max(1, int(settings.get("max_retries", 3)))`: how many times `_get` tries. */
  function Attempts(f: Fetcher): (n: nat)
    ensures n >= 1
    ensures f.settings.maxRetries.None? ==> n == 3
    ensures f.settings.maxRetries.Some? && f.settings.maxRetries.value >= 1 ==> n == f.settings.maxRetries.value
  {
    var r := if f.settings.maxRetries.Some? then f.settings.maxRetries.value else 3;
    if r >= 1 then r else 1
  }

  /** `random.choice(pool)` for draw `pick`, or the fixed Chrome string when the pool is empty. */
  function ChooseUserAgent(pool: seq<string>, pick: nat): (ua: string)
    ensures pool != [] ==> ua in pool
    ensures pool == [] ==> ua == DefaultUserAgent
  {
    if pool != [] then pool[pick % |pool|] else DefaultUserAgent
  }

  /** `_headers()`: the user agent plus three fixed headers. */
  function Headers(userAgent: string): (h: map<string, string>)
    ensures "user-agent" in h && h["user-agent"] == userAgent
  {
    map[
      "user-agent" := userAgent,
      "accept" := "text/html,application/xhtml+xml,application/xml;q=0.9,*/*;q=0.8",
      "accept-language" := "en-US,en;q=0.9",
      "cache-control" := "no-cache"]
  }

  // ---------------------------------------------------------------- the outside world

  /** An anchor of a page: its `href` attribute and its title (the `title` attribute, else its text). */
  datatype Anchor = Anchor(href: Option<string>, title: Option<string>)

  /** A response: a page that passed `raise_for_status`, given as its anchors in document order, or an error. */
  datatype Response = Page(anchors: seq<Anchor>) | HttpError(reason: string)

  datatype World = World(net: nat -> Response, random: nat -> real, choice: nat -> nat)

  /** The `AsyncClient` an iterator opens: its headers are fixed when it is opened. */
  datatype Client = Client(userAgent: string, proxy: Option<string>, timeout: real)

  /** Seconds `_get` sleeps after a failed attempt. */
  const CooldownSeconds: real := 0.75

  datatype Event =
    | Sent(client: Client, url: string)
      /** `asyncio.sleep(0.75)` after a failed attempt. */
    | Cooldown
      /** The jittered pause after a page. */
    | Pause(seconds: real)

  /** How much of the world has been used, and what happened so far. */
  datatype Log = Log(requests: nat, draws: nat, clients: nat, events: seq<Event>)

  predicate Extends(log: Log, log': Log) {
    |log.events| <= |log'.events| && log'.events[..|log.events|] == log.events
  }

  function Added(log: Log, log': Log): seq<Event>
    requires Extends(log, log')
  {
    log'.events[|log.events|..]
  }

  /** Opening a client: one user-agent choice, made for every request the client sends. */
  function OpenClient(w: World, f: Fetcher, log: Log): (res: (Client, Log))
    ensures res.0.proxy == f.proxy && res.0.timeout == f.timeout
    ensures f.userAgentPool != [] ==> res.0.userAgent in f.userAgentPool
    ensures f.userAgentPool == [] ==> res.0.userAgent == DefaultUserAgent
    ensures res.1 == log.(clients := log.clients + 1)
  {
    (Client(ChooseUserAgent(f.userAgentPool, w.choice(log.clients)), f.proxy, f.timeout),
     log.(clients := log.clients + 1))
  }

  // ---------------------------------------------------------------- counting events

  datatype Kind = SendKind | CooldownKind | PauseKind

  predicate OfKind(e: Event, k: Kind) {
    match k
    case SendKind => e.Sent?
    case CooldownKind => e.Cooldown?
    case PauseKind => e.Pause?
  }

  /** Number of events of kind k. */
  function Tally(es: seq<Event>, k: Kind): (n: nat)
    ensures n <= |es|
  {
    if es == [] then 0 else Tally(es[..|es| - 1], k) + (if OfKind(es[|es| - 1], k) then 1 else 0)
  }

  lemma {:induction false} TallyAppend(a: seq<Event>, b: seq<Event>, k: Kind)
    ensures Tally(a + b, k) == Tally(a, k) + Tally(b, k)
    decreases |b|
  {
    if b != [] {
      assert (a + b)[..|a + b| - 1] == a + b[..|b| - 1];
      TallyAppend(a, b[..|b| - 1], k);
    } else {
      assert a + b == a;
    }
  }

  // ---------------------------------------------------------------- _get

  /** Index, among the `n` requests from `from` on, of the first one answered by a page; `n` if none is. */
  function FirstAnswered(net: nat -> Response, from: nat, n: nat): (i: nat)
    ensures i <= n
    ensures forall k :: from <= k < from + i ==> net(k).HttpError?
    ensures i < n ==> net(from + i).Page?
    decreases n
  {
    if n == 0 || net(from).Page? then 0 else 1 + FirstAnswered(net, from + 1, n - 1)
  }

  /** The events of `failures` failed attempts, each a request and a cooldown, then the answered one if any. */
  function Tries(client: Client, url: string, failures: nat, answered: bool): seq<Event> {
    (if failures == 0 then [] else Tries(client, url, failures - 1, false) + [Sent(client, url), Cooldown])
    + (if answered then [Sent(client, url)] else [])
  }

  lemma TriesTally(client: Client, url: string, failures: nat, answered: bool)
    ensures EventsOutcome(client, url, Tries(client, url, failures, answered), failures + (if answered then 1 else 0), answered)
  {
    FailedTally(client, url, failures);
    if answered {
      var prev := Tries(client, url, failures, false);
      TriesStep(client, url, failures);
      TallyAppend(prev, [Sent(client, url)], SendKind);
      TallyAppend(prev, [Sent(client, url)], CooldownKind);
      TallyAppend(prev, [Sent(client, url)], PauseKind);
    } else {
      assert Tries(client, url, failures, false) == Tries(client, url, failures, false) + [];
    }
  }

  /** Each failed attempt is one request and one cooldown. */
  lemma {:induction false} FailedTally(client: Client, url: string, failures: nat)
    ensures EventsOutcome(client, url, Tries(client, url, failures, false), failures, false)
  {
    if failures > 0 {
      var prev := Tries(client, url, failures - 1, false);
      FailedTally(client, url, failures - 1);
      TriesStep(client, url, failures - 1);
      TallyAppend(prev, [Sent(client, url), Cooldown], SendKind);
      TallyAppend(prev, [Sent(client, url), Cooldown], CooldownKind);
      TallyAppend(prev, [Sent(client, url), Cooldown], PauseKind);
      assert [Sent(client, url), Cooldown][..1] == [Sent(client, url)];
    } else {
      assert Tries(client, url, 0, false) == [];
    }
  }

  /**
   * `_get`: up to `Attempts(f)` requests, stopping at the first page; after each
   * failure a cooldown.  When every attempt fails, the last error is raised.
   */
  function Fetch(w: World, f: Fetcher, client: Client, url: string, log: Log): (res: (Result<seq<Anchor>, string>, Log))
    ensures Extends(log, res.1) && res.1.draws == log.draws && res.1.clients == log.clients
  {
    var n := Attempts(f);
    var i := FirstAnswered(w.net, log.requests, n);
    AddedEvents(log, Tries(client, url, if i < n then i else n, i < n), log.requests + TriesSent(n, i));
    (TriesResult(w, log.requests, n, i), AfterTries(log, client, url, n, i))
  }

  /** How many requests `n` attempts send when the first answered one is `i` (`n` when none is). */
  function TriesSent(n: nat, i: nat): nat {
    if i < n then i + 1 else n
  }

  /** The page of the first answered attempt, or the error of the last one. */
  function TriesResult(w: World, from: nat, n: nat, i: nat): Result<seq<Anchor>, string>
    requires n >= 1 && i == FirstAnswered(w.net, from, n)
  {
    if i < n then Ok(w.net(from + i).anchors) else Err(w.net(from + n - 1).reason)
  }

  /** The log after those attempts. */
  function AfterTries(log: Log, client: Client, url: string, n: nat, i: nat): Log {
    log.(requests := log.requests + TriesSent(n, i), events := log.events + Tries(client, url, if i < n then i else n, i < n))
  }

  /**
   * What `_get` asks of the network: between one and `n` requests from `from`
   * on; every request but the last failed; the result is the last request's
   * page, or, after exactly `n` failures, its error.
   */
  predicate RequestsOutcome(w: World, n: nat, from: nat, sent: nat, r: Result<seq<Anchor>, string>) {
    && 1 <= sent <= n
    && (forall k :: from <= k < from + sent - 1 ==> w.net(k).HttpError?)
    && (r.Ok? <==> w.net(from + sent - 1).Page?)
    && (r.Ok? ==> r.value == w.net(from + sent - 1).anchors)
    && (r.Err? ==> sent == n && r.error == w.net(from + n - 1).reason)
  }

  /**
   * What `_get` logs: `sent` requests, all from this client to this URL, a
   * cooldown after each failed one, and no pause.
   */
  predicate EventsOutcome(client: Client, url: string, es: seq<Event>, sent: nat, ok: bool) {
    && Tally(es, SendKind) == sent
    && Tally(es, CooldownKind) == (if ok then sent - 1 else sent)
    && Tally(es, PauseKind) == 0
    && (forall e :: e in es && e.Sent? ==> e == Sent(client, url))
  }

  predicate FetchOutcome(w: World, n: nat, client: Client, url: string, log: Log,
                         r: Result<seq<Anchor>, string>, l: Log)
  {
    && Extends(log, l) && log.requests <= l.requests
    && RequestsOutcome(w, n, log.requests, l.requests - log.requests, r)
    && EventsOutcome(client, url, Added(log, l), l.requests - log.requests, r.Ok?)
  }

  /** `_get` behaves as `RequestsOutcome` and `EventsOutcome` say, with `n` the number of attempts. */
  lemma FetchFacts(w: World, f: Fetcher, client: Client, url: string, log: Log)
    ensures FetchOutcome(w, Attempts(f), client, url, log, Fetch(w, f, client, url, log).0, Fetch(w, f, client, url, log).1)
  {
    var n := Attempts(f);
    var i := FirstAnswered(w.net, log.requests, n);
    TriesOutcome(w, n, client, url, log, i);
  }

  /** The outcome of `n` attempts of which the first answered one is `i`. */
  lemma TriesOutcome(w: World, n: nat, client: Client, url: string, log: Log, i: nat)
    requires n >= 1 && i == FirstAnswered(w.net, log.requests, n)
    ensures FetchOutcome(w, n, client, url, log, TriesResult(w, log.requests, n, i), AfterTries(log, client, url, n, i))
  {
    var r, l := TriesResult(w, log.requests, n, i), AfterTries(log, client, url, n, i);
    var es := Tries(client, url, if i < n then i else n, i < n);
    FirstAnsweredOutcome(w, n, log.requests, i);
    TriesTally(client, url, if i < n then i else n, i < n);
    assert TriesSent(n, i) == (if i < n then i else n) + (if i < n then 1 else 0);
    assert r.Ok? == (i < n);
    AddedEvents(log, es, log.requests + TriesSent(n, i));
    assert l == log.(requests := log.requests + TriesSent(n, i), events := log.events + es);
    OutcomeParts(w, n, client, url, log, r, l, TriesSent(n, i), es);
  }

  lemma OutcomeParts(w: World, n: nat, client: Client, url: string, log: Log, r: Result<seq<Anchor>, string>, l: Log,
                     sent: nat, es: seq<Event>)
    requires l.requests == log.requests + sent && Extends(log, l) && Added(log, l) == es
    requires RequestsOutcome(w, n, log.requests, sent, r) && EventsOutcome(client, url, es, sent, r.Ok?)
    ensures FetchOutcome(w, n, client, url, log, r, l)
  {
  }

  lemma FirstAnsweredOutcome(w: World, n: nat, from: nat, i: nat)
    requires n >= 1 && i == FirstAnswered(w.net, from, n)
    ensures RequestsOutcome(w, n, from, TriesSent(n, i), TriesResult(w, from, n, i))
  {
    if i == n {
      assert w.net(from + n - 1).HttpError?;
    }
  }

  lemma AddedEvents(log: Log, es: seq<Event>, requests: nat)
    ensures Extends(log, log.(requests := requests, events := log.events + es))
    ensures Added(log, log.(requests := requests, events := log.events + es)) == es
  {
    assert (log.events + es)[..|log.events|] == log.events;
  }

  /** The retry loop itself. */
  method Get(w: World, f: Fetcher, client: Client, url: string, log: Log)
    returns (r: Result<seq<Anchor>, string>, log': Log)
    ensures (r, log') == Fetch(w, f, client, url, log)
  {
    var n := Attempts(f);
    var lastErr := "request failed";
    log' := log;
    var k := 0;
    while k < n
      invariant 0 <= k <= n
      invariant forall j :: log.requests <= j < log.requests + k ==> w.net(j).HttpError?
      invariant k > 0 ==> w.net(log.requests + k - 1).HttpError? && lastErr == w.net(log.requests + k - 1).reason
      invariant log' == log.(requests := log.requests + k, events := log.events + Tries(client, url, k, false))
    {
      var resp := w.net(log'.requests);
      log' := log'.(requests := log'.requests + 1, events := log'.events + [Sent(client, url)]);
      if resp.Page? {
        r := Ok(resp.anchors);
        GetAnswered(w, f, client, url, log, k, log');
        return;
      }
      lastErr := resp.reason;
      log' := log'.(events := log'.events + [Cooldown]);
      TriesStep(client, url, k);
      k := k + 1;
    }
    r := Err(lastErr);
    GetExhausted(w, f, client, url, log, log');
  }

  /** The loop's exit on an answer at attempt k. */
  lemma GetAnswered(w: World, f: Fetcher, client: Client, url: string, log: Log, k: nat, l: Log)
    requires k < Attempts(f) && w.net(log.requests + k).Page?
    requires forall j :: log.requests <= j < log.requests + k ==> w.net(j).HttpError?
    requires l == log.(requests := log.requests + k + 1, events := log.events + Tries(client, url, k, false) + [Sent(client, url)])
    ensures (Ok(w.net(log.requests + k).anchors), l) == Fetch(w, f, client, url, log)
  {
    AnsweredAt(w.net, log.requests, Attempts(f), k);
    TriesStep(client, url, k);
    FetchAnsweredIs(w, f, client, url, log, k);
    assert log.events + Tries(client, url, k, false) + [Sent(client, url)] == log.events + Tries(client, url, k, true);
  }

  /** The loop's exit after every attempt failed. */
  lemma GetExhausted(w: World, f: Fetcher, client: Client, url: string, log: Log, l: Log)
    requires forall j :: log.requests <= j < log.requests + Attempts(f) ==> w.net(j).HttpError?
    requires l == log.(requests := log.requests + Attempts(f), events := log.events + Tries(client, url, Attempts(f), false))
    ensures (Err(w.net(log.requests + Attempts(f) - 1).reason), l) == Fetch(w, f, client, url, log)
  {
    NeverAnswered(w.net, log.requests, Attempts(f));
    FetchExhaustedIs(w, f, client, url, log);
  }

  /** The first answer is at attempt k when the k attempts before it failed. */
  lemma AnsweredAt(net: nat -> Response, from: nat, n: nat, k: nat)
    requires k < n && net(from + k).Page?
    requires forall j :: from <= j < from + k ==> net(j).HttpError?
    ensures FirstAnswered(net, from, n) == k
  {
  }

  /** No answer within n attempts when all of them failed. */
  lemma NeverAnswered(net: nat -> Response, from: nat, n: nat)
    requires forall j :: from <= j < from + n ==> net(j).HttpError?
    ensures FirstAnswered(net, from, n) == n
  {
  }

  /** One more failed attempt adds a request and a cooldown; an answered one, a request. */
  lemma TriesStep(client: Client, url: string, k: nat)
    ensures Tries(client, url, k + 1, false) == Tries(client, url, k, false) + [Sent(client, url), Cooldown]
    ensures Tries(client, url, k, true) == Tries(client, url, k, false) + [Sent(client, url)]
  {
    assert Tries(client, url, k + 1, false) == Tries(client, url, k, false) + [Sent(client, url), Cooldown] + [];
  }

  /** `Fetch` when the first answer comes at attempt i. */
  lemma FetchAnsweredIs(w: World, f: Fetcher, client: Client, url: string, log: Log, i: nat)
    requires i == FirstAnswered(w.net, log.requests, Attempts(f)) && i < Attempts(f)
    ensures Fetch(w, f, client, url, log) ==
              (Ok(w.net(log.requests + i).anchors),
               log.(requests := log.requests + i + 1, events := log.events + Tries(client, url, i, true)))
  {
  }

  /** `Fetch` when no attempt is answered. */
  lemma FetchExhaustedIs(w: World, f: Fetcher, client: Client, url: string, log: Log)
    requires FirstAnswered(w.net, log.requests, Attempts(f)) == Attempts(f)
    ensures Fetch(w, f, client, url, log) ==
              (Err(w.net(log.requests + Attempts(f) - 1).reason),
               log.(requests := log.requests + Attempts(f), events := log.events + Tries(client, url, Attempts(f), false)))
  {
  }


  // ---------------------------------------------------------------- delays

  /**
   * `_jittered_delay`: `max(0.05, base + random.uniform(-jitter, jitter))`, where
   * `uniform(a, b)` is `a + (b - a) * r` for the draw r of `random.random()`.
   */
  function JitteredDelay(base: real, jitter: real, r: real): (d: real)
    ensures d >= 0.05
    ensures d == MaxReal(0.05, base - jitter + 2.0 * jitter * r)
    ensures 0.0 <= r <= 1.0 && jitter >= 0.0 ==>
              d <= MaxReal(0.05, base + jitter) && d >= base - jitter
  {
    var u := -jitter + (jitter - -jitter) * r;
    assert 0.0 <= r <= 1.0 && jitter >= 0.0 ==> -jitter <= u <= jitter by {
      if 0.0 <= r <= 1.0 && jitter >= 0.0 {
        assert jitter * r <= jitter * 1.0;
        assert jitter * r >= 0.0;
      }
    }
    MaxReal(0.05, base + u)
  }

  // ---------------------------------------------------------------- items

  /** A crawler's site name and the `href` fragment its product anchors carry. */
  datatype Site = Site(name: string, pattern: string)

  /** What a page loop is asked to do: label its items, and pause with these parameters. */
  datatype Job = Job(site: Site, category: string, baseDelay: real, jitter: real)

  /** `(title or "").strip() or None`. */
  function CleanTitle(title: Option<string>): (r: Option<string>)
    ensures r.None? <==> title.None? || IsBlank(StrSpace, title.value)
    ensures r.Some? ==> r.value != [] && !IsSpace(StrSpace, r.value[0]) && !IsSpace(StrSpace, r.value[|r.value| - 1])
  {
    var s := Strip(StrSpace, if title.Some? then title.value else "");
    if s == [] then None else Some(s)
  }

  /** The anchor is selected by `a[href*=pattern]` and passes `if href:`. */
  predicate Selected(a: Anchor, site: Site) {
    a.href.Some? && Occurs(site.pattern, a.href.value) && a.href.value != ""
  }

  /** An item built from an anchor of page `url`: only the listing fields are set. */
  predicate IsListing(it: ProductItem, job: Job, url: string) {
    && it.site == job.site.name && it.category == job.category && it.url == Some(url)
    && it.productPageUrl.Some? && it.productPageUrl.value != "" && Occurs(job.site.pattern, it.productPageUrl.value)
    && (it.title.Some? ==> it.title.value != [] && !IsSpace(StrSpace, it.title.value[0])
                           && !IsSpace(StrSpace, it.title.value[|it.title.value| - 1]))
    && OnlyListingFields(it)
  }

  function ItemOfAnchor(a: Anchor, job: Job, url: string): (it: ProductItem)
    requires Selected(a, job.site)
    ensures IsListing(it, job, url) && it.productPageUrl == a.href
  {
    ProductItem(site := job.site.name, category := job.category, title := CleanTitle(a.title),
                productPageUrl := a.href, url := Some(url))
  }

  /** The items of one page: one per selected anchor, in document order. */
  function ItemsOf(anchors: seq<Anchor>, job: Job, url: string): (items: seq<ProductItem>)
    ensures |items| <= |anchors|
    ensures forall it :: it in items ==> IsListing(it, job, url)
  {
    if anchors == [] then []
    else
      var a := anchors[|anchors| - 1];
      var xs := ItemsOf(anchors[..|anchors| - 1], job, url);
      var ys := if Selected(a, job.site) then [ItemOfAnchor(a, job, url)] else [];
      assert forall it :: it in xs + ys ==> it in xs || it in ys;
      xs + ys
  }

  /** The product-page URLs of some items, in order. */
  function ProductUrls(items: seq<ProductItem>): seq<Option<string>> {
    seq(|items|, k requires 0 <= k < |items| => items[k].productPageUrl)
  }

  /** The `href`s of the selected anchors, in document order. */
  function SelectedHrefs(anchors: seq<Anchor>, site: Site): seq<Option<string>> {
    if anchors == [] then []
    else
      var a := anchors[|anchors| - 1];
      SelectedHrefs(anchors[..|anchors| - 1], site) + (if Selected(a, site) then [a.href] else [])
  }

  /** Each selected anchor yields exactly one item, carrying its href, in the page's order. */
  lemma {:induction false} ItemsOfFollowAnchors(anchors: seq<Anchor>, job: Job, url: string)
    ensures ProductUrls(ItemsOf(anchors, job, url)) == SelectedHrefs(anchors, job.site)
  {
    if anchors != [] {
      var front := anchors[..|anchors| - 1];
      ItemsOfFollowAnchors(front, job, url);
      var a := anchors[|anchors| - 1];
      var xs := ItemsOf(front, job, url);
      var ys: seq<ProductItem> := if Selected(a, job.site) then [ItemOfAnchor(a, job, url)] else [];
      var hs: seq<Option<string>> := if Selected(a, job.site) then [a.href] else [];
      assert ItemsOf(anchors, job, url) == xs + ys;
      assert SelectedHrefs(anchors, job.site) == SelectedHrefs(front, job.site) + hs;
      ProductUrlsAppend(xs, ys);
      assert ProductUrls(ys) == hs;
    }
  }

  lemma ProductUrlsAppend(xs: seq<ProductItem>, ys: seq<ProductItem>)
    ensures ProductUrls(xs + ys) == ProductUrls(xs) + ProductUrls(ys)
  {
  }

  // ---------------------------------------------------------------- the page loop

  /** The body of the page loop: fetch, the page's items, then exactly one pause. */
  function Visit(w: World, f: Fetcher, client: Client, job: Job, url: string, log: Log): (res: (seq<ProductItem>, Log))
    ensures Extends(log, res.1) && res.1.clients == log.clients
    ensures forall it :: it in res.0 ==> IsListing(it, job, url)
    ensures Fetch(w, f, client, url, log).0.Err? ==> res.0 == []
  {
    var (body, l1) := Fetch(w, f, client, url, log);
    var d := JitteredDelay(job.baseDelay, job.jitter, w.random(l1.draws));
    var l2 := l1.(draws := l1.draws + 1, events := l1.events + [Pause(d)]);
    assert l2.events[..|log.events|] == l1.events[..|log.events|];
    (if body.Ok? then ItemsOf(body.value, job, url) else [], l2)
  }

  /** `for url in urls: if not url: continue; ...`: every non-empty URL in order. */
  function VisitAll(w: World, f: Fetcher, client: Client, job: Job, urls: seq<string>, log: Log): (res: (seq<ProductItem>, Log))
    ensures Extends(log, res.1) && res.1.clients == log.clients
    ensures forall it :: it in res.0 ==> it.url.Some? && it.url.value in urls && IsListing(it, job, it.url.value)
    decreases |urls|
  {
    if urls == [] then ([], log)
    else
      var front := urls[..|urls| - 1];
      var url := urls[|urls| - 1];
      var (before, l1) := VisitAll(w, f, client, job, front, log);
      assert forall u :: u in front ==> u in urls;
      if url == "" then (before, l1)
      else
        var (more, l2) := Visit(w, f, client, job, url, l1);
        assert l2.events[..|log.events|] == l1.events[..|log.events|];
        (before + more, l2)
  }

  /** Visiting one more non-empty URL after a list. */
  lemma VisitAllSnoc(w: World, f: Fetcher, client: Client, job: Job, urls: seq<string>, url: string, log: Log)
    requires url != ""
    ensures var (before, l1) := VisitAll(w, f, client, job, urls, log);
      var (more, l2) := Visit(w, f, client, job, url, l1);
      VisitAll(w, f, client, job, urls + [url], log) == (before + more, l2)
  {
    assert (urls + [url])[..|urls|] == urls;
  }

  /** `VisitAllSnoc` for a loop that already holds the results of both parts. */
  lemma VisitAllStep(w: World, f: Fetcher, client: Client, job: Job, urls: seq<string>, url: string, log: Log,
                     before: seq<ProductItem>, l1: Log, more: seq<ProductItem>, l2: Log)
    requires url != ""
    requires (before, l1) == VisitAll(w, f, client, job, urls, log)
    requires (more, l2) == Visit(w, f, client, job, url, l1)
    ensures VisitAll(w, f, client, job, urls + [url], log) == (before + more, l2)
  {
    VisitAllSnoc(w, f, client, job, urls, url, log);
  }

  /** One iteration of the page loop. */
  method VisitPage(w: World, f: Fetcher, client: Client, job: Job, url: string, log: Log)
    returns (items: seq<ProductItem>, log': Log)
    ensures (items, log') == Visit(w, f, client, job, url, log)
  {
    var body;
    body, log' := Get(w, f, client, url, log);
    items := [];
    if body.Ok? {
      var anchors := body.value;
      var k := 0;
      while k < |anchors|
        invariant 0 <= k <= |anchors|
        invariant items == ItemsOf(anchors[..k], job, url)
      {
        assert anchors[..k + 1][..k] == anchors[..k];
        var a := anchors[k];
        if a.href.Some? && Occurs(job.site.pattern, a.href.value) && a.href.value != "" {
          items := items + [ItemOfAnchor(a, job, url)];
        }
        k := k + 1;
      }
      assert anchors[..k] == anchors;
    }
    var d := JitteredDelay(job.baseDelay, job.jitter, w.random(log'.draws));
    log' := log'.(draws := log'.draws + 1, events := log'.events + [Pause(d)]);
  }

  /** The URL loop of `iter_category_pages` and `iter_showroom_pages`, with the client already open. */
  method VisitUrls(w: World, f: Fetcher, client: Client, job: Job, urls: seq<string>, log: Log)
    returns (items: seq<ProductItem>, log': Log)
    ensures (items, log') == VisitAll(w, f, client, job, urls, log)
  {
    items := [];
    log' := log;
    var i := 0;
    while i < |urls|
      invariant 0 <= i <= |urls|
      invariant (items, log') == VisitAll(w, f, client, job, urls[..i], log)
    {
      assert urls[..i + 1][..i] == urls[..i];
      var url := urls[i];
      if url == "" {
        i := i + 1;
        continue;
      }
      var more;
      more, log' := VisitPage(w, f, client, job, url, log');
      items := items + more;
      i := i + 1;
    }
    assert urls[..i] == urls;
  }

  // ---------------------------------------------------------------- what the page loop promises

  lemma AddedChain(log: Log, l1: Log, l2: Log)
    requires Extends(log, l1) && Extends(l1, l2)
    ensures Extends(log, l2) && Added(log, l2) == Added(log, l1) + Added(l1, l2)
  {
    assert l2.events[..|log.events|] == l2.events[..|l1.events|][..|log.events|];
  }

  /** The URLs the loop visits: the non-empty ones, in order. */
  function NonEmpty(urls: seq<string>): (r: seq<string>)
    ensures forall u :: u in r ==> u in urls && u != ""
  {
    if urls == [] then []
    else NonEmpty(urls[..|urls| - 1]) + (if urls[|urls| - 1] == "" then [] else [urls[|urls| - 1]])
  }

  /** The URLs of the requests among some events, in order. */
  function SentUrls(es: seq<Event>): seq<string> {
    if es == [] then []
    else SentUrls(es[..|es| - 1]) + (if es[|es| - 1].Sent? then [es[|es| - 1].url] else [])
  }

  lemma {:induction false} SentUrlsAppend(a: seq<Event>, b: seq<Event>)
    ensures SentUrls(a + b) == SentUrls(a) + SentUrls(b)
    decreases |b|
  {
    if b != [] {
      assert (a + b)[..|a + b| - 1] == a + b[..|b| - 1];
      SentUrlsAppend(a, b[..|b| - 1]);
    } else {
      assert a + b == a;
    }
  }

  /** The requests of `_get` all go from this client to this URL, and it never pauses. */
  lemma FetchEvents(w: World, f: Fetcher, client: Client, url: string, log: Log)
    ensures var es := Added(log, Fetch(w, f, client, url, log).1);
      Tally(es, PauseKind) == 0 && forall e :: e in es && e.Sent? ==> e == Sent(client, url)
  {
    FetchFacts(w, f, client, url, log);
  }

  /** The events of one page: those of `_get`, then its pause. */
  lemma VisitAdded(w: World, f: Fetcher, client: Client, job: Job, url: string, log: Log)
    ensures var l1 := Fetch(w, f, client, url, log).1;
      Added(log, Visit(w, f, client, job, url, log).1) ==
        Added(log, l1) + [Pause(JitteredDelay(job.baseDelay, job.jitter, w.random(l1.draws)))]
  {
  }

  lemma PauseAfter(fetched: seq<Event>, p: Event, client: Client, url: string)
    requires Tally(fetched, PauseKind) == 0 && forall e :: e in fetched && e.Sent? ==> e == Sent(client, url)
    requires p.Pause? && p.seconds >= 0.05
    ensures var es := fetched + [p];
      && es[|es| - 1].Pause?
      && Tally(es, PauseKind) == 1
      && (forall e :: e in es && e.Pause? ==> e.seconds >= 0.05)
      && (forall e :: e in es && e.Sent? ==> e == Sent(client, url))
  {
    var es := fetched + [p];
    assert es[..|es| - 1] == fetched;
    assert forall e :: e in es ==> e in fetched || e == p;
    forall e | e in fetched && e.Pause? ensures false {
      TallyPositive(fetched, e, PauseKind);
    }
  }

  lemma {:induction false} TallyPositive(es: seq<Event>, e: Event, k: Kind)
    requires e in es && OfKind(e, k)
    ensures Tally(es, k) > 0
  {
    if es[|es| - 1] != e {
      assert e in es[..|es| - 1];
      TallyPositive(es[..|es| - 1], e, k);
    }
  }

  /**
   * One page: its requests all go from this client to this URL, and exactly one
   * pause, of at least 0.05 s, follows them.
   */
  lemma VisitFacts(w: World, f: Fetcher, client: Client, job: Job, url: string, log: Log)
    ensures var es := Added(log, Visit(w, f, client, job, url, log).1);
      && es != [] && es[|es| - 1].Pause?
      && Tally(es, PauseKind) == 1
      && (forall e :: e in es && e.Pause? ==> e.seconds >= 0.05)
      && (forall e :: e in es && e.Sent? ==> e == Sent(client, url))
  {
    FetchEvents(w, f, client, url, log);
    VisitAdded(w, f, client, job, url, log);
    var l1 := Fetch(w, f, client, url, log).1;
    PauseAfter(Added(log, l1), Pause(JitteredDelay(job.baseDelay, job.jitter, w.random(l1.draws))), client, url);
  }

  /** A page answered at once is requested exactly once. */
  lemma VisitSentUrls(w: World, f: Fetcher, client: Client, job: Job, url: string, log: Log)
    requires w.net(log.requests).Page?
    ensures var res := Visit(w, f, client, job, url, log);
      SentUrls(Added(log, res.1)) == [url]
  {
    var (body, l1) := Fetch(w, f, client, url, log);
    var res := Visit(w, f, client, job, url, log);
    assert FirstAnswered(w.net, log.requests, Attempts(f)) == 0;
    assert Added(log, l1) == Tries(client, url, 0, true) == [Sent(client, url)];
    var d := JitteredDelay(job.baseDelay, job.jitter, w.random(l1.draws));
    assert Added(log, res.1) == [Sent(client, url)] + [Pause(d)];
    SentUrlsAppend([Sent(client, url)], [Pause(d)]);
    assert SentUrls([Sent(client, url)]) == [url] by {
      assert [Sent(client, url)][..0] == [];
    }
  }

  /**
   * The whole loop: one pause, of at least 0.05 s, per non-empty URL (fetched or
   * failed), none for an empty one; every request from this one client to a
   * non-empty URL of the list.
   */
  lemma {:induction false} VisitAllEvents(w: World, f: Fetcher, client: Client, job: Job, urls: seq<string>, log: Log)
    ensures var res := VisitAll(w, f, client, job, urls, log);
      var es := Added(log, res.1);
      && Tally(es, PauseKind) == |NonEmpty(urls)|
      && (forall e :: e in es && e.Pause? ==> e.seconds >= 0.05)
      && (forall e :: e in es && e.Sent? ==> e.client == client && e.url in urls && e.url != "")
    decreases |urls|
  {
    var res := VisitAll(w, f, client, job, urls, log);
    if urls == [] {
      assert Added(log, res.1) == [];
    } else {
      var front := urls[..|urls| - 1];
      var url := urls[|urls| - 1];
      VisitAllEvents(w, f, client, job, front, log);
      var (before, l1) := VisitAll(w, f, client, job, front, log);
      assert forall u :: u in front ==> u in urls;
      if url != "" {
        VisitFacts(w, f, client, job, url, l1);
        var (more, l2) := Visit(w, f, client, job, url, l1);
        AddedChain(log, l1, l2);
        TallyAppend(Added(log, l1), Added(l1, l2), PauseKind);
        assert forall e :: e in Added(log, l2) ==> e in Added(log, l1) || e in Added(l1, l2);
      }
    }
  }

  /** When every request is answered at once, the requests follow the non-empty URLs in order, one each. */
  lemma {:induction false} VisitAllInOrder(w: World, f: Fetcher, client: Client, job: Job, urls: seq<string>, log: Log)
    requires forall k :: w.net(k).Page?
    ensures var res := VisitAll(w, f, client, job, urls, log);
      SentUrls(Added(log, res.1)) == NonEmpty(urls)
    decreases |urls|
  {
    var res := VisitAll(w, f, client, job, urls, log);
    if urls == [] {
      assert Added(log, res.1) == [];
    } else {
      var front := urls[..|urls| - 1];
      var url := urls[|urls| - 1];
      VisitAllInOrder(w, f, client, job, front, log);
      var (before, l1) := VisitAll(w, f, client, job, front, log);
      if url != "" {
        VisitSentUrls(w, f, client, job, url, l1);
        var (more, l2) := Visit(w, f, client, job, url, l1);
        AddedChain(log, l1, l2);
        SentUrlsAppend(Added(log, l1), Added(l1, l2));
      }
    }
  }

  /** `n` requests to `url`, one after another. */
  function Repeat(url: string, n: nat): seq<string> {
    seq(n, _ => url)
  }

  /** Each URL of `urls` in turn, the k-th requested `counts[k]` times in a row. */
  function Retried(urls: seq<string>, counts: seq<nat>): seq<string>
    requires |counts| == |urls|
  {
    if urls == [] then []
    else Retried(urls[..|urls| - 1], counts[..|counts| - 1]) + Repeat(urls[|urls| - 1], counts[|counts| - 1])
  }

  /** `sent` visits `urls` in order, each between 1 and `n` times in a row. */
  ghost predicate RetriedInOrder(sent: seq<string>, urls: seq<string>, n: nat) {
    exists counts: seq<nat> ::
      && |counts| == |urls|
      && (forall k :: 0 <= k < |counts| ==> 1 <= counts[k] <= n)
      && sent == Retried(urls, counts)
  }

  /** Events whose requests all go to `url` request it once per request. */
  lemma {:induction false} SentToOne(es: seq<Event>, url: string)
    requires forall e :: e in es && e.Sent? ==> e.url == url
    ensures SentUrls(es) == Repeat(url, Tally(es, SendKind))
    decreases |es|
  {
    if es != [] {
      var front := es[..|es| - 1];
      assert forall e :: e in front ==> e in es;
      SentToOne(front, url);
      var m := Tally(front, SendKind);
      if es[|es| - 1].Sent? {
        assert Repeat(url, m + 1) == Repeat(url, m) + [url];
      }
    }
  }

  /** One page, whatever the network answers: its URL, requested between 1 and `Attempts(f)` times in a row. */
  lemma VisitRetries(w: World, f: Fetcher, client: Client, job: Job, url: string, log: Log)
    ensures var es := Added(log, Visit(w, f, client, job, url, log).1);
      1 <= Tally(es, SendKind) <= Attempts(f) && SentUrls(es) == Repeat(url, Tally(es, SendKind))
  {
    var l1 := Fetch(w, f, client, url, log).1;
    var fetched := Added(log, l1);
    FetchRequests(w, f, client, url, log);
    VisitAdded(w, f, client, job, url, log);
    PauseKeepsRequests(fetched, JitteredDelay(job.baseDelay, job.jitter, w.random(l1.draws)));
  }

  /** A pause sends nothing. */
  lemma PauseKeepsRequests(es: seq<Event>, seconds: real)
    ensures var more := es + [Pause(seconds)];
      Tally(more, SendKind) == Tally(es, SendKind) && SentUrls(more) == SentUrls(es)
  {
    var more := es + [Pause(seconds)];
    assert more[..|more| - 1] == es;
  }

  /** The attempts of `_get`, whatever the network answers: `url`, requested between 1 and `Attempts(f)` times. */
  lemma FetchRequests(w: World, f: Fetcher, client: Client, url: string, log: Log)
    ensures var es := Added(log, Fetch(w, f, client, url, log).1);
      1 <= Tally(es, SendKind) <= Attempts(f) && SentUrls(es) == Repeat(url, Tally(es, SendKind))
  {
    FetchFacts(w, f, client, url, log);
    SentToOne(Added(log, Fetch(w, f, client, url, log).1), url);
  }

  /** The whole loop, whatever the network answers: the non-empty URLs in order, each retried at most `Attempts(f)` times. */
  lemma {:induction false} VisitAllRetried(w: World, f: Fetcher, client: Client, job: Job, urls: seq<string>, log: Log)
    ensures RetriedInOrder(SentUrls(Added(log, VisitAll(w, f, client, job, urls, log).1)), NonEmpty(urls), Attempts(f))
    decreases |urls|
  {
    var res := VisitAll(w, f, client, job, urls, log);
    if urls == [] {
      assert Added(log, res.1) == [];
      var none: seq<nat> := [];
      assert SentUrls(Added(log, res.1)) == Retried(NonEmpty(urls), none);
    } else {
      var front := urls[..|urls| - 1];
      var url := urls[|urls| - 1];
      VisitAllRetried(w, f, client, job, front, log);
      var (before, l1) := VisitAll(w, f, client, job, front, log);
      var counts: seq<nat> :| && |counts| == |NonEmpty(front)| && (forall k :: 0 <= k < |counts| ==> 1 <= counts[k] <= Attempts(f))
                             && SentUrls(Added(log, l1)) == Retried(NonEmpty(front), counts);
      if url == "" {
        assert NonEmpty(urls) == NonEmpty(front);
      } else {
        VisitRetries(w, f, client, job, url, l1);
        var l2 := Visit(w, f, client, job, url, l1).1;
        AddedChain(log, l1, l2);
        SentUrlsAppend(Added(log, l1), Added(l1, l2));
        RetriedSnoc(NonEmpty(front), counts, url, Tally(Added(l1, l2), SendKind), Attempts(f));
        assert NonEmpty(urls) == NonEmpty(front) + [url];
      }
    }
  }

  /** One more URL, retried between 1 and `n` times, extends an ordered run of requests. */
  lemma RetriedSnoc(urls: seq<string>, counts: seq<nat>, url: string, c: nat, n: nat)
    requires |counts| == |urls| && forall k :: 0 <= k < |counts| ==> 1 <= counts[k] <= n
    requires 1 <= c <= n
    ensures RetriedInOrder(Retried(urls, counts) + Repeat(url, c), urls + [url], n)
  {
    var all := counts + [c];
    assert (urls + [url])[..|urls|] == urls && all[..|counts|] == counts;
    assert Retried(urls + [url], all) == Retried(urls, counts) + Repeat(url, c);
    assert forall k :: 0 <= k < |all| ==> 1 <= all[k] <= n;
  }

  lemma VisitIgnoresRobots(w: World, f: Fetcher, client: Client, job: Job, url: string, log: Log, robots: bool)
    ensures Visit(w, f, client, job, url, log) == Visit(w, f.(respectRobots := robots), client, job, url, log)
  {
    assert Attempts(f) == Attempts(f.(respectRobots := robots));
    assert Fetch(w, f, client, url, log) == Fetch(w, f.(respectRobots := robots), client, url, log);
  }

  /** `respect_robots` is stored but never read: the loop does the same with either value. */
  lemma {:induction false} VisitAllIgnoresRobots(w: World, f: Fetcher, client: Client, job: Job, urls: seq<string>, log: Log, robots: bool)
    ensures VisitAll(w, f, client, job, urls, log) == VisitAll(w, f.(respectRobots := robots), client, job, urls, log)
    decreases |urls|
  {
    if urls != [] {
      var front := urls[..|urls| - 1];
      VisitAllIgnoresRobots(w, f, client, job, front, log, robots);
      var l1 := VisitAll(w, f, client, job, front, log).1;
      VisitIgnoresRobots(w, f, client, job, urls[|urls| - 1], l1, robots);
    }
  }

  // ---------------------------------------------------------------- one iterator over URLs

  /** An iterator over a list of URLs: open one client, then the URL loop. */
  function PagesOf(w: World, f: Fetcher, job: Job, urls: seq<string>, log: Log): (res: (seq<ProductItem>, Log))
    ensures Extends(log, res.1) && res.1.clients == log.clients + 1
    ensures forall it :: it in res.0 ==> it.url.Some? && it.url.value in urls && IsListing(it, job, it.url.value)
  {
    var (client, l1) := OpenClient(w, f, log);
    assert l1.events == log.events;
    VisitAll(w, f, client, job, urls, l1)
  }

  /** An iterator is the page loop run on a freshly opened client. */
  lemma PagesOfUnfold(w: World, f: Fetcher, job: Job, urls: seq<string>, log: Log, client: Client, start: Log)
    requires (client, start) == OpenClient(w, f, log)
    ensures PagesOf(w, f, job, urls, log) == VisitAll(w, f, client, job, urls, start)
  {
  }

  /**
   * What one iterator does: one pause, of at least 0.05 s, per non-empty URL,
   * and every request sent with the one user agent chosen when the client opened
   * (from the pool, or the fixed string when the pool is empty), to a non-empty
   * URL of the list.
   */
  lemma PagesOfEvents(w: World, f: Fetcher, job: Job, urls: seq<string>, log: Log)
    ensures var es := Added(log, PagesOf(w, f, job, urls, log).1);
      && Tally(es, PauseKind) == |NonEmpty(urls)|
      && (forall e :: e in es && e.Pause? ==> e.seconds >= 0.05)
      && (forall e :: e in es && e.Sent? ==> e.url in urls && e.url != "")
      && (forall e1, e2 :: e1 in es && e2 in es && e1.Sent? && e2.Sent? ==> e1.client == e2.client)
      && (forall e :: e in es && e.Sent? ==>
            && e.client.proxy == f.proxy
            && (f.userAgentPool != [] ==> e.client.userAgent in f.userAgentPool)
            && (f.userAgentPool == [] ==> e.client.userAgent == DefaultUserAgent))
  {
    var (client, l1) := OpenClient(w, f, log);
    VisitAllEvents(w, f, client, job, urls, l1);
    assert Added(log, PagesOf(w, f, job, urls, log).1) == Added(l1, VisitAll(w, f, client, job, urls, l1).1);
  }

  /** An iterator, whatever the network answers, requests its non-empty URLs in order, each between 1 and `Attempts(f)` times in a row. */
  lemma PagesOfRetried(w: World, f: Fetcher, job: Job, urls: seq<string>, log: Log)
    ensures RetriedInOrder(SentUrls(Added(log, PagesOf(w, f, job, urls, log).1)), NonEmpty(urls), Attempts(f))
  {
    var (client, l1) := OpenClient(w, f, log);
    VisitAllRetried(w, f, client, job, urls, l1);
    assert Added(log, PagesOf(w, f, job, urls, log).1) == Added(l1, VisitAll(w, f, client, job, urls, l1).1);
  }

  /** The iterator itself. */
  method IterPages(w: World, f: Fetcher, job: Job, urls: seq<string>, log: Log)
    returns (items: seq<ProductItem>, log': Log)
    ensures (items, log') == PagesOf(w, f, job, urls, log)
  {
    var ua := ChooseUserAgent(f.userAgentPool, w.choice(log.clients));
    var client := Client(ua, f.proxy, f.timeout);
    items, log' := VisitUrls(w, f, client, job, urls, log.(clients := log.clients + 1));
  }
}
