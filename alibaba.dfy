/**
 * The Alibaba fetcher: `iter_showroom_pages` over given showroom or category
 * URLs, and its two aliases.  Items carry site "alibaba" and come from anchors
 * whose `href` contains "/product-detail/".
 */
module Alibaba {
  import opened Basics
  import opened Text
  import opened Models
  import opened Fetcher

  const AlibabaSite: Site := Site("alibaba", "/product-detail/")

  /** `iter_showroom_pages`: one client, then each non-empty URL in order; items are labelled with `categoryLabel`. */
  function ShowroomPages(w: World, f: Fetcher, urls: seq<string>, categoryLabel: string, baseDelay: real, jitter: real, log: Log)
    : (res: (seq<ProductItem>, Log))
    ensures Extends(log, res.1) && res.1.clients == log.clients + 1
    ensures forall it :: it in res.0 ==>
              && it.site == "alibaba" && it.category == categoryLabel
              && it.url.Some? && it.url.value in urls
              && it.productPageUrl.Some? && Occurs("/product-detail/", it.productPageUrl.value)
  {
    PagesOf(w, f, Job(AlibabaSite, categoryLabel, baseDelay, jitter), urls, log)
  }

  /**
   * One pause of at least 0.05 s per non-empty URL, every request sent by one
   * client whose user agent comes from the pool, only to the non-empty URLs given,
   * requested in order, each between once and `Attempts(f)` times in a row,
   * and, when every request is answered, each of them requested once.
   */
  lemma ShowroomPagesFacts(w: World, f: Fetcher, urls: seq<string>, categoryLabel: string, baseDelay: real, jitter: real, log: Log)
    ensures var res := ShowroomPages(w, f, urls, categoryLabel, baseDelay, jitter, log);
      var es := Added(log, res.1);
      && Tally(es, PauseKind) == |NonEmpty(urls)|
      && (forall e :: e in es && e.Pause? ==> e.seconds >= 0.05)
      && (forall e :: e in es && e.Sent? ==> e.url in urls && e.url != "")
      && (forall e1, e2 :: e1 in es && e2 in es && e1.Sent? && e2.Sent? ==> e1.client == e2.client)
      && (forall e :: e in es && e.Sent? ==> f.userAgentPool != [] ==> e.client.userAgent in f.userAgentPool)
      && RetriedInOrder(SentUrls(es), NonEmpty(urls), Attempts(f))
      && ((forall k :: w.net(k).Page?) ==> SentUrls(es) == NonEmpty(urls))
  {
    var job := Job(AlibabaSite, categoryLabel, baseDelay, jitter);
    PagesOfEvents(w, f, job, urls, log);
    PagesOfRetried(w, f, job, urls, log);
    if forall k :: w.net(k).Page? {
      var (client, l1) := OpenClient(w, f, log);
      VisitAllInOrder(w, f, client, job, urls, l1);
    }
  }

  method IterShowroomPages(w: World, f: Fetcher, urls: seq<string>, categoryLabel: string, baseDelay: real, jitter: real, log: Log)
    returns (items: seq<ProductItem>, log': Log)
    ensures (items, log') == ShowroomPages(w, f, urls, categoryLabel, baseDelay, jitter, log)
  {
    items, log' := IterPages(w, f, Job(AlibabaSite, categoryLabel, baseDelay, jitter), urls, log);
  }

  /** `iter_category_pages`: the same iteration under another name. */
  method IterCategoryPages(w: World, f: Fetcher, urls: seq<string>, categoryLabel: string, baseDelay: real, jitter: real, log: Log)
    returns (items: seq<ProductItem>, log': Log)
    ensures (items, log') == ShowroomPages(w, f, urls, categoryLabel, baseDelay, jitter, log)
  {
    items, log' := IterShowroomPages(w, f, urls, categoryLabel, baseDelay, jitter, log);
  }

  /** `iter_showrooms`: the same iteration under a third name. */
  method IterShowrooms(w: World, f: Fetcher, urls: seq<string>, categoryLabel: string, baseDelay: real, jitter: real, log: Log)
    returns (items: seq<ProductItem>, log': Log)
    ensures (items, log') == ShowroomPages(w, f, urls, categoryLabel, baseDelay, jitter, log)
  {
    items, log' := IterShowroomPages(w, f, urls, categoryLabel, baseDelay, jitter, log);
  }
}
