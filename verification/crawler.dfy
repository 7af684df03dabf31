/**
 * The breadth-first crawl of `crawlSite` (src/lib/scraper.ts). Fetching and
 * HTML parsing are oracles: `fetch(url)` is what `fetchPage` returns (the
 * page source, or `None` on any failure) and `dom(html)` is the parsed page.
 * The five fetches of a batch run concurrently in the source; here they run
 * in batch order, which is the order their results are merged in.
 */
module Crawler {
  import opened Wrappers
  import opened Text
  import opened Types
  import opened Scraper

  datatype Web = Web(fetch: string -> Option<string>, dom: string -> Doc, urls: UrlOracle)

  /** Pages fetched per batch. */
  const BatchSize: nat := 5

  /** `maxPages` when the caller gives none. */
  const DefaultMaxPages: nat := 30

  /** A URL without a scheme gets `https://`. */
  function RootUrl(rawUrl: string): (r: string)
    ensures StartsWith(rawUrl, "http") ==> r == rawUrl
    ensures !StartsWith(rawUrl, "http") ==> r == "https://" + rawUrl
  {
    if StartsWith(rawUrl, "http") then rawUrl else "https://" + rawUrl
  }

  /** What fetching and extracting one crawled URL gives; `None` when it fails and is dropped. */
  function FetchPage(web: Web, origin: string, u: string): Option<Extracted> {
    match web.fetch(u)
    case None => None
    case Some(html) => if html == [] then None else ExtractPage(web.urls, web.dom(html), u, origin)
  }

  /** The elements of `xs` not in `visited`, in order. */
  function Unvisited(xs: seq<string>, visited: set<string>): (r: seq<string>)
    ensures |r| <= |xs|
    ensures forall x :: x in r <==> x in xs && x !in visited
  {
    if xs == [] then []
    else (if xs[0] in visited then [] else [xs[0]]) + Unvisited(xs[1..], visited)
  }

  lemma {:induction false} UnvisitedNoDup(xs: seq<string>, visited: set<string>)
    requires NoDup(xs)
    ensures NoDup(Unvisited(xs, visited))
  {
    if xs != [] {
      var rest := Unvisited(xs[1..], visited);
      UnvisitedNoDup(xs[1..], visited);
      forall k | 0 <= k < |xs| - 1 ensures xs[1..][k] != xs[0] {
        assert xs[1..][k] == xs[k + 1];
      }
      assert xs[0] !in rest;
    }
  }

  /** `[...new Set(queue.splice(0, 5))].filter(u => !visited.has(u))`. */
  function NextBatch(queue: seq<string>, visited: set<string>): (batch: seq<string>)
    ensures |batch| <= BatchSize && NoDup(batch)
    ensures forall u :: u in batch <==> u in Prefix(queue, BatchSize) && u !in visited
  {
    UnvisitedNoDup(Distinct(Prefix(queue, BatchSize)), visited);
    Unvisited(Distinct(Prefix(queue, BatchSize)), visited)
  }

  /** Pages and queue of the crawl. */
  datatype Frontier = Frontier(pages: seq<PageData>, queue: seq<string>)

  /**
   * Merging a batch's results in order: a failed fetch is dropped, a page is
   * appended, and its links are queued while the crawl has fewer than
   * `maxPages` pages.
   */
  function Merge(f: Frontier, results: seq<Option<Extracted>>, maxPages: nat): (r: Frontier)
    ensures r.pages == f.pages + Fetched(results)
    ensures |f.pages| <= |r.pages| <= |f.pages| + |results|
    ensures r.pages[..|f.pages|] == f.pages
    ensures |r.queue| >= |f.queue|
    ensures |r.pages| == |f.pages| ==> r == f
    decreases |results|
  {
    if results == [] then f
    else
      var f' := MergeOne(f, results[0], maxPages);
      var r := Merge(f', results[1..], maxPages);
      AppendAssoc(f.pages, KeptPages(results[0]), Fetched(results[1..]));
      assert r.pages[..|f.pages|] == f.pages;
      r
  }

  /** One result merged: its page appended and, while there is room, its links queued. */
  function MergeOne(f: Frontier, result: Option<Extracted>, maxPages: nat): (r: Frontier)
    ensures r.pages == f.pages + KeptPages(result)
    ensures |r.queue| >= |f.queue|
    ensures result.None? ==> r == f
    ensures |r.pages| < maxPages ==> r.queue == f.queue + KeptLinks(result)
  {
    match result
    case None => f
    case Some(e) =>
      var pages := f.pages + [e.page];
      Frontier(pages, if |pages| < maxPages then f.queue + e.links else f.queue)
  }

  /** The pages of the fetches that succeeded, in order. */
  function Fetched(results: seq<Option<Extracted>>): (r: seq<PageData>)
    ensures |r| <= |results|
  {
    if results == [] then []
    else KeptPages(results[0]) + Fetched(results[1..])
  }

  /** While the crawl stays under `maxPages` pages, merging queues the links of every fetched page, in order. */
  lemma {:induction false} MergeQueues(f: Frontier, results: seq<Option<Extracted>>, maxPages: nat)
    ensures var r := Merge(f, results, maxPages);
      |r.pages| < maxPages ==> r.queue == f.queue + LinksOf(results)
    decreases |results|
  {
    if results != [] {
      var f' := MergeOne(f, results[0], maxPages);
      var r := Merge(f', results[1..], maxPages);
      assert Merge(f, results, maxPages) == r;
      MergeQueues(f', results[1..], maxPages);
      if |r.pages| < maxPages {
        assert |f'.pages| < maxPages;
        AppendAssoc(f.queue, KeptLinks(results[0]), LinksOf(results[1..]));
      }
    }
  }

  function KeptLinks(result: Option<Extracted>): seq<string> {
    if result.Some? then result.value.links else []
  }

  function KeptPages(result: Option<Extracted>): seq<PageData> {
    if result.Some? then [result.value.page] else []
  }

  /** The links of the fetches that succeeded, in order. */
  function LinksOf(results: seq<Option<Extracted>>): seq<string> {
    if results == [] then []
    else KeptLinks(results[0]) + LinksOf(results[1..])
  }

  lemma {:induction false} FetchedAppend(a: seq<Option<Extracted>>, b: seq<Option<Extracted>>)
    ensures Fetched(a + b) == Fetched(a) + Fetched(b)
    decreases |a|
  {
    if a == [] {
      assert a + b == b;
    } else {
      FetchedAppend(a[1..], b);
      assert (a + b)[1..] == a[1..] + b;
      var own := KeptPages(a[0]);
      assert Fetched(a + b) == own + Fetched(a[1..] + b);
      AppendAssoc(own, Fetched(a[1..]), Fetched(b));
    }
  }

  lemma {:induction false} LinksOfAppend(a: seq<Option<Extracted>>, b: seq<Option<Extracted>>)
    ensures LinksOf(a + b) == LinksOf(a) + LinksOf(b)
    decreases |a|
  {
    if a == [] {
      assert a + b == b;
    } else {
      LinksOfAppend(a[1..], b);
      assert (a + b)[1..] == a[1..] + b;
      var own := KeptLinks(a[0]);
      assert LinksOf(a + b) == own + LinksOf(a[1..] + b);
      AppendAssoc(own, LinksOf(a[1..]), LinksOf(b));
    }
  }

  /** Once the crawl is full, merging queues nothing more. */
  lemma {:induction false} MergeWhenFull(f: Frontier, results: seq<Option<Extracted>>, maxPages: nat)
    requires |f.pages| + 1 >= maxPages
    ensures Merge(f, results, maxPages).queue == f.queue
    decreases |results|
  {
    if results != [] {
      var f' := MergeOne(f, results[0], maxPages);
      assert f'.queue == f.queue;
      MergeWhenFull(f', results[1..], maxPages);
    }
  }

  /** The results of fetching a batch, in batch order. */
  function FetchAll(web: Web, origin: string, batch: seq<string>): (r: seq<Option<Extracted>>)
    ensures |r| == |batch|
    decreases |batch|
  {
    if batch == [] then []
    else [FetchPage(web, origin, batch[0])] + FetchAll(web, origin, batch[1..])
  }

  /** The result at each position is the fetch of the URL at that position. */
  lemma {:induction false} FetchAllAt(web: Web, origin: string, batch: seq<string>)
    ensures forall i :: 0 <= i < |batch| ==> FetchAll(web, origin, batch)[i] == FetchPage(web, origin, batch[i])
    decreases |batch|
  {
    if batch != [] {
      var rest := FetchAll(web, origin, batch[1..]);
      assert FetchAll(web, origin, batch) == [FetchPage(web, origin, batch[0])] + rest;
      FetchAllAt(web, origin, batch[1..]);
      forall i | 0 < i < |batch| ensures rest[i - 1] == FetchPage(web, origin, batch[i]) {
        assert batch[1..][i - 1] == batch[i];
      }
    }
  }

  /** Fetching two lists of URLs one after the other gives the results of the first, then those of the second. */
  lemma {:induction false} FetchAllAppend(web: Web, origin: string, a: seq<string>, b: seq<string>)
    ensures FetchAll(web, origin, a + b) == FetchAll(web, origin, a) + FetchAll(web, origin, b)
    decreases |a|
  {
    if a == [] {
      assert a + b == b;
    } else {
      FetchAllAppend(web, origin, a[1..], b);
      assert (a + b)[1..] == a[1..] + b;
      AppendAssoc([FetchPage(web, origin, a[0])], FetchAll(web, origin, a[1..]), FetchAll(web, origin, b));
    }
  }

  /** `Crawling pages a–b of c…`. */
  function BatchMessage(pages: nat, batch: nat, known: nat, maxPages: nat): string {
    "Crawling pages " + NatToString(pages + 1) + "–" + NatToString(Min(pages + batch, maxPages))
    + " of " + NatToString(Min(known, maxPages)) + "…"
  }

  function DoneMessage(n: nat): string {
    "Crawl complete — " + NatToString(n) + " page" + (if n != 1 then "s" else "") + " found"
  }

  function FetchingMessage(rootUrl: string): string {
    "Fetching " + rootUrl + "…"
  }

  function RootFailure(rootUrl: string): string {
    "Could not fetch " + rootUrl + " — server returned no HTML."
  }

  /** The site a crawl returns. */
  function Site(rootUrl: string, origin: string, g: Global, pages: seq<PageData>): SiteData {
    SiteData(rootUrl, origin, g.siteTitle, g.siteDescription, g.navLinks, g.colors, g.fonts,
             g.footerLinks, g.lang, pages)
  }

  /** Every batch has at most five URLs, none twice. */
  predicate GoodBatches(batches: seq<seq<string>>) {
    forall i :: 0 <= i < |batches| ==> 1 <= |batches[i]| <= BatchSize && NoDup(batches[i])
  }

  function Concat(batches: seq<seq<string>>): seq<string> {
    if batches == [] then [] else Concat(batches[..|batches| - 1]) + batches[|batches| - 1]
  }

  /**
   * `crawlSite(rawUrl, maxPages, onProgress)`. It reports its messages in
   * `messages`, and the URLs it fetched after the root, batch by batch, in
   * `batches`.
   *
   * The crawl throws when the root URL does not parse or the root fetch
   * gives no HTML. Otherwise the root page comes first, named `index.html`
   * and labelled `Home`; the page count stays within `maxPages + 4` (the
   * last batch can overshoot by four); every batch is at most five URLs,
   * and no URL is fetched twice, the root URL included.
   */
  method CrawlSite(web: Web, rawUrl: string, maxPages: nat)
    returns (result: Result<SiteData>, messages: seq<string>, batches: seq<seq<string>>)
    ensures var rootUrl := RootUrl(rawUrl);
      && (web.urls.parse(rootUrl).None? ==> result == Err(InvalidUrl) && messages == [])
      && (web.urls.parse(rootUrl).Some? ==> |messages| >= 1 && messages[0] == FetchingMessage(rootUrl))
      && (web.urls.parse(rootUrl).Some? && (web.fetch(rootUrl).None? || web.fetch(rootUrl) == Some([])) ==>
            result == Err(RootFailure(rootUrl)))
      && (result.Ok? <==> web.urls.parse(rootUrl).Some? && web.fetch(rootUrl).Some? && web.fetch(rootUrl) != Some([]))
    ensures result.Ok? ==>
      var rootUrl := RootUrl(rawUrl);
      var origin := web.urls.parse(rootUrl).value.origin;
      var doc := web.dom(web.fetch(rootUrl).value);
      Crawled(result.value, batches, messages, web, rootUrl, origin, ExtractPage(web.urls, doc, rootUrl, origin).value,
              ExtractGlobal(doc), maxPages)
  {
    var rootUrl := RootUrl(rawUrl);
    batches := [];
    var parsed := web.urls.parse(rootUrl);
    if parsed.None? {
      return Err(InvalidUrl), [], batches;
    }
    var origin := parsed.value.origin;
    messages := [FetchingMessage(rootUrl)];
    var rootHtml := web.fetch(rootUrl);
    if rootHtml.None? || rootHtml.value == [] {
      return Err(RootFailure(rootUrl)), messages, batches;
    }
    var doc := web.dom(rootHtml.value);
    var global := ExtractGlobal(doc);
    var rootData := ExtractPage(web.urls, doc, rootUrl, origin).value;

    var s := CrawlState(Frontier([rootData.page], rootData.links), {rootUrl}, [], messages);
    InitInv(s, web, origin, rootUrl, rootData, maxPages);
    s := CrawlLoop(web, origin, maxPages, s, rootUrl, rootData);
    var pages := [s.f.pages[0].(filename := "index.html", navLabel := "Home")] + s.f.pages[1..];
    batches := s.batches;
    messages := s.messages + [DoneMessage(|pages|)];
    result := Ok(Site(rootUrl, origin, global, pages));
    Finished(s, web, rootUrl, origin, rootData, global, maxPages);
  }

  /**
   * What a crawl that got past its root returns: the site with the root's
   * global data; between one and `maxPages + 4` pages (one when `maxPages`
   * is at most one), the first being the root page named `index.html` and
   * labelled `Home`, the others the pages of the fetches of the batches'
   * URLs that succeeded, in batch order; batches of at most five distinct
   * URLs that together never repeat a URL nor fetch the root URL again; and
   * the closing message. A crawl that ends with fewer than `maxPages` pages
   * ran out of queue: every link of the root and of the fetched pages was
   * fetched (or is the root URL).
   */
  ghost predicate Crawled(site: SiteData, batches: seq<seq<string>>, messages: seq<string>, web: Web, rootUrl: string,
                          origin: string, root: Extracted, global: Global, maxPages: nat) {
    && site == Site(rootUrl, origin, global, site.pages)
    && 1 <= |site.pages| <= Max(maxPages + 4, 1)
    && (maxPages <= 1 ==> |site.pages| == 1)
    && site.pages[0] == root.page.(filename := "index.html", navLabel := "Home")
    && site.pages[1..] == Fetched(FetchAll(web, origin, Concat(batches)))
    && (|site.pages| < maxPages ==>
          forall u :: u in root.links + LinksOf(FetchAll(web, origin, Concat(batches))) ==> u == rootUrl || u in Concat(batches))
    && GoodBatches(batches)
    && NoDup(Concat(batches)) && rootUrl !in Concat(batches)
    && |messages| >= 2 && messages[0] == FetchingMessage(rootUrl)
    && messages[|messages| - 1] == DoneMessage(|site.pages|)
  }

  lemma Finished(s: CrawlState, web: Web, rootUrl: string, origin: string, root: Extracted, global: Global, maxPages: nat)
    requires Inv(s, web, origin, rootUrl, root, maxPages)
    requires |s.f.queue| == 0 || |s.f.pages| >= maxPages
    ensures var pages := [s.f.pages[0].(filename := "index.html", navLabel := "Home")] + s.f.pages[1..];
      Crawled(Site(rootUrl, origin, global, pages), s.batches, s.messages + [DoneMessage(|pages|)],
              web, rootUrl, origin, root, global, maxPages)
  {
    var pages := [s.f.pages[0].(filename := "index.html", navLabel := "Home")] + s.f.pages[1..];
    assert pages[1..] == s.f.pages[1..];
  }

  /** `while (queue.length > 0 && pages.length < maxPages)`: turns until the queue is empty or the crawl is full. */
  method CrawlLoop(web: Web, origin: string, maxPages: nat, s0: CrawlState, rootUrl: string, root: Extracted)
    returns (s: CrawlState)
    requires Inv(s0, web, origin, rootUrl, root, maxPages)
    ensures Inv(s, web, origin, rootUrl, root, maxPages)
    ensures |s.f.queue| == 0 || |s.f.pages| >= maxPages
  {
    s := s0;
    while |s.f.queue| > 0 && |s.f.pages| < maxPages
      invariant Inv(s, web, origin, rootUrl, root, maxPages)
      decreases Max(maxPages - |s.f.pages|, 0), |s.f.queue|
    {
      StepInv(web, origin, maxPages, s, rootUrl, root);
      s := Step(web, origin, maxPages, s);
    }
  }

  /** The state of the crawl loop: pages and queue, the visited set, the batches fetched and the messages so far. */
  datatype CrawlState = CrawlState(f: Frontier, visited: set<string>, batches: seq<seq<string>>, messages: seq<string>)

  /**
   * One turn of the loop: the next five queued URLs leave the queue; those
   * not seen before, each once, are marked visited, fetched and merged.
   */
  function Step(web: Web, origin: string, maxPages: nat, s: CrawlState): CrawlState {
    var take := Prefix(s.f.queue, BatchSize);
    var rest := s.f.queue[|take|..];
    var batch := NextBatch(s.f.queue, s.visited);
    if batch == [] then s.(f := s.f.(queue := rest))
    else
      var visited := s.visited + set u | u in batch;
      CrawlState(
        Merge(Frontier(s.f.pages, rest), FetchAll(web, origin, batch), maxPages),
        visited,
        s.batches + [batch],
        s.messages + [BatchMessage(|s.f.pages|, |batch|, |visited| + |rest|, maxPages)])
  }

  /**
   * What the loop keeps true. Besides the bounds: the pages are the root
   * page and the successful fetches of the batches so far; and while the
   * crawl is not full, every link of the root and of the fetched pages has
   * been visited or is still queued.
   */
  ghost predicate Inv(s: CrawlState, web: Web, origin: string, rootUrl: string, root: Extracted, maxPages: nat) {
    && 1 <= |s.f.pages| <= Max(maxPages + 4, 1)
    && s.f.pages[0] == root.page
    && s.f.pages == [root.page] + Fetched(FetchAll(web, origin, Concat(s.batches)))
    && Closed(s, root.links + LinksOf(FetchAll(web, origin, Concat(s.batches))), maxPages)
    && (maxPages <= 1 ==> |s.f.pages| == 1)
    && |s.messages| >= 1 && s.messages[0] == FetchingMessage(rootUrl)
    && GoodBatches(s.batches)
    && NoDup(Concat(s.batches))
    && (forall u :: u in Concat(s.batches) <==> u in s.visited && u != rootUrl)
    && rootUrl in s.visited
  }

  /** While the crawl is not full, every one of `links` has been visited or is still queued. */
  ghost predicate Closed(s: CrawlState, links: seq<string>, maxPages: nat) {
    |s.f.pages| < maxPages ==> forall u :: u in links ==> u in s.visited || u in s.f.queue
  }

  lemma InitInv(s: CrawlState, web: Web, origin: string, rootUrl: string, root: Extracted, maxPages: nat)
    requires s.f == Frontier([root.page], root.links) && s.visited == {rootUrl} && s.batches == []
    requires s.messages == [FetchingMessage(rootUrl)]
    ensures Inv(s, web, origin, rootUrl, root, maxPages)
  {
    assert Concat(s.batches) == [];
    assert FetchAll(web, origin, []) == [];
    assert root.links + LinksOf([]) == root.links;
  }

  /**
   * A turn keeps the invariant and makes progress: either pages are added,
   * or no page is and the queue shrinks.
   */
  lemma StepInv(web: Web, origin: string, maxPages: nat, s: CrawlState, rootUrl: string, root: Extracted)
    requires Inv(s, web, origin, rootUrl, root, maxPages)
    requires |s.f.queue| > 0 && |s.f.pages| < maxPages
    ensures var t := Step(web, origin, maxPages, s);
      && Inv(t, web, origin, rootUrl, root, maxPages)
      && (|t.f.pages| > |s.f.pages| || (|t.f.pages| == |s.f.pages| && |t.f.queue| < |s.f.queue|))
  {
    var batch := NextBatch(s.f.queue, s.visited);
    var t := Step(web, origin, maxPages, s);
    StepPages(web, origin, maxPages, s, root);
    StepClosed(web, origin, maxPages, s, rootUrl, root);
    if batch != [] {
      var take := Prefix(s.f.queue, BatchSize);
      var rest := s.f.queue[|take|..];
      ConcatBatch(s.batches, batch, s.visited, rootUrl);
      var results := FetchAll(web, origin, batch);
      assert t.f == Merge(Frontier(s.f.pages, rest), results, maxPages);
      assert t.f.pages[0] == t.f.pages[..|s.f.pages|][0];
      assert GoodBatches(t.batches) by {
        forall i | 0 <= i < |t.batches| ensures 1 <= |t.batches[i]| <= BatchSize && NoDup(t.batches[i]) {
          if i < |s.batches| {
            assert t.batches[i] == s.batches[i];
          }
        }
      }
      assert |t.f.pages| == |s.f.pages| ==> |t.f.queue| == |rest|;
    }
  }

  /** A turn appends the pages of its batch's successful fetches. */
  lemma StepPages(web: Web, origin: string, maxPages: nat, s: CrawlState, root: Extracted)
    requires s.f.pages == [root.page] + Fetched(FetchAll(web, origin, Concat(s.batches)))
    ensures var t := Step(web, origin, maxPages, s);
      t.f.pages == [root.page] + Fetched(FetchAll(web, origin, Concat(t.batches)))
  {
    var batch := NextBatch(s.f.queue, s.visited);
    var t := Step(web, origin, maxPages, s);
    StepShape(web, origin, maxPages, s);
    if batch != [] {
      PagesAfterBatch(web, origin, root.page, s.batches, batch, s.f.pages);
    }
  }

  /** What a turn changes: nothing but the queue when its batch is empty, else the batch is recorded and its pages appended. */
  lemma StepShape(web: Web, origin: string, maxPages: nat, s: CrawlState)
    ensures var t := Step(web, origin, maxPages, s);
      var batch := NextBatch(s.f.queue, s.visited);
      && (batch == [] ==> t.f.pages == s.f.pages && t.batches == s.batches)
      && (batch != [] ==> t.f.pages == s.f.pages + Fetched(FetchAll(web, origin, batch)) && t.batches == s.batches + [batch])
  {
  }

  lemma PagesAfterBatch(web: Web, origin: string, rootPage: PageData, batches: seq<seq<string>>, batch: seq<string>, pages: seq<PageData>)
    requires pages == [rootPage] + Fetched(FetchAll(web, origin, Concat(batches)))
    ensures pages + Fetched(FetchAll(web, origin, batch)) == [rootPage] + Fetched(FetchAll(web, origin, Concat(batches + [batch])))
  {
    var c := Concat(batches);
    var fc := FetchAll(web, origin, c);
    var fb := FetchAll(web, origin, batch);
    ConcatSnoc(batches, batch);
    FetchAllAppend(web, origin, c, batch);
    FetchedAppend(fc, fb);
    AppendAssoc([rootPage], Fetched(fc), Fetched(fb));
  }

  lemma AppendAssoc<T>(a: seq<T>, b: seq<T>, c: seq<T>)
    ensures (a + b) + c == a + (b + c)
  {
  }

  lemma ConcatSnoc(batches: seq<seq<string>>, batch: seq<string>)
    ensures Concat(batches + [batch]) == Concat(batches) + batch
  {
    assert (batches + [batch])[..|batches|] == batches;
  }

  /** A turn keeps every link known so far visited or queued, and queues the new pages' links, while there is room. */
  lemma StepClosed(web: Web, origin: string, maxPages: nat, s: CrawlState, rootUrl: string, root: Extracted)
    requires Closed(s, root.links + LinksOf(FetchAll(web, origin, Concat(s.batches))), maxPages)
    ensures var t := Step(web, origin, maxPages, s);
      Closed(t, root.links + LinksOf(FetchAll(web, origin, Concat(t.batches))), maxPages)
  {
    var t := Step(web, origin, maxPages, s);
    var take := Prefix(s.f.queue, BatchSize);
    var rest := s.f.queue[|take|..];
    var batch := NextBatch(s.f.queue, s.visited);
    StepQueue(web, origin, maxPages, s);
    if |t.f.pages| < maxPages {
      var known := root.links + LinksOf(FetchAll(web, origin, Concat(s.batches)));
      if batch != [] {
        var found := LinksOf(FetchAll(web, origin, batch));
        LinksAfterBatch(web, origin, root.links, s.batches, batch);
        StillReachable(known, found, s.f.queue, take, rest, s.visited, t.visited, t.f.queue);
      } else {
        StillReachable(known, [], s.f.queue, take, rest, s.visited, t.visited, t.f.queue);
        assert known + [] == known;
      }
    }
  }

  /**
   * Links that were visited or queued stay so when the first queued URLs
   * become visited and the rest stay queued; newly found links are queued.
   */
  lemma StillReachable(known: seq<string>, found: seq<string>, queue: seq<string>, take: seq<string>, rest: seq<string>,
                       visited: set<string>, visited': set<string>, queue': seq<string>)
    requires forall u :: u in known ==> u in visited || u in queue
    requires queue == take + rest && visited <= visited'
    requires forall u :: u in take ==> u in visited'
    requires queue' == rest + found
    ensures forall u :: u in known + found ==> u in visited' || u in queue'
  {
  }

  /**
   * What a turn does to the queue: the first five queued URLs all end up
   * visited, the rest stay queued, and, while there is room, the links of
   * the batch's pages follow them.
   */
  lemma StepQueue(web: Web, origin: string, maxPages: nat, s: CrawlState)
    ensures var t := Step(web, origin, maxPages, s);
      var take := Prefix(s.f.queue, BatchSize);
      var rest := s.f.queue[|take|..];
      var batch := NextBatch(s.f.queue, s.visited);
      && s.f.queue == take + rest
      && s.visited <= t.visited
      && (forall u :: u in take ==> u in t.visited)
      && (batch == [] ==> t.f == s.f.(queue := rest) && t.batches == s.batches)
      && (batch != [] ==> t.batches == s.batches + [batch])
      && (batch != [] && |t.f.pages| < maxPages ==> t.f.queue == rest + LinksOf(FetchAll(web, origin, batch)))
  {
    var take := Prefix(s.f.queue, BatchSize);
    var rest := s.f.queue[|take|..];
    var batch := NextBatch(s.f.queue, s.visited);
    if batch != [] {
      MergeQueues(Frontier(s.f.pages, rest), FetchAll(web, origin, batch), maxPages);
    }
  }

  lemma LinksAfterBatch(web: Web, origin: string, links: seq<string>, batches: seq<seq<string>>, batch: seq<string>)
    ensures links + LinksOf(FetchAll(web, origin, Concat(batches + [batch])))
         == (links + LinksOf(FetchAll(web, origin, Concat(batches)))) + LinksOf(FetchAll(web, origin, batch))
  {
    var c := Concat(batches);
    var fc := FetchAll(web, origin, c);
    var fb := FetchAll(web, origin, batch);
    ConcatSnoc(batches, batch);
    FetchAllAppend(web, origin, c, batch);
    LinksOfAppend(fc, fb);
    AppendAssoc(links, LinksOf(fc), LinksOf(fb));
  }

  /** A new batch of unvisited distinct URLs keeps the fetched list duplicate-free and away from the root. */
  lemma ConcatBatch(batches: seq<seq<string>>, batch: seq<string>, visited: set<string>, rootUrl: string)
    requires NoDup(Concat(batches)) && NoDup(batch)
    requires forall u :: u in Concat(batches) <==> u in visited && u != rootUrl
    requires rootUrl in visited
    requires forall u :: u in batch ==> u !in visited
    ensures Concat(batches + [batch]) == Concat(batches) + batch
    ensures NoDup(Concat(batches) + batch)
    ensures forall u :: u in Concat(batches) + batch <==> u in visited + (set u | u in batch) && u != rootUrl
  {
    assert (batches + [batch])[..|batches|] == batches;
    var all := Concat(batches) + batch;
    var n := |Concat(batches)|;
    forall i, j | 0 <= i < j < |all| ensures all[i] != all[j] {
      if j >= n && i < n {
        assert all[i] in Concat(batches);
        assert all[j] in batch;
      } else if i >= n {
        assert all[i] == batch[i - n] && all[j] == batch[j - n];
      }
    }
  }
}
