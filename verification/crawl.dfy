/**
  The crawl frontier: a pending set seeded with the seed URL, a visited set,
  and a page budget. Each round pops an arbitrary pending URL, visits it if it
  is new, appends its keywords, and adds its unvisited in-scope links to the
  pending set, until the pending set is empty or the budget is spent.
 */
module Crawl {
  import opened Prefix
  import opened Seqs
  import opened Fetching
  import opened Links

  /**
    The crawler's state. `order` records the visited URLs in visit order; the
    program keeps only the set, but the order is what fixes the keyword list.
   */
  datatype Frontier = Frontier(pending: set<string>, visited: set<string>, order: seq<string>, keywords: seq<string>)

  /** The keywords a page contributes; a page whose extraction failed contributes none. */
  function PageKeywords(site: Site, url: string): (r: seq<string>)
    ensures site.keywordsOf(url).Failed? ==> r == []
  {
    match site.keywordsOf(url)
    case Failed => []
    case Fetched(kws) => kws
  }

  /** The in-scope links found on the page at `url`. */
  function LinksOf(site: Site, baseUrl: string, url: string): (r: set<string>)
    ensures forall u :: u in r ==> StartsWith(u, baseUrl)
  {
    PageLinks(baseUrl, site.hrefsOf(url))
  }

  /** Keywords gathered by visiting the pages of `order` one after another. */
  function Gathered(site: Site, order: seq<string>): seq<string>
    decreases |order|
  {
    if order == [] then []
    else Gathered(site, order[..|order| - 1]) + PageKeywords(site, order[|order| - 1])
  }

  /** Every link found on the pages of `order`. */
  function Discovered(site: Site, baseUrl: string, order: seq<string>): set<string>
    decreases |order|
  {
    if order == [] then {}
    else Discovered(site, baseUrl, order[..|order| - 1]) + LinksOf(site, baseUrl, order[|order| - 1])
  }

  /**
    The frontier invariant: the visited set is the set of visited URLs, none
    visited twice; pending holds exactly the known URLs (seed or discovered)
    not yet visited; each URL was known when it was visited; and the keyword
    list is the concatenation of the visited pages' keywords in visit order.
   */
  ghost predicate Valid(site: Site, baseUrl: string, f: Frontier) {
    && f.visited == Elems(f.order)
    && |f.visited| == |f.order|
    && Distinct(f.order)
    && f.pending == ({baseUrl} + Discovered(site, baseUrl, f.order)) - f.visited
    && f.keywords == Gathered(site, f.order)
    && KnownWhenVisited(site, baseUrl, f.order)
  }

  /** Each URL of `order` was the seed or a link found on an earlier page of `order`. */
  ghost predicate KnownWhenVisited(site: Site, baseUrl: string, order: seq<string>)
    decreases |order|
  {
    order == [] ||
    (var before := order[..|order| - 1];
     KnownWhenVisited(site, baseUrl, before) && order[|order| - 1] in {baseUrl} + Discovered(site, baseUrl, before))
  }

  /** The state a crawl starts from: only the seed is pending, nothing is visited. */
  function Start(baseUrl: string): (f: Frontier)
    ensures forall site :: Valid(site, baseUrl, f)
  {
    Frontier({baseUrl}, {}, [], [])
  }

  /** The loop guard: something is pending and the budget is not spent. */
  predicate CanContinue(f: Frontier, maxPages: int) {
    f.pending != {} && |f.visited| < maxPages
  }

  /**
    One round after `url` has been popped from the pending set. A URL not yet
    visited is marked visited, its keywords are appended and its unvisited
    links join the pending set; an already visited one is just dropped.
   */
  function Visit(site: Site, baseUrl: string, f: Frontier, url: string): (r: Frontier)
    requires url in f.pending
    ensures url !in r.pending && url in r.visited
    ensures f.visited <= r.visited && r.visited - f.visited <= {url}
    ensures |r.visited| <= |f.visited| + 1
    ensures f.pending !! f.visited ==> r.pending !! r.visited
    ensures forall u :: u in r.pending ==> u in f.pending || u in LinksOf(site, baseUrl, url)
    ensures url in f.visited ==> r.visited == f.visited && r.keywords == f.keywords
  {
    var pending := f.pending - {url};
    if url !in f.visited then
      var visited := f.visited + {url};
      var newUrls := LinksOf(site, baseUrl, url);
      Frontier(pending + (newUrls - visited), visited, f.order + [url], f.keywords + PageKeywords(site, url))
    else
      Frontier(pending, f.visited, f.order, f.keywords)
  }

  /** Visiting one more page extends the discovered links by that page's links. */
  lemma DiscoveredSnoc(site: Site, baseUrl: string, order: seq<string>, url: string)
    ensures Discovered(site, baseUrl, order + [url]) == Discovered(site, baseUrl, order) + LinksOf(site, baseUrl, url)
  {
    assert (order + [url])[..|order|] == order;
  }

  /** Visiting one more page appends that page's keywords. */
  lemma GatheredSnoc(site: Site, order: seq<string>, url: string)
    ensures Gathered(site, order + [url]) == Gathered(site, order) + PageKeywords(site, url)
  {
    assert (order + [url])[..|order|] == order;
  }

  /** A visit order built URL by URL from known URLs has every URL known at its position. */
  lemma {:induction false} KnownWhenVisitedEach(site: Site, baseUrl: string, order: seq<string>)
    requires KnownWhenVisited(site, baseUrl, order)
    ensures forall i :: 0 <= i < |order| ==> order[i] in {baseUrl} + Discovered(site, baseUrl, order[..i])
    decreases |order|
  {
    if order != [] {
      var n := |order| - 1;
      var before := order[..n];
      KnownWhenVisitedEach(site, baseUrl, before);
      forall i | 0 <= i < |order|
        ensures order[i] in {baseUrl} + Discovered(site, baseUrl, order[..i])
      {
        if i < n {
          assert before[i] == order[i] && before[..i] == order[..i];
        }
      }
    }
  }

  /** Conversely, every URL known at its position makes the whole order known URL by URL. */
  lemma {:induction false} EachKnownWhenVisited(site: Site, baseUrl: string, order: seq<string>)
    requires forall i :: 0 <= i < |order| ==> order[i] in {baseUrl} + Discovered(site, baseUrl, order[..i])
    ensures KnownWhenVisited(site, baseUrl, order)
    decreases |order|
  {
    if order != [] {
      var n := |order| - 1;
      var before := order[..n];
      forall i | 0 <= i < n
        ensures before[i] in {baseUrl} + Discovered(site, baseUrl, before[..i])
      {
        assert before[i] == order[i] && before[..i] == order[..i];
      }
      EachKnownWhenVisited(site, baseUrl, before);
    }
  }

  /** `KnownWhenVisited` says exactly that each visited URL was known at its turn. */
  lemma KnownWhenVisitedAt(site: Site, baseUrl: string, order: seq<string>)
    ensures KnownWhenVisited(site, baseUrl, order)
        <==> forall i :: 0 <= i < |order| ==> order[i] in {baseUrl} + Discovered(site, baseUrl, order[..i])
  {
    if KnownWhenVisited(site, baseUrl, order) {
      KnownWhenVisitedEach(site, baseUrl, order);
    }
    if forall i :: 0 <= i < |order| ==> order[i] in {baseUrl} + Discovered(site, baseUrl, order[..i]) {
      EachKnownWhenVisited(site, baseUrl, order);
    }
  }

  /** Visiting a URL not yet visited keeps the visit order free of repeats and in step with the visited set. */
  lemma VisitedSnoc(visited: set<string>, order: seq<string>, url: string)
    requires visited == Elems(order) && |visited| == |order| && Distinct(order)
    requires url !in visited
    ensures visited + {url} == Elems(order + [url])
    ensures |visited + {url}| == |order + [url]|
    ensures Distinct(order + [url])
  {
    assert Elems(order + [url]) == Elems(order) + {url};
  }

  /** The pending set after a first visit is again the known URLs not yet visited. */
  lemma PendingSnoc(site: Site, baseUrl: string, f: Frontier, url: string)
    requires f.pending == ({baseUrl} + Discovered(site, baseUrl, f.order)) - f.visited
    requires url in f.pending
    ensures var visited := f.visited + {url};
      (f.pending - {url}) + (LinksOf(site, baseUrl, url) - visited)
      == ({baseUrl} + Discovered(site, baseUrl, f.order + [url])) - visited
  {
    DiscoveredSnoc(site, baseUrl, f.order, url);
  }

  /** Marking a new pending URL visited, with its keywords and links, keeps the invariant. */
  lemma FirstVisitKeepsValid(site: Site, baseUrl: string, f: Frontier, url: string)
    requires Valid(site, baseUrl, f) && url in f.pending
    ensures var visited := f.visited + {url};
      Valid(site, baseUrl, Frontier((f.pending - {url}) + (LinksOf(site, baseUrl, url) - visited),
                                    visited, f.order + [url], f.keywords + PageKeywords(site, url)))
  {
    VisitedSnoc(f.visited, f.order, url);
    PendingSnoc(site, baseUrl, f, url);
    GatheredSnoc(site, f.order, url);
    assert (f.order + [url])[..|f.order|] == f.order;
  }

  /**
    A round keeps the frontier invariant, and because pending and visited are
    disjoint the popped URL is always new: the visited set grows by exactly one.
   */
  lemma VisitKeepsValid(site: Site, baseUrl: string, f: Frontier, url: string)
    requires Valid(site, baseUrl, f) && url in f.pending
    ensures Valid(site, baseUrl, Visit(site, baseUrl, f, url))
    ensures Visit(site, baseUrl, f, url).order == f.order + [url]
    ensures |Visit(site, baseUrl, f, url).visited| == |f.visited| + 1
  {
    assert url !in f.visited;
    FirstVisitKeepsValid(site, baseUrl, f, url);
  }

  /** Everything discovered from any pages lies in scope. */
  lemma {:induction false} DiscoveredInScope(site: Site, baseUrl: string, order: seq<string>)
    ensures forall u :: u in Discovered(site, baseUrl, order) ==> StartsWith(u, baseUrl)
    decreases |order|
  {
    if order != [] {
      DiscoveredInScope(site, baseUrl, order[..|order| - 1]);
    }
  }

  /** Every visited URL is the seed or was discovered on some visited page. */
  lemma VisitedKnown(site: Site, baseUrl: string, order: seq<string>)
    requires forall i :: 0 <= i < |order| ==> order[i] in {baseUrl} + Discovered(site, baseUrl, order[..i])
    ensures forall i :: 0 <= i < |order| ==> order[i] in {baseUrl} + Discovered(site, baseUrl, order)
  {
    forall i | 0 <= i < |order|
      ensures order[i] in {baseUrl} + Discovered(site, baseUrl, order)
    {
      DiscoveredPrefix(site, baseUrl, order, i);
    }
  }

  /** Every visited URL lies in scope. */
  lemma VisitedInScope(site: Site, baseUrl: string, f: Frontier)
    requires f.visited == Elems(f.order)
    requires forall i :: 0 <= i < |f.order| ==> f.order[i] in {baseUrl} + Discovered(site, baseUrl, f.order[..i])
    ensures forall u :: u in f.visited ==> StartsWith(u, baseUrl)
  {
    VisitedKnown(site, baseUrl, f.order);
    DiscoveredInScope(site, baseUrl, f.order);
    StartsWithSelf(baseUrl);
    forall u | u in f.visited
      ensures StartsWith(u, baseUrl)
    {
      assert u in Elems(f.order);
      var i :| 0 <= i < |f.order| && f.order[i] == u;
    }
  }

  /** The first visited URL is the seed. */
  lemma FirstIsSeed(site: Site, baseUrl: string, order: seq<string>)
    requires forall i :: 0 <= i < |order| ==> order[i] in {baseUrl} + Discovered(site, baseUrl, order[..i])
    ensures 0 < |order| ==> order[0] == baseUrl
  {
    if 0 < |order| {
      assert order[0] in {baseUrl} + Discovered(site, baseUrl, order[..0]);
      assert order[..0] == [];
    }
  }

  /** Links discovered on a prefix of the visit order are discovered on the whole of it. */
  lemma {:induction false} DiscoveredPrefix(site: Site, baseUrl: string, order: seq<string>, n: nat)
    requires n <= |order|
    ensures Discovered(site, baseUrl, order[..n]) <= Discovered(site, baseUrl, order)
    decreases |order|
  {
    if n < |order| {
      assert order[..|order| - 1][..n] == order[..n];
      DiscoveredPrefix(site, baseUrl, order[..|order| - 1], n);
    } else {
      assert order[..n] == order;
    }
  }

  /** When the loop stops with budget to spare, every known URL has been visited. */
  lemma ExitClosed(site: Site, baseUrl: string, maxPages: int, f: Frontier)
    requires f.pending == ({baseUrl} + Discovered(site, baseUrl, f.order)) - f.visited
    requires !CanContinue(f, maxPages)
    ensures |f.visited| < maxPages ==> {baseUrl} + Discovered(site, baseUrl, f.order) <= f.visited
  {
    if |f.visited| < maxPages {
      forall u | u in {baseUrl} + Discovered(site, baseUrl, f.order)
        ensures u in f.visited
      {
        assert u in f.visited || u in f.pending;
      }
    }
  }

  /** With a positive budget the loop runs at least once, so the seed is visited first. */
  lemma ExitSeedFirst(site: Site, baseUrl: string, maxPages: int, f: Frontier)
    requires |f.visited| == |f.order| && !CanContinue(f, maxPages)
    requires 0 < maxPages && f.visited == {} ==> f.pending == {baseUrl}
    requires forall i :: 0 <= i < |f.order| ==> f.order[i] in {baseUrl} + Discovered(site, baseUrl, f.order[..i])
    ensures 0 < maxPages ==> 0 < |f.order| && f.order[0] == baseUrl
  {
    FirstIsSeed(site, baseUrl, f.order);
  }

  /**
    The crawl. It visits at most `max(maxPages, 0)` pages, never one twice,
    only the seed and URLs in scope, each one found on an earlier page (or the
    seed, visited first); it stops with the pending set empty or the budget
    spent, and if the budget was not spent every known link was visited.
   */
  method Crawl(site: Site, baseUrl: string, maxPages: int) returns (f: Frontier)
    ensures Valid(site, baseUrl, f)
    ensures |f.visited| <= maxPages || f.visited == {}
    ensures f.pending == {} || |f.visited| >= maxPages
    ensures Distinct(f.order) && f.visited == Elems(f.order)
    ensures f.keywords == Gathered(site, f.order)
    ensures forall u :: u in f.visited ==> StartsWith(u, baseUrl)
    ensures forall i :: 0 < i < |f.order| ==> f.order[i] in Discovered(site, baseUrl, f.order[..i]) || f.order[i] == baseUrl
    ensures 0 < maxPages ==> 0 < |f.order| && f.order[0] == baseUrl
    ensures |f.visited| < maxPages ==> {baseUrl} + Discovered(site, baseUrl, f.order) <= f.visited
  {
    f := Start(baseUrl);
    while CanContinue(f, maxPages)
      invariant Valid(site, baseUrl, f)
      invariant |f.visited| <= maxPages || f.visited == {}
      invariant 0 < maxPages && f.visited == {} ==> f.pending == {baseUrl}
      decreases maxPages - |f.visited|, |f.pending|
    {
      var url :| url in f.pending;
      VisitKeepsValid(site, baseUrl, f, url);
      f := Visit(site, baseUrl, f, url);
    }
    KnownWhenVisitedAt(site, baseUrl, f.order);
    VisitedInScope(site, baseUrl, f);
    ExitClosed(site, baseUrl, maxPages, f);
    ExitSeedFirst(site, baseUrl, maxPages, f);
  }
}
