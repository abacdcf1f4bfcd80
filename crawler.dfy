/**
 * The frontier loop of `scrapeWebsite` (scripts/scrape-website.js): starting
 * from the root path, it repeatedly takes the oldest pending path, marks it
 * visited, fetches `BASE_URL + path`, and on success records the page and
 * queues the page's links that are neither visited nor already pending; it
 * stops when nothing is pending or the page budget is used up, and then builds
 * the knowledge-base document.
 *
 * The source keeps `toVisit`, `visited` and the page list in module-level
 * variables; here they are the fields of a `CrawlState` value (for the
 * specification) and local variables of `ScrapeWebsite` (for the loop).
 * `toVisit` is a JavaScript `Set`, whose iteration order is insertion order:
 * it is a sequence without duplicates.
 */
module Crawler {
  import opened Wrappers
  import opened JsStrings
  import opened LinkFilter
  import opened PageExtract

  const BaseUrl: string := "https://cflar.dream.press"
  /** The hostname of `BaseUrl`, and so of every page URL `BaseUrl + path`. */
  const BaseHost: string := "cflar.dream.press"
  const MaxPages: nat := 100

  datatype CrawlState = CrawlState(toVisit: seq<Path>, visited: set<Path>, pages: seq<PageRecord>)

  /** The output document (its timestamp is not modelled). */
  datatype KnowledgeBase = KnowledgeBase(baseUrl: string, pageCount: nat, pages: seq<PageRecord>)

  /** Before the loop: only the root path is pending. */
  function Initial(): CrawlState
  {
    CrawlState(["/"], {}, [])
  }

  /** The loop condition. */
  predicate Continues(st: CrawlState)
  {
    |st.toVisit| > 0 && |st.visited| < MaxPages
  }

  /** The inner for-of loop: add each link that is neither visited nor pending. */
  function Enqueue(toVisit: seq<Path>, visited: set<Path>, links: seq<Path>): seq<Path>
  {
    if links == [] then toVisit
    else
      var queue := Enqueue(toVisit, visited, links[..|links| - 1]);
      var link := links[|links| - 1];
      if link !in visited && link !in queue then queue + [link] else queue
  }

  /**
   * The rest of an iteration once `path` is taken off the queue and found
   * unvisited: mark it, then record the page and queue its links if it was scraped.
   */
  function Visit(rest: seq<Path>, visited: set<Path>, pages: seq<PageRecord>, path: Path,
                 result: Option<ScrapedPage>): CrawlState
  {
    match result
    case None => CrawlState(rest, visited + {path}, pages)
    case Some(page) => CrawlState(Enqueue(rest, visited + {path}, page.links), visited + {path}, pages + [page.record])
  }

  /** One iteration of the crawl loop, for a fetch oracle from URL to outcome. */
  function Step(st: CrawlState, fetch: string -> FetchOutcome): CrawlState
    requires |st.toVisit| > 0
  {
    var path := st.toVisit[0];
    if path in st.visited then st.(toVisit := st.toVisit[1..])
    else Visit(st.toVisit[1..], st.visited, st.pages, path, PageResult(BaseUrl + path, BaseHost, fetch(BaseUrl + path)))
  }

  /** The crawl loop run to its end. */
  function Run(st: CrawlState, fetch: string -> FetchOutcome): CrawlState
    decreases MaxPages - |st.visited|, |st.toVisit|
  {
    if Continues(st) then Run(Step(st, fetch), fetch) else st
  }

  /** The path a page URL `BaseUrl + path` was fetched for. */
  function PathOf(url: string): string
  {
    if StartsWith(url, BaseUrl) then url[|BaseUrl|..] else url
  }

  /**
   * The frontier invariant: pending paths are distinct and not visited, the
   * budget holds, and the records are for distinct visited paths.
   */
  predicate Inv(st: CrawlState)
  {
    && NoDuplicates(st.toVisit)
    && (forall p :: p in st.toVisit ==> p !in st.visited)
    && |st.visited| <= MaxPages
    && |st.pages| <= |st.visited|
    && (forall i :: 0 <= i < |st.pages| ==> StartsWith(st.pages[i].url, BaseUrl) && PathOf(st.pages[i].url) in st.visited)
    && (forall i, j :: 0 <= i < j < |st.pages| ==> st.pages[i].url != st.pages[j].url)
  }

  /**
   * Queueing keeps the old pending paths first and in order (first in, first
   * out), adds only links that are in neither set, adds each at most once, and
   * adds every link that is not visited.
   */
  lemma {:induction false} EnqueueFrontier(toVisit: seq<Path>, visited: set<Path>, links: seq<Path>)
    requires NoDuplicates(toVisit)
    requires forall p :: p in toVisit ==> p !in visited
    ensures var q := Enqueue(toVisit, visited, links);
      && |toVisit| <= |q| && q[..|toVisit|] == toVisit
      && NoDuplicates(q)
      && (forall p :: p in q ==> p !in visited)
      && (forall i :: |toVisit| <= i < |q| ==> q[i] in links && q[i] !in toVisit)
      && (forall l :: l in links && l !in visited ==> l in q)
  {
    if links != [] {
      var front := links[..|links| - 1];
      EnqueueFrontier(toVisit, visited, front);
      var q := Enqueue(toVisit, visited, front);
      var link := links[|links| - 1];
      assert forall l :: l in front ==> l in links;
      forall l | l in links && l !in visited ensures l in Enqueue(toVisit, visited, links) {
        if l != link {
          var i :| 0 <= i < |links| && links[i] == l;
          assert front[i] == l;
        }
      }
      if link !in visited && link !in q {
        assert (q + [link])[..|toVisit|] == q[..|toVisit|];
      }
    }
  }

  /** A page's links join the frontier only when they are neither visited nor pending. */
  lemma EnqueueOnlyNew(toVisit: seq<Path>, visited: set<Path>, links: seq<Path>, p: Path)
    requires NoDuplicates(toVisit)
    requires forall p :: p in toVisit ==> p !in visited
    requires p in Enqueue(toVisit, visited, links) && p !in toVisit
    ensures p in links && p !in visited
  {
    EnqueueFrontier(toVisit, visited, links);
    var q := Enqueue(toVisit, visited, links);
    assert forall j :: 0 <= j < |toVisit| ==> q[j] == q[..|toVisit|][j];
  }

  lemma BaseUrlPath(path: Path)
    ensures StartsWith(BaseUrl + path, BaseUrl)
    ensures PathOf(BaseUrl + path) == path
  {
    assert (BaseUrl + path)[..|BaseUrl|] == BaseUrl;
    assert (BaseUrl + path)[|BaseUrl|..] == path;
  }

  /** A scraped page's record carries the URL it was fetched from. */
  predicate ResultFor(result: Option<ScrapedPage>, path: Path)
  {
    result.Some? ==> result.value.record.url == BaseUrl + path
  }

  lemma PageResultFor(path: Path, outcome: FetchOutcome)
    ensures ResultFor(PageResult(BaseUrl + path, BaseHost, outcome), path)
  {
  }

  /** The queue after taking its head: still distinct and disjoint from the visited set once the head is added to it. */
  lemma TailFrontier(st: CrawlState)
    requires Inv(st) && |st.toVisit| > 0
    ensures NoDuplicates(st.toVisit[1..])
    ensures forall p :: p in st.toVisit[1..] ==> p !in st.visited + {st.toVisit[0]}
  {
    var rest := st.toVisit[1..];
    forall p | p in rest ensures p !in st.visited + {st.toVisit[0]} {
      var i :| 0 <= i < |rest| && rest[i] == p;
      assert st.toVisit[i + 1] == p;
    }
  }

  /** Visiting an unvisited path within the budget keeps the frontier invariant. */
  lemma VisitKeepsInv(st: CrawlState, result: Option<ScrapedPage>)
    requires Inv(st) && Continues(st)
    requires st.toVisit[0] !in st.visited && ResultFor(result, st.toVisit[0])
    ensures Inv(Visit(st.toVisit[1..], st.visited, st.pages, st.toVisit[0], result))
  {
    var path := st.toVisit[0];
    TailFrontier(st);
    BaseUrlPath(path);
    match result
    case None =>
    case Some(page) =>
      EnqueueFrontier(st.toVisit[1..], st.visited + {path}, page.links);
      var pages := st.pages + [page.record];
      forall i, j | 0 <= i < j < |pages| ensures pages[i].url != pages[j].url {
        if j == |st.pages| {
          assert PathOf(pages[i].url) in st.visited;
        }
      }
  }

  /** Each iteration of the loop keeps the frontier invariant. */
  lemma StepKeepsInv(st: CrawlState, fetch: string -> FetchOutcome)
    requires Inv(st) && Continues(st)
    ensures Inv(Step(st, fetch))
  {
    var path := st.toVisit[0];
    PageResultFor(path, fetch(BaseUrl + path));
    VisitKeepsInv(st, PageResult(BaseUrl + path, BaseHost, fetch(BaseUrl + path)));
  }

  /** Visiting keeps the rest of the queue first and in order, marks the path, and appends at most its record. */
  lemma VisitIsFifo(st: CrawlState, result: Option<ScrapedPage>)
    requires Inv(st) && Continues(st) && ResultFor(result, st.toVisit[0])
    ensures var next := Visit(st.toVisit[1..], st.visited, st.pages, st.toVisit[0], result);
      && |st.toVisit| - 1 <= |next.toVisit| && next.toVisit[..|st.toVisit| - 1] == st.toVisit[1..]
      && next.visited == st.visited + {st.toVisit[0]}
      && (next.pages == st.pages ||
          (|next.pages| == |st.pages| + 1 && next.pages[..|st.pages|] == st.pages &&
           next.pages[|st.pages|].url == BaseUrl + st.toVisit[0]))
  {
    TailFrontier(st);
    match result
    case None =>
    case Some(page) =>
      EnqueueFrontier(st.toVisit[1..], st.visited + {st.toVisit[0]}, page.links);
      assert (st.pages + [page.record])[..|st.pages|] == st.pages;
  }

  /** Within one iteration: the head is taken, the rest stays at the front of the queue, and at most its record is appended. */
  lemma StepIsFifo(st: CrawlState, fetch: string -> FetchOutcome)
    requires Inv(st) && Continues(st)
    ensures var next := Step(st, fetch);
      && |st.toVisit| - 1 <= |next.toVisit| && next.toVisit[..|st.toVisit| - 1] == st.toVisit[1..]
      && next.visited == st.visited + {st.toVisit[0]}
      && (next.pages == st.pages ||
          (|next.pages| == |st.pages| + 1 && next.pages[..|st.pages|] == st.pages &&
           next.pages[|st.pages|].url == BaseUrl + st.toVisit[0]))
  {
    var path := st.toVisit[0];
    PageResultFor(path, fetch(BaseUrl + path));
    VisitIsFifo(st, PageResult(BaseUrl + path, BaseHost, fetch(BaseUrl + path)));
  }

  /** A fetch failure records nothing and queues nothing; the crawl goes on with the next path. */
  lemma FailedFetchSkipped(st: CrawlState, fetch: string -> FetchOutcome)
    requires Inv(st) && Continues(st)
    requires PageResult(BaseUrl + st.toVisit[0], BaseHost, fetch(BaseUrl + st.toVisit[0])).None?
    ensures Step(st, fetch) == CrawlState(st.toVisit[1..], st.visited + {st.toVisit[0]}, st.pages)
  {
  }

  /** The loop unfolded once, and at its end. */
  lemma RunUnfold(st: CrawlState, fetch: string -> FetchOutcome)
    ensures Continues(st) ==> Run(st, fetch) == Run(Step(st, fetch), fetch)
    ensures !Continues(st) ==> Run(st, fetch) == st
  {
  }

  /** One iteration keeps the invariant, visits one more path and keeps the earlier records. */
  lemma StepProgress(st: CrawlState, fetch: string -> FetchOutcome)
    requires Inv(st) && Continues(st)
    ensures var next := Step(st, fetch);
      && Inv(next) && |next.visited| == |st.visited| + 1
      && |st.pages| <= |next.pages| && next.pages[..|st.pages|] == st.pages
  {
    StepKeepsInv(st, fetch);
    StepIsFifo(st, fetch);
    assert st.toVisit[0] !in st.visited;
  }

  lemma PrefixOfPrefix<T>(a: seq<T>, b: seq<T>, c: seq<T>)
    requires |a| <= |b| && b[..|a|] == a
    requires |b| <= |c| && c[..|b|] == b
    ensures |a| <= |c| && c[..|a|] == a
  {
    assert c[..|a|] == c[..|b|][..|a|];
  }

  /**
   * The loop ends with the invariant intact, the pending set empty or the budget
   * used up, and the records of the state it started from still first.
   */
  lemma {:induction false} RunKeepsInv(st: CrawlState, fetch: string -> FetchOutcome)
    requires Inv(st)
    ensures Inv(Run(st, fetch)) && !Continues(Run(st, fetch))
    ensures |st.pages| <= |Run(st, fetch).pages| && Run(st, fetch).pages[..|st.pages|] == st.pages
    decreases MaxPages - |st.visited|, |st.toVisit|
  {
    if Continues(st) {
      var next := Step(st, fetch);
      RunUnfold(st, fetch);
      StepProgress(st, fetch);
      RunKeepsInv(next, fetch);
      PrefixOfPrefix(st.pages, next.pages, Run(next, fetch).pages);
    }
  }

  /** The whole crawl: the budget holds, records have distinct URLs, and the loop has stopped. */
  lemma CrawlInvariants(fetch: string -> FetchOutcome)
    ensures var final := Run(Initial(), fetch);
      && Inv(final)
      && |final.pages| <= |final.visited| <= MaxPages
      && (final.toVisit == [] || |final.visited| == MaxPages)
  {
    RunKeepsInv(Initial(), fetch);
  }

  /** When the home page cannot be fetched, the crawl ends at once with no pages. */
  lemma HomeFailureGivesNoPages(fetch: string -> FetchOutcome)
    requires !fetch(BaseUrl + "/").Ok?
    ensures Run(Initial(), fetch) == CrawlState([], {"/"}, [])
  {
    RunUnfold(Initial(), fetch);
    assert Step(Initial(), fetch) == CrawlState([], {"/"}, []);
    RunUnfold(CrawlState([], {"/"}, []), fetch);
  }

  /** An anchor whose URL resolves on this site. */
  function SiteAnchor(path: Path): Anchor
  {
    Anchor(path, Some(Url(BaseHost, path)))
  }

  lemma AboutLinkKept()
    ensures LinkOf(SiteAnchor("/about/"), BaseHost) == Some("/about")
  {
    assert NormalizePath("/about/") == "/about";
    AcceptedByShape("/about");
  }

  lemma PostLinkDropped()
    ensures LinkOf(SiteAnchor("/blog/my-post-title"), BaseHost) == None
  {
    assert NormalizePath("/blog/my-post-title") == "/blog/my-post-title";
    BlogPostDropped();
  }

  lemma HomeLinkKept()
    ensures LinkOf(SiteAnchor("/"), BaseHost) == Some("/")
  {
    AcceptedByShape("/");
  }

  /** The home page of the example site links to the about page (with a trailing slash) and to a blog post. */
  lemma HomeLinks()
    ensures AcceptedLinks([SiteAnchor("/about/"), SiteAnchor("/blog/my-post-title")], BaseHost) == ["/about"]
  {
    AboutLinkKept();
    PostLinkDropped();
    var anchors := [SiteAnchor("/about/"), SiteAnchor("/blog/my-post-title")];
    assert anchors[..1] == [SiteAnchor("/about/")];
    assert [SiteAnchor("/about/")][..0] == [];
    assert AcceptedLinks(anchors[..1], BaseHost) == ["/about"];
  }

  /** The about page links back home. */
  lemma AboutLinks()
    ensures AcceptedLinks([SiteAnchor("/")], BaseHost) == ["/"]
  {
    HomeLinkKept();
    assert [SiteAnchor("/")][..0] == [];
  }

  /** A step that reaches an unvisited, fetchable path records that page and queues its links. */
  lemma StepFetches(st: CrawlState, fetch: string -> FetchOutcome, doc: Document)
    requires |st.toVisit| > 0 && st.toVisit[0] !in st.visited
    requires fetch(BaseUrl + st.toVisit[0]) == Ok(doc)
    ensures var path := st.toVisit[0];
      && Step(st, fetch).toVisit == Enqueue(st.toVisit[1..], st.visited + {path}, AcceptedLinks(doc.anchors, BaseHost))
      && Step(st, fetch).visited == st.visited + {path}
      && |Step(st, fetch).pages| == |st.pages| + 1
      && Step(st, fetch).pages[..|st.pages|] == st.pages
      && Step(st, fetch).pages[|st.pages|].url == BaseUrl + path
  {
    var path := st.toVisit[0];
    var r := PageResult(BaseUrl + path, BaseHost, fetch(BaseUrl + path));
    ScrapedRecordIdentity(BaseUrl + path, BaseHost, doc);
    assert Step(st, fetch) == Visit(st.toVisit[1..], st.visited, st.pages, path, r);
    VisitRecords(st.toVisit[1..], st.visited, st.pages, path, r);
  }

  /** Visiting a fetched page records it and queues its links. */
  lemma VisitRecords(rest: seq<Path>, visited: set<Path>, pages: seq<PageRecord>, path: Path, r: Option<ScrapedPage>)
    requires r.Some?
    ensures Visit(rest, visited, pages, path, r) ==
            CrawlState(Enqueue(rest, visited + {path}, r.value.links), visited + {path}, pages + [r.value.record])
  {
  }

  /** Visiting the example home page records it and queues the about page only. */
  lemma HomeStep(fetch: string -> FetchOutcome, home: Document, st: CrawlState)
    requires fetch(BaseUrl + "/") == Ok(home)
    requires home.anchors == [SiteAnchor("/about/"), SiteAnchor("/blog/my-post-title")]
    requires st.toVisit == ["/"] && st.visited == {} && st.pages == []
    ensures var s1 := Step(st, fetch);
      && s1.toVisit == ["/about"] && s1.visited == {"/"}
      && |s1.pages| == 1 && s1.pages[0].url == BaseUrl + "/"
  {
    StepFetches(st, fetch, home);
    HomeLinks();
    assert st.toVisit[1..] == [];
    assert Enqueue([], {"/"}, ["/about"]) == ["/about"] by {
      assert ["/about"][..0] == [];
    }
  }

  /** Visiting the example about page records it and queues nothing, as home is already visited. */
  lemma AboutStep(fetch: string -> FetchOutcome, about: Document, st: CrawlState)
    requires fetch(BaseUrl + "/about") == Ok(about)
    requires about.anchors == [SiteAnchor("/")]
    requires st.toVisit == ["/about"] && st.visited == {"/"}
    ensures var s2 := Step(st, fetch);
      && s2.toVisit == [] && s2.visited == {"/", "/about"}
      && |s2.pages| == |st.pages| + 1 && s2.pages[..|st.pages|] == st.pages
      && s2.pages[|st.pages|].url == BaseUrl + "/about"
  {
    assert "/about" != "/" by { assert |"/about"| != |"/"|; }
    StepFetches(st, fetch, about);
    AboutLinks();
    assert st.toVisit[1..] == [];
    assert Enqueue([], {"/", "/about"}, ["/"]) == [] by {
      assert ["/"][..0] == [];
    }
  }

  /**
   * A two-page site: the home page is recorded first, its blog-post link is
   * dropped, the about page is reached once under its slash-stripped path, and
   * its link back home is not queued again.
   */
  lemma TwoPageSite(fetch: string -> FetchOutcome, home: Document, about: Document)
    requires fetch(BaseUrl + "/") == Ok(home)
    requires home.anchors == [SiteAnchor("/about/"), SiteAnchor("/blog/my-post-title")]
    requires fetch(BaseUrl + "/about") == Ok(about)
    requires about.anchors == [SiteAnchor("/")]
    ensures var final := Run(Initial(), fetch);
      && final.visited == {"/", "/about"}
      && |final.pages| == 2
      && final.pages[0].url == BaseUrl + "/"
      && final.pages[1].url == BaseUrl + "/about"
  {
    var s0 := Initial();
    RunUnfold(s0, fetch);
    HomeStep(fetch, home, s0);
    var s1 := Step(s0, fetch);
    RunUnfold(s1, fetch);
    AboutStep(fetch, about, s1);
    var s2 := Step(s1, fetch);
    RunUnfold(s2, fetch);
  }

  /** The inner loop of `scrapeWebsite`: each link not yet visited or pending is added to the queue. */
  method EnqueueLinks(toVisit: seq<Path>, visited: set<Path>, links: seq<Path>) returns (queue: seq<Path>)
    ensures queue == Enqueue(toVisit, visited, links)
  {
    queue := toVisit;
    for k := 0 to |links|
      invariant queue == Enqueue(toVisit, visited, links[..k])
    {
      assert links[..k + 1][..k] == links[..k];
      var link := links[k];
      if link !in visited && link !in queue {
        queue := queue + [link];
      }
    }
    assert links[..|links|] == links;
  }

  /** `scrapeWebsite`: the crawl loop, then the output document. */
  method ScrapeWebsite(fetch: string -> FetchOutcome) returns (kb: KnowledgeBase)
    ensures kb.pages == Run(Initial(), fetch).pages
    ensures kb.baseUrl == BaseUrl && kb.pageCount == |kb.pages|
    ensures |kb.pages| <= MaxPages
    ensures forall i, j :: 0 <= i < j < |kb.pages| ==> kb.pages[i].url != kb.pages[j].url
  {
    var toVisit: seq<Path> := ["/"];
    var visited: set<Path> := {};
    var knowledgeBase: seq<PageRecord> := [];
    while |toVisit| > 0 && |visited| < MaxPages
      invariant Inv(CrawlState(toVisit, visited, knowledgeBase))
      invariant Run(CrawlState(toVisit, visited, knowledgeBase), fetch) == Run(Initial(), fetch)
      decreases MaxPages - |visited|, |toVisit|
    {
      ghost var before := CrawlState(toVisit, visited, knowledgeBase);
      StepKeepsInv(before, fetch);
      RunUnfold(before, fetch);
      var path := toVisit[0];
      toVisit := toVisit[1..];
      if path in visited {
        // Never taken: the frontier invariant keeps pending paths out of the visited set.
        assert false;
        continue;
      }
      visited := visited + {path};
      var fullUrl := BaseUrl + path;
      var pageData := ScrapePage(fullUrl, BaseHost, fetch(fullUrl));
      assert Step(before, fetch) == Visit(before.toVisit[1..], before.visited, before.pages, path, pageData);
      if pageData.Some? {
        knowledgeBase := knowledgeBase + [pageData.value.record];
        toVisit := EnqueueLinks(toVisit, visited, pageData.value.links);
      }
      assert CrawlState(toVisit, visited, knowledgeBase) == Step(before, fetch);
    }
    RunUnfold(CrawlState(toVisit, visited, knowledgeBase), fetch);
    kb := KnowledgeBase(BaseUrl, |knowledgeBase|, knowledgeBase);
  }
}
