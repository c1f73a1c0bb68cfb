/** The Ealing scraper: a bounded walk over the results pages that ends
    quietly, keeping what it has, when a page comes back with a non-200 status. */
module EalingScraper {

  import opened Wrappers
  import opened Pagination

  /** Reference definition of `scrape(address, max_pages)`. */
  function Run(fetch: Fetch, join: Join, address: string, maxPages: int): Scrape {
    var c := CrawlFrom(EalingSite, fetch, join, address, EalingSite.ResultsUrl(), 0, maxPages);
    Pagination.Scrape(Finish(c), c.requests)
  }

  /** The loop as the scraper runs it: the first request is a GET carrying the search
      parameters, every later one a GET of the joined next link. */
  method Scrape(address: string, maxPages: int, fetch: Fetch, join: Join)
    returns (result: Result<seq<App>, ScrapeError>, requests: seq<Request>)
    ensures Pagination.Scrape(result, requests) == Run(fetch, join, address, maxPages)
  {
    var goal := CrawlFrom(EalingSite, fetch, join, address, EalingSite.ResultsUrl(), 0, maxPages);
    var results: seq<App> := [];
    requests := [];
    var currentUrl := EalingSite.ResultsUrl();
    var pageNum: nat := 0;
    var stopped := false;
    while !stopped && currentUrl != "" && pageNum < maxPages
      invariant goal == Prepend(results, requests,
        if stopped then Crawl([], [], None)
        else CrawlFrom(EalingSite, fetch, join, address, currentUrl, pageNum, maxPages))
      decreases maxPages - pageNum, if stopped then 0 else 1
    {
      var req := if pageNum == 0 then Get(currentUrl, Some(SearchPayload(address))) else Get(currentUrl, None);
      assert req == EalingSite.RequestFor(currentUrl, pageNum, address);
      CrawlStep(EalingSite, fetch, join, address, currentUrl, pageNum, maxPages);
      var resp := fetch(req);
      ghost var before := requests;
      requests := requests + [req];
      if resp.Raised? {
        result := Failure(RequestFailed(pageNum + 1));
        assert goal == Crawl(results, requests, Some(RequestFailed(pageNum + 1)));
        return;
      }
      if resp.status != 200 {
        stopped := true;
      } else {
        var kept := Keep(resp.entries, EalingBase, join);
        var next := NextUrl(resp.next, EalingBase, join);
        if next.None? {
          results := results + kept;
          stopped := true;
        } else {
          PrependPrepend(results, before, kept, [req],
            CrawlFrom(EalingSite, fetch, join, address, next.value, pageNum + 1, maxPages));
          results := results + kept;
          currentUrl := next.value;
          pageNum := pageNum + 1;
        }
      }
    }
    assert !stopped ==> CrawlFrom(EalingSite, fetch, join, address, currentUrl, pageNum, maxPages) == Crawl([], [], None);
    assert results + [] == results && requests + [] == requests;
    assert goal == Crawl(results, requests, None);
    result := Success(results);
  }

  const EalingBase := EalingSite.Base()

  /** A non-200 page never raises: an Ealing scrape fails only when a request raised,
      and then on its last request. */
  lemma FailsOnlyWhenRequestRaised(fetch: Fetch, join: Join, address: string, maxPages: int)
    ensures var s := Run(fetch, join, address, maxPages);
      s.result.Failure? <==> exists k :: 0 <= k < |s.requests| && fetch(s.requests[k]).Raised?
  {
    CrawlTrace(EalingSite, fetch, join, address, EalingSite.ResultsUrl(), 0, maxPages);
  }

  /** A successful scrape returns the applications of the 200 pages it fetched, in page
      order, after at most `max_pages` requests; `max_pages <= 0` returns [] unasked. */
  lemma ResultsAreGoodPagesInOrder(fetch: Fetch, join: Join, address: string, maxPages: int)
    ensures var s := Run(fetch, join, address, maxPages);
      && |s.requests| <= (if maxPages < 0 then 0 else maxPages)
      && (maxPages <= 0 ==> s == Pagination.Scrape(Success([]), []))
      && (s.result.Success? ==> s.result.value == PagesApps(EalingSite, fetch, join, s.requests))
  {
    CrawlTrace(EalingSite, fetch, join, address, EalingSite.ResultsUrl(), 0, maxPages);
  }

  /** The first request carries the search; each later one follows the previous page's
      next link. */
  lemma RequestsFollowNextLinks(fetch: Fetch, join: Join, address: string, maxPages: int)
    requires maxPages > 0
    ensures var s := Run(fetch, join, address, maxPages);
      && |s.requests| >= 1
      && s.requests[0] == Get(EalingSite.ResultsUrl(), Some(SearchPayload(address)))
      && forall k :: 0 <= k < |s.requests| - 1 ==> Follows(EalingSite, join, fetch(s.requests[k]), s.requests[k + 1])
  {
    CrawlTrace(EalingSite, fetch, join, address, EalingSite.ResultsUrl(), 0, maxPages);
  }

  /** The scrape reads every page it may: it stops only once `max_pages` pages are
      fetched or when the last page ends the loop (it raised, was not a 200 page, or had
      no usable next link). */
  lemma FetchesUntilLastPage(fetch: Fetch, join: Join, address: string, maxPages: int)
    ensures var s := Run(fetch, join, address, maxPages);
      |s.requests| > 0 ==>
        |s.requests| == maxPages || EndsCrawl(EalingSite, join, fetch(s.requests[|s.requests| - 1]))
  {
    CrawlStops(EalingSite, fetch, join, address, EalingSite.ResultsUrl(), 0, maxPages);
  }

  /** A non-200 first page gives an empty successful result, not an exception. */
  lemma BadFirstPageGivesNothing(fetch: Fetch, join: Join, address: string, maxPages: int)
    requires maxPages > 0
    requires var first := fetch(Get(EalingSite.ResultsUrl(), Some(SearchPayload(address))));
      first.Page? && first.status != 200
    ensures Run(fetch, join, address, maxPages).result == Success([])
  {
  }
}
