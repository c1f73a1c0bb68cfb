/** The Croydon scraper: a session request first, then the same bounded walk
    over the results pages, except that any failed or non-200 page raises and
    so discards everything gathered before it. */
module CroydonScraper {

  import opened Wrappers
  import opened Pagination

  const CroydonBase := CroydonSite.Base()

  /** The search page fetched first to obtain the session cookies. */
  const SearchPageUrl := CroydonBase + "/online-applications/"

  function SessionRequest(): Request {
    Get(SearchPageUrl, None)
  }

  /** Reference definition of `scrape(address, max_pages)`. The session request's
      status is not inspected; only its raising matters. */
  function Run(fetch: Fetch, join: Join, address: string, maxPages: int): Scrape {
    if fetch(SessionRequest()).Raised? then Pagination.Scrape(Failure(SessionFailed), [SessionRequest()])
    else
      var c := CrawlFrom(CroydonSite, fetch, join, address, CroydonSite.ResultsUrl(), 0, maxPages);
      Pagination.Scrape(Finish(c), [SessionRequest()] + c.requests)
  }

  /** The loop as the scraper runs it: page 0 is a POST of the search form, later
      pages GETs of the joined next link; anything but a 200 page raises. */
  method Scrape(address: string, maxPages: int, fetch: Fetch, join: Join)
    returns (result: Result<seq<App>, ScrapeError>, requests: seq<Request>)
    ensures Pagination.Scrape(result, requests) == Run(fetch, join, address, maxPages)
  {
    if fetch(SessionRequest()).Raised? {
      result := Failure(SessionFailed);
      requests := [SessionRequest()];
      return;
    }
    var goal := CrawlFrom(CroydonSite, fetch, join, address, CroydonSite.ResultsUrl(), 0, maxPages);
    var results: seq<App> := [];
    var pageRequests: seq<Request> := [];
    var currentUrl := CroydonSite.ResultsUrl();
    var pageNum: nat := 0;
    var stopped := false;
    while !stopped && currentUrl != "" && pageNum < maxPages
      invariant goal == Prepend(results, pageRequests,
        if stopped then Crawl([], [], None)
        else CrawlFrom(CroydonSite, fetch, join, address, currentUrl, pageNum, maxPages))
      decreases maxPages - pageNum, if stopped then 0 else 1
    {
      var req := if pageNum == 0 then Post(currentUrl, SearchPayload(address)) else Get(currentUrl, None);
      assert req == CroydonSite.RequestFor(currentUrl, pageNum, address);
      CrawlStep(CroydonSite, fetch, join, address, currentUrl, pageNum, maxPages);
      var resp := fetch(req);
      ghost var before := pageRequests;
      pageRequests := pageRequests + [req];
      if resp.Raised? {
        result := Failure(RequestFailed(pageNum + 1));
        requests := [SessionRequest()] + pageRequests;
        assert goal == Crawl(results, pageRequests, Some(RequestFailed(pageNum + 1)));
        return;
      }
      if resp.status != 200 {
        result := Failure(BadStatus(resp.status, pageNum + 1));
        requests := [SessionRequest()] + pageRequests;
        assert goal == Crawl(results, pageRequests, Some(BadStatus(resp.status, pageNum + 1)));
        return;
      }
      var kept := Keep(resp.entries, CroydonBase, join);
      var next := NextUrl(resp.next, CroydonBase, join);
      if next.None? {
        results := results + kept;
        stopped := true;
      } else {
        PrependPrepend(results, before, kept, [req],
          CrawlFrom(CroydonSite, fetch, join, address, next.value, pageNum + 1, maxPages));
        results := results + kept;
        currentUrl := next.value;
        pageNum := pageNum + 1;
      }
    }
    assert !stopped ==> CrawlFrom(CroydonSite, fetch, join, address, currentUrl, pageNum, maxPages) == Crawl([], [], None);
    assert results + [] == results && pageRequests + [] == pageRequests;
    assert goal == Crawl(results, pageRequests, None);
    result := Success(results);
    requests := [SessionRequest()] + pageRequests;
  }

  /** The session request always comes first; when it raises, nothing else is asked. */
  lemma SessionRequestFirst(fetch: Fetch, join: Join, address: string, maxPages: int)
    ensures var s := Run(fetch, join, address, maxPages);
      && |s.requests| >= 1 && s.requests[0] == SessionRequest()
      && (fetch(SessionRequest()).Raised? ==> s == Pagination.Scrape(Failure(SessionFailed), [SessionRequest()]))
      && |s.requests| <= 1 + (if maxPages < 0 then 0 else maxPages)
  {
    CrawlTrace(CroydonSite, fetch, join, address, CroydonSite.ResultsUrl(), 0, maxPages);
  }

  /** Page 0 is POSTed with the search form; every later page follows a next link. */
  lemma ResultRequestsFollowNextLinks(fetch: Fetch, join: Join, address: string, maxPages: int)
    requires maxPages > 0
    requires !fetch(SessionRequest()).Raised?
    ensures var s := Run(fetch, join, address, maxPages);
      && |s.requests| >= 2
      && s.requests[1] == Post(CroydonSite.ResultsUrl(), SearchPayload(address))
      && forall k :: 1 <= k < |s.requests| - 1 ==> Follows(CroydonSite, join, fetch(s.requests[k]), s.requests[k + 1])
  {
    var c := CrawlFrom(CroydonSite, fetch, join, address, CroydonSite.ResultsUrl(), 0, maxPages);
    CrawlTrace(CroydonSite, fetch, join, address, CroydonSite.ResultsUrl(), 0, maxPages);
    var s := Run(fetch, join, address, maxPages);
    forall k | 1 <= k < |s.requests| - 1
      ensures Follows(CroydonSite, join, fetch(s.requests[k]), s.requests[k + 1])
    {
      assert s.requests[k] == c.requests[k - 1] && s.requests[k + 1] == c.requests[k];
    }
  }

  /** A Croydon scrape succeeds exactly when the session request did not raise and every
      results page it fetched came back 200; it then returns those pages' applications
      in order. Any failure discards the partial results. */
  lemma SucceedsIffEveryPageGood(fetch: Fetch, join: Join, address: string, maxPages: int)
    ensures var s := Run(fetch, join, address, maxPages);
      && (s.result.Success? <==>
            !fetch(SessionRequest()).Raised? && forall k :: 1 <= k < |s.requests| ==> IsGoodPage(fetch(s.requests[k])))
      && (s.result.Success? ==> s.result.value == PagesApps(CroydonSite, fetch, join, s.requests[1..]))
  {
    var c := CrawlFrom(CroydonSite, fetch, join, address, CroydonSite.ResultsUrl(), 0, maxPages);
    CrawlTrace(CroydonSite, fetch, join, address, CroydonSite.ResultsUrl(), 0, maxPages);
    var s := Run(fetch, join, address, maxPages);
    if !fetch(SessionRequest()).Raised? {
      assert s.requests[1..] == c.requests;
      assert forall k :: 1 <= k < |s.requests| ==> s.requests[k] == c.requests[k - 1];
      if s.result.Failure? {
        var j :| 0 <= j < |c.requests| && !IsGoodPage(fetch(c.requests[j]));
        assert s.requests[j + 1] == c.requests[j];
      }
    }
  }

  /** The scrape reads every results page it may: it stops only once `max_pages` results
      pages are fetched or when the last one ends the loop (it raised, was not a 200
      page, or had no usable next link). */
  lemma FetchesUntilLastPage(fetch: Fetch, join: Join, address: string, maxPages: int)
    ensures var s := Run(fetch, join, address, maxPages);
      |s.requests| > 1 ==>
        |s.requests| - 1 == maxPages || EndsCrawl(CroydonSite, join, fetch(s.requests[|s.requests| - 1]))
  {
    var c := CrawlFrom(CroydonSite, fetch, join, address, CroydonSite.ResultsUrl(), 0, maxPages);
    CrawlStops(CroydonSite, fetch, join, address, CroydonSite.ResultsUrl(), 0, maxPages);
    var s := Run(fetch, join, address, maxPages);
    if |s.requests| > 1 {
      assert s.requests == [SessionRequest()] + c.requests;
      assert s.requests[|s.requests| - 1] == c.requests[|c.requests| - 1];
    }
  }
}
