/** The "follow the Next link up to max_pages" loop the two borough scrapers
    share, over an abstract page oracle.

    HTTP and HTML are not modelled. A request is answered by `fetch`, which
    either raises (timeout, connection error) or returns a status code, the
    `li.searchresult` entries of the page and the optional `a.next` link.
    `urljoin(base, href)` is the abstract `join`. The two sites differ in
    their base URL, in how the first page is requested, and in what a
    non-200 page means. */
module Pagination {

  import opened Wrappers

  /** One planning application: the dict {title, url, address} a scraper returns. */
  datatype App = App(title: string, url: string, address: string)

  /** The simple-search form both portals accept. Only the searched address varies:
      action=firstPage, searchType=Application, caseStatus empty, simpleSearch=true. */
  datatype Payload = SearchPayload(address: string)

  /** A GET with optional query parameters, or a POST of form data. */
  datatype Request = Get(url: string, params: Option<Payload>) | Post(url: string, form: Payload)

  /** An `<a>` element: its stripped text and its `href` attribute, if any. */
  datatype Anchor = Anchor(text: string, href: Option<string>)

  /** One `li.searchresult`: its first anchor and its `.address` element's stripped text, if present. */
  datatype Entry = Entry(link: Option<Anchor>, address: Option<string>)

  /** What a request yields: an exception, or a page. */
  datatype Response = Raised | Page(status: int, entries: seq<Entry>, next: Option<Anchor>)

  /** Why a scrape raised. Pages are numbered from 1, as in the messages. */
  datatype ScrapeError =
    | SessionFailed               // Croydon's initial GET of the search page raised
    | RequestFailed(page: nat)    // the request for a results page raised
    | BadStatus(status: int, page: nat)  // Croydon received a non-200 results page

  datatype Site = EalingSite | CroydonSite {

    function Base(): string {
      match this
      case EalingSite => "https://pam.ealing.gov.uk"
      case CroydonSite => "https://publicaccess3.croydon.gov.uk"
    }

    function ResultsUrl(): string {
      Base() + "/online-applications/simpleSearchResults.do"
    }

    /** Page 0 carries the search: Ealing as GET parameters, Croydon as POSTed form
        data. Later pages are plain GETs of the followed link. */
    function RequestFor(url: string, pageNum: nat, address: string): Request {
      if pageNum == 0 then
        match this
        case EalingSite => Get(url, Some(SearchPayload(address)))
        case CroydonSite => Post(url, SearchPayload(address))
      else Get(url, None)
    }

    /** Ealing ends the loop quietly on a non-200 page; Croydon raises. */
    predicate StopsQuietlyOnBadStatus() {
      EalingSite?
    }
  }

  type Fetch = Request -> Response
  type Join = (string, string) -> string

  /** The application an entry yields, or nothing when it has no anchor. A missing
      `href` joins as "", a missing address element reads as "". */
  function EntryApp(e: Entry, base: string, join: Join): (r: Option<App>)
    ensures r.Some? <==> e.link.Some?
    ensures e.link.Some? ==> r.value.title == e.link.value.text
    ensures e.link.Some? ==> r.value.url == join(base, e.link.value.href.GetOr(""))
    ensures e.address.None? && r.Some? ==> r.value.address == ""
    ensures e.address.Some? && r.Some? ==> r.value.address == e.address.value
  {
    match e.link
    case None => None
    case Some(a) => Some(App(a.text, join(base, a.href.GetOr("")), e.address.GetOr("")))
  }

  /** The applications of a page, in page order, anchorless entries skipped. */
  function Keep(entries: seq<Entry>, base: string, join: Join): seq<App>
    decreases |entries|
  {
    if |entries| == 0 then []
    else
      var rest := Keep(entries[1..], base, join);
      match EntryApp(entries[0], base, join)
      case Some(app) => [app] + rest
      case None => rest
  }

  /** Keeping distributes over concatenation: one entry never affects another. */
  lemma {:induction false} KeepAppend(a: seq<Entry>, b: seq<Entry>, base: string, join: Join)
    ensures Keep(a + b, base, join) == Keep(a, base, join) + Keep(b, base, join)
    decreases |a|
  {
    if |a| > 0 {
      assert (a + b)[0] == a[0];
      assert (a + b)[1..] == a[1..] + b;
      KeepAppend(a[1..], b, base, join);
      var head := EntryApp(a[0], base, join);
      if head.Some? {
        assert Keep(a + b, base, join) == [head.value] + Keep(a[1..] + b, base, join);
        assert Keep(a, base, join) == [head.value] + Keep(a[1..], base, join);
      } else {
        assert Keep(a + b, base, join) == Keep(a[1..] + b, base, join);
        assert Keep(a, base, join) == Keep(a[1..], base, join);
      }
    } else {
      assert a + b == b;
    }
  }

  /** An anchorless entry is dropped and the rest of the page is kept as it was. */
  lemma SkippedEntryIsInvisible(a: seq<Entry>, e: Entry, b: seq<Entry>, base: string, join: Join)
    requires e.link.None?
    ensures Keep(a + [e] + b, base, join) == Keep(a + b, base, join)
  {
    KeepAppend(a + [e], b, base, join);
    KeepAppend(a, [e], base, join);
    KeepAppend(a, b, base, join);
  }

  /** Every application of a page comes from one of its entries, and every entry with
      an anchor contributes its application. */
  lemma {:induction false} KeepMembers(entries: seq<Entry>, base: string, join: Join)
    ensures forall app :: app in Keep(entries, base, join) ==>
              exists e :: e in entries && EntryApp(e, base, join) == Some(app)
    ensures forall e :: e in entries && e.link.Some? ==> EntryApp(e, base, join).value in Keep(entries, base, join)
    decreases |entries|
  {
    if |entries| > 0 {
      KeepMembers(entries[1..], base, join);
      assert forall e :: e in entries ==> e == entries[0] || e in entries[1..];
    }
  }

  /** The URL of the next page: present only when there is an `a.next` whose href is non-empty. */
  function NextUrl(next: Option<Anchor>, base: string, join: Join): (r: Option<string>)
    ensures r.Some? <==> next.Some? && next.value.href.Some? && next.value.href.value != ""
    ensures r.Some? ==> r.value == join(base, next.value.href.value)
  {
    match next
    case None => None
    case Some(a) =>
      match a.href
      case None => None
      case Some(h) => if h == "" then None else Some(join(base, h))
  }

  /** What a run of the results loop produced: the applications gathered, every request
      made in order, and the exception that ended it, if any. */
  datatype Crawl = Crawl(apps: seq<App>, requests: seq<Request>, error: Option<ScrapeError>)

  function Prepend(apps: seq<App>, requests: seq<Request>, c: Crawl): Crawl {
    Crawl(apps + c.apps, requests + c.requests, c.error)
  }

  lemma PrependPrepend(a: seq<App>, r: seq<Request>, b: seq<App>, q: seq<Request>, c: Crawl)
    ensures Prepend(a, r, Prepend(b, q, c)) == Prepend(a + b, r + q, c)
  {
    assert a + (b + c.apps) == (a + b) + c.apps;
    assert r + (q + c.requests) == (r + q) + c.requests;
  }

  /** Reference definition of the loop `while current_url and page_num < max_pages`,
      entered with `current_url == url` at page `pageNum`. */
  function CrawlFrom(site: Site, fetch: Fetch, join: Join, address: string,
                     url: string, pageNum: nat, maxPages: int): Crawl
    decreases if pageNum < maxPages then maxPages - pageNum else 0
  {
    if url == "" || pageNum >= maxPages then Crawl([], [], None)
    else
      var req := site.RequestFor(url, pageNum, address);
      match fetch(req)
      case Raised => Crawl([], [req], Some(RequestFailed(pageNum + 1)))
      case Page(status, entries, next) =>
        if status != 200 then
          if site.StopsQuietlyOnBadStatus() then Crawl([], [req], None)
          else Crawl([], [req], Some(BadStatus(status, pageNum + 1)))
        else
          var kept := Keep(entries, site.Base(), join);
          match NextUrl(next, site.Base(), join)
          case None => Crawl(kept, [req], None)
          case Some(u) => Prepend(kept, [req], CrawlFrom(site, fetch, join, address, u, pageNum + 1, maxPages))
  }

  /** One turn of the loop, as the scraper methods take it. */
  lemma CrawlStep(site: Site, fetch: Fetch, join: Join, address: string,
                  url: string, pageNum: nat, maxPages: int)
    requires url != "" && pageNum < maxPages
    ensures var req := site.RequestFor(url, pageNum, address);
      var resp := fetch(req);
      var c := CrawlFrom(site, fetch, join, address, url, pageNum, maxPages);
      && (resp.Raised? ==> c == Crawl([], [req], Some(RequestFailed(pageNum + 1))))
      && (resp.Page? && resp.status != 200 && site.StopsQuietlyOnBadStatus() ==> c == Crawl([], [req], None))
      && (resp.Page? && resp.status != 200 && !site.StopsQuietlyOnBadStatus() ==>
            c == Crawl([], [req], Some(BadStatus(resp.status, pageNum + 1))))
      && (resp.Page? && resp.status == 200 && NextUrl(resp.next, site.Base(), join).None? ==>
            c == Crawl(Keep(resp.entries, site.Base(), join), [req], None))
      && (resp.Page? && resp.status == 200 && NextUrl(resp.next, site.Base(), join).Some? ==>
            c == Prepend(Keep(resp.entries, site.Base(), join), [req],
                   CrawlFrom(site, fetch, join, address, NextUrl(resp.next, site.Base(), join).value, pageNum + 1, maxPages)))
  {
  }

  /** A results page that lets the loop carry on: a 200 page for both sites. */
  predicate IsGoodPage(r: Response) {
    r.Page? && r.status == 200
  }

  /** The responses a site tolerates without raising. */
  predicate Tolerated(site: Site, r: Response) {
    if site.StopsQuietlyOnBadStatus() then !r.Raised? else IsGoodPage(r)
  }

  /** The applications of the good pages among the given requests, in request order. */
  function PagesApps(site: Site, fetch: Fetch, join: Join, requests: seq<Request>): seq<App>
    decreases |requests|
  {
    if |requests| == 0 then []
    else
      var r := fetch(requests[0]);
      (if IsGoodPage(r) then Keep(r.entries, site.Base(), join) else [])
        + PagesApps(site, fetch, join, requests[1..])
  }

  /** Request `next` is the one the loop makes after receiving `resp`: a GET of the
      joined next link of a good page. */
  predicate Follows(site: Site, join: Join, resp: Response, next: Request) {
    && IsGoodPage(resp)
    && NextUrl(resp.next, site.Base(), join).Some?
    && next == Get(NextUrl(resp.next, site.Base(), join).value, None)
  }

  /** The request budget: no request once the budget is spent or the URL is empty, at
      most the remaining budget otherwise, and the page's own request first. */
  lemma {:induction false} CrawlBudget(site: Site, fetch: Fetch, join: Join, address: string,
                                       url: string, pageNum: nat, maxPages: int)
    ensures var c := CrawlFrom(site, fetch, join, address, url, pageNum, maxPages);
      && (url == "" || pageNum >= maxPages <==> |c.requests| == 0)
      && (pageNum < maxPages ==> |c.requests| <= maxPages - pageNum)
      && (|c.requests| > 0 ==> c.requests[0] == site.RequestFor(url, pageNum, address))
    decreases if pageNum < maxPages then maxPages - pageNum else 0
  {
    if url != "" && pageNum < maxPages {
      var resp := fetch(site.RequestFor(url, pageNum, address));
      if resp.Page? && resp.status == 200 && NextUrl(resp.next, site.Base(), join).Some? {
        CrawlBudget(site, fetch, join, address, NextUrl(resp.next, site.Base(), join).value, pageNum + 1, maxPages);
      }
    }
  }

  /** Each request after the first follows the next link of the page before it. */
  lemma {:induction false} CrawlFollows(site: Site, fetch: Fetch, join: Join, address: string,
                                        url: string, pageNum: nat, maxPages: int)
    ensures var c := CrawlFrom(site, fetch, join, address, url, pageNum, maxPages);
      forall k :: 0 <= k < |c.requests| - 1 ==> Follows(site, join, fetch(c.requests[k]), c.requests[k + 1])
    decreases if pageNum < maxPages then maxPages - pageNum else 0
  {
    var c := CrawlFrom(site, fetch, join, address, url, pageNum, maxPages);
    if url != "" && pageNum < maxPages {
      var req := site.RequestFor(url, pageNum, address);
      var resp := fetch(req);
      if resp.Page? && resp.status == 200 && NextUrl(resp.next, site.Base(), join).Some? {
        var u := NextUrl(resp.next, site.Base(), join).value;
        var tail := CrawlFrom(site, fetch, join, address, u, pageNum + 1, maxPages);
        CrawlFollows(site, fetch, join, address, u, pageNum + 1, maxPages);
        CrawlBudget(site, fetch, join, address, u, pageNum + 1, maxPages);
        assert c.requests == [req] + tail.requests;
        forall k | 0 <= k < |c.requests| - 1
          ensures Follows(site, join, fetch(c.requests[k]), c.requests[k + 1])
        {
          if k > 0 {
            assert c.requests[k] == tail.requests[k - 1];
          }
        }
      }
    }
  }

  /** The applications gathered are those of the good pages fetched, in order. */
  lemma {:induction false} CrawlApps(site: Site, fetch: Fetch, join: Join, address: string,
                                     url: string, pageNum: nat, maxPages: int)
    ensures var c := CrawlFrom(site, fetch, join, address, url, pageNum, maxPages);
      c.apps == PagesApps(site, fetch, join, c.requests)
    decreases if pageNum < maxPages then maxPages - pageNum else 0
  {
    var c := CrawlFrom(site, fetch, join, address, url, pageNum, maxPages);
    if url != "" && pageNum < maxPages {
      var req := site.RequestFor(url, pageNum, address);
      var resp := fetch(req);
      if resp.Page? && resp.status == 200 && NextUrl(resp.next, site.Base(), join).Some? {
        var u := NextUrl(resp.next, site.Base(), join).value;
        var tail := CrawlFrom(site, fetch, join, address, u, pageNum + 1, maxPages);
        CrawlApps(site, fetch, join, address, u, pageNum + 1, maxPages);
        assert c.requests == [req] + tail.requests;
        assert c.requests[1..] == tail.requests;
      } else {
        assert c.requests == [req];
        assert PagesApps(site, fetch, join, [req][1..]) == [];
      }
    }
  }

  /** Every response to the given requests is one the site tolerates. */
  predicate AllTolerated(site: Site, fetch: Fetch, requests: seq<Request>) {
    forall k :: 0 <= k < |requests| ==> Tolerated(site, fetch(requests[k]))
  }

  lemma AllToleratedCons(site: Site, fetch: Fetch, req: Request, rest: seq<Request>)
    ensures AllTolerated(site, fetch, [req] + rest) <==> Tolerated(site, fetch(req)) && AllTolerated(site, fetch, rest)
  {
    var s := [req] + rest;
    if Tolerated(site, fetch(req)) && AllTolerated(site, fetch, rest) {
      forall k | 0 <= k < |s| ensures Tolerated(site, fetch(s[k])) {
        if k > 0 {
          assert s[k] == rest[k - 1];
        }
      }
    } else if Tolerated(site, fetch(req)) {
      var k :| 0 <= k < |rest| && !Tolerated(site, fetch(rest[k]));
      assert s[k + 1] == rest[k];
    } else {
      assert s[0] == req;
    }
  }

  /** A page that ends the crawl is its last request, and the crawl raises on it exactly
      when the site does not tolerate it. */
  lemma LastPage(site: Site, fetch: Fetch, join: Join, address: string,
                 url: string, pageNum: nat, maxPages: int)
    requires url != "" && pageNum < maxPages
    requires var resp := fetch(site.RequestFor(url, pageNum, address));
      !(resp.Page? && resp.status == 200 && NextUrl(resp.next, site.Base(), join).Some?)
    ensures var req := site.RequestFor(url, pageNum, address);
      var c := CrawlFrom(site, fetch, join, address, url, pageNum, maxPages);
      c.requests == [req] && (c.error.None? <==> Tolerated(site, fetch(req)))
  {
    CrawlStep(site, fetch, join, address, url, pageNum, maxPages);
  }

  /** The crawl raises exactly when some response it received is one it cannot tolerate. */
  lemma {:induction false} CrawlRaises(site: Site, fetch: Fetch, join: Join, address: string,
                                       url: string, pageNum: nat, maxPages: int)
    ensures var c := CrawlFrom(site, fetch, join, address, url, pageNum, maxPages);
      c.error.None? <==> AllTolerated(site, fetch, c.requests)
    decreases if pageNum < maxPages then maxPages - pageNum else 0
  {
    if url != "" && pageNum < maxPages {
      var req := site.RequestFor(url, pageNum, address);
      var resp := fetch(req);
      if resp.Page? && resp.status == 200 && NextUrl(resp.next, site.Base(), join).Some? {
        var u := NextUrl(resp.next, site.Base(), join).value;
        var tail := CrawlFrom(site, fetch, join, address, u, pageNum + 1, maxPages);
        CrawlRaises(site, fetch, join, address, u, pageNum + 1, maxPages);
        AllToleratedCons(site, fetch, req, tail.requests);
      } else {
        LastPage(site, fetch, join, address, url, pageNum, maxPages);
        AllToleratedCons(site, fetch, req, []);
      }
    }
  }

  /** A response after which the loop does not go on: a raised request or a non-200
      page, a page without a usable next link, or a next link that joins to the empty
      URL (the `while current_url` test). */
  predicate EndsCrawl(site: Site, join: Join, resp: Response) {
    || !IsGoodPage(resp)
    || NextUrl(resp.next, site.Base(), join).None?
    || NextUrl(resp.next, site.Base(), join).value == ""
  }

  /** The crawl only stops for a reason: either the page budget is used up, or the
      last response it received ends the loop. */
  lemma {:induction false} CrawlStops(site: Site, fetch: Fetch, join: Join, address: string,
                                      url: string, pageNum: nat, maxPages: int)
    ensures var c := CrawlFrom(site, fetch, join, address, url, pageNum, maxPages);
      |c.requests| > 0 ==>
        pageNum + |c.requests| == maxPages || EndsCrawl(site, join, fetch(c.requests[|c.requests| - 1]))
    decreases if pageNum < maxPages then maxPages - pageNum else 0
  {
    var c := CrawlFrom(site, fetch, join, address, url, pageNum, maxPages);
    if url != "" && pageNum < maxPages {
      var req := site.RequestFor(url, pageNum, address);
      var resp := fetch(req);
      if resp.Page? && resp.status == 200 && NextUrl(resp.next, site.Base(), join).Some? {
        CrawlStops(site, fetch, join, address, NextUrl(resp.next, site.Base(), join).value, pageNum + 1, maxPages);
        StopsAfterFollow(site, fetch, join, address, url, pageNum, maxPages);
      } else {
        LastPage(site, fetch, join, address, url, pageNum, maxPages);
        assert c.requests[0] == req;
      }
    }
  }

  /** The inductive step of `CrawlStops`: a page that continues the crawl is followed by
      a crawl that stops for a reason. */
  lemma StopsAfterFollow(site: Site, fetch: Fetch, join: Join, address: string,
                         url: string, pageNum: nat, maxPages: int)
    requires url != "" && pageNum < maxPages
    requires var resp := fetch(site.RequestFor(url, pageNum, address));
      resp.Page? && resp.status == 200 && NextUrl(resp.next, site.Base(), join).Some?
    requires var resp := fetch(site.RequestFor(url, pageNum, address));
      var tail := CrawlFrom(site, fetch, join, address, NextUrl(resp.next, site.Base(), join).value, pageNum + 1, maxPages);
      |tail.requests| > 0 ==>
        pageNum + 1 + |tail.requests| == maxPages || EndsCrawl(site, join, fetch(tail.requests[|tail.requests| - 1]))
    ensures var c := CrawlFrom(site, fetch, join, address, url, pageNum, maxPages);
      pageNum + |c.requests| == maxPages || EndsCrawl(site, join, fetch(c.requests[|c.requests| - 1]))
  {
    var req := site.RequestFor(url, pageNum, address);
    var u := NextUrl(fetch(req).next, site.Base(), join).value;
    var tail := CrawlFrom(site, fetch, join, address, u, pageNum + 1, maxPages);
    CrawlBudget(site, fetch, join, address, u, pageNum + 1, maxPages);
    assert CrawlFrom(site, fetch, join, address, url, pageNum, maxPages).requests == [req] + tail.requests;
    LastOfCons(req, tail.requests);
  }

  lemma LastOfCons(req: Request, rest: seq<Request>)
    ensures var s := [req] + rest;
      s[|s| - 1] == if rest == [] then req else rest[|rest| - 1]
  {
  }

  /** Everything a crawl promises about itself, stated over its request trace:
      it makes at most the remaining page budget of requests (none once the budget is
      spent or the URL is empty), starts with the page's own request, follows the next
      links and stops only when the budget is spent or a page ends the loop, gathers the good pages' applications in order, and raises exactly when
      a response it cannot tolerate arrives. */
  lemma CrawlTrace(site: Site, fetch: Fetch, join: Join, address: string,
                   url: string, pageNum: nat, maxPages: int)
    ensures var c := CrawlFrom(site, fetch, join, address, url, pageNum, maxPages);
      && (url == "" || pageNum >= maxPages <==> |c.requests| == 0)
      && (pageNum < maxPages ==> |c.requests| <= maxPages - pageNum)
      && (|c.requests| > 0 ==> c.requests[0] == site.RequestFor(url, pageNum, address))
      && (forall k :: 0 <= k < |c.requests| - 1 ==> Follows(site, join, fetch(c.requests[k]), c.requests[k + 1]))
      && c.apps == PagesApps(site, fetch, join, c.requests)
      && (c.error.None? <==> forall k :: 0 <= k < |c.requests| ==> Tolerated(site, fetch(c.requests[k])))
      && (|c.requests| > 0 ==>
            pageNum + |c.requests| == maxPages || EndsCrawl(site, join, fetch(c.requests[|c.requests| - 1])))
  {
    CrawlBudget(site, fetch, join, address, url, pageNum, maxPages);
    CrawlFollows(site, fetch, join, address, url, pageNum, maxPages);
    CrawlApps(site, fetch, join, address, url, pageNum, maxPages);
    CrawlRaises(site, fetch, join, address, url, pageNum, maxPages);
    CrawlStops(site, fetch, join, address, url, pageNum, maxPages);
  }

  /** A site's scrape as the caller sees it: the applications or the exception, plus
      every request made (including Croydon's initial session request). */
  datatype Scrape = Scrape(result: Result<seq<App>, ScrapeError>, requests: seq<Request>)

  /** Raising discards whatever was gathered before. */
  function Finish(c: Crawl): (r: Result<seq<App>, ScrapeError>)
    ensures r.Success? <==> c.error.None?
    ensures r.Success? ==> r.value == c.apps
  {
    if c.error.Some? then Failure(c.error.value) else Success(c.apps)
  }
}
