# planning-checker, modelled in Dafny

This project models the decision logic of a small Django site with two halves.

- **Planning.** A user types an address or postcode. The site works out the London borough from it (Ealing or Croydon). For Ealing it scrapes the council's planning portal, following "next" links for a bounded number of pages. A user can also save a *watch* on a query. A management command re-scrapes every active Ealing watch and mails the applications it has not seen before. It then adds their URLs to the watch's `seen_urls`.
- **Property.** A user keeps *saved searches*, which are criteria over listings. An inbound-mail webhook pulls Rightmove and Zoopla listing URLs out of forwarded alert mails. It creates a listing row for each URL not seen before. It then mails every instant-alert search owner whose criteria the new listing meets, at most once per (search, listing) pair. Users can also shortlist listings.

Everything is pure functions over strings, sequences, sets and maps. The network, the HTML parser, `urljoin`, the clock and mail delivery are parameters.

- `fetch` maps a request to a parsed page or to a raised exception.
- `join` stands for `urljoin`.
- `deliver` says whether a mail was accepted.
- `now` is a timestamp.

Django tables become maps keyed by their unique constraints. Where an operation is a loop in the source (the two scrapers, the watch command, the webhook's ingestion loop), a `method` with loop invariants is proved equal to a functional reference definition. The properties are proved about that reference definition.

Files:

- `wrappers.dfy`, `email.dfy`: `Option`/`Result` and the `Mail` record.
- `text.dfy`: ASCII case mapping, substring search, `str.strip`, `str.split` and `str.join`.
- `pagination.dfy`: the crawl both scrapers share, parameterised by site.
- `ealing.dfy`, `croydon.dfy`: the two scrapers.
- `planning_models.dfy`, `planning_views.dfy`, `watchlist.dfy`: watches, borough detection, search dispatch, watch creation and the alert command.
- `property_models.dfy`, `services.dfy`, `forms.dfy`, `property_views.dfy`: saved searches, listings, the matcher, the notifier, criteria building, the webhook and the shortlist.

The command's behaviour worth knowing:

- The watch command has no first-run suppression. A watch with an empty `seen_urls` mails every scraped application.
- `seen_urls` grows by union with the newly mailed URLs. It is not replaced by the current scrape.
- `send_mail` is called with `fail_silently=False` before the watch is saved. A delivery failure therefore ends the command: the failing watch keeps its old `seen_urls`, and later watches are not visited.

## Model

| member | source | states |
|---|---|---|
| Text.UpperIdempotent | planning/views.py:31 | Upper-casing twice is upper-casing once. |
| Text.ContainsIffOccurs | planning/views.py:59-62 | The `in` test on strings holds exactly when the needle occurs at some position of the text. |
| Text.ContainsKeepsChar | planning/views.py:59-62 | A text that contains a needle contains every character of that needle. |
| Text.Strip | planning/views.py:202 | The stripped string has no leading or trailing whitespace, and it is the input with a whitespace-only prefix and suffix removed. |
| Text.StripOfStripped | property/forms.py:21 | Stripping a string that has no surrounding whitespace leaves it as it is. |
| Text.JoinSplit | property/forms.py:21 | Joining the pieces of a split with the same separator gives back the original text. |
| Text.SplitJoin | planning/management/commands/check_planning_watchlist.py:55 | Splitting a join of separator-free pieces gives back exactly those pieces. |
| Pagination.EntryApp | planning/scrapers/ealing.py:39-57 | A result entry yields an application exactly when it has an anchor. The title is the anchor text, the url is the joined href, a present address element's text is the address, and a missing one gives "". |
| Pagination.KeepAppend | planning/scrapers/ealing.py:39-57 | The applications of two runs of entries are the applications of each, concatenated in order. |
| Pagination.SkippedEntryIsInvisible | planning/scrapers/ealing.py:40-42 | An entry without an anchor changes nothing about what the others yield. |
| Pagination.KeepMembers | planning/scrapers/croydon.py:67-85 | Every kept application comes from some entry, and every entry with an anchor is kept. |
| Pagination.NextUrl | planning/scrapers/ealing.py:59-64 | There is a next page exactly when a next anchor with a non-empty href exists, and its url is that href joined to the site base. |
| Pagination.CrawlBudget | planning/scrapers/ealing.py:28 | No request is made when the url is empty or the page budget is spent, at most `max_pages - page_num` are made otherwise, and the first one is the request for the starting url. |
| Pagination.CrawlFollows | planning/scrapers/ealing.py:59-65 | Every request after the first is a GET of the next link of the page the previous request returned. |
| Pagination.CrawlApps | planning/scrapers/ealing.py:39-57 | The gathered applications are the kept entries of the pages fetched, in page order. |
| Pagination.CrawlRaises | planning/scrapers/croydon.py:56-62 | A crawl ends without error exactly when every response it received is one the site tolerates. |
| Pagination.CrawlStops | planning/scrapers/ealing.py:28-65 | A crawl that made a request stops only when the page budget is spent or its last response ends the loop: it raised, was not a 200 page, or had no next anchor with a non-empty href. |
| Pagination.CrawlTrace | planning/scrapers/ealing.py:28-65 | The budget, next-link, page-order, error and stopping facts, together for one crawl. |
| Pagination.Finish | planning/scrapers/croydon.py:56-62 | A crawl with an error becomes a failed scrape that discards partial results; otherwise the scrape succeeds with everything gathered. |
| EalingScraper.Scrape | planning/scrapers/ealing.py:9-67 | The loop computes exactly the reference crawl: the same result and the same request sequence. |
| EalingScraper.FailsOnlyWhenRequestRaised | planning/scrapers/ealing.py:34-35 | An Ealing scrape fails exactly when one of its requests raised; a non-200 page never makes it fail. |
| EalingScraper.ResultsAreGoodPagesInOrder | planning/scrapers/ealing.py:28 | At most `max_pages` requests are made, `max_pages <= 0` gives [] without a request, and a success returns the applications of the 200 pages fetched, in order. |
| EalingScraper.RequestsFollowNextLinks | planning/scrapers/ealing.py:29-32 | The first request is a GET with the search payload for the address, and each later one follows the previous page's next link. |
| EalingScraper.FetchesUntilLastPage | planning/scrapers/ealing.py:28-65 | An Ealing scrape makes `max_pages` requests unless its last response raised, was not a 200 page, or had no usable next link. |
| EalingScraper.BadFirstPageGivesNothing | planning/scrapers/ealing.py:34-35 | A non-200 first page gives an empty successful result, not an error. |
| CroydonScraper.Scrape | planning/scrapers/croydon.py:20-95 | The loop, with its session prelude, computes exactly the reference crawl: the same result and the same request sequence. |
| CroydonScraper.SessionRequestFirst | planning/scrapers/croydon.py:31-34 | The session GET is always the first request, its failure fails the scrape before any results page, and at most `max_pages` results pages follow it. |
| CroydonScraper.ResultRequestsFollowNextLinks | planning/scrapers/croydon.py:50-55 | Results page 0 is a POST of the search form, and each later request is a GET of the previous page's next link. |
| CroydonScraper.SucceedsIffEveryPageGood | planning/scrapers/croydon.py:56-62 | A Croydon scrape succeeds exactly when the session request did not raise and every results page was a 200 page, and then it returns those pages' applications in order. |
| CroydonScraper.FetchesUntilLastPage | planning/scrapers/croydon.py:48-93 | After the session request, a Croydon scrape fetches `max_pages` results pages unless the last one raised, was not a 200 page, or had no usable next link. |
| PlanningModels.NewWatch | planning/models.py:4-12 | A new watch is active and has seen no URLs, and it carries the given email, query and borough code. |
| PlanningModels.Describe | planning/models.py:14-15 | The rendering is the query, " (", the borough code, ") → " and the email, in that order. |
| PlanningModels.DescribeDeterminesEmail | planning/models.py:14-15 | Two watches with the same query and borough that render the same have the same email. |
| PlanningViews.InwardAtIff | planning/views.py:34 | The inward-code check holds exactly when optional spaces, a digit, two letters and a word boundary follow the position. |
| PlanningViews.MatchAtIsFirstAlternative | planning/views.py:34-35 | The pattern matches at a position exactly when one of its alternatives does, and group 1 is the text of the first alternative in backtracking order. |
| PlanningViews.FindOutwardNone | planning/views.py:34-35 | The search finds no outward code exactly when the pattern matches at no position. |
| PlanningViews.FindOutwardIsLeftmost | planning/views.py:34-35 | A found outward code is group 1 of the match at the leftmost matching position. |
| PlanningViews.FindOutwardSkips | planning/views.py:34-35 | Positions where the pattern cannot match do not change what the search finds. |
| PlanningViews.DetectBorough | planning/views.py:26-65 | The label is present exactly when a borough is, and it is that borough's label. When the first outward code found is in the table, its borough is the result, whatever names the text holds. No borough is found exactly when the outward code is not in the table and the text names neither Croydon nor Ealing. |
| PlanningViews.DetectIgnoresCase | planning/views.py:31 | Detection gives the same borough and label for a text, its lower-case form and its upper-case form. |
| PlanningViews.TablePostcodeWins | planning/views.py:37-58 | Each of the thirteen table rows resolves to its borough when it appears as a full postcode and the pattern matches nowhere before it, even when a borough name appears elsewhere in the text. |
| PlanningViews.DigitFreePrefixWins | planning/views.py:34-58 | A table postcode with no digit anywhere before it resolves to its borough. |
| PlanningViews.HouseNumberBeforePostcode | planning/forms.py:14 | The form's two example inputs joined into one address, "249 Conway Crescent, UB6 8JF", resolve to Ealing: the house number does not hide the postcode. |
| PlanningViews.OutwardRowMatches | planning/views.py:34-53 | A table code followed by an inward code matches at its start, with exactly the table code as group 1. |
| PlanningViews.NameFallback | planning/views.py:55-62 | When the table gives nothing, a text naming Croydon resolves to Croydon, and otherwise a text naming Ealing resolves to Ealing. |
| PlanningViews.UnspacedPostcodeResolves | planning/views.py:34 | A postcode typed without its space ("UB68JF") still resolves to Ealing, because the regex backtracks. |
| PlanningViews.UnknownPostcodeFallsBackToName | planning/views.py:55-62 | A postcode outside the table ("W1A 1AA") does not block the name fallback. |
| PlanningViews.RunSearch | planning/views.py:68-96 | The borough and label are those detected. No borough gives the unresolved error, Croydon gives the blocked error and the manual url, and only Ealing is scraped. A scraper failure gives an error and no results. |
| PlanningViews.NoScrapeUnlessEaling | planning/views.py:75-87 | For Croydon or an unresolved query the outcome does not depend on the page oracle at all. |
| PlanningViews.CreateWatch | planning/views.py:195-219 | A watch is created exactly when the form is valid (e-mail accepted; stripped query non-empty, at most 255 characters and free of null characters) and the stripped query resolves to Ealing, and then only that row is appended. Croydon gets the not-enabled message, an invalid form gives the form-invalid outcome, a valid query resolving to no borough gives the unresolved message, and nothing else changes the table. |
| PlanningViews.NullCharacterRefused | planning/forms.py:20-26 | A query holding an Ealing postcode and a null character ("UB6 8JF\0") is refused by the form, and the table is unchanged. |
| Watchlist.NewAppsAppend | planning/management/commands/check_planning_watchlist.py:37 | The filter distributes over concatenation, so scrape order is kept. |
| Watchlist.NewAppsMembers | planning/management/commands/check_planning_watchlist.py:36-37 | An application is new exactly when it was scraped and its url is not in the seen set. |
| Watchlist.FirstRunSendsEverything | planning/management/commands/check_planning_watchlist.py:36-37 | With an empty seen set every scraped application is new, duplicates included. |
| Watchlist.Dedup | planning/management/commands/check_planning_watchlist.py:67 | The set-to-list conversion has no duplicates and has the same members as its input. |
| Watchlist.UpdatedSeen | planning/management/commands/check_planning_watchlist.py:67-68 | The new seen list has no duplicates and holds exactly the old seen urls and the new applications' urls. |
| Watchlist.BodyReads | planning/management/commands/check_planning_watchlist.py:45-55 | The body is the header line, a blank line, then one title/address/url/blank block per new application. |
| Watchlist.BodyNamesEveryUrl | planning/management/commands/check_planning_watchlist.py:49-52 | Every new application's url appears in the body. |
| Watchlist.BodyLinesRecoverable | planning/management/commands/check_planning_watchlist.py:45-55 | When query and fields are single-line, splitting the body on newlines gives back exactly the lines it was joined from. |
| Watchlist.Diff | planning/management/commands/check_planning_watchlist.py:36-69 | A mail is due exactly when some scraped application is new. It goes from the sender to the watch's email, with the query in the subject and only the new applications in the body. |
| Watchlist.Step | planning/management/commands/check_planning_watchlist.py:25-33 | Non-Ealing watches are skipped, a failed scrape is reported for Ealing watches only, and a mail always goes to the watch's email with a non-empty body. |
| Watchlist.NotifiedSeenIsUnion | planning/management/commands/check_planning_watchlist.py:67-69 | After a mail the seen list is duplicate-free, keeps every old url, includes every scraped url, and holds nothing else. |
| Watchlist.AllSeenNothingNew | planning/management/commands/check_planning_watchlist.py:39-41 | When every scraped url has been seen, nothing is new. |
| Watchlist.SettledIsQuiet | planning/management/commands/check_planning_watchlist.py:36-69 | Visiting a watch again after it was updated, with the same pages, mails nothing. |
| Watchlist.RunSettlesPrefix | planning/management/commands/check_planning_watchlist.py:21-69 | The command updates a prefix of the watches and leaves the rest untouched. It is cut short exactly when a due mail was not delivered, and then at that watch. |
| Watchlist.SettleOnlyGrowsSeen | planning/management/commands/check_planning_watchlist.py:25-33 | A visit changes at most `seen_urls`, only grows it, and leaves inactive or non-Ealing watches as they were. |
| Watchlist.OnlySeenUrlsGrow | planning/management/commands/check_planning_watchlist.py:15-69 | Across the whole run, each watch differs from its old row at most in a larger `seen_urls`. |
| Watchlist.RerunSendsNothing | planning/management/commands/check_planning_watchlist.py:36-69 | Rerunning the command on its own output against the same pages sends nothing and changes nothing. |
| Watchlist.QuietRunIsIdentity | planning/management/commands/check_planning_watchlist.py:39-41 | If no watch has anything new, the run sends nothing and saves nothing. |
| Watchlist.VisitWatch | planning/management/commands/check_planning_watchlist.py:22-69 | The method's per-watch step, scrape included, equals the reference visit. |
| Watchlist.Handle | planning/management/commands/check_planning_watchlist.py:14-73 | The command loop computes exactly the reference run: the same rows, the same mails in order, and the same abort. |
| Watchlist.WorkedExample | planning/management/commands/check_planning_watchlist.py:36-69 | With "u1" seen and "u1", "u2" scraped, one mail names only the second application, and the seen list becomes ["u1", "u2"]. |
| PropertyModels.PortalCodesRoundTrip | property/models.py:5-7 | Each portal's stored value reads back as that portal. |
| PropertyModels.AlertFrequencyCodesRoundTrip | property/models.py:9-12 | Each alert frequency's stored value reads back as that frequency. |
| PropertyModels.NewSavedSearch | property/models.py:14-23 | A new saved search alerts instantly and has empty criteria. |
| PropertyModels.NewListing | property/models.py:25-41 | A listing made from an inbound mail has the defaults: no price, beds or baths, empty text fields, active, with the subject recorded in its raw source. |
| PropertyModels.EmptyStoreValid | property/models.py:27 | The empty listing table satisfies the unique-url invariant. |
| PropertyModels.CanonicalUrlUnique | property/models.py:27 | In a valid table no two listings share a canonical url. |
| PropertyModels.GetOrCreate | property/views.py:116-124 | The table stays valid. A row is created exactly when the url was unknown, with the defaults under the next id; otherwise the table is untouched and the existing row's id is returned. |
| PropertyModels.Touch | property/views.py:127-129 | Only the one row's `last_seen` changes; the url index and every other row stay. |
| Services.KeywordScanIff | property/services.py:22-26 | The keyword loop passes exactly when every non-empty keyword, lower-cased, occurs in the hay. |
| Services.MatchesIff | property/services.py:5-28 | A listing matches exactly when each present bound holds on each present field and every keyword is found. |
| Services.EmptyCriteriaMatchAll | property/services.py:5-28 | Empty criteria match every listing. |
| Services.MissingFieldsNeverReject | property/services.py:7-19 | A listing without price, beds or baths is judged on its keywords alone, whatever the bounds. |
| Services.AddingCriterionNarrows | property/services.py:5-28 | Adding a criterion never turns a rejection into a match. |
| Services.ForSearchKeys | property/services.py:37-45 | For one search, the pairs recorded afterwards are the old ones plus every eligible pair, and old records keep their time. |
| Services.ForSearchNotices | property/services.py:43-56 | For one search, each mail announces a pair that was newly recorded, goes to the owner's non-empty address, and no pair is mailed twice. |
| Services.ForSearchMails | property/services.py:37-56 | For one search, every newly recorded pair gets a mail when the owner has an address, and every mail goes to the owner with the search's subject and an eligible listing's url in the body. |
| Services.NotifyInstantMails | property/services.py:30-56 | Over all searches, each mail is the right one for some search and eligible listing, and every newly recorded pair is mailed for the first search that wants it whenever that search's owner has an address. |
| Services.NotifyInstantRecordsOnce | property/services.py:30-56 | Over all searches, every pair wanted by an instant search is recorded and old records stay. Each mail is the right mail for a newly recorded pair, no pair is mailed twice, and every newly recorded pair is mailed when its search's owner has an address. |
| Services.ReplaySendsNothing | property/services.py:43-45 | Running the notifier again on the same listings, at any later time, records nothing more and mails nothing. |
| Services.AlreadyMatchedIsQuiet | property/services.py:43-45 | If every wanted pair is already recorded, the notifier changes nothing and sends nothing. |
| Services.NoAddressStillRecorded | property/services.py:43-48 | A pair whose owner has no email is recorded without a mail, so it is never mailed later. |
| Services.NewPairIsMailed | property/services.py:47-56 | A new eligible pair with an address gets exactly one mail with the search's name in the subject and the listing's url in the body. |
| SearchForms.CleanKeywords | property/forms.py:17-21 | Every cleaned keyword is non-empty, stripped, lower-case and free of commas. |
| SearchForms.CleanKeywordsIsPieces | property/forms.py:21 | Cleaning is the comprehension over the comma split: strip, lower-case, drop empties, keep order. |
| SearchForms.CleanKeywordsAppend | property/forms.py:21 | Cleaning two comma-joined texts is cleaning each and concatenating the results. |
| SearchForms.CleanKeywordsRoundTrip | property/forms.py:17-21 | Joining clean keywords with commas and cleaning again gives back the same list. |
| SearchForms.BuildCriteria | property/forms.py:25-35 | The saved criteria only use the form's extra keys, keep exactly the entries that are not None, "" or [], and store them unchanged. |
| SearchForms.StoredFields | property/forms.py:25-35 | Each bound and the radius are stored as given. The postcode and keywords are stored when non-empty, and status is always "on_market". |
| SearchForms.StoredWellTyped | property/forms.py:25-35 | What the form stores is something the matcher accepts, and it reads the keywords back as they were cleaned. |
| SearchForms.ZeroBoundKept | property/forms.py:35 | A bound of 0 is kept in the criteria. |
| SearchForms.BlankFormStoresOnlyStatus | property/forms.py:25-35 | A blank form stores only the status entry. |
| SearchForms.StoredBoundsNonNegative | property/forms.py:5-8 | Bounds the form accepts are stored non-negative or not at all. |
| SearchForms.SavedCriteriaMatch | property/forms.py:23-35 | A listing matches a saved form's criteria exactly when it meets the form's bounds and its cleaned keywords. |
| SearchForms.SaveNew | property/views.py:24-33 | A new search takes its model fields from the form, its criteria from the form's extra fields, and the current user as owner. |
| SearchForms.SaveEdit | property/views.py:35-46 | An edit keeps the id and creation time and rebuilds everything else from the form, criteria included. |
| PropertyViews.DigitRun | property/views.py:12-13 | The run length covers only digits and stops at a non-digit or the end. |
| PropertyViews.MatchLink | property/views.py:12-13 | A match is a whole listing link (scheme, host, path, one or more digits) not followed by another digit. |
| PropertyViews.FindAllSound | property/views.py:111 | Every url found is a listing link of the right portal and occurs in the text. |
| PropertyViews.FindAllOfJoined | property/views.py:111 | Links separated by spaces are all found, in order, and nothing else is. |
| PropertyViews.FindAllNeedsTail | property/views.py:111 | Nothing is found in a text that lacks a character every link of the portal has. |
| PropertyViews.ClassifyLinks | property/views.py:115 | A Rightmove link is classified as Rightmove, and a Zoopla link as Zoopla. |
| PropertyViews.BodyTextPriority | property/views.py:107-109 | The mail text is the first non-empty of body-plain, text, body-html and html, or "". |
| PropertyViews.FirstNonEmptyIs | property/views.py:107-109 | The choice is "" exactly when all candidates are empty, and otherwise it is the first non-empty one. |
| PropertyViews.ExtractLinks | property/views.py:111 | Every extracted url is a Rightmove or a Zoopla listing link. |
| PropertyViews.ExtractJoinedRightmove | property/views.py:111 | From space-separated Rightmove links, extraction gives exactly their set. |
| PropertyViews.ExtractJoinedZoopla | property/views.py:111 | From space-separated Zoopla links, extraction gives exactly their set. |
| PropertyViews.IngestOne | property/views.py:115-129 | One url: an unknown one gets a new row with its portal and defaults and is reported, and a known one only has `last_seen` refreshed. |
| PropertyViews.IngestedStep | property/views.py:114-129 | Handling one more url keeps the table valid. Rows of urls not yet handled stay, handled known rows carry only the new `last_seen`, and handled unknown urls have fresh default rows. |
| PropertyViews.Ingest | property/views.py:112-129 | After the loop every extracted url has a row, old rows changed only in `last_seen`, rows were created exactly for the unknown urls, and those rows are the ones reported as new, each unknown url's row exactly once. |
| PropertyViews.Webhook | property/views.py:98-134 | A missing or wrong secret is forbidden and changes nothing. Otherwise every url is ingested, and the reply counts the urls found and the rows created. The notifier runs only on the created rows, on every one of them, and only when there is one. |
| PropertyViews.AddedAreStored | property/views.py:114-132 | The listings handed to the notifier include the stored row of every url that was new. |
| PropertyViews.DeliverTwice | property/views.py:125-134 | Replaying the same inbound mail finds the same urls, creates nothing, and mails nothing. |
| PropertyViews.ShortlistAdd | property/views.py:88-91 | An unknown listing is a not-found. Otherwise the pair is present afterwards, other entries are kept, and an existing entry is not replaced. |
| PropertyViews.ShortlistRemove | property/views.py:94-96 | Only that user's entry for that listing is removed. |
| PropertyViews.ShortlistAddIdempotent | property/views.py:90 | Adding the same listing twice is adding it once. |
| PropertyViews.RemoveUndoesAdd | property/views.py:90-95 | Removing a freshly added entry restores the shortlist. |
| PropertyViews.ShortlistIsPerUser | property/views.py:90-95 | Adding or removing never touches another user's entries. |

## Left out

- HTTP, HTML parsing and `urljoin` are not modelled. A page is an abstract parsed response (status, entries with optional anchor and address, optional next anchor) returned by a `fetch` parameter, and `urljoin` is a `join` parameter. Request headers and timeouts are not modelled. A timeout is one way for a request to raise.
- Case mapping, `\d`, `\w` and `\b` cover ASCII only. Python applies them to all of Unicode. Whitespace for `strip` and `\s` is Python's `str.isspace` set.
- `send_mail` is a `deliver` parameter. In the watch command a refused mail ends the run, as an uncaught exception would. In the notifier delivery is silent, so a mail only counts as attempted.
- Logging to stdout and stderr and the scraper error print in `_run_search` are not modelled.
- The `planning_search` view (rendering, the `Paginator`, and its alert-creation branch with a fixed address), `listings_inbox`, `search_list`, `search_delete`, `dashboard`, the shortlist page, `watch_list`, `watch_thanks`, templates and redirects are not modelled. They are presentation around the modelled logic.
- Form validation is modelled only for the watch form's query field: stripping, required, at most 255 characters, no null characters. E-mail syntax, integer and float parsing, and the form-level checks are inputs: `emailValid` for the watch form, and already-parsed optional values for the search form.
- `radius_miles` is carried as a `real` and never computed with.
- Services.MatchesIff: stated only for criteria whose bounds are absent, null or integers and whose keywords are absent, null, a string or a list. Python also compares float and bool bounds without error, and `or []` turns a falsy keywords value such as 0 into []; those stored values are outside the contract. The only writer of criteria is the saved-search form, whose output always has this shape (SearchForms.StoredWellTyped).
- Watchlist.UpdatedSeen: Python's `list(set)` has no defined order. The model fixes one order (old urls first, then new ones), and the contract only states membership and the absence of duplicates.
- PropertyViews.Ingest: a set has no defined iteration order, so the loop takes urls in an arbitrary order. Its contract says nothing about the order of the new listings or the ids they get.
- Listing ids come from a counter in the table. Database-assigned ids and auto-now timestamps are modelled by the `now` parameter and the next-id counter.
- `fetch` is a pure function of the request. The Croydon scraper's session cookies therefore cannot influence later pages in the model.
- Watchlist.RunSettlesPrefix: watches, and the searches the notifier visits, are taken in store order. The source's querysets have no `order_by`, so in the source the prefix is of an unspecified order.
- Concurrency is not modelled: two webhook deliveries or two command runs at the same time, and races on the unique constraints.
- The settings sender is a parameter: `EMAIL_FROM`, with "alerts@example.com" as the default, for the command, and `DEFAULT_FROM_EMAIL` for the notifier.
- PropertyViews.FindAllOfJoined: the exact-extraction round trip is proved for texts of links of one portal. For mixed Rightmove and Zoopla texts only soundness is proved (PropertyViews.FindAllSound, PropertyViews.ExtractLinks).
- `planning/tasks.py`, `planning/admin.py`, the url configurations and the context processor are not part of this model.
