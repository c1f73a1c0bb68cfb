/** The property app's two services: whether a listing satisfies a saved
    search's criteria, and the instant-alert pass that records each new
    (search, listing) match once and mails its owner only then. */
module Services {

  import opened Wrappers
  import opened Text
  import opened Email
  import opened PropertyModels

  // ---------------------------------------------------------------------
  // listing_matches
  // ---------------------------------------------------------------------

  /** The four numeric bounds the matcher reads. */
  const BoundKeys: seq<string> := ["beds_min", "baths_min", "price_min", "price_max"]

  /** Criteria the matcher can evaluate without a type error: every bound is absent,
      null or an integer, and the keywords are absent, null, a string or a list. */
  predicate WellTyped(c: Criteria) {
    && (forall i :: 0 <= i < |BoundKeys| ==> Get(c, BoundKeys[i]).VNull? || Get(c, BoundKeys[i]).VInt?)
    && (Get(c, "keywords").VNull? || Get(c, "keywords").VStr? || Get(c, "keywords").VList?)
  }

  /** A bound's value, `None` when absent or null. */
  function Bound(c: Criteria, key: string): Option<int> {
    match Get(c, key)
    case VInt(n) => Some(n)
    case _ => None
  }

  /** `criteria.get("keywords") or []`: a list as is, a string as its characters. */
  function Keywords(c: Criteria): (kws: seq<string>)
    ensures Get(c, "keywords").VList? ==> kws == Get(c, "keywords").items
    ensures Get(c, "keywords").VNull? ==> kws == []
  {
    match Get(c, "keywords")
    case VList(items) => items
    case VStr(s) => seq(|s|, i requires 0 <= i < |s| => [s[i]])
    case _ => []
  }

  /** `" ".join([title, address]).lower()`. */
  function Hay(l: Listing): string {
    Lower(l.title + " " + l.address)
  }

  /** The keyword loop: the first non-empty keyword missing from the hay rejects. */
  function KeywordScan(kws: seq<string>, hay: string): bool
    decreases |kws|
  {
    if kws == [] then true
    else if kws[0] != "" && !Contains(hay, Lower(kws[0])) then false
    else KeywordScan(kws[1..], hay)
  }

  /** `listing_matches(listing, criteria)`, check by check in the source's order. */
  function ListingMatches(l: Listing, c: Criteria): bool
    requires WellTyped(c)
  {
    if Bound(c, "beds_min").Some? && l.bedrooms.Some? && l.bedrooms.value < Bound(c, "beds_min").value then false
    else if Bound(c, "baths_min").Some? && l.bathrooms.Some? && l.bathrooms.value < Bound(c, "baths_min").value then false
    else if Bound(c, "price_min").Some? && l.price.Some? && l.price.value < Bound(c, "price_min").value then false
    else if Bound(c, "price_max").Some? && l.price.Some? && l.price.value > Bound(c, "price_max").value then false
    else KeywordScan(Keywords(c), Hay(l))
  }

  /** A lower bound holds unless both it and the field are present and the field is below it. */
  predicate AtLeast(field: Option<int>, bound: Option<int>) {
    bound.None? || field.None? || field.value >= bound.value
  }

  predicate AtMost(field: Option<int>, bound: Option<int>) {
    bound.None? || field.None? || field.value <= bound.value
  }

  /** Every non-empty keyword, lower-cased, occurs in the hay. */
  predicate KeywordsFound(kws: seq<string>, hay: string) {
    forall i :: 0 <= i < |kws| ==> kws[i] == "" || Contains(hay, Lower(kws[i]))
  }

  lemma {:induction false} KeywordScanIff(kws: seq<string>, hay: string)
    ensures KeywordScan(kws, hay) <==> KeywordsFound(kws, hay)
    decreases |kws|
  {
    if kws != [] {
      KeywordScanIff(kws[1..], hay);
      assert forall i :: 1 <= i < |kws| ==> kws[i] == kws[1..][i - 1];
    }
  }

  /** The declarative reading of the matcher: the clauses combine by AND, each numeric
      clause rejecting only when both the bound and the field are present and violated. */
  lemma MatchesIff(l: Listing, c: Criteria)
    requires WellTyped(c)
    ensures ListingMatches(l, c) <==>
      && AtLeast(l.bedrooms, Bound(c, "beds_min"))
      && AtLeast(l.bathrooms, Bound(c, "baths_min"))
      && AtLeast(l.price, Bound(c, "price_min"))
      && AtMost(l.price, Bound(c, "price_max"))
      && KeywordsFound(Keywords(c), Hay(l))
  {
    KeywordScanIff(Keywords(c), Hay(l));
  }

  /** Empty criteria accept every listing. */
  lemma EmptyCriteriaMatchAll(l: Listing)
    ensures WellTyped(map[]) && ListingMatches(l, map[])
  {
    assert Get(map[], "keywords") == VNull;
  }

  /** A listing without price, bedrooms and bathrooms can be rejected only by keywords. */
  lemma MissingFieldsNeverReject(l: Listing, c: Criteria)
    requires WellTyped(c)
    requires l.price.None? && l.bedrooms.None? && l.bathrooms.None?
    ensures ListingMatches(l, c) <==> KeywordsFound(Keywords(c), Hay(l))
  {
    MatchesIff(l, c);
  }

  /** Adding a criterion that was absent never turns a rejection into a match. */
  lemma AddingCriterionNarrows(l: Listing, c: Criteria, key: string, v: Value)
    requires key !in c
    requires WellTyped(c) && WellTyped(c[key := v])
    ensures ListingMatches(l, c[key := v]) ==> ListingMatches(l, c)
  {
    var d := c[key := v];
    MatchesIff(l, c);
    MatchesIff(l, d);
    assert forall k :: k != key ==> Get(d, k) == Get(c, k);
    assert Get(c, key) == VNull;
  }

  // ---------------------------------------------------------------------
  // notify_instant_matches
  // ---------------------------------------------------------------------

  /** A search wants a mail about a listing: instant alerts, same portal, criteria met. */
  predicate Eligible(s: SavedSearch, l: Listing)
    requires WellTyped(s.criteria)
  {
    s.alertFrequency == Instant && l.portal == s.portal && ListingMatches(l, s.criteria)
  }

  function MatchSubject(s: SavedSearch): string {
    "New property match: " + s.name
  }

  function MatchBody(l: Listing): string {
    "New listing matched:\n" + l.canonicalUrl
  }

  /** A mail handed to the backend, with the pair it announces. Delivery failures are
      swallowed, so what matters is that the mail was attempted. */
  datatype Notice = Notice(key: MatchKey, mail: Mail)

  datatype NotifyResult = NotifyResult(matches: MatchTable, notices: seq<Notice>)

  predicate AllWellTyped(searches: seq<SavedSearch>) {
    forall i :: 0 <= i < |searches| ==> WellTyped(searches[i].criteria)
  }

  /** The inner loop for one search over the listings. */
  function NotifyForSearch(s: SavedSearch, listings: seq<Listing>, matches: MatchTable, now: int, sender: string)
    : (r: NotifyResult)
    requires WellTyped(s.criteria)
    decreases |listings|
  {
    if listings == [] then NotifyResult(matches, [])
    else
      var l := listings[0];
      var key := MatchKey(s.id, l.id);
      if !Eligible(s, l) || key in matches then NotifyForSearch(s, listings[1..], matches, now, sender)
      else
        var rest := NotifyForSearch(s, listings[1..], matches[key := now], now, sender);
        if s.owner.email == "" then rest
        else NotifyResult(rest.matches,
          [Notice(key, Mail(sender, s.owner.email, MatchSubject(s), MatchBody(l)))] + rest.notices)
  }

  /** `notify_instant_matches(listings)`: every search, then every listing. */
  function NotifyInstant(searches: seq<SavedSearch>, listings: seq<Listing>, matches: MatchTable, now: int, sender: string)
    : (r: NotifyResult)
    requires AllWellTyped(searches)
    decreases |searches|
  {
    if searches == [] then NotifyResult(matches, [])
    else
      var first := NotifyForSearch(searches[0], listings, matches, now, sender);
      var rest := NotifyInstant(searches[1..], listings, first.matches, now, sender);
      NotifyResult(rest.matches, first.notices + rest.notices)
  }

  /** The pairs one search's loop would match. */
  ghost predicate WantedBy(s: SavedSearch, listings: seq<Listing>, k: MatchKey)
    requires WellTyped(s.criteria)
  {
    exists j :: 0 <= j < |listings| && Eligible(s, listings[j]) && k == MatchKey(s.id, listings[j].id)
  }

  /** The pairs a whole pass would match. */
  ghost predicate Wanted(searches: seq<SavedSearch>, listings: seq<Listing>, k: MatchKey)
    requires AllWellTyped(searches)
  {
    exists i :: 0 <= i < |searches| && WantedBy(searches[i], listings, k)
  }

  predicate DistinctKeys(ns: seq<Notice>) {
    forall i, j :: 0 <= i < j < |ns| ==> ns[i].key != ns[j].key
  }

  lemma WantedByCons(s: SavedSearch, listings: seq<Listing>, k: MatchKey)
    requires WellTyped(s.criteria) && listings != []
    ensures WantedBy(s, listings, k) <==>
      (Eligible(s, listings[0]) && k == MatchKey(s.id, listings[0].id)) || WantedBy(s, listings[1..], k)
  {
    if WantedBy(s, listings[1..], k) {
      var j :| 0 <= j < |listings[1..]| && Eligible(s, listings[1..][j]) && k == MatchKey(s.id, listings[1..][j].id);
      assert listings[1..][j] == listings[j + 1];
    }
    if WantedBy(s, listings, k) {
      var j :| 0 <= j < |listings| && Eligible(s, listings[j]) && k == MatchKey(s.id, listings[j].id);
      if j > 0 {
        assert listings[1..][j - 1] == listings[j];
      }
    }
  }

  lemma WantedCons(searches: seq<SavedSearch>, listings: seq<Listing>, k: MatchKey)
    requires AllWellTyped(searches) && searches != []
    ensures AllWellTyped(searches[1..])
    ensures Wanted(searches, listings, k) <==>
      WantedBy(searches[0], listings, k) || Wanted(searches[1..], listings, k)
  {
    assert forall i :: 1 <= i < |searches| ==> searches[1..][i - 1] == searches[i];
    if Wanted(searches[1..], listings, k) {
      var i :| 0 <= i < |searches[1..]| && WantedBy(searches[1..][i], listings, k);
      assert searches[1..][i] == searches[i + 1];
    }
  }

  /** One search's loop adds exactly its wanted pairs and rewrites no existing row. */
  lemma {:induction false} ForSearchKeys(s: SavedSearch, listings: seq<Listing>, matches: MatchTable, now: int, sender: string)
    requires WellTyped(s.criteria)
    ensures var r := NotifyForSearch(s, listings, matches, now, sender);
      && (forall k :: k in r.matches <==> k in matches || WantedBy(s, listings, k))
      && (forall k :: k in matches ==> r.matches[k] == matches[k])
    decreases |listings|
  {
    if listings != [] {
      var key := MatchKey(s.id, listings[0].id);
      forall k ensures WantedBy(s, listings, k) <==>
        (Eligible(s, listings[0]) && k == key) || WantedBy(s, listings[1..], k)
      {
        WantedByCons(s, listings, k);
      }
      if !Eligible(s, listings[0]) || key in matches {
        ForSearchKeys(s, listings[1..], matches, now, sender);
      } else {
        ForSearchKeys(s, listings[1..], matches[key := now], now, sender);
      }
    }
  }

  /** Each mail of one search's loop announces a pair new to the table, to the owner's
      non-empty address, and no pair twice. */
  lemma {:induction false} ForSearchNotices(s: SavedSearch, listings: seq<Listing>, matches: MatchTable, now: int, sender: string)
    requires WellTyped(s.criteria)
    ensures var r := NotifyForSearch(s, listings, matches, now, sender);
      && (forall n :: n in r.notices ==> n.key !in matches && n.key in r.matches)
      && (forall n :: n in r.notices ==> n.mail.to == s.owner.email && n.mail.to != "")
      && DistinctKeys(r.notices)
    decreases |listings|
  {
    if listings != [] {
      var key := MatchKey(s.id, listings[0].id);
      if !Eligible(s, listings[0]) || key in matches {
        ForSearchNotices(s, listings[1..], matches, now, sender);
      } else {
        ForSearchNotices(s, listings[1..], matches[key := now], now, sender);
        ForSearchKeys(s, listings[1..], matches[key := now], now, sender);
      }
    }
  }

  lemma DistinctAppend(a: seq<Notice>, b: seq<Notice>)
    requires DistinctKeys(a) && DistinctKeys(b)
    requires forall m, n :: m in a && n in b ==> m.key != n.key
    ensures DistinctKeys(a + b)
  {
    forall i, j | 0 <= i < j < |a + b| ensures (a + b)[i].key != (a + b)[j].key {
      if j < |a| {
        assert (a + b)[i] == a[i] && (a + b)[j] == a[j];
      } else if i >= |a| {
        assert (a + b)[i] == b[i - |a|] && (a + b)[j] == b[j - |a|];
      } else {
        assert (a + b)[i] in a && (a + b)[j] in b;
      }
    }
  }

  lemma {:induction false} NotifyInstantKeys(searches: seq<SavedSearch>, listings: seq<Listing>, matches: MatchTable, now: int, sender: string)
    requires AllWellTyped(searches)
    ensures var r := NotifyInstant(searches, listings, matches, now, sender);
      && (forall k :: k in r.matches <==> k in matches || Wanted(searches, listings, k))
      && (forall k :: k in matches ==> r.matches[k] == matches[k])
    decreases |searches|
  {
    if searches != [] {
      var first := NotifyForSearch(searches[0], listings, matches, now, sender);
      ForSearchKeys(searches[0], listings, matches, now, sender);
      forall k ensures Wanted(searches, listings, k) <==>
        WantedBy(searches[0], listings, k) || Wanted(searches[1..], listings, k)
      {
        WantedCons(searches, listings, k);
      }
      NotifyInstantKeys(searches[1..], listings, first.matches, now, sender);
    }
  }

  lemma {:induction false} NotifyInstantNotices(searches: seq<SavedSearch>, listings: seq<Listing>, matches: MatchTable, now: int, sender: string)
    requires AllWellTyped(searches)
    ensures var r := NotifyInstant(searches, listings, matches, now, sender);
      && (forall n :: n in r.notices ==> n.key !in matches && n.key in r.matches && n.mail.to != "")
      && DistinctKeys(r.notices)
    decreases |searches|
  {
    if searches != [] {
      var first := NotifyForSearch(searches[0], listings, matches, now, sender);
      assert AllWellTyped(searches[1..]);
      var rest := NotifyInstant(searches[1..], listings, first.matches, now, sender);
      ForSearchKeys(searches[0], listings, matches, now, sender);
      ForSearchNotices(searches[0], listings, matches, now, sender);
      NotifyInstantNotices(searches[1..], listings, first.matches, now, sender);
      NotifyInstantKeys(searches[1..], listings, first.matches, now, sender);
      DistinctAppend(first.notices, rest.notices);
    }
  }

  /** `n` is the mail one search's loop sends for one of its eligible listings: to the
      owner, under the search's subject, with that listing's URL in the body. */
  ghost predicate MailFor(s: SavedSearch, listings: seq<Listing>, sender: string, n: Notice)
    requires WellTyped(s.criteria)
  {
    exists j :: 0 <= j < |listings| && Eligible(s, listings[j]) && n.key == MatchKey(s.id, listings[j].id)
      && n.mail == Mail(sender, s.owner.email, MatchSubject(s), MatchBody(listings[j]))
  }

  lemma MailForTail(s: SavedSearch, listings: seq<Listing>, sender: string, n: Notice)
    requires WellTyped(s.criteria) && listings != [] && MailFor(s, listings[1..], sender, n)
    ensures MailFor(s, listings, sender, n)
  {
    var j :| 0 <= j < |listings[1..]| && Eligible(s, listings[1..][j]) && n.key == MatchKey(s.id, listings[1..][j].id)
      && n.mail == Mail(sender, s.owner.email, MatchSubject(s), MatchBody(listings[1..][j]));
    assert listings[1..][j] == listings[j + 1];
  }

  /** One search's loop mails every pair it newly records when the owner has an address,
      and every mail it sends is the right one for an eligible listing. */
  lemma {:induction false} ForSearchMails(s: SavedSearch, listings: seq<Listing>, matches: MatchTable, now: int, sender: string)
    requires WellTyped(s.criteria)
    ensures var r := NotifyForSearch(s, listings, matches, now, sender);
      && (forall n :: n in r.notices ==> MailFor(s, listings, sender, n))
      && (s.owner.email != "" ==>
            forall k :: k in r.matches && k !in matches ==> exists n :: n in r.notices && n.key == k)
    decreases |listings|
  {
    if listings != [] {
      var l := listings[0];
      var key := MatchKey(s.id, l.id);
      var r := NotifyForSearch(s, listings, matches, now, sender);
      if !Eligible(s, l) || key in matches {
        ForSearchMails(s, listings[1..], matches, now, sender);
        forall n | n in r.notices ensures MailFor(s, listings, sender, n) {
          MailForTail(s, listings, sender, n);
        }
      } else {
        var rest := NotifyForSearch(s, listings[1..], matches[key := now], now, sender);
        ForSearchMails(s, listings[1..], matches[key := now], now, sender);
        forall n | n in rest.notices ensures MailFor(s, listings, sender, n) {
          MailForTail(s, listings, sender, n);
        }
        if s.owner.email != "" {
          var head := Notice(key, Mail(sender, s.owner.email, MatchSubject(s), MatchBody(l)));
          assert r.notices == [head] + rest.notices;
          assert MailFor(s, listings, sender, head);
          forall k | k in r.matches && k !in matches ensures exists n :: n in r.notices && n.key == k {
            if k == key {
              assert head in r.notices;
            } else {
              assert k !in matches[key := now];
              var n :| n in rest.notices && n.key == k;
              assert n in r.notices;
            }
          }
        }
      }
    }
  }

  /** The first search of a pass that wants `k`: the one whose loop records it. */
  ghost predicate FirstWanter(searches: seq<SavedSearch>, listings: seq<Listing>, i: int, k: MatchKey)
    requires AllWellTyped(searches)
  {
    && 0 <= i < |searches| && WantedBy(searches[i], listings, k)
    && forall j :: 0 <= j < i ==> !WantedBy(searches[j], listings, k)
  }

  lemma FirstWanterTail(searches: seq<SavedSearch>, listings: seq<Listing>, i: int, k: MatchKey)
    requires AllWellTyped(searches) && FirstWanter(searches, listings, i, k) && i > 0
    ensures AllWellTyped(searches[1..]) && FirstWanter(searches[1..], listings, i - 1, k)
    ensures !WantedBy(searches[0], listings, k)
  {
    assert forall j :: 0 <= j < |searches| - 1 ==> searches[1..][j] == searches[j + 1];
  }

  /** `n` is the mail some search of the pass sends for one of its eligible listings. */
  ghost predicate MailForSome(searches: seq<SavedSearch>, listings: seq<Listing>, sender: string, n: Notice)
    requires AllWellTyped(searches)
  {
    exists i :: 0 <= i < |searches| && MailFor(searches[i], listings, sender, n)
  }

  /** Every mail of a pass is the right one for some search and an eligible listing, and
      every pair new to the table is mailed, under the subject of the search that records
      it, whenever that search's owner has an address. */
  lemma {:induction false} NotifyInstantMails(searches: seq<SavedSearch>, listings: seq<Listing>, matches: MatchTable, now: int, sender: string)
    requires AllWellTyped(searches)
    ensures var r := NotifyInstant(searches, listings, matches, now, sender);
      && (forall n :: n in r.notices ==> MailForSome(searches, listings, sender, n))
      && (forall i, k :: FirstWanter(searches, listings, i, k) && k !in matches && searches[i].owner.email != "" ==>
            exists n :: n in r.notices && n.key == k && MailFor(searches[i], listings, sender, n))
    decreases |searches|
  {
    if searches != [] {
      var r := NotifyInstant(searches, listings, matches, now, sender);
      var first := NotifyForSearch(searches[0], listings, matches, now, sender);
      assert AllWellTyped(searches[1..]);
      var rest := NotifyInstant(searches[1..], listings, first.matches, now, sender);
      assert r.notices == first.notices + rest.notices;
      ForSearchKeys(searches[0], listings, matches, now, sender);
      ForSearchMails(searches[0], listings, matches, now, sender);
      NotifyInstantMails(searches[1..], listings, first.matches, now, sender);
      forall n | n in r.notices ensures MailForSome(searches, listings, sender, n) {
        if n in first.notices {
          assert MailFor(searches[0], listings, sender, n);
        } else {
          assert n in rest.notices;
          assert MailForSome(searches[1..], listings, sender, n);
          var i :| 0 <= i < |searches[1..]| && MailFor(searches[1..][i], listings, sender, n);
          assert searches[1..][i] == searches[i + 1];
        }
      }
      forall i, k | FirstWanter(searches, listings, i, k) && k !in matches && searches[i].owner.email != ""
        ensures exists n :: n in r.notices && n.key == k && MailFor(searches[i], listings, sender, n)
      {
        if i == 0 {
          var n :| n in first.notices && n.key == k;
          assert n in r.notices && MailFor(searches[0], listings, sender, n);
        } else {
          FirstWanterTail(searches, listings, i, k);
          assert searches[1..][i - 1] == searches[i];
          var n :| n in rest.notices && n.key == k && MailFor(searches[1..][i - 1], listings, sender, n);
          assert n in r.notices;
        }
      }
    }
  }

  /** After a pass the table holds exactly the old pairs and the wanted ones, old rows
      untouched; each mail announces a pair that was not in the table before, is the
      right mail for some search and eligible listing, and no pair is announced twice;
      and every pair new to the table is mailed whenever the search recording it has an
      owner address. */
  lemma NotifyInstantRecordsOnce(searches: seq<SavedSearch>, listings: seq<Listing>, matches: MatchTable, now: int, sender: string)
    requires AllWellTyped(searches)
    ensures var r := NotifyInstant(searches, listings, matches, now, sender);
      && (forall k :: k in r.matches <==> k in matches || Wanted(searches, listings, k))
      && (forall k :: k in matches ==> r.matches[k] == matches[k])
      && (forall n :: n in r.notices ==> n.key !in matches && n.key in r.matches && n.mail.to != "")
      && (forall n :: n in r.notices ==> MailForSome(searches, listings, sender, n))
      && DistinctKeys(r.notices)
      && (forall i, k :: FirstWanter(searches, listings, i, k) && k !in matches && searches[i].owner.email != "" ==>
            exists n :: n in r.notices && n.key == k && MailFor(searches[i], listings, sender, n))
  {
    NotifyInstantKeys(searches, listings, matches, now, sender);
    NotifyInstantNotices(searches, listings, matches, now, sender);
    NotifyInstantMails(searches, listings, matches, now, sender);
  }

  /** At most one mail per pair across calls: a second pass over the same listings
      sends nothing and changes nothing. */
  lemma ReplaySendsNothing(searches: seq<SavedSearch>, listings: seq<Listing>, matches: MatchTable, now: int, later: int, sender: string)
    requires AllWellTyped(searches)
    ensures var r := NotifyInstant(searches, listings, matches, now, sender);
      NotifyInstant(searches, listings, r.matches, later, sender) == NotifyResult(r.matches, [])
  {
    var r := NotifyInstant(searches, listings, matches, now, sender);
    NotifyInstantKeys(searches, listings, matches, now, sender);
    AlreadyMatchedIsQuiet(searches, listings, r.matches, later, sender);
  }

  /** A pass in which every wanted pair is already in the table is the identity. */
  lemma {:induction false} AlreadyMatchedIsQuiet(searches: seq<SavedSearch>, listings: seq<Listing>, matches: MatchTable, now: int, sender: string)
    requires AllWellTyped(searches)
    requires forall k :: Wanted(searches, listings, k) ==> k in matches
    ensures NotifyInstant(searches, listings, matches, now, sender) == NotifyResult(matches, [])
    decreases |searches|
  {
    if searches != [] {
      forall k ensures Wanted(searches, listings, k) <==>
        WantedBy(searches[0], listings, k) || Wanted(searches[1..], listings, k)
      {
        WantedCons(searches, listings, k);
      }
      SearchAlreadyMatchedIsQuiet(searches[0], listings, matches, now, sender);
      AlreadyMatchedIsQuiet(searches[1..], listings, matches, now, sender);
    }
  }

  lemma {:induction false} SearchAlreadyMatchedIsQuiet(s: SavedSearch, listings: seq<Listing>, matches: MatchTable, now: int, sender: string)
    requires WellTyped(s.criteria)
    requires forall k :: WantedBy(s, listings, k) ==> k in matches
    ensures NotifyForSearch(s, listings, matches, now, sender) == NotifyResult(matches, [])
    decreases |listings|
  {
    if listings != [] {
      forall k ensures WantedBy(s, listings, k) <==>
        (Eligible(s, listings[0]) && k == MatchKey(s.id, listings[0].id)) || WantedBy(s, listings[1..], k)
      {
        WantedByCons(s, listings, k);
      }
      SearchAlreadyMatchedIsQuiet(s, listings[1..], matches, now, sender);
    }
  }

  /** An owner without an address still gets the pair recorded, so no mail about it is
      ever sent later either. */
  lemma NoAddressStillRecorded(s: SavedSearch, l: Listing, matches: MatchTable, now: int, sender: string)
    requires WellTyped(s.criteria) && Eligible(s, l)
    requires s.owner.email == ""
    ensures var r := NotifyInstant([s], [l], matches, now, sender);
      MatchKey(s.id, l.id) in r.matches && r.notices == []
  {
    var key := MatchKey(s.id, l.id);
    assert [s][1..] == [] && [l][1..] == [];
    var first := NotifyForSearch(s, [l], matches, now, sender);
    if key !in matches {
      assert NotifyForSearch(s, [], matches[key := now], now, sender) == NotifyResult(matches[key := now], []);
      assert first == NotifyResult(matches[key := now], []);
    } else {
      assert NotifyForSearch(s, [], matches, now, sender) == NotifyResult(matches, []);
      assert first == NotifyResult(matches, []);
    }
    assert NotifyInstant([s], [l], matches, now, sender) == NotifyResult(first.matches, first.notices + []);
  }

  /** A wanted pair not yet recorded is announced by exactly the expected mail. */
  lemma NewPairIsMailed(s: SavedSearch, l: Listing, matches: MatchTable, now: int, sender: string)
    requires WellTyped(s.criteria) && Eligible(s, l)
    requires s.owner.email != "" && MatchKey(s.id, l.id) !in matches
    ensures NotifyInstant([s], [l], matches, now, sender).notices ==
      [Notice(MatchKey(s.id, l.id), Mail(sender, s.owner.email, MatchSubject(s), MatchBody(l)))]
  {
    var key := MatchKey(s.id, l.id);
    assert [s][1..] == [] && [l][1..] == [];
    var first := NotifyForSearch(s, [l], matches, now, sender);
    assert NotifyForSearch(s, [], matches[key := now], now, sender) == NotifyResult(matches[key := now], []);
    assert first.notices == [Notice(key, Mail(sender, s.owner.email, MatchSubject(s), MatchBody(l)))] + [];
    assert NotifyInstant([s], [l], matches, now, sender) == NotifyResult(first.matches, first.notices + []);
  }
}
