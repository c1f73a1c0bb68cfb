/** The property app's records and the stores the notification and ingestion
    logic relies on. Tables are maps: a listing table indexed both by id and by
    its unique canonical URL, a match table keyed by (search, listing) and a
    shortlist keyed by (user, listing), so each uniqueness constraint is a key. */
module PropertyModels {

  import opened Wrappers

  // ---------------------------------------------------------------------
  // Choices
  // ---------------------------------------------------------------------

  datatype Portal = Rightmove | Zoopla {

    /** The stored value. */
    function Code(): string {
      match this
      case Rightmove => "rightmove"
      case Zoopla => "zoopla"
    }

    function Label(): string {
      match this
      case Rightmove => "Rightmove"
      case Zoopla => "Zoopla"
    }
  }

  /** A stored value read back as a choice; anything else is not a portal. */
  function ParsePortal(s: string): (r: Option<Portal>)
    ensures r.Some? ==> r.value.Code() == s
  {
    if s == "rightmove" then Some(Rightmove)
    else if s == "zoopla" then Some(Zoopla)
    else None
  }

  /** Every portal's code reads back as that portal, and the codes are distinct. */
  lemma PortalCodesRoundTrip(p: Portal)
    ensures ParsePortal(p.Code()) == Some(p)
  {
  }

  datatype AlertFrequency = Instant | Daily | Off {

    function Code(): string {
      match this
      case Instant => "instant"
      case Daily => "daily"
      case Off => "off"
    }

    function Label(): string {
      match this
      case Instant => "Instant"
      case Daily => "Daily digest"
      case Off => "Off"
    }
  }

  function ParseAlertFrequency(s: string): (r: Option<AlertFrequency>)
    ensures r.Some? ==> r.value.Code() == s
  {
    if s == "instant" then Some(Instant)
    else if s == "daily" then Some(Daily)
    else if s == "off" then Some(Off)
    else None
  }

  lemma AlertFrequencyCodesRoundTrip(f: AlertFrequency)
    ensures ParseAlertFrequency(f.Code()) == Some(f)
  {
  }

  // ---------------------------------------------------------------------
  // Saved searches
  // ---------------------------------------------------------------------

  /** A JSON value as stored in `criteria`. Floats are carried, never computed with. */
  datatype Value =
    | VNull
    | VInt(n: int)
    | VFloat(x: real)
    | VStr(s: string)
    | VList(items: seq<string>)

  type Criteria = map<string, Value>

  /** `criteria.get(key)`: an absent key reads as `None`. */
  function Get(c: Criteria, key: string): Value {
    if key in c then c[key] else VNull
  }

  datatype User = User(id: nat, email: string)

  datatype SavedSearch = SavedSearch(
    id: nat,
    owner: User,
    name: string,
    portal: Portal,
    criteria: Criteria,
    portalSearchUrl: string,
    alertFrequency: AlertFrequency,
    createdAt: int)

  /** A new search with the model's defaults: instant alerts and empty criteria. */
  function NewSavedSearch(id: nat, owner: User, name: string, portal: Portal, now: int): (s: SavedSearch)
    ensures s.alertFrequency == Instant && s.criteria == map[]
    ensures s.id == id && s.owner == owner && s.name == name && s.portal == portal
    ensures s.portalSearchUrl == "" && s.createdAt == now
  {
    SavedSearch(id, owner, name, portal, map[], "", Instant, now)
  }

  // ---------------------------------------------------------------------
  // Listings
  // ---------------------------------------------------------------------

  datatype Listing = Listing(
    id: nat,
    portal: Portal,
    canonicalUrl: string,
    title: string,
    address: string,
    postcode: string,
    price: Option<int>,
    bedrooms: Option<int>,
    bathrooms: Option<int>,
    firstSeen: int,
    lastSeen: int,
    rawSource: map<string, string>,
    isActive: bool)

  /** A listing created from an inbound e-mail: only the portal, url, timestamps and the
      mail's subject are known; everything else takes its default. */
  function NewListing(id: nat, portal: Portal, url: string, now: int, subject: string): (l: Listing)
    ensures l.id == id && l.portal == portal && l.canonicalUrl == url
    ensures l.firstSeen == now && l.lastSeen == now && l.rawSource == map["subject" := subject]
    ensures l.title == "" && l.address == "" && l.postcode == ""
    ensures l.price.None? && l.bedrooms.None? && l.bathrooms.None? && l.isActive
  {
    Listing(id, portal, url, "", "", "", None, None, None, now, now, map["subject" := subject], true)
  }

  /** The listing table: rows by id, the unique index on `canonical_url`, and the next id. */
  datatype ListingStore = ListingStore(rows: map<nat, Listing>, byUrl: map<string, nat>, nextId: nat)

  /** Ids are keys and below the next id; the url index and the rows agree both ways. */
  ghost predicate ValidStore(st: ListingStore) {
    && (forall id :: id in st.rows ==> st.rows[id].id == id && id < st.nextId)
    && (forall u :: u in st.byUrl ==> st.byUrl[u] in st.rows && st.rows[st.byUrl[u]].canonicalUrl == u)
    && (forall id :: id in st.rows ==>
          st.rows[id].canonicalUrl in st.byUrl && st.byUrl[st.rows[id].canonicalUrl] == id)
  }

  const EmptyStore := ListingStore(map[], map[], 1)

  lemma EmptyStoreValid()
    ensures ValidStore(EmptyStore)
  {
  }

  /** In a valid table no two listings share a canonical url. */
  lemma CanonicalUrlUnique(st: ListingStore, i: nat, j: nat)
    requires ValidStore(st)
    requires i in st.rows && j in st.rows && st.rows[i].canonicalUrl == st.rows[j].canonicalUrl
    ensures i == j
  {
    assert st.byUrl[st.rows[i].canonicalUrl] == i;
  }

  /** What `get_or_create` returns along with the table. */
  datatype Got = Got(store: ListingStore, id: nat, created: bool)

  /** `Listing.objects.get_or_create(canonical_url=url, defaults=...)`: the existing row for
      `url` untouched, or a new row with the defaults under the next id. */
  function GetOrCreate(st: ListingStore, url: string, portal: Portal, now: int, subject: string): (g: Got)
    requires ValidStore(st)
    ensures ValidStore(g.store)
    ensures g.created <==> url !in st.byUrl
    ensures !g.created ==> g.store == st && g.id == st.byUrl[url]
    ensures g.created ==>
      && g.id == st.nextId
      && g.store.rows == st.rows[g.id := NewListing(g.id, portal, url, now, subject)]
      && g.store.byUrl == st.byUrl[url := g.id]
      && g.store.nextId == st.nextId + 1
    ensures g.id in g.store.rows && g.store.rows[g.id].canonicalUrl == url
    ensures g.store.byUrl.Keys == st.byUrl.Keys + {url}
  {
    if url in st.byUrl then Got(st, st.byUrl[url], false)
    else
      var id := st.nextId;
      Got(ListingStore(st.rows[id := NewListing(id, portal, url, now, subject)], st.byUrl[url := id], id + 1), id, true)
  }

  /** `listing.last_seen = now; listing.save(update_fields=["last_seen"])`. */
  function Touch(st: ListingStore, id: nat, now: int): (r: ListingStore)
    requires ValidStore(st) && id in st.rows
    ensures ValidStore(r)
    ensures r.byUrl == st.byUrl && r.nextId == st.nextId && r.rows.Keys == st.rows.Keys
    ensures r.rows[id] == st.rows[id].(lastSeen := now)
    ensures forall j :: j in st.rows && j != id ==> r.rows[j] == st.rows[j]
  {
    ListingStore(st.rows[id := st.rows[id].(lastSeen := now)], st.byUrl, st.nextId)
  }

  // ---------------------------------------------------------------------
  // Matches and the shortlist
  // ---------------------------------------------------------------------

  /** The unique pair of a `SearchMatch`. */
  datatype MatchKey = MatchKey(searchId: nat, listingId: nat)

  /** `SearchMatch` rows: at most one per pair, with its `matched_at`. */
  type MatchTable = map<MatchKey, int>

  /** The unique pair of a `ShortlistItem`. */
  datatype ShortlistKey = ShortlistKey(userId: nat, listingId: nat)

  datatype ShortlistEntry = ShortlistEntry(createdAt: int, notes: string)

  type Shortlist = map<ShortlistKey, ShortlistEntry>
}
