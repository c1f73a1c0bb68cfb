/** The saved-search form: keyword cleaning and the criteria dictionary that
    `save` stores, with empty values dropped. Field parsing and the model
    fields' own validation belong to the form library and are not modelled;
    the numeric fields arrive here already parsed. */
module SearchForms {

  import opened Wrappers
  import opened Text
  import opened PropertyModels
  import opened Services

  // ---------------------------------------------------------------------
  // Keywords
  // ---------------------------------------------------------------------

  /** What a cleaned keyword looks like. */
  predicate IsCleanKeyword(k: string) {
    k != "" && IsStripped(k) && Lower(k) == k && ',' !in k
  }

  /** Stripping keeps only characters of the original. */
  lemma StripKeepsOut(p: string, c: char)
    requires c !in p
    ensures c !in Strip(p)
  {
    var r := Strip(p);
    var k :| Trims(p, r, k);
    forall i | 0 <= i < |r|
      ensures r[i] != c
    {
      assert r[i] == p[k..k + |r|][i] == p[k + i];
    }
  }

  /** One segment's contribution: its stripped, lower-cased text unless that is blank. */
  function Piece(p: string): seq<string> {
    if Strip(p) != "" then [Lower(Strip(p))] else []
  }

  /** A list comprehension with a filter: each element contributes zero or more results,
      in order. */
  function FlatMap<A, B>(f: A -> seq<B>, xs: seq<A>): seq<B>
    decreases |xs|
  {
    if xs == [] then [] else f(xs[0]) + FlatMap(f, xs[1..])
  }

  lemma {:induction false} FlatMapAppend<A, B>(f: A -> seq<B>, x: seq<A>, y: seq<A>)
    ensures FlatMap(f, x + y) == FlatMap(f, x) + FlatMap(f, y)
    decreases |x|
  {
    if x == [] {
      assert x + y == y;
    } else {
      FlatMapAppend(f, x[1..], y);
      assert (x + y)[0] == x[0] && (x + y)[1..] == x[1..] + y;
    }
  }

  lemma {:induction false} FlatMapAll<A, B>(f: A -> seq<B>, xs: seq<A>, p: B -> bool)
    requires forall i, j :: 0 <= i < |xs| && 0 <= j < |f(xs[i])| ==> p(f(xs[i])[j])
    ensures forall k :: 0 <= k < |FlatMap(f, xs)| ==> p(FlatMap(f, xs)[k])
    decreases |xs|
  {
    if xs != [] {
      FlatMapAll(f, xs[1..], p);
      var r := FlatMap(f, xs);
      assert r == f(xs[0]) + FlatMap(f, xs[1..]);
      forall k | 0 <= k < |r|
        ensures p(r[k])
      {
        if k >= |f(xs[0])| {
          assert r[k] == FlatMap(f, xs[1..])[k - |f(xs[0])|];
        } else {
          assert p(f(xs[0])[k]);
        }
      }
    }
  }

  lemma {:induction false} FlatMapUnits<A>(f: A -> seq<A>, xs: seq<A>)
    requires forall i :: 0 <= i < |xs| ==> f(xs[i]) == [xs[i]]
    ensures FlatMap(f, xs) == xs
    decreases |xs|
  {
    if xs != [] {
      FlatMapUnits(f, xs[1..]);
      assert [xs[0]] + xs[1..] == xs;
    }
  }

  /** `[k.strip().lower() for k in parts if k.strip()]`. */
  function Pieces(parts: seq<string>): seq<string> {
    FlatMap(Piece, parts)
  }

  /** A comma-free segment yields only a clean keyword. */
  lemma PieceIsClean(p: string)
    requires ',' !in p
    ensures forall j :: 0 <= j < |Piece(p)| ==> IsCleanKeyword(Piece(p)[j])
  {
    var k := Strip(p);
    if k != "" {
      StripKeepsOut(p, ',');
      LowerKeepsStripped(k);
      LowerIdempotent(k);
      LowerKeepsChar(k, ',');
    }
  }

  /** Pieces of comma-free parts are clean keywords. */
  lemma PiecesAreClean(parts: seq<string>)
    requires forall i :: 0 <= i < |parts| ==> ',' !in parts[i]
    ensures forall i :: 0 <= i < |Pieces(parts)| ==> IsCleanKeyword(Pieces(parts)[i])
  {
    forall i | 0 <= i < |parts|
      ensures forall j :: 0 <= j < |Piece(parts[i])| ==> IsCleanKeyword(Piece(parts[i])[j])
    {
      PieceIsClean(parts[i]);
    }
    FlatMapAll(Piece, parts, IsCleanKeyword);
  }

  /** Clean keywords are their own pieces. */
  lemma PiecesOfClean(kws: seq<string>)
    requires forall i :: 0 <= i < |kws| ==> IsCleanKeyword(kws[i])
    ensures Pieces(kws) == kws
  {
    forall i | 0 <= i < |kws|
      ensures Piece(kws[i]) == [kws[i]]
    {
      StripOfStripped(kws[i]);
    }
    FlatMapUnits(Piece, kws);
  }

  /** `clean_keywords`: an empty field gives no keywords; otherwise the comma-separated
      segments, stripped and lower-cased, with the blank ones dropped. */
  function CleanKeywords(s: string): (kws: seq<string>)
    ensures forall i :: 0 <= i < |kws| ==> IsCleanKeyword(kws[i])
  {
    PiecesAreClean(Split(s, ','));
    if s == "" then [] else Pieces(Split(s, ','))
  }

  /** The early return for an empty field agrees with the general rule. */
  lemma CleanKeywordsIsPieces(s: string)
    ensures CleanKeywords(s) == Pieces(Split(s, ','))
  {
    if s == "" {
      assert Split(s, ',') == [""];
      StripOfStripped("");
      assert FlatMap(Piece, [""]) == Piece("") + FlatMap(Piece, []);
    }
  }

  /** Segments keep their order: cleaning text joined at a comma cleans each side. */
  lemma CleanKeywordsAppend(a: string, b: string)
    ensures CleanKeywords(a + "," + b) == CleanKeywords(a) + CleanKeywords(b)
  {
    CleanKeywordsIsPieces(a + "," + b);
    CleanKeywordsIsPieces(a);
    CleanKeywordsIsPieces(b);
    SplitAroundSep(a, b, ',');
    FlatMapAppend(Piece, Split(a, ','), Split(b, ','));
  }

  /** Clean keywords written back as a comma-separated field clean to themselves. */
  lemma CleanKeywordsRoundTrip(kws: seq<string>)
    requires forall i :: 0 <= i < |kws| ==> IsCleanKeyword(kws[i])
    ensures CleanKeywords(JoinWith(kws, ',')) == kws
  {
    if kws != [] {
      CleanKeywordsIsPieces(JoinWith(kws, ','));
      SplitJoin(kws, ',');
      PiecesOfClean(kws);
    }
  }

  // ---------------------------------------------------------------------
  // The criteria dictionary
  // ---------------------------------------------------------------------

  /** The form's fields as the form library hands them over. Character fields arrive
      stripped of surrounding whitespace; numbers arrive parsed or absent. */
  datatype SearchForm = SearchForm(
    name: string,
    portal: Portal,
    portalSearchUrl: string,
    alertFrequency: AlertFrequency,
    bedsMin: Option<int>,
    bathsMin: Option<int>,
    priceMin: Option<int>,
    priceMax: Option<int>,
    postcode: string,
    radiusMiles: Option<real>,
    keywords: string)

  function IntValue(n: Option<int>): Value {
    if n.Some? then VInt(n.value) else VNull
  }

  function FloatValue(x: Option<real>): Value {
    if x.Some? then VFloat(x.value) else VNull
  }

  /** `v not in (None, "", [])`; a zero is kept. */
  predicate Kept(v: Value) {
    v != VNull && v != VStr("") && v != VList([])
  }

  /** The only keys a saved search's criteria can have. */
  const CriteriaKeys: set<string> :=
    {"beds_min", "baths_min", "price_min", "price_max", "postcode", "radius_miles", "keywords", "status"}

  /** The eight keys are pairwise different strings. */
  lemma KeysDistinct()
    ensures "beds_min" != "baths_min" && "beds_min" != "price_min" && "beds_min" != "price_max"
    ensures "beds_min" != "postcode" && "beds_min" != "radius_miles" && "beds_min" != "keywords"
    ensures "beds_min" != "status" && "baths_min" != "price_min" && "baths_min" != "price_max"
    ensures "baths_min" != "postcode" && "baths_min" != "radius_miles" && "baths_min" != "keywords"
    ensures "baths_min" != "status" && "price_min" != "price_max" && "price_min" != "postcode"
    ensures "price_min" != "radius_miles" && "price_min" != "keywords" && "price_min" != "status"
    ensures "price_max" != "postcode" && "price_max" != "radius_miles" && "price_max" != "keywords"
    ensures "price_max" != "status" && "postcode" != "radius_miles" && "postcode" != "keywords"
    ensures "postcode" != "status" && "radius_miles" != "keywords" && "radius_miles" != "status"
    ensures "keywords" != "status"
  {
    assert "beds_min"[0] == 'b' && "postcode"[0] == 'p' && "keywords"[0] == 'k';
    assert "baths_min"[0] == 'b' && "price_min"[0] == 'p' && "price_max"[0] == 'p';
    assert "price_min"[7] == 'i' && "price_max"[7] == 'a';
  }

  /** The values `save` puts in the dictionary: the bounds and radius as parsed, the
      postcode stripped (`or ""` turns a missing one into ""), the cleaned keywords. */
  datatype Extras = Extras(
    bedsMin: Option<int>,
    bathsMin: Option<int>,
    priceMin: Option<int>,
    priceMax: Option<int>,
    postcode: string,
    radiusMiles: Option<real>,
    keywords: seq<string>)

  /** The extra fields' `min_value=0`. */
  predicate BoundsValid(e: Extras) {
    && (e.bedsMin.Some? ==> e.bedsMin.value >= 0)
    && (e.bathsMin.Some? ==> e.bathsMin.value >= 0)
    && (e.priceMin.Some? ==> e.priceMin.value >= 0)
    && (e.priceMax.Some? ==> e.priceMax.value >= 0)
    && (e.radiusMiles.Some? ==> e.radiusMiles.value >= 0.0)
  }

  function ExtrasOf(f: SearchForm): Extras {
    Extras(f.bedsMin, f.bathsMin, f.priceMin, f.priceMax, Strip(f.postcode), f.radiusMiles, CleanKeywords(f.keywords))
  }

  /** The dictionary `save` assembles, before filtering, read at one of its keys. */
  function RawValue(e: Extras, key: string): Value
    requires key in CriteriaKeys
  {
    if key == "beds_min" then IntValue(e.bedsMin)
    else if key == "baths_min" then IntValue(e.bathsMin)
    else if key == "price_min" then IntValue(e.priceMin)
    else if key == "price_max" then IntValue(e.priceMax)
    else if key == "postcode" then VStr(e.postcode)
    else if key == "radius_miles" then FloatValue(e.radiusMiles)
    else if key == "keywords" then VList(e.keywords)
    else VStr("on_market")
  }

  /** The criteria `save` stores: the assembled dictionary with every empty value dropped. */
  function BuildCriteria(e: Extras): (c: Criteria)
    ensures c.Keys <= CriteriaKeys
    ensures forall k :: k in c ==> Kept(c[k]) && c[k] == RawValue(e, k)
    ensures forall k :: k in CriteriaKeys && Kept(RawValue(e, k)) ==> k in c
  {
    map k | k in CriteriaKeys && Kept(RawValue(e, k)) :: RawValue(e, k)
  }

  /** Reading a key back gives its assembled value, or nothing when the filter dropped it. */
  lemma StoredAt(e: Extras, key: string)
    requires key in CriteriaKeys
    ensures Get(BuildCriteria(e), key) == (if Kept(RawValue(e, key)) then RawValue(e, key) else VNull)
  {
  }

  lemma RawValues(e: Extras)
    ensures RawValue(e, "beds_min") == IntValue(e.bedsMin) && RawValue(e, "baths_min") == IntValue(e.bathsMin)
    ensures RawValue(e, "price_min") == IntValue(e.priceMin) && RawValue(e, "price_max") == IntValue(e.priceMax)
    ensures RawValue(e, "postcode") == VStr(e.postcode) && RawValue(e, "radius_miles") == FloatValue(e.radiusMiles)
    ensures RawValue(e, "keywords") == VList(e.keywords) && RawValue(e, "status") == VStr("on_market")
  {
    KeysDistinct();
  }

  /** Each stored field, read back: the bounds and radius as entered (zero included),
      the postcode only when it is not blank, the keywords only when some survive, and
      the status always. */
  lemma StoredFields(e: Extras)
    ensures var c := BuildCriteria(e);
      && Get(c, "beds_min") == IntValue(e.bedsMin) && Get(c, "baths_min") == IntValue(e.bathsMin)
      && Get(c, "price_min") == IntValue(e.priceMin) && Get(c, "price_max") == IntValue(e.priceMax)
      && Get(c, "radius_miles") == FloatValue(e.radiusMiles)
      && Get(c, "postcode") == (if e.postcode == "" then VNull else VStr(e.postcode))
      && Get(c, "keywords") == (if e.keywords == [] then VNull else VList(e.keywords))
      && Get(c, "status") == VStr("on_market")
  {
    RawValues(e);
    StoredAt(e, "beds_min");
    StoredAt(e, "baths_min");
    StoredAt(e, "price_min");
    StoredAt(e, "price_max");
    StoredAt(e, "postcode");
    StoredAt(e, "radius_miles");
    StoredAt(e, "keywords");
    StoredAt(e, "status");
  }

  /** The stored criteria never make the matcher fail on a type, and their keywords are
      the cleaned ones. */
  lemma StoredWellTyped(e: Extras)
    ensures WellTyped(BuildCriteria(e))
    ensures Keywords(BuildCriteria(e)) == e.keywords
  {
    var c := BuildCriteria(e);
    StoredFields(e);
    assert BoundKeys == ["beds_min", "baths_min", "price_min", "price_max"];
    forall i | 0 <= i < |BoundKeys|
      ensures Get(c, BoundKeys[i]).VNull? || Get(c, BoundKeys[i]).VInt?
    {
      if i == 0 {
        assert Get(c, BoundKeys[i]) == IntValue(e.bedsMin);
      } else if i == 1 {
        assert Get(c, BoundKeys[i]) == IntValue(e.bathsMin);
      } else if i == 2 {
        assert Get(c, BoundKeys[i]) == IntValue(e.priceMin);
      } else {
        assert Get(c, BoundKeys[i]) == IntValue(e.priceMax);
      }
    }
  }

  /** A bound of zero is a real bound and is kept. */
  lemma ZeroBoundKept(e: Extras)
    requires e.bedsMin == Some(0)
    ensures "beds_min" in BuildCriteria(e) && BuildCriteria(e)["beds_min"] == VInt(0)
  {
    StoredFields(e);
  }

  /** A form with every extra field left blank stores nothing but the status. */
  lemma BlankFormStoresOnlyStatus(e: Extras)
    requires e.bedsMin.None? && e.bathsMin.None? && e.priceMin.None? && e.priceMax.None?
    requires e.postcode == "" && e.radiusMiles.None? && e.keywords == []
    ensures BuildCriteria(e) == map["status" := VStr("on_market")]
  {
    var c := BuildCriteria(e);
    StoredFields(e);
    assert c.Keys == {"status"};
  }

  /** A valid form stores only non-negative bounds. */
  lemma StoredBoundsNonNegative(e: Extras)
    requires BoundsValid(e)
    ensures forall i :: 0 <= i < |BoundKeys| ==>
      Bound(BuildCriteria(e), BoundKeys[i]).None? || Bound(BuildCriteria(e), BoundKeys[i]).value >= 0
  {
    var c := BuildCriteria(e);
    StoredFields(e);
    assert BoundKeys == ["beds_min", "baths_min", "price_min", "price_max"];
    forall i | 0 <= i < |BoundKeys|
      ensures Bound(c, BoundKeys[i]).None? || Bound(c, BoundKeys[i]).value >= 0
    {
      if i == 0 {
        assert Bound(c, BoundKeys[i]) == e.bedsMin;
      } else if i == 1 {
        assert Bound(c, BoundKeys[i]) == e.bathsMin;
      } else if i == 2 {
        assert Bound(c, BoundKeys[i]) == e.priceMin;
      } else {
        assert Bound(c, BoundKeys[i]) == e.priceMax;
      }
    }
  }

  /** A search saved from the form matches a listing exactly when the form's own bounds
      and keywords accept it; the postcode, radius and status it stores are never read. */
  lemma SavedCriteriaMatch(f: SearchForm, l: Listing)
    ensures WellTyped(BuildCriteria(ExtrasOf(f)))
    ensures ListingMatches(l, BuildCriteria(ExtrasOf(f))) <==>
      && AtLeast(l.bedrooms, f.bedsMin)
      && AtLeast(l.bathrooms, f.bathsMin)
      && AtLeast(l.price, f.priceMin)
      && AtMost(l.price, f.priceMax)
      && KeywordsFound(CleanKeywords(f.keywords), Hay(l))
  {
    var e := ExtrasOf(f);
    var c := BuildCriteria(e);
    StoredFields(e);
    StoredWellTyped(e);
    MatchesIff(l, c);
    assert Bound(c, "beds_min") == f.bedsMin && Bound(c, "baths_min") == f.bathsMin;
    assert Bound(c, "price_min") == f.priceMin && Bound(c, "price_max") == f.priceMax;
  }

  /** `form.save(user=...)` on a new search: the model fields from the form, the criteria
      built from the extra fields. */
  function SaveNew(f: SearchForm, owner: User, id: nat, now: int): (s: SavedSearch)
    ensures s.criteria == BuildCriteria(ExtrasOf(f)) && s.owner == owner && s.id == id && s.createdAt == now
    ensures s.name == f.name && s.portal == f.portal && s.portalSearchUrl == f.portalSearchUrl
    ensures s.alertFrequency == f.alertFrequency
  {
    SavedSearch(id, owner, f.name, f.portal, BuildCriteria(ExtrasOf(f)), f.portalSearchUrl, f.alertFrequency, now)
  }

  /** `form.save(user=...)` on an existing search: the stored criteria are replaced by the
      ones the submitted form builds, not merged with them, so editing a search with the
      extra fields left blank leaves it with only the status. */
  function SaveEdit(s: SavedSearch, f: SearchForm, owner: User): (r: SavedSearch)
    ensures r.id == s.id && r.createdAt == s.createdAt && r.owner == owner
    ensures r == SaveNew(f, owner, s.id, s.createdAt)
  {
    s.(owner := owner, name := f.name, portal := f.portal, criteria := BuildCriteria(ExtrasOf(f)),
       portalSearchUrl := f.portalSearchUrl, alertFrequency := f.alertFrequency)
  }
}
