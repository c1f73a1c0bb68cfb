/** The planning app's one persistent entity, `PlanningWatch`: a standing
    subscription to new planning applications for a free-text query. */
module PlanningModels {

  import Text

  /** Column widths of the two character fields. */
  const QueryMaxLength := 255
  const BoroughCodeMaxLength := 32

  /** `createdAt` is the timestamp Django fills in on insert; timestamps are plain integers here. */
  datatype PlanningWatch = PlanningWatch(
    email: string,
    query: string,
    boroughCode: string,
    createdAt: int,
    active: bool,
    seenUrls: seq<string>)

  /** A row that fits its columns. */
  predicate FitsColumns(w: PlanningWatch) {
    |w.query| <= QueryMaxLength && |w.boroughCode| <= BoroughCodeMaxLength
  }

  /** A fresh row: the given fields plus the model defaults. */
  function NewWatch(email: string, query: string, boroughCode: string, now: int): (w: PlanningWatch)
    ensures w.active
    ensures w.seenUrls == []
    ensures w.email == email && w.query == query && w.boroughCode == boroughCode && w.createdAt == now
  {
    PlanningWatch(email, query, boroughCode, now, true, [])
  }

  /** The separator between borough code and address in `__str__`: ") → ". */
  const Arrow: string := ") \U{2192} "

  /** `str(watch)`: "query (borough_code) → email". */
  function Describe(w: PlanningWatch): (r: string)
    ensures |r| == |w.query| + |w.boroughCode| + |w.email| + 6
    ensures r[..|w.query|] == w.query
    ensures r[|w.query|..|w.query| + 2] == " ("
    ensures r[|w.query| + 2..|w.query| + 2 + |w.boroughCode|] == w.boroughCode
    ensures r[|w.query| + 2 + |w.boroughCode|..|r| - |w.email|] == Arrow
    ensures r[|r| - |w.email|..] == w.email
  {
    w.query + " (" + w.boroughCode + Arrow + w.email
  }

  /** Two watches that render the same and share query and code also share the address. */
  lemma DescribeDeterminesEmail(v: PlanningWatch, w: PlanningWatch)
    requires v.query == w.query && v.boroughCode == w.boroughCode
    requires Describe(v) == Describe(w)
    ensures v.email == w.email
  {
    var n := |v.query| + |v.boroughCode| + 6;
    assert Describe(v)[n..] == v.email;
    assert Describe(w)[n..] == w.email;
  }
}
