/** The planning app's decision logic: resolving a free-text query to a
    borough (postcode table first, borough names second), the search
    dispatch that runs only the Ealing scraper, and the gate that lets only
    Ealing queries become watches. Rendering, pagination of the results and
    redirects are not modelled. */
module PlanningViews {

  import opened Wrappers
  import opened Text
  import opened PlanningModels
  import opened Pagination
  import EalingScraper

  datatype Borough = Ealing | Croydon {

    /** The borough code stored on a watch and used as the scraper key. */
    function Code(): string {
      match this
      case Ealing => "ealing"
      case Croydon => "croydon"
    }

    function Label(): string {
      match this
      case Ealing => "London Borough of Ealing"
      case Croydon => "London Borough of Croydon"
    }
  }

  // ---------------------------------------------------------------------
  // The postcode pattern  \b([A-Z]{1,2}\d[A-Z\d]?)\s*\d[A-Z]{2}\b
  // ---------------------------------------------------------------------

  /** Index `i` of `t` holds a word character; false outside the string. */
  predicate WordAt(t: string, i: int) {
    0 <= i < |t| && IsWordChar(t[i])
  }

  /** `\b` at position `i`. */
  predicate WordBoundary(t: string, i: int) {
    WordAt(t, i - 1) != WordAt(t, i)
  }

  /** The end of the whitespace run that starts at `j`. */
  function SpaceRunEnd(t: string, j: nat): (k: nat)
    requires j <= |t|
    ensures j <= k <= |t|
    ensures forall m :: j <= m < k ==> IsSpace(t[m])
    ensures k == |t| || !IsSpace(t[k])
    decreases |t| - j
  {
    if j < |t| && IsSpace(t[j]) then SpaceRunEnd(t, j + 1) else j
  }

  /** `\d[A-Z]{2}\b` at `k`. */
  predicate InwardCodeAt(t: string, k: int) {
    && 0 <= k && k + 3 <= |t|
    && IsDigit(t[k]) && IsUpperLetter(t[k + 1]) && IsUpperLetter(t[k + 2])
    && WordBoundary(t, k + 3)
  }

  /** `\s*\d[A-Z]{2}\b` at `j`, trying only the longest whitespace run. */
  predicate InwardAt(t: string, j: nat)
    requires j <= |t|
  {
    InwardCodeAt(t, SpaceRunEnd(t, j))
  }

  /** The pattern's own reading of `\s*`: any run of whitespace from `j` to `k`. */
  ghost predicate InwardWith(t: string, j: int, k: int) {
    && 0 <= j <= k <= |t|
    && (forall m :: j <= m < k ==> IsSpace(t[m]))
    && InwardCodeAt(t, k)
  }

  /** Backtracking over `\s*` finds nothing the longest run misses: a digit is never
      whitespace, so the only run that can be followed by the inward code is the longest. */
  lemma InwardAtIff(t: string, j: nat)
    requires j <= |t|
    ensures InwardAt(t, j) <==> exists k :: InwardWith(t, j, k)
  {
    var e := SpaceRunEnd(t, j);
    if InwardAt(t, j) {
      assert InwardWith(t, j, e);
    }
    forall k | InwardWith(t, j, k) ensures k == e {
    }
  }

  /** Group 1 read as `n` letters, a digit and `opt` further letters-or-digits. */
  predicate OutwardAlt(t: string, i: int, n: int, opt: int) {
    && 0 <= i && (n == 1 || n == 2) && (opt == 0 || opt == 1) && i + n + 1 + opt <= |t|
    && IsUpperLetter(t[i]) && (n == 2 ==> IsUpperLetter(t[i + 1]))
    && IsDigit(t[i + n])
    && (opt == 1 ==> IsUpperLetter(t[i + n + 1]) || IsDigit(t[i + n + 1]))
  }

  /** The whole pattern matches at `i` with group 1 read as that alternative. */
  predicate AltMatches(t: string, i: int, n: int, opt: int) {
    OutwardAlt(t, i, n, opt) && WordBoundary(t, i) && InwardAt(t, i + n + 1 + opt)
  }

  /** The backtracking order of the greedy quantifiers `{1,2}` and `?`: more letters
      first, then the optional character present before absent. */
  predicate Precedes(n1: int, opt1: int, n2: int, opt2: int) {
    n1 > n2 || (n1 == n2 && opt1 > opt2)
  }

  /** Group 1 of the match starting at `i`, if the pattern matches there, trying the
      alternatives in backtracking order. */
  function MatchAt(t: string, i: nat): Option<string>
    requires i <= |t|
  {
    if AltMatches(t, i, 2, 1) then Some(t[i..i + 4])
    else if AltMatches(t, i, 2, 0) then Some(t[i..i + 3])
    else if AltMatches(t, i, 1, 1) then Some(t[i..i + 3])
    else if AltMatches(t, i, 1, 0) then Some(t[i..i + 2])
    else None
  }

  /** The pattern matches at `i` exactly when some alternative does, and group 1 is the
      text of the first alternative in backtracking order that matches. */
  lemma MatchAtIsFirstAlternative(t: string, i: nat)
    requires i <= |t|
    ensures MatchAt(t, i).None? <==> forall n, opt :: !AltMatches(t, i, n, opt)
    ensures MatchAt(t, i).Some? ==> exists n, opt ::
      && AltMatches(t, i, n, opt)
      && MatchAt(t, i).value == t[i..i + n + 1 + opt]
      && forall n', opt' :: Precedes(n', opt', n, opt) ==> !AltMatches(t, i, n', opt')
  {
  }

  /** `re.search`: group 1 of the leftmost match at or after `from`. */
  function FindOutward(t: string, from: nat): Option<string>
    requires from <= |t|
    decreases |t| - from
  {
    match MatchAt(t, from)
    case Some(o) => Some(o)
    case None => if from == |t| then None else FindOutward(t, from + 1)
  }

  /** The search finds nothing exactly when the pattern matches nowhere from `from` on. */
  lemma {:induction false} FindOutwardNone(t: string, from: nat)
    requires from <= |t|
    ensures FindOutward(t, from).None? <==> forall i :: from <= i <= |t| ==> MatchAt(t, i).None?
    decreases |t| - from
  {
    if MatchAt(t, from).None? && from < |t| {
      FindOutwardNone(t, from + 1);
    }
  }

  /** A found outward code is group 1 of the match at the leftmost position where the
      pattern matches. */
  lemma {:induction false} FindOutwardIsLeftmost(t: string, from: nat) returns (i: nat)
    requires from <= |t|
    requires FindOutward(t, from).Some?
    ensures from <= i <= |t| && MatchAt(t, i) == FindOutward(t, from)
    ensures forall j :: from <= j < i ==> MatchAt(t, j).None?
    decreases |t| - from
  {
    if MatchAt(t, from).Some? {
      i := from;
    } else {
      i := FindOutwardIsLeftmost(t, from + 1);
    }
  }

  /** Positions where the pattern cannot match are skipped. */
  lemma {:induction false} FindOutwardSkips(t: string, from: nat, stop: nat)
    requires from <= stop <= |t|
    requires forall i :: from <= i < stop ==> MatchAt(t, i).None?
    ensures FindOutward(t, from) == FindOutward(t, stop)
    decreases stop - from
  {
    if from < stop {
      FindOutwardSkips(t, from + 1, stop);
    }
  }

  // ---------------------------------------------------------------------
  // Borough detection
  // ---------------------------------------------------------------------

  /** Outward codes of the supported boroughs. */
  const OutwardTable: map<string, Borough> := map[
    "UB1" := Ealing, "UB2" := Ealing, "UB5" := Ealing, "UB6" := Ealing,
    "W3" := Ealing, "W5" := Ealing, "W7" := Ealing, "W13" := Ealing,
    "CR0" := Croydon, "CR2" := Croydon, "CR4" := Croydon, "CR7" := Croydon, "CR8" := Croydon]

  function Lookup(outward: Option<string>): Option<Borough> {
    if outward.Some? && outward.value in OutwardTable then Some(OutwardTable[outward.value]) else None
  }

  /** The result of `detect_borough_from_text`: the borough code and its label. */
  datatype Detection = Detection(borough: Option<Borough>, boroughLabel: Option<string>)

  function LabelOf(b: Option<Borough>): Option<string> {
    if b.Some? then Some(b.value.Label()) else None
  }

  /** The postcode's outward code looked up in the table, else the borough names,
      "CROYDON" before "EALING", all on the upper-cased text. */
  function DetectBorough(text: string): (d: Detection)
    ensures d.boroughLabel.Some? <==> d.borough.Some?
    ensures d.borough.Some? ==> d.boroughLabel == Some(d.borough.value.Label())
    ensures Lookup(FindOutward(Upper(text), 0)).Some? ==> d.borough == Lookup(FindOutward(Upper(text), 0))
    ensures d.borough.None? <==>
      && Lookup(FindOutward(Upper(text), 0)).None?
      && !Contains(Upper(text), "CROYDON") && !Contains(Upper(text), "EALING")
  {
    var t := Upper(text);
    var code :=
      match Lookup(FindOutward(t, 0))
      case Some(b) => Some(b)
      case None =>
        if Contains(t, "CROYDON") then Some(Croydon)
        else if Contains(t, "EALING") then Some(Ealing)
        else None;
    Detection(code, LabelOf(code))
  }

  lemma UpperOfLower(s: string)
    ensures Upper(Lower(s)) == Upper(s)
  {
    assert forall i :: 0 <= i < |s| ==> ToUpper(ToLower(s[i])) == ToUpper(s[i]);
  }

  /** Detection ignores letter case: any spelling of the same text resolves the same. */
  lemma DetectIgnoresCase(text: string)
    ensures DetectBorough(Lower(text)) == DetectBorough(text)
    ensures DetectBorough(Upper(text)) == DetectBorough(text)
  {
    UpperOfLower(text);
    UpperIdempotent(text);
  }

  /** The postcode text ` dLL` after an outward code: a space, a digit, two letters. */
  predicate IsInward(s: string) {
    |s| == 4 && s[0] == ' ' && IsDigit(s[1]) && IsUpperLetter(s[2]) && IsUpperLetter(s[3])
  }

  /** A full postcode with outward code `o` standing as its own word: the text before it
      ends in a non-word character, and the text after it does not continue the word. */
  predicate PostcodeShape(prefix: string, inward: string, suffix: string) {
    && (|prefix| == 0 || !IsWordChar(prefix[|prefix| - 1]))
    && IsInward(inward)
    && (|suffix| == 0 || !IsWordChar(suffix[0]))
  }

  /** A text where the postcode pattern matches nowhere inside `prefix`, then a full
      postcode with outward code `o`, then anything that does not continue the word. */
  predicate PostcodeInContext(prefix: string, o: string, inward: string, suffix: string) {
    && (forall i :: 0 <= i < |prefix| ==> MatchAt(Upper(prefix + o + inward + suffix), i).None?)
    && PostcodeShape(prefix, inward, suffix)
  }

  /** Every row of the table resolves, and a table postcode wins over any borough name
      elsewhere in the text (before it or after it) and over any outward code outside the
      table that follows it. */
  lemma TablePostcodeWins(prefix: string, o: string, inward: string, suffix: string)
    requires o in OutwardTable
    requires PostcodeInContext(prefix, o, inward, suffix)
    ensures DetectBorough(prefix + o + inward + suffix).borough == Some(OutwardTable[o])
  {
    var t := Upper(prefix + o + inward + suffix);
    var p := |prefix|;
    TableShapes(o);
    UpperOfPostcodeText(prefix, o, inward, suffix);
    FindOutwardSkips(t, 0, p);
    OutwardRowMatches(t, p, o);
  }

  /** The common case of the above: no digit at all before the postcode. */
  lemma DigitFreePrefixWins(prefix: string, o: string, inward: string, suffix: string)
    requires o in OutwardTable
    requires forall k :: 0 <= k < |prefix| ==> !IsDigit(prefix[k])
    requires PostcodeShape(prefix, inward, suffix)
    ensures DetectBorough(prefix + o + inward + suffix).borough == Some(OutwardTable[o])
  {
    var t := Upper(prefix + o + inward + suffix);
    var p := |prefix|;
    forall k | 0 <= k < p ensures !IsDigit(t[k]) {
      assert t[k] == ToUpper((prefix + o + inward + suffix)[k]) == ToUpper(prefix[k]);
      ToUpperKeepsClass(prefix[k]);
    }
    if p > 0 {
      assert t[p - 1] == ToUpper(prefix[p - 1]);
      ToUpperKeepsClass(prefix[p - 1]);
    }
    forall i | 0 <= i < p ensures MatchAt(t, i).None? {
      NoMatchBeforePostcode(t, p, i);
    }
    TablePostcodeWins(prefix, o, inward, suffix);
  }

  /** The search form's two example inputs joined into one address: the house number
      before the street does not hide the postcode after it. */
  lemma HouseNumberBeforePostcode()
    ensures DetectBorough("249 Conway Crescent, UB6 8JF").borough == Some(Ealing)
  {
    var prefix, o, inward := "249 Conway Crescent, ", "UB6", " 8JF";
    var t := Upper(prefix + o + inward);
    assert prefix + o + inward + "" == "249 Conway Crescent, UB6 8JF";
    forall k | 0 <= k < 3 ensures !IsUpperLetter(t[k]) {
      assert t[k] == prefix[k];
    }
    forall k | 3 <= k < 23 ensures !IsDigit(t[k]) {
      assert t[k] == ToUpper((prefix + o + inward)[k]);
      ToUpperKeepsClass((prefix + o + inward)[k]);
    }
    forall i | 0 <= i < |prefix| ensures MatchAt(Upper(prefix + o + inward + ""), i).None? {
      assert prefix + o + inward + "" == prefix + o + inward;
      NoDigitAheadNoMatch(t, i);
    }
    TablePostcodeWins(prefix, o, inward, "");
  }

  /** No match starts at a non-letter, nor at a letter with no digit in the next two
      characters. */
  lemma NoDigitAheadNoMatch(t: string, i: nat)
    requires i < |t|
    requires !IsUpperLetter(t[i]) || forall m :: i < m <= i + 2 && m < |t| ==> !IsDigit(t[m])
    ensures MatchAt(t, i).None?
  {
    forall n, opt ensures !OutwardAlt(t, i, n, opt) {
    }
  }

  /** Text without lower-case letters is its own upper-case form. */
  lemma UpperOfNoLower(s: string)
    requires forall k :: 0 <= k < |s| ==> !IsLowerLetter(s[k])
    ensures Upper(s) == s
  {
  }

  /** Upper-casing neither makes nor unmakes digits and word characters. */
  lemma ToUpperKeepsClass(c: char)
    ensures IsDigit(ToUpper(c)) == IsDigit(c)
    ensures IsWordChar(ToUpper(c)) == IsWordChar(c)
  {
  }

  lemma UpperOfFour(a: string, b: string, c: string, d: string)
    ensures Upper(a + b + c + d) == Upper(a) + Upper(b) + Upper(c) + Upper(d)
  {
    UpperOfConcat(a + b + c, d);
    UpperOfConcat(a + b, c);
    UpperOfConcat(a, b);
  }

  /** Upper-casing leaves the postcode as it is and keeps the non-word characters
      around it. */
  lemma UpperOfPostcodeText(prefix: string, o: string, inward: string, suffix: string)
    requires forall k :: 0 <= k < |o| ==> !IsLowerLetter(o[k])
    requires PostcodeShape(prefix, inward, suffix)
    ensures var t := Upper(prefix + o + inward + suffix); var p := |prefix|;
      && p + |o| <= |t| && t[p..p + |o|] == o
      && (p > 0 ==> !IsWordChar(t[p - 1]))
      && InwardFollows(t, p + |o|)
  {
    UpperOfNoLower(o);
    UpperOfNoLower(inward);
    UpperOfFour(prefix, o, inward, suffix);
    var t := Upper(prefix + o + inward + suffix);
    var u := Upper(prefix);
    var p := |prefix|;
    var q := p + |o|;
    assert t == u + o + inward + Upper(suffix);
    assert t[p..q] == o;
    if p > 0 {
      assert t[p - 1] == ToUpper(prefix[p - 1]);
      ToUpperKeepsClass(prefix[p - 1]);
    }
    assert t[q] == inward[0] && t[q + 1] == inward[1] && t[q + 2] == inward[2] && t[q + 3] == inward[3];
    if q + 4 < |t| {
      assert t[q + 4] == ToUpper(suffix[0]);
      ToUpperKeepsClass(suffix[0]);
    }
  }

  /** Before a digit-free stretch that ends in a non-word character, no match can start. */
  lemma NoMatchBeforePostcode(t: string, p: nat, i: nat)
    requires i < p <= |t|
    requires forall k :: 0 <= k < p ==> !IsDigit(t[k])
    requires !IsWordChar(t[p - 1])
    ensures MatchAt(t, i).None?
  {
    forall n, opt ensures !OutwardAlt(t, i, n, opt) {
    }
  }

  /** `t` holds, from `q` on, a space, a digit, two letters and then no word character. */
  predicate InwardFollows(t: string, q: nat) {
    && q + 4 <= |t|
    && t[q] == ' ' && IsDigit(t[q + 1]) && IsUpperLetter(t[q + 2]) && IsUpperLetter(t[q + 3])
    && (q + 4 == |t| || !IsWordChar(t[q + 4]))
  }

  lemma InwardFollowsMatches(t: string, q: nat)
    requires InwardFollows(t, q)
    ensures InwardAt(t, q)
  {
    assert SpaceRunEnd(t, q + 1) == q + 1;
  }

  /** Shape `AA9` (UB1, CR0, ...): group 1 takes two letters and the digit only. */
  lemma TwoLettersDigitMatches(t: string, p: nat)
    requires p + 3 <= |t| && (p == 0 || !IsWordChar(t[p - 1]))
    requires IsUpperLetter(t[p]) && IsUpperLetter(t[p + 1]) && IsDigit(t[p + 2])
    requires InwardFollows(t, p + 3)
    ensures MatchAt(t, p) == Some(t[p..p + 3])
  {
    InwardFollowsMatches(t, p + 3);
    assert !OutwardAlt(t, p, 2, 1);
    assert AltMatches(t, p, 2, 0);
  }

  /** Shape `A99` (W13): one letter, the digit, then the optional digit. */
  lemma LetterTwoDigitsMatches(t: string, p: nat)
    requires p + 3 <= |t| && (p == 0 || !IsWordChar(t[p - 1]))
    requires IsUpperLetter(t[p]) && IsDigit(t[p + 1]) && IsDigit(t[p + 2])
    requires InwardFollows(t, p + 3)
    ensures MatchAt(t, p) == Some(t[p..p + 3])
  {
    InwardFollowsMatches(t, p + 3);
    assert !OutwardAlt(t, p, 2, 1) && !OutwardAlt(t, p, 2, 0);
    assert AltMatches(t, p, 1, 1);
  }

  /** Shape `A9` (W3, W5, W7): one letter and the digit. */
  lemma LetterDigitMatches(t: string, p: nat)
    requires p + 2 <= |t| && (p == 0 || !IsWordChar(t[p - 1]))
    requires IsUpperLetter(t[p]) && IsDigit(t[p + 1])
    requires InwardFollows(t, p + 2)
    ensures MatchAt(t, p) == Some(t[p..p + 2])
  {
    InwardFollowsMatches(t, p + 2);
    assert !OutwardAlt(t, p, 2, 1) && !OutwardAlt(t, p, 2, 0) && !OutwardAlt(t, p, 1, 1);
    assert AltMatches(t, p, 1, 0);
  }

  /** Every outward code of the table has one of the three shapes. */
  lemma TableShapes(o: string)
    requires o in OutwardTable
    ensures |o| == 2 || |o| == 3
    ensures IsUpperLetter(o[0])
    ensures |o| == 2 ==> IsDigit(o[1])
    ensures |o| == 3 ==> IsDigit(o[2]) && (IsUpperLetter(o[1]) || IsDigit(o[1]))
  {
  }

  /** A table code followed by an inward code and a word boundary matches at its start,
      with the table code as group 1. */
  lemma OutwardRowMatches(t: string, p: nat, o: string)
    requires o in OutwardTable
    requires p + |o| <= |t| && t[p..p + |o|] == o
    requires p == 0 || !IsWordChar(t[p - 1])
    requires InwardFollows(t, p + |o|)
    ensures MatchAt(t, p) == Some(o)
  {
    TableShapes(o);
    assert forall k :: 0 <= k < |o| ==> t[p + k] == o[k];
    if |o| == 2 {
      LetterDigitMatches(t, p);
    } else if IsUpperLetter(o[1]) {
      TwoLettersDigitMatches(t, p);
    } else {
      LetterTwoDigitsMatches(t, p);
    }
  }

  /** Only when the table gives nothing do names decide, and "CROYDON" is looked for
      before "EALING"; an outward code missing from the table falls through to them. */
  lemma NameFallback(text: string)
    requires Lookup(FindOutward(Upper(text), 0)).None?
    ensures Contains(Upper(text), "CROYDON") ==> DetectBorough(text).borough == Some(Croydon)
    ensures !Contains(Upper(text), "CROYDON") && Contains(Upper(text), "EALING") ==>
      DetectBorough(text).borough == Some(Ealing)
  {
  }

  /** A postcode typed without its space still resolves: `UB68JF` first tries `UB68` as
      the outward code, finds no inward code after it, and backtracks to `UB6`. */
  lemma UnspacedPostcodeResolves()
    ensures DetectBorough("UB68JF").borough == Some(Ealing)
  {
    var t := "UB68JF";
    UpperOfNoLower(t);
    assert FindOutward(t, 0) == Some("UB6") by {
      assert SpaceRunEnd(t, 4) == 4 && SpaceRunEnd(t, 3) == 3;
      assert !InwardCodeAt(t, 4);
      assert !AltMatches(t, 0, 2, 1);
      assert WordBoundary(t, 0) && WordBoundary(t, 6);
      assert AltMatches(t, 0, 2, 0);
      assert t[0..3] == "UB6";
    }
  }

  /** An outward code outside the table does not stop the name fallback. */
  lemma UnknownPostcodeFallsBackToName()
    ensures DetectBorough("W1A 1AA EALING").borough == Some(Ealing)
  {
    var t := "W1A 1AA EALING";
    FallbackText(t);
    NameFallback(t);
  }

  /** The text is already upper case, its outward code is unknown, and it names Ealing
      but not Croydon. */
  lemma FallbackText(t: string)
    requires t == "W1A 1AA EALING"
    ensures Upper(t) == t
    ensures Lookup(FindOutward(Upper(t), 0)).None?
    ensures !Contains(Upper(t), "CROYDON") && Contains(Upper(t), "EALING")
  {
    UpperOfNoLower(t);
    UnknownOutwardFound(t);
    NoCroydonIn(t);
    EalingIn(t);
  }

  lemma EalingIn(t: string)
    requires t == "W1A 1AA EALING"
    ensures Contains(t, "EALING")
  {
    assert t[8..14] == "EALING";
    assert OccursAt(t, "EALING", 8);
    ContainsIffOccurs(t, "EALING");
  }

  lemma UnknownOutwardFound(t: string)
    requires t == "W1A 1AA EALING"
    ensures FindOutward(t, 0) == Some("W1A") && "W1A" !in OutwardTable
  {
    assert SpaceRunEnd(t, 4) == 4 && SpaceRunEnd(t, 3) == 4;
    assert !OutwardAlt(t, 0, 2, 1) && !OutwardAlt(t, 0, 2, 0);
    assert WordBoundary(t, 0) && WordBoundary(t, 7);
    assert AltMatches(t, 0, 1, 1);
    assert t[0..3] == "W1A";
  }

  lemma NoCroydonIn(t: string)
    requires t == "W1A 1AA EALING"
    ensures !Contains(t, "CROYDON")
  {
    ContainsKeepsChar(t, "CROYDON", 'Y');
    assert 'Y' !in t;
  }

  // ---------------------------------------------------------------------
  // The search dispatch
  // ---------------------------------------------------------------------

  /** `max_pages` default of the scraper the search calls. */
  const SearchMaxPages := 10

  const CroydonManualUrl := "https://publicaccess3.croydon.gov.uk/online-applications/"

  datatype SearchError = Unresolved | CroydonBlocked | ScraperFailed {

    function Message(): string {
      match this
      case Unresolved =>
        "Couldn't determine the borough from that postcode. "
        + "Right now this tool supports Ealing (UB1, UB2, UB5, UB6, W3, W5, W7, W13) "
        + "and Croydon (CR0, CR2, CR4, CR7, CR8)."
      case CroydonBlocked =>
        "The Croydon planning website blocks automated access, "
        + "so results can't be shown here. "
        + "Please use the Croydon public access site directly."
      case ScraperFailed => "There was an error contacting the borough planning system."
    }
  }

  /** The five values `_run_search` returns. */
  datatype SearchOutcome = SearchOutcome(
    results: seq<App>,
    borough: Option<Borough>,
    boroughLabel: Option<string>,
    error: Option<SearchError>,
    manualUrl: Option<string>)

  /** Unresolved queries and Croydon are answered with an error; only Ealing is scraped,
      and a scraper exception becomes an error with no results. */
  function RunSearch(address: string, fetch: Fetch, join: Join): (o: SearchOutcome)
    ensures o.borough == DetectBorough(address).borough && o.boroughLabel == DetectBorough(address).boroughLabel
    ensures o.borough.None? <==> o.error == Some(Unresolved)
    ensures o.borough == Some(Croydon) <==> o.error == Some(CroydonBlocked)
    ensures o.manualUrl.Some? <==> o.borough == Some(Croydon)
    ensures o.manualUrl.Some? ==> o.manualUrl.value == CroydonManualUrl
    ensures o.error.None? <==>
      o.borough == Some(Ealing) && EalingScraper.Run(fetch, join, address, SearchMaxPages).result.Success?
    ensures o.error.None? ==> o.results == EalingScraper.Run(fetch, join, address, SearchMaxPages).result.value
    ensures o.error.Some? ==> o.results == []
  {
    var d := DetectBorough(address);
    match d.borough
    case None => SearchOutcome([], d.borough, d.boroughLabel, Some(Unresolved), None)
    case Some(Croydon) => SearchOutcome([], d.borough, d.boroughLabel, Some(CroydonBlocked), Some(CroydonManualUrl))
    case Some(Ealing) =>
      match EalingScraper.Run(fetch, join, address, SearchMaxPages).result
      case Success(apps) => SearchOutcome(apps, d.borough, d.boroughLabel, None, None)
      case Failure(_) => SearchOutcome([], d.borough, d.boroughLabel, Some(ScraperFailed), None)
  }

  /** No scraper is consulted unless the query resolves to Ealing: the outcome is the
      same whatever the page oracle answers. */
  lemma NoScrapeUnlessEaling(address: string, fetch1: Fetch, join1: Join, fetch2: Fetch, join2: Join)
    requires DetectBorough(address).borough != Some(Ealing)
    ensures RunSearch(address, fetch1, join1) == RunSearch(address, fetch2, join2)
  {
  }

  // ---------------------------------------------------------------------
  // Creating a watch
  // ---------------------------------------------------------------------

  /** What the watch form submission came to. */
  datatype WatchOutcome =
    | FormInvalid          // the form re-renders with its field errors
    | Rejected(message: string)
    | Created              // a row was inserted and the client is redirected

  const UnresolvedWatchMessage :=
    "Couldn't determine the borough from that postcode. "
    + "Right now alerts only support Ealing postcodes."

  const NotEnabledMessage := "Alerts are currently only enabled for Ealing."

  /** The form's verdict on the stripped query: required, at most 255 characters, and
      free of null characters (the validator every Django `CharField` carries). The
      e-mail field's verdict is `emailValid`. */
  predicate FormValid(emailValid: bool, query: string) {
    emailValid && query != "" && |query| <= QueryMaxLength && '\0' !in query
  }

  /** `create_watch` on a POST: detect the borough of the stripped query and insert a
      watch only for Ealing. */
  function CreateWatch(store: seq<PlanningWatch>, email: string, emailValid: bool, rawQuery: string, now: int)
    : (r: (seq<PlanningWatch>, WatchOutcome))
    ensures r.1 == Created <==> FormValid(emailValid, Strip(rawQuery)) && DetectBorough(Strip(rawQuery)).borough == Some(Ealing)
    ensures r.1 == Created ==> r.0 == store + [NewWatch(email, Strip(rawQuery), Ealing.Code(), now)]
    ensures r.1 != Created ==> r.0 == store
    ensures r.1 == FormInvalid <==> !FormValid(emailValid, Strip(rawQuery))
    ensures r.1 == Rejected(UnresolvedWatchMessage) <==>
      FormValid(emailValid, Strip(rawQuery)) && DetectBorough(Strip(rawQuery)).borough.None?
    ensures r.1 == Rejected(NotEnabledMessage) <==>
      FormValid(emailValid, Strip(rawQuery)) && DetectBorough(Strip(rawQuery)).borough == Some(Croydon)
    ensures (forall w :: w in store ==> FitsColumns(w)) ==> forall w :: w in r.0 ==> FitsColumns(w)
  {
    var query := Strip(rawQuery);
    MessagesDistinct();
    if !FormValid(emailValid, query) then (store, FormInvalid)
    else
      match DetectBorough(query).borough
      case None => (store, Rejected(UnresolvedWatchMessage))
      case Some(Croydon) => (store, Rejected(NotEnabledMessage))
      case Some(Ealing) =>
        var w := NewWatch(email, query, Ealing.Code(), now);
        AppendFits(store, w);
        (store + [w], Created)
  }

  /** A query carrying a null character is refused by the form, even when it holds an
      Ealing postcode, and the table is left as it was. */
  lemma NullCharacterRefused(store: seq<PlanningWatch>, email: string, now: int)
    ensures CreateWatch(store, email, true, "UB6 8JF\0", now) == (store, FormInvalid)
  {
    var q := "UB6 8JF\0";
    StripOfStripped(q);
    assert q[|q| - 1] == '\0';
  }

  lemma MessagesDistinct()
    ensures UnresolvedWatchMessage != NotEnabledMessage
  {
    assert |UnresolvedWatchMessage| != |NotEnabledMessage|;
  }

  /** Adding a row that fits the columns keeps every row fitting. */
  lemma AppendFits(store: seq<PlanningWatch>, w: PlanningWatch)
    requires FitsColumns(w)
    ensures (forall v :: v in store ==> FitsColumns(v)) ==> forall v :: v in store + [w] ==> FitsColumns(v)
  {
  }
}
