/** The property app's views that carry logic: the inbound-mail webhook, which
    pulls portal links out of a forwarded alert, records them as listings and
    triggers instant notifications, and the shortlist add/remove actions.
    Pages that only render templates are not modelled. */
module PropertyViews {

  import opened Wrappers
  import opened Text
  import opened PropertyModels
  import opened Services

  // ---------------------------------------------------------------------
  // Portal links: `https?://<site path>\d+`
  // ---------------------------------------------------------------------

  /** The host name the webhook uses to tell the portals apart. */
  const RightmoveHost: string := "rightmove.co.uk"

  /** What follows the scheme in a Rightmove property link, up to the digits. */
  const RightmoveTail: string := "://www." + RightmoveHost + "/properties/"

  /** What follows the scheme in a Zoopla property link, up to the digits. */
  const ZooplaTail: string := "://www.zoopla.co.uk/for-sale/details/"

  /** The tails both start with a colon, which is what makes the optional `s` of the
      scheme unambiguous. */
  predicate TailOk(tail: string) {
    |tail| > 0 && tail[0] == ':'
  }

  lemma TailsOk()
    ensures TailOk(RightmoveTail) && TailOk(ZooplaTail)
  {
    assert RightmoveTail[0] == "://www."[0];
    assert ZooplaTail[0] == ("://www." + "zoopla.")[0];
  }

  predicate AllDigits(d: string) {
    |d| > 0 && forall k :: 0 <= k < |d| ==> IsDigit(d[k])
  }

  /** A whole link: a scheme, the tail, then one or more digits. */
  predicate IsLink(u: string, tail: string) {
    || ("https" + tail <= u && AllDigits(u[|"https" + tail|..]))
    || ("http" + tail <= u && AllDigits(u[|"http" + tail|..]))
  }

  /** The length of the run of digits `\d+` consumes greedily. */
  function DigitRun(t: string): (n: nat)
    ensures n <= |t|
    ensures forall k :: 0 <= k < n ==> IsDigit(t[k])
    ensures n < |t| ==> !IsDigit(t[n])
    decreases |t|
  {
    if t != [] && IsDigit(t[0]) then 1 + DigitRun(t[1..]) else 0
  }

  /** The pattern anchored at the start of `t`: the length of the match, trying the
      scheme with `s` first as the regex engine does. */
  function MatchLink(t: string, tail: string): (r: Option<nat>)
    ensures r.Some? ==> 0 < r.value <= |t| && IsLink(t[..r.value], tail)
    ensures r.Some? ==> r.value == |t| || !IsDigit(t[r.value])
  {
    var withS := "https" + tail;
    var noS := "http" + tail;
    if withS <= t && DigitRun(t[|withS|..]) > 0 then
      PrefixedRun(t, withS);
      Some(|withS| + DigitRun(t[|withS|..]))
    else if noS <= t && DigitRun(t[|noS|..]) > 0 then
      PrefixedRun(t, noS);
      Some(|noS| + DigitRun(t[|noS|..]))
    else None
  }

  /** A prefix followed by the digit run after it: the prefix, then all digits. */
  lemma PrefixedRun(t: string, prefix: string)
    requires prefix <= t && DigitRun(t[|prefix|..]) > 0
    ensures var n := |prefix| + DigitRun(t[|prefix|..]);
      && n <= |t| && prefix <= t[..n] && AllDigits(t[..n][|prefix|..])
      && (n == |t| || !IsDigit(t[n]))
  {
    var n := |prefix| + DigitRun(t[|prefix|..]);
    if n < |t| {
      assert t[n] == t[|prefix|..][DigitRun(t[|prefix|..])];
    }
    assert t[..n][..|prefix|] == prefix;
    assert t[..n][|prefix|..] == t[|prefix|..][..DigitRun(t[|prefix|..])];
  }

  /** `pattern.findall(text)`: the leftmost match, then the search resumes after it. */
  function FindAll(t: string, tail: string): (links: seq<string>)
    decreases |t|
  {
    if t == [] then []
    else
      match MatchLink(t, tail)
      case Some(n) => [t[..n]] + FindAll(t[n..], tail)
      case None => FindAll(t[1..], tail)
  }

  /** Every match found is a whole link. */
  lemma {:induction false} FindAllLinks(t: string, tail: string)
    ensures forall i :: 0 <= i < |FindAll(t, tail)| ==> IsLink(FindAll(t, tail)[i], tail)
    decreases |t|
  {
    if t != [] {
      match MatchLink(t, tail)
      case Some(n) =>
        FindAllLinks(t[n..], tail);
        assert FindAll(t, tail) == [t[..n]] + FindAll(t[n..], tail);
      case None =>
        FindAllLinks(t[1..], tail);
    }
  }

  /** What occurs in a suffix of the text occurs in the text. */
  lemma ContainsAllFromSuffix(t: string, n: nat, found: seq<string>)
    requires n <= |t|
    requires forall i :: 0 <= i < |found| ==> Contains(t[n..], found[i])
    ensures forall i :: 0 <= i < |found| ==> Contains(t, found[i])
  {
    assert t[n..|t|] == t[n..];
    forall i | 0 <= i < |found|
      ensures Contains(t, found[i])
    {
      ContainsInSlice(t, n, |t|, found[i]);
    }
  }

  /** A prefix of the text followed by pieces of the rest: all of them occur in the text. */
  lemma PrefixThenSuffix(t: string, n: nat, found: seq<string>)
    requires n <= |t|
    requires forall i :: 0 <= i < |found| ==> Contains(t[n..], found[i])
    ensures forall i :: 0 <= i < |[t[..n]] + found| ==> Contains(t, ([t[..n]] + found)[i])
  {
    ContainsAllFromSuffix(t, n, found);
    assert t == [] + t[..n] + t[n..];
    ContainsMiddle([], t[..n], t[n..]);
    forall i | 0 <= i < |[t[..n]] + found|
      ensures Contains(t, ([t[..n]] + found)[i])
    {
      if i > 0 {
        assert ([t[..n]] + found)[i] == found[i - 1];
      }
    }
  }

  /** Every match found occurs in the text. */
  lemma {:induction false} FindAllOccurs(t: string, tail: string)
    ensures forall i :: 0 <= i < |FindAll(t, tail)| ==> Contains(t, FindAll(t, tail)[i])
    decreases |t|
  {
    if t != [] {
      match MatchLink(t, tail)
      case Some(n) =>
        FindAllOccurs(t[n..], tail);
        PrefixThenSuffix(t, n, FindAll(t[n..], tail));
      case None =>
        FindAllOccurs(t[1..], tail);
        ContainsAllFromSuffix(t, 1, FindAll(t[1..], tail));
    }
  }

  /** Every link found is a whole link that occurs in the text. */
  lemma FindAllSound(t: string, tail: string)
    ensures forall i :: 0 <= i < |FindAll(t, tail)| ==>
      IsLink(FindAll(t, tail)[i], tail) && Contains(t, FindAll(t, tail)[i])
  {
    FindAllLinks(t, tail);
    FindAllOccurs(t, tail);
  }

  /** A link followed by a character that cannot continue it is matched whole. */
  lemma MatchWholeLink(u: string, rest: string, tail: string)
    requires TailOk(tail) && IsLink(u, tail)
    requires rest == [] || !IsDigit(rest[0])
    ensures MatchLink(u + rest, tail) == Some(|u|)
  {
    var t := u + rest;
    var withS := "https" + tail;
    var noS := "http" + tail;
    if withS <= u {
      assert withS <= t;
      var d := u[|withS|..];
      assert t[|withS|..] == d + rest;
      DigitRunOf(d, rest);
    } else {
      assert u[4] == ':' by { assert noS[4] == tail[0]; }
      assert !(withS <= t) by { assert withS[4] == 's'; }
      assert noS <= t;
      var d := u[|noS|..];
      assert t[|noS|..] == d + rest;
      DigitRunOf(d, rest);
    }
  }

  lemma {:induction false} DigitRunOf(d: string, rest: string)
    requires forall k :: 0 <= k < |d| ==> IsDigit(d[k])
    requires rest == [] || !IsDigit(rest[0])
    ensures DigitRun(d + rest) == |d|
    decreases |d|
  {
    if d == [] {
      assert d + rest == rest;
    } else {
      assert (d + rest)[1..] == d[1..] + rest;
      DigitRunOf(d[1..], rest);
    }
  }

  /** Links written out one per word are found again, all of them and in order. */
  lemma {:induction false} FindAllOfJoined(links: seq<string>, tail: string)
    requires TailOk(tail)
    requires forall i :: 0 <= i < |links| ==> IsLink(links[i], tail)
    ensures FindAll(JoinWith(links, ' '), tail) == links
    decreases |links|
  {
    if |links| == 1 {
      MatchWholeLink(links[0], [], tail);
      assert links[0] + [] == links[0];
      assert links[0][|links[0]|..] == [];
    } else if |links| > 1 {
      var u := links[0];
      var rest := JoinWith(links[1..], ' ');
      var t := u + [' '] + rest;
      assert t == u + ([' '] + rest);
      MatchWholeLink(u, [' '] + rest, tail);
      assert t[..|u|] == u && t[|u|..] == [' '] + rest;
      assert MatchLink([' '] + rest, tail).None?;
      assert ([' '] + rest)[1..] == rest;
      FindAllOfJoined(links[1..], tail);
      assert [u] + links[1..] == links;
    }
  }

  /** Every character of the tail is in every link built on it. */
  lemma LinkHasChar(u: string, tail: string, c: char)
    requires IsLink(u, tail) && c in tail
    ensures c in u
  {
    var j :| 0 <= j < |tail| && tail[j] == c;
    var p := if "https" + tail <= u then "https" + tail else "http" + tail;
    assert p[|p| - |tail| + j] == c;
    assert u[|p| - |tail| + j] == c;
  }

  /** Text that yields a link holds every character of the tail. */
  lemma FindAllNeedsTail(t: string, tail: string, c: char)
    requires c in tail
    ensures FindAll(t, tail) != [] ==> c in t
  {
    FindAllSound(t, tail);
    if FindAll(t, tail) != [] {
      var u := FindAll(t, tail)[0];
      LinkHasChar(u, tail, c);
      ContainsKeepsChar(t, u, c);
    }
  }

  // ---------------------------------------------------------------------
  // Portal of a link
  // ---------------------------------------------------------------------

  /** `RIGHTMOVE if "rightmove.co.uk" in url else ZOOPLA`. */
  function PortalOf(u: string): Portal {
    if Contains(u, RightmoveHost) then Rightmove else Zoopla
  }

  lemma {:induction false} JoinKeepsOut(parts: seq<string>, sep: char, c: char)
    requires c != sep
    requires forall i :: 0 <= i < |parts| ==> c !in parts[i]
    ensures c !in JoinWith(parts, sep)
    decreases |parts|
  {
    if |parts| > 1 {
      JoinKeepsOut(parts[1..], sep, c);
    }
  }

  /** No character of a link lies outside its scheme, tail and digits. */
  lemma LinkKeepsOut(u: string, tail: string, c: char)
    requires IsLink(u, tail) && c !in "https" + tail && !IsDigit(c)
    ensures c !in u
  {
    var p := if "https" + tail <= u then "https" + tail else "http" + tail;
    assert u == p + u[|p|..];
    assert forall k :: 0 <= k < |p| ==> p[k] in "https" + tail;
  }

  lemma RightmoveHasG()
    ensures 'g' in RightmoveTail && 'z' !in "https" + RightmoveTail
  {
    assert RightmoveHost[2] == 'g';
    assert RightmoveTail[7 + 2] == RightmoveHost[2];
  }

  lemma ZooplaHasZ()
    ensures 'z' in ZooplaTail && 'g' !in "https" + ZooplaTail
  {
    assert ZooplaTail[7] == 'z';
  }

  lemma Regroup(a: string, b: string, c: string, d: string, e: string)
    ensures a + (b + c + d) + e == (a + b) + c + (d + e)
  {
  }

  /** A Rightmove link is classed as Rightmove and a Zoopla link as Zoopla. */
  lemma ClassifyLinks(u: string)
    ensures IsLink(u, RightmoveTail) ==> PortalOf(u) == Rightmove
    ensures IsLink(u, ZooplaTail) ==> PortalOf(u) == Zoopla
  {
    if IsLink(u, RightmoveTail) {
      var scheme := if "https" + RightmoveTail <= u then "https" else "http";
      var d := u[|scheme + RightmoveTail|..];
      assert u == scheme + RightmoveTail + d;
      Regroup(scheme, "://www.", RightmoveHost, "/properties/", d);
      ContainsMiddle(scheme + "://www.", RightmoveHost, "/properties/" + d);
    }
    if IsLink(u, ZooplaTail) {
      ZooplaHasZ();
      LinkKeepsOut(u, ZooplaTail, 'g');
      assert RightmoveHost[2] == 'g';
      ContainsKeepsChar(u, RightmoveHost, 'g');
    }
  }

  // ---------------------------------------------------------------------
  // The webhook
  // ---------------------------------------------------------------------

  /** The shared-secret check: a secret must be configured and the header must carry
      exactly it. */
  predicate Authorized(header: Option<string>, expected: string) {
    expected != "" && header == Some(expected)
  }

  /** `request.POST.get(key, "")`. */
  function Field(post: map<string, string>, key: string): string {
    if key in post then post[key] else ""
  }

  /** Python's `a or b` on strings. */
  function OrElse(a: string, b: string): string {
    if a != "" then a else b
  }

  /** The mail text: the plain body, else the html body, each under either of its two
      field names. */
  function BodyText(post: map<string, string>): string {
    OrElse(OrElse(Field(post, "body-plain"), Field(post, "text")),
           OrElse(Field(post, "body-html"), Field(post, "html")))
  }

  /** Reference definition: the first non-empty value of a list, or "". */
  function FirstNonEmpty(vals: seq<string>): (r: string)
    decreases |vals|
  {
    if vals == [] then "" else if vals[0] != "" then vals[0] else FirstNonEmpty(vals[1..])
  }

  /** The text is taken from the four fields in a fixed priority order. */
  lemma BodyTextPriority(post: map<string, string>)
    ensures BodyText(post) ==
      FirstNonEmpty([Field(post, "body-plain"), Field(post, "text"), Field(post, "body-html"), Field(post, "html")])
  {
    var a, b, c, d := Field(post, "body-plain"), Field(post, "text"), Field(post, "body-html"), Field(post, "html");
    assert [a, b, c, d][1..] == [b, c, d] && [b, c, d][1..] == [c, d] && [c, d][1..] == [d] && [d][1..] == [];
    assert FirstNonEmpty([d]) == OrElse(d, "") == d;
    assert FirstNonEmpty([c, d]) == OrElse(c, d);
    assert FirstNonEmpty([b, c, d]) == OrElse(b, OrElse(c, d));
    assert FirstNonEmpty([a, b, c, d]) == OrElse(a, OrElse(b, OrElse(c, d)));
  }

  /** The first non-empty value is one of the values, and every value before it is empty. */
  lemma {:induction false} FirstNonEmptyIs(vals: seq<string>)
    ensures FirstNonEmpty(vals) == "" <==> forall i :: 0 <= i < |vals| ==> vals[i] == ""
    ensures FirstNonEmpty(vals) != "" ==>
      exists i :: 0 <= i < |vals| && vals[i] == FirstNonEmpty(vals) && forall j :: 0 <= j < i ==> vals[j] == ""
    decreases |vals|
  {
    if vals != [] && vals[0] == "" {
      FirstNonEmptyIs(vals[1..]);
      if FirstNonEmpty(vals) != "" {
        var i :| 0 <= i < |vals[1..]| && vals[1..][i] == FirstNonEmpty(vals[1..]) &&
          forall j :: 0 <= j < i ==> vals[1..][j] == "";
        assert vals[i + 1] == FirstNonEmpty(vals);
      }
    } else if vals != [] {
      assert vals[0] == FirstNonEmpty(vals);
    }
  }

  /** `set(RIGHTMOVE_RE.findall(text)) | set(ZOOPLA_RE.findall(text))`. */
  function ExtractLinks(text: string): (urls: set<string>)
    ensures forall u :: u in urls ==> IsLink(u, RightmoveTail) || IsLink(u, ZooplaTail)
  {
    FindAllSound(text, RightmoveTail);
    FindAllSound(text, ZooplaTail);
    (set i | 0 <= i < |FindAll(text, RightmoveTail)| :: FindAll(text, RightmoveTail)[i])
      + (set i | 0 <= i < |FindAll(text, ZooplaTail)| :: FindAll(text, ZooplaTail)[i])
  }

  /** Rightmove links written out one per word come back as exactly that set. */
  lemma ExtractJoinedRightmove(links: seq<string>)
    requires forall i :: 0 <= i < |links| ==> IsLink(links[i], RightmoveTail)
    ensures ExtractLinks(JoinWith(links, ' ')) == set i | 0 <= i < |links| :: links[i]
  {
    TailsOk();
    FindAllOfJoined(links, RightmoveTail);
    RightmoveHasG();
    ZooplaHasZ();
    forall i | 0 <= i < |links|
      ensures 'z' !in links[i]
    {
      LinkKeepsOut(links[i], RightmoveTail, 'z');
    }
    JoinKeepsOut(links, ' ', 'z');
    FindAllNeedsTail(JoinWith(links, ' '), ZooplaTail, 'z');
  }

  /** Zoopla links written out one per word come back as exactly that set. */
  lemma ExtractJoinedZoopla(links: seq<string>)
    requires forall i :: 0 <= i < |links| ==> IsLink(links[i], ZooplaTail)
    ensures ExtractLinks(JoinWith(links, ' ')) == set i | 0 <= i < |links| :: links[i]
  {
    TailsOk();
    FindAllOfJoined(links, ZooplaTail);
    RightmoveHasG();
    ZooplaHasZ();
    forall i | 0 <= i < |links|
      ensures 'g' !in links[i]
    {
      LinkKeepsOut(links[i], ZooplaTail, 'g');
    }
    JoinKeepsOut(links, ' ', 'g');
    FindAllNeedsTail(JoinWith(links, ' '), RightmoveTail, 'g');
  }

  /** The JSON the webhook answers with, or the 403. */
  datatype WebhookResponse = Forbidden | Accepted(foundUrls: nat, newCount: nat)

  /** What one pass of the loop does to the table for link `u`: the link becomes known,
      nothing else known moves, rows of other links are left alone, and the row for `u`
      is either created (and returned in `created`) or has its `last_seen` moved to now. */
  ghost predicate Stepped(out: ListingStore, u: string, next: ListingStore, created: seq<Listing>, now: int, subject: string) {
    && ValidStore(out)
    && ValidStore(next)
    && next.byUrl.Keys == out.byUrl.Keys + {u}
    && (forall v :: v in out.byUrl ==> next.byUrl[v] == out.byUrl[v])
    && out.rows.Keys <= next.rows.Keys
    && (forall id :: id in out.rows && out.rows[id].canonicalUrl != u ==> next.rows[id] == out.rows[id])
    && (u !in out.byUrl ==>
          created == [NewListing(next.byUrl[u], PortalOf(u), u, now, subject)] && next.rows[next.byUrl[u]] == created[0])
    && (u in out.byUrl ==>
          created == [] && next.rows[out.byUrl[u]] == out.rows[out.byUrl[u]].(lastSeen := now))
  }

  /** One pass of the loop: `get_or_create` on the link, then, for a known link, the
      `last_seen` update. The listing created, if any, is the second component. */
  method IngestOne(st: ListingStore, u: string, now: int, subject: string)
    returns (next: ListingStore, created: seq<Listing>)
    requires ValidStore(st)
    ensures Stepped(st, u, next, created, now, subject)
  {
    var g := GetOrCreate(st, u, PortalOf(u), now, subject);
    if g.created {
      next, created := g.store, [g.store.rows[g.id]];
    } else {
      next, created := Touch(g.store, g.id, now), [];
    }
  }

  /** What the loop has done after visiting the links in `done`. */
  ghost predicate Ingested(st: ListingStore, out: ListingStore, done: set<string>, now: int, subject: string)
    requires ValidStore(st)
  {
    && ValidStore(out)
    && out.byUrl.Keys == st.byUrl.Keys + done
    && (forall v :: v in st.byUrl ==> out.byUrl[v] == st.byUrl[v])
    && st.rows.Keys <= out.rows.Keys
    && (forall v :: v in done && v !in st.byUrl ==>
          out.rows[out.byUrl[v]] == NewListing(out.byUrl[v], PortalOf(v), v, now, subject))
    && (forall v :: v in done && v in st.byUrl ==>
          out.rows[st.byUrl[v]] == st.rows[st.byUrl[v]].(lastSeen := now))
    && (forall id :: id in st.rows && st.rows[id].canonicalUrl !in done ==> out.rows[id] == st.rows[id])
  }

  lemma IngestedStep(st: ListingStore, out: ListingStore, done: set<string>, u: string,
                     next: ListingStore, created: seq<Listing>, now: int, subject: string)
    requires ValidStore(st) && Ingested(st, out, done, now, subject) && u !in done
    requires Stepped(out, u, next, created, now, subject)
    ensures Ingested(st, next, done + {u}, now, subject)
  {
    KnownStay(st, out, done, u, next, created, now, subject);
    NewRowsStay(st.byUrl.Keys, out, done, u, next, created, now, subject);
    TouchedRowsStay(st, out, done, u, next, created, now, subject);
    OtherRowsStay(st, out, done, u, next, created, now, subject);
  }

  /** The index only grows by the link visited, and known links keep their ids. */
  lemma KnownStay(st: ListingStore, out: ListingStore, done: set<string>, u: string,
                  next: ListingStore, created: seq<Listing>, now: int, subject: string)
    requires out.byUrl.Keys == st.byUrl.Keys + done && st.rows.Keys <= out.rows.Keys
    requires forall v :: v in st.byUrl ==> out.byUrl[v] == st.byUrl[v]
    requires Stepped(out, u, next, created, now, subject)
    ensures ValidStore(next)
    ensures next.byUrl.Keys == st.byUrl.Keys + (done + {u})
    ensures forall v :: v in st.byUrl ==> next.byUrl[v] == st.byUrl[v]
    ensures st.rows.Keys <= next.rows.Keys
  {
  }

  /** Rows of links not yet visited are still as they were. */
  lemma OtherRowsStay(st: ListingStore, out: ListingStore, done: set<string>, u: string,
                      next: ListingStore, created: seq<Listing>, now: int, subject: string)
    requires st.rows.Keys <= out.rows.Keys
    requires Stepped(out, u, next, created, now, subject)
    requires forall id :: id in st.rows && st.rows[id].canonicalUrl !in done ==> out.rows[id] == st.rows[id]
    ensures forall id :: id in st.rows && st.rows[id].canonicalUrl !in done + {u} ==> next.rows[id] == st.rows[id]
  {
    forall id | id in st.rows && st.rows[id].canonicalUrl !in done + {u}
      ensures next.rows[id] == st.rows[id]
    {
      assert out.rows[id].canonicalUrl != u;
    }
  }

  /** Rows created for earlier links survive a later pass. */
  lemma NewRowsStay(known: set<string>, out: ListingStore, done: set<string>, u: string,
                    next: ListingStore, created: seq<Listing>, now: int, subject: string)
    requires out.byUrl.Keys == known + done && u !in done
    requires Stepped(out, u, next, created, now, subject)
    requires forall v :: v in done && v !in known ==>
      out.rows[out.byUrl[v]] == NewListing(out.byUrl[v], PortalOf(v), v, now, subject)
    ensures forall v :: v in done + {u} && v !in known ==>
      next.rows[next.byUrl[v]] == NewListing(next.byUrl[v], PortalOf(v), v, now, subject)
  {
    forall v | v in done && v !in known
      ensures next.rows[next.byUrl[v]] == NewListing(next.byUrl[v], PortalOf(v), v, now, subject)
    {
      assert out.rows[out.byUrl[v]].canonicalUrl == v;
    }
  }

  /** Rows touched for earlier links stay touched after a later pass, and the row of
      the link visited now is touched if it was known. */
  lemma TouchedRowsStay(st: ListingStore, out: ListingStore, done: set<string>, u: string,
                        next: ListingStore, created: seq<Listing>, now: int, subject: string)
    requires ValidStore(st) && u !in done
    requires out.byUrl.Keys == st.byUrl.Keys + done && st.rows.Keys <= out.rows.Keys
    requires Stepped(out, u, next, created, now, subject)
    requires forall v :: v in st.byUrl ==> out.byUrl[v] == st.byUrl[v]
    requires forall v :: v in done && v in st.byUrl ==>
      out.rows[st.byUrl[v]] == st.rows[st.byUrl[v]].(lastSeen := now)
    requires forall id :: id in st.rows && st.rows[id].canonicalUrl !in done ==> out.rows[id] == st.rows[id]
    ensures forall v :: v in done + {u} && v in st.byUrl ==>
      next.rows[st.byUrl[v]] == st.rows[st.byUrl[v]].(lastSeen := now)
  {
    EarlierTouchedStay(st, out, done, u, next, created, now, subject);
    if u in st.byUrl {
      assert st.rows[st.byUrl[u]].canonicalUrl == u;
    }
  }

  /** Rows touched for earlier links are not touched again by a later pass. */
  lemma EarlierTouchedStay(st: ListingStore, out: ListingStore, done: set<string>, u: string,
                           next: ListingStore, created: seq<Listing>, now: int, subject: string)
    requires u !in done && st.rows.Keys <= out.rows.Keys
    requires Stepped(out, u, next, created, now, subject)
    requires forall v :: v in st.byUrl ==> st.byUrl[v] in st.rows
    requires forall v :: v in done && v in st.byUrl ==>
      out.rows[st.byUrl[v]] == st.rows[st.byUrl[v]].(lastSeen := now)
    requires forall v :: v in done && v in st.byUrl ==> out.rows[st.byUrl[v]].canonicalUrl == v
    ensures forall v :: v in done && v in st.byUrl ==>
      next.rows[st.byUrl[v]] == st.rows[st.byUrl[v]].(lastSeen := now)
  {
  }

  /** The loop over the found links: each unknown link becomes a listing of its portal,
      each known one has its `last_seen` moved to now. The set is visited in an arbitrary
      order, so every property below holds for every order. */
  method Ingest(st: ListingStore, urls: set<string>, now: int, subject: string)
    returns (out: ListingStore, added: seq<Listing>)
    requires ValidStore(st)
    ensures Ingested(st, out, urls, now, subject)
    ensures AddedSoFar(st.byUrl.Keys, out, urls, added, now, subject)
  {
    out := st;
    added := [];
    var todo := urls;
    ghost var done: set<string> := {};
    IngestStart(st, urls, now, subject);
    while todo != {}
      invariant LoopState(st, urls, out, added, done, todo, now, subject)
      decreases |todo|
    {
      var u :| u in todo;
      var next, created := IngestOne(out, u, now, subject);
      LoopStep(st, urls, out, added, done, todo, u, next, created, now, subject);
      out := next;
      added := added + created;
      todo := todo - {u};
      done := done + {u};
    }
    assert done == urls;
  }

  /** The loop invariant: `done` and `todo` split the links, and the table and the
      created listings are those of the links done. */
  ghost predicate LoopState(st: ListingStore, urls: set<string>, out: ListingStore, added: seq<Listing>,
                            done: set<string>, todo: set<string>, now: int, subject: string) {
    && ValidStore(st)
    && done + todo == urls && done !! todo
    && Ingested(st, out, done, now, subject)
    && AddedSoFar(st.byUrl.Keys, out, done, added, now, subject)
  }

  lemma IngestStart(st: ListingStore, urls: set<string>, now: int, subject: string)
    requires ValidStore(st)
    ensures LoopState(st, urls, st, [], {}, urls, now, subject)
  {
  }

  lemma LoopStep(st: ListingStore, urls: set<string>, out: ListingStore, added: seq<Listing>,
                 done: set<string>, todo: set<string>, u: string, next: ListingStore, created: seq<Listing>,
                 now: int, subject: string)
    requires LoopState(st, urls, out, added, done, todo, now, subject) && u in todo
    requires Stepped(out, u, next, created, now, subject)
    ensures LoopState(st, urls, next, added + created, done + {u}, todo - {u}, now, subject)
    ensures |todo - {u}| < |todo|
  {
    IngestedStep(st, out, done, u, next, created, now, subject);
    AddedStep(st.byUrl.Keys, out, done, added, u, next, created, now, subject);
    MoveOne(done, todo, urls, u);
  }

  /** Moving one link from the to-do set to the done set keeps them a partition. */
  lemma MoveOne(done: set<string>, todo: set<string>, urls: set<string>, u: string)
    requires done + todo == urls && done !! todo && u in todo
    ensures (done + {u}) + (todo - {u}) == urls && (done + {u}) !! (todo - {u})
    ensures |todo - {u}| < |todo|
  {
  }

  lemma NewCount(known: set<string>, done: set<string>, u: string)
    requires u !in done
    ensures |(done + {u}) - known| == |done - known| + (if u in known then 0 else 1)
  {
    if u !in known {
      assert (done + {u}) - known == (done - known) + {u};
    } else {
      assert (done + {u}) - known == done - known;
    }
  }

  /** The listings created so far: one per new link visited, each the new listing for
      its link under the id the link is indexed by. */
  ghost predicate AddedSoFar(known: set<string>, out: ListingStore, done: set<string>, added: seq<Listing>,
                             now: int, subject: string) {
    && |added| == |done - known|
    && (forall i :: 0 <= i < |added| ==> AddedRow(known, out, done, added[i], now, subject))
    && DistinctUrls(added)
    && CoversUrls(done - known, added)
  }

  /** No link is created twice. */
  predicate DistinctUrls(added: seq<Listing>) {
    forall i, j :: 0 <= i < j < |added| ==> added[i].canonicalUrl != added[j].canonicalUrl
  }

  /** Every link of `urls` has its listing among `added`. */
  ghost predicate CoversUrls(urls: set<string>, added: seq<Listing>) {
    forall v :: v in urls ==> exists i :: 0 <= i < |added| && added[i].canonicalUrl == v
  }

  ghost predicate AddedRow(known: set<string>, out: ListingStore, done: set<string>, l: Listing, now: int, subject: string) {
    && l.canonicalUrl in done - known
    && l.canonicalUrl in out.byUrl
    && out.byUrl[l.canonicalUrl] == l.id
    && l == NewListing(l.id, PortalOf(l.canonicalUrl), l.canonicalUrl, now, subject)
  }

  lemma AddedStep(known: set<string>, out: ListingStore, done: set<string>, added: seq<Listing>,
                  u: string, next: ListingStore, created: seq<Listing>, now: int, subject: string)
    requires out.byUrl.Keys == known + done && u !in done
    requires Stepped(out, u, next, created, now, subject)
    requires AddedSoFar(known, out, done, added, now, subject)
    ensures AddedSoFar(known, next, done + {u}, added + created, now, subject)
  {
    NewCount(known, done, u);
    AddedRowsStep(known, out, done, added, u, next, created, now, subject);
    forall i | 0 <= i < |added| ensures added[i].canonicalUrl in done - known {
      assert AddedRow(known, out, done, added[i], now, subject);
    }
    AddedUrlsStep(known, done, added, u, created);
  }

  /** The rows created so far stay right after one more pass, and the pass creates the
      new listing exactly when its link is new. */
  lemma AddedRowsStep(known: set<string>, out: ListingStore, done: set<string>, added: seq<Listing>,
                      u: string, next: ListingStore, created: seq<Listing>, now: int, subject: string)
    requires out.byUrl.Keys == known + done && u !in done
    requires Stepped(out, u, next, created, now, subject)
    requires forall i :: 0 <= i < |added| ==> AddedRow(known, out, done, added[i], now, subject)
    ensures forall i :: 0 <= i < |added + created| ==>
      AddedRow(known, next, done + {u}, (added + created)[i], now, subject)
    ensures u in known ==> created == []
    ensures u !in known ==> |created| == 1 && created[0].canonicalUrl == u
  {
    forall i | 0 <= i < |added|
      ensures AddedRow(known, next, done + {u}, added[i], now, subject)
    {
      assert AddedRow(known, out, done, added[i], now, subject);
    }
    if u !in out.byUrl {
      var c := NewListing(next.byUrl[u], PortalOf(u), u, now, subject);
      assert created == [c];
      assert AddedRow(known, next, done + {u}, c, now, subject);
      ExtendRows(known, next, done + {u}, added, c, now, subject);
    } else {
      assert created == [] && added + created == added;
    }
  }

  /** One more pass keeps the created links distinct and covering the new links. */
  lemma AddedUrlsStep(known: set<string>, done: set<string>, added: seq<Listing>, u: string, created: seq<Listing>)
    requires u !in done
    requires forall i :: 0 <= i < |added| ==> added[i].canonicalUrl in done - known
    requires DistinctUrls(added) && CoversUrls(done - known, added)
    requires u in known ==> created == []
    requires u !in known ==> |created| == 1 && created[0].canonicalUrl == u
    ensures DistinctUrls(added + created) && CoversUrls((done + {u}) - known, added + created)
  {
    if u !in known {
      ExtendDistinct(added, created[0]);
      ExtendCovers(done - known, added, created[0]);
      assert (done + {u}) - known == (done - known) + {u};
      assert added + created == added + [created[0]];
    } else {
      assert added + created == added;
      assert (done + {u}) - known == done - known;
    }
  }

  lemma ExtendDistinct(added: seq<Listing>, c: Listing)
    requires DistinctUrls(added)
    requires forall i :: 0 <= i < |added| ==> added[i].canonicalUrl != c.canonicalUrl
    ensures DistinctUrls(added + [c])
  {
    forall i, j | 0 <= i < j < |added + [c]|
      ensures (added + [c])[i].canonicalUrl != (added + [c])[j].canonicalUrl
    {
      assert (added + [c])[i] == added[i];
    }
  }

  lemma ExtendCovers(urls: set<string>, added: seq<Listing>, c: Listing)
    requires CoversUrls(urls, added)
    ensures CoversUrls(urls + {c.canonicalUrl}, added + [c])
  {
    forall v | v in urls + {c.canonicalUrl}
      ensures exists i :: 0 <= i < |added + [c]| && (added + [c])[i].canonicalUrl == v
    {
      if v == c.canonicalUrl {
        assert (added + [c])[|added|] == c;
      } else {
        var i :| 0 <= i < |added| && added[i].canonicalUrl == v;
        assert (added + [c])[i] == added[i];
      }
    }
  }

  lemma ExtendRows(known: set<string>, out: ListingStore, done: set<string>, added: seq<Listing>, c: Listing,
                   now: int, subject: string)
    requires forall i :: 0 <= i < |added| ==> AddedRow(known, out, done, added[i], now, subject)
    requires AddedRow(known, out, done, c, now, subject)
    ensures forall i :: 0 <= i < |added + [c]| ==> AddedRow(known, out, done, (added + [c])[i], now, subject)
  {
  }

  /** The listings handed to the notifier are the rows stored for the new links. */
  lemma AddedAreStored(st: ListingStore, out: ListingStore, urls: set<string>, added: seq<Listing>, now: int, subject: string)
    requires ValidStore(st) && Ingested(st, out, urls, now, subject)
    requires AddedSoFar(st.byUrl.Keys, out, urls, added, now, subject)
    ensures forall v :: v in urls - st.byUrl.Keys ==>
      v in out.byUrl && exists i :: 0 <= i < |added| && added[i] == out.rows[out.byUrl[v]]
  {
    forall v | v in urls - st.byUrl.Keys
      ensures v in out.byUrl && exists i :: 0 <= i < |added| && added[i] == out.rows[out.byUrl[v]]
    {
      var i :| 0 <= i < |added| && added[i].canonicalUrl == v;
      assert AddedRow(st.byUrl.Keys, out, urls, added[i], now, subject);
    }
  }

  /** `inbound_email_webhook`: refuse without the shared secret; otherwise record every
      link in the mail and, when some are new, run the instant notifications over the
      new listings in the order they were created. */
  method Webhook(st: ListingStore, matches: MatchTable, searches: seq<SavedSearch>,
                 header: Option<string>, expected: string, post: map<string, string>, now: int, sender: string)
    returns (resp: WebhookResponse, out: ListingStore, added: seq<Listing>, outMatches: MatchTable, notices: seq<Notice>)
    requires ValidStore(st) && AllWellTyped(searches)
    ensures ValidStore(out)
    ensures !Authorized(header, expected) ==>
      resp == Forbidden && out == st && added == [] && outMatches == matches && notices == []
    ensures Authorized(header, expected) ==>
      var urls := ExtractLinks(BodyText(post));
      && resp == Accepted(|urls|, |urls - st.byUrl.Keys|)
      && |added| == resp.newCount
      && Ingested(st, out, urls, now, Field(post, "subject"))
      && AddedSoFar(st.byUrl.Keys, out, urls, added, now, Field(post, "subject"))
      && (forall v :: v in urls - st.byUrl.Keys ==> exists i :: 0 <= i < |added| && added[i] == out.rows[out.byUrl[v]])
    ensures added == [] ==> outMatches == matches && notices == []
    ensures added != [] ==> NotifyResult(outMatches, notices) == NotifyInstant(searches, added, matches, now, sender)
  {
    if !Authorized(header, expected) {
      return Forbidden, st, [], matches, [];
    }
    var subject := Field(post, "subject");
    var urls := ExtractLinks(BodyText(post));
    out, added := Ingest(st, urls, now, subject);
    AddedAreStored(st, out, urls, added, now, subject);
    resp := Accepted(|urls|, |added|);
    if |added| > 0 {
      var r := NotifyInstant(searches, added, matches, now, sender);
      outMatches, notices := r.matches, r.notices;
    } else {
      outMatches, notices := matches, [];
    }
  }

  /** The same mail delivered twice: the second delivery finds the same links, creates
      nothing and mails nobody. */
  method DeliverTwice(st: ListingStore, matches: MatchTable, searches: seq<SavedSearch>,
                      header: Option<string>, expected: string, post: map<string, string>, now: int, later: int, sender: string)
    returns (first: WebhookResponse, second: WebhookResponse, secondNotices: seq<Notice>)
    requires ValidStore(st) && AllWellTyped(searches)
    ensures first.Accepted? <==> second.Accepted?
    ensures second.Accepted? ==> second.foundUrls == first.foundUrls && second.newCount == 0
    ensures secondNotices == []
  {
    var st1, added1, m1, n1;
    first, st1, added1, m1, n1 := Webhook(st, matches, searches, header, expected, post, now, sender);
    var st2, added2, m2;
    second, st2, added2, m2, secondNotices := Webhook(st1, m1, searches, header, expected, post, later, sender);
    if second.Accepted? {
      var urls := ExtractLinks(BodyText(post));
      assert urls - st1.byUrl.Keys == {};
    }
  }

  // ---------------------------------------------------------------------
  // The shortlist
  // ---------------------------------------------------------------------

  /** `shortlist_add`: 404 when the listing does not exist, otherwise `get_or_create` of
      the (user, listing) row, which leaves an existing row as it was. */
  function ShortlistAdd(sl: Shortlist, rows: map<nat, Listing>, userId: nat, listingId: nat, now: int)
    : (r: Option<Shortlist>)
    ensures r.None? <==> listingId !in rows
    ensures r.Some? ==> r.value.Keys == sl.Keys + {ShortlistKey(userId, listingId)}
    ensures r.Some? ==> forall k :: k in sl ==> r.value[k] == sl[k]
    ensures r.Some? && ShortlistKey(userId, listingId) !in sl ==>
      r.value[ShortlistKey(userId, listingId)] == ShortlistEntry(now, "")
  {
    var key := ShortlistKey(userId, listingId);
    if listingId !in rows then None
    else if key in sl then Some(sl)
    else Some(sl[key := ShortlistEntry(now, "")])
  }

  /** `shortlist_remove`: delete the (user, listing) row if there is one; no 404. */
  function ShortlistRemove(sl: Shortlist, userId: nat, listingId: nat): (r: Shortlist)
    ensures r.Keys == sl.Keys - {ShortlistKey(userId, listingId)}
    ensures forall k :: k in r ==> r[k] == sl[k]
  {
    map k | k in sl && k != ShortlistKey(userId, listingId) :: sl[k]
  }

  /** Adding twice is adding once, even later. */
  lemma ShortlistAddIdempotent(sl: Shortlist, rows: map<nat, Listing>, userId: nat, listingId: nat, now: int, later: int)
    requires listingId in rows
    ensures var once := ShortlistAdd(sl, rows, userId, listingId, now).value;
      ShortlistAdd(once, rows, userId, listingId, later) == Some(once)
  {
  }

  /** Removing what was just added restores the shortlist. */
  lemma RemoveUndoesAdd(sl: Shortlist, rows: map<nat, Listing>, userId: nat, listingId: nat, now: int)
    requires listingId in rows && ShortlistKey(userId, listingId) !in sl
    ensures ShortlistRemove(ShortlistAdd(sl, rows, userId, listingId, now).value, userId, listingId) == sl
  {
  }

  /** One user's actions never touch another user's shortlist. */
  lemma ShortlistIsPerUser(sl: Shortlist, rows: map<nat, Listing>, userId: nat, listingId: nat, now: int, k: ShortlistKey)
    requires k.userId != userId
    ensures k in ShortlistRemove(sl, userId, listingId) <==> k in sl
    ensures ShortlistAdd(sl, rows, userId, listingId, now).Some? ==>
      (k in ShortlistAdd(sl, rows, userId, listingId, now).value <==> k in sl)
  {
  }
}
