/** The `check_planning_watchlist` command: for every active Ealing watch,
    scrape the query, keep the applications whose URL has not been seen,
    mail them in one message and add their URLs to the watch's seen set. */
module Watchlist {

  import opened Wrappers
  import opened Text
  import opened Email
  import opened PlanningModels
  import opened Pagination
  import EalingScraper

  /** The command scrapes at most five result pages per watch. */
  const WatchMaxPages := 5

  /** The only borough code the command handles. */
  const EalingCode := "ealing"

  /** Sender used when the settings name none. */
  const DefaultSender := "alerts@example.com"

  // ---------------------------------------------------------------------
  // Which applications are new
  // ---------------------------------------------------------------------

  /** The applications whose URL is not in `seen`, in scrape order, duplicates kept. */
  function NewApps(apps: seq<App>, seen: seq<string>): (r: seq<App>)
    ensures |r| <= |apps|
    decreases |apps|
  {
    if apps == [] then []
    else (if apps[0].url in seen then [] else [apps[0]]) + NewApps(apps[1..], seen)
  }

  /** Filtering distributes over concatenation, so order and multiplicity are kept. */
  lemma {:induction false} NewAppsAppend(a: seq<App>, b: seq<App>, seen: seq<string>)
    ensures NewApps(a + b, seen) == NewApps(a, seen) + NewApps(b, seen)
    decreases |a|
  {
    if a == [] {
      assert a + b == b;
    } else {
      var h := if a[0].url in seen then [] else [a[0]];
      assert (a + b)[0] == a[0];
      assert (a + b)[1..] == a[1..] + b;
      assert NewApps(a + b, seen) == h + NewApps(a[1..] + b, seen);
      NewAppsAppend(a[1..], b, seen);
      assert h + (NewApps(a[1..], seen) + NewApps(b, seen)) == (h + NewApps(a[1..], seen)) + NewApps(b, seen);
    }
  }

  /** An application is new exactly when it was scraped and its url is unseen. */
  lemma {:induction false} NewAppsMembers(apps: seq<App>, seen: seq<string>)
    ensures forall a :: a in NewApps(apps, seen) <==> a in apps && a.url !in seen
    decreases |apps|
  {
    if apps != [] {
      NewAppsMembers(apps[1..], seen);
      assert apps == [apps[0]] + apps[1..];
    }
  }

  /** With nothing seen yet every scraped application is new: there is no first-run
      baseline. */
  lemma {:induction false} FirstRunSendsEverything(apps: seq<App>)
    ensures NewApps(apps, []) == apps
    decreases |apps|
  {
    if apps != [] {
      FirstRunSendsEverything(apps[1..]);
    }
  }

  function Urls(apps: seq<App>): (r: seq<string>)
    ensures |r| == |apps|
    ensures forall i :: 0 <= i < |apps| ==> r[i] == apps[i].url
  {
    seq(|apps|, i requires 0 <= i < |apps| => apps[i].url)
  }

  predicate NoDuplicates(s: seq<string>) {
    forall i, j :: 0 <= i < j < |s| ==> s[i] != s[j]
  }

  /** The distinct elements of `s`, each at its first occurrence. */
  function Dedup(s: seq<string>): (r: seq<string>)
    ensures NoDuplicates(r)
    ensures forall x :: x in r <==> x in s
    decreases |s|
  {
    if s == [] then []
    else
      var r := Dedup(s[..|s| - 1]);
      if s[|s| - 1] in r then r else r + [s[|s| - 1]]
  }

  /** A duplicate-free list is its own set listing. */
  lemma {:induction false} DedupOfDistinct(s: seq<string>)
    requires NoDuplicates(s)
    ensures Dedup(s) == s
    decreases |s|
  {
    if s != [] {
      DedupOfDistinct(s[..|s| - 1]);
      assert s[..|s| - 1] + [s[|s| - 1]] == s;
    }
  }

  /** `list(seen.union(new urls))`: the old seen URLs and the new ones, each once. */
  function UpdatedSeen(seen: seq<string>, newOnes: seq<App>): (r: seq<string>)
    ensures NoDuplicates(r)
    ensures forall u :: u in r <==> u in seen || u in Urls(newOnes)
  {
    Dedup(seen + Urls(newOnes))
  }

  // ---------------------------------------------------------------------
  // The alert e-mail
  // ---------------------------------------------------------------------

  function Subject(query: string): string {
    "New planning application(s) for " + query
  }

  const HeaderLead := "The following new planning applications were found for "

  function Header(query: string): string {
    HeaderLead + query + ":"
  }

  /** The four lines an application contributes: title, address, url, blank. */
  function AppLines(a: App): seq<string> {
    ["- " + a.title, "  " + a.address, "  " + a.url, ""]
  }

  function AllAppLines(apps: seq<App>): (r: seq<string>)
    ensures |r| == 4 * |apps|
    decreases |apps|
  {
    if apps == [] then [] else AppLines(apps[0]) + AllAppLines(apps[1..])
  }

  /** The header, a blank line, then each application's lines. */
  function BodyLines(query: string, apps: seq<App>): seq<string> {
    [Header(query), ""] + AllAppLines(apps)
  }

  /** `"\n".join(lines)`. */
  function Body(query: string, apps: seq<App>): string {
    JoinWith(BodyLines(query, apps), '\n')
  }

  /** One application's block as it reads in the body. */
  function Block(a: App): string {
    "\n" + ("- " + a.title) + "\n" + ("  " + a.address) + "\n" + ("  " + a.url) + "\n"
  }

  function Blocks(apps: seq<App>): string
    decreases |apps|
  {
    if apps == [] then "" else Block(apps[0]) + Blocks(apps[1..])
  }

  lemma JoinCons(x: string, xs: seq<string>, sep: char)
    requires |xs| >= 1
    ensures JoinWith([x] + xs, sep) == x + [sep] + JoinWith(xs, sep)
  {
    assert ([x] + xs)[1..] == xs;
  }

  /** A blank line and one application's three lines, joined ahead of the rest. */
  lemma BlockLines(a: App, rest: seq<string>)
    requires |rest| >= 1
    ensures JoinWith([""] + (["- " + a.title] + (["  " + a.address] + (["  " + a.url] + rest))), '\n')
         == Block(a) + JoinWith(rest, '\n')
  {
    var x1, x2, x3 := "- " + a.title, "  " + a.address, "  " + a.url;
    assert [""] + ([x1] + ([x2] + ([x3] + rest)))
        == [""] + (["- " + a.title] + (["  " + a.address] + (["  " + a.url] + rest)));
    JoinFour("", x1, x2, x3, rest, '\n');
    assert "" + ['\n'] == "\n";
    assert Block(a) == "\n" + x1 + "\n" + x2 + "\n" + x3 + "\n";
  }

  lemma JoinFour(x0: string, x1: string, x2: string, x3: string, rest: seq<string>, sep: char)
    requires |rest| >= 1
    ensures JoinWith([x0] + ([x1] + ([x2] + ([x3] + rest))), sep)
         == x0 + [sep] + x1 + [sep] + x2 + [sep] + x3 + [sep] + JoinWith(rest, sep)
  {
    var r3 := [x3] + rest;
    var r2 := [x2] + r3;
    var r1 := [x1] + r2;
    var j := JoinWith(rest, sep);
    JoinCons(x3, rest, sep);
    JoinCons(x2, r3, sep);
    JoinCons(x1, r2, sep);
    JoinCons(x0, r1, sep);
    assert JoinWith([x0] + r1, sep) == x0 + [sep] + (x1 + [sep] + (x2 + [sep] + (x3 + [sep] + j)));
  }

  lemma {:induction false} TailReadsAsBlocks(apps: seq<App>)
    ensures JoinWith([""] + AllAppLines(apps), '\n') == Blocks(apps)
    decreases |apps|
  {
    if apps != [] {
      var a := apps[0];
      var rest := [""] + AllAppLines(apps[1..]);
      TailReadsAsBlocks(apps[1..]);
      assert [""] + AllAppLines(apps) == [""] + (["- " + a.title] + (["  " + a.address] + (["  " + a.url] + rest)));
      BlockLines(a, rest);
    }
  }

  /** The body is the header line, a line break, then for each application a blank line
      and its title, address and url lines, each closed by a line break. */
  lemma BodyReads(query: string, apps: seq<App>)
    ensures Body(query, apps) == Header(query) + "\n" + Blocks(apps)
  {
    TailReadsAsBlocks(apps);
    JoinCons(Header(query), [""] + AllAppLines(apps), '\n');
    assert BodyLines(query, apps) == [Header(query)] + ([""] + AllAppLines(apps));
  }

  /** Every application the mail announces has its url in the body. */
  lemma {:induction false} BodyNamesEveryUrl(query: string, apps: seq<App>)
    ensures forall a :: a in apps ==> Contains(Body(query, apps), a.url)
    decreases |apps|
  {
    BodyReads(query, apps);
    forall a | a in apps ensures Contains(Header(query) + "\n" + Blocks(apps), a.url) {
      BlocksNameUrl(apps, a);
      var k := |Header(query) + "\n"|;
      var whole := Header(query) + "\n" + Blocks(apps);
      assert whole[k..|whole|] == Blocks(apps);
      ContainsInSlice(whole, k, |whole|, a.url);
    }
  }

  lemma {:induction false} BlocksNameUrl(apps: seq<App>, a: App)
    requires a in apps
    ensures Contains(Blocks(apps), a.url)
    decreases |apps|
  {
    var b := Blocks(apps);
    var first := Block(apps[0]);
    assert b == first + Blocks(apps[1..]);
    if apps[0] == a {
      ContainsMiddle("\n- " + a.title + "\n  " + a.address + "\n  ", a.url, "\n");
      assert first == "\n- " + a.title + "\n  " + a.address + "\n  " + a.url + "\n";
      assert b[0..|first|] == first;
      ContainsInSlice(b, 0, |first|, a.url);
    } else {
      BlocksNameUrl(apps[1..], a);
      assert b[|first|..|b|] == Blocks(apps[1..]);
      ContainsInSlice(b, |first|, |b|, a.url);
    }
  }

  /** No field of the listed applications holds a line break. */
  predicate SingleLineFields(query: string, apps: seq<App>) {
    && '\n' !in query
    && forall a :: a in apps ==> '\n' !in a.title && '\n' !in a.address && '\n' !in a.url
  }

  lemma {:induction false} AllAppLinesSingle(apps: seq<App>)
    requires forall a :: a in apps ==> '\n' !in a.title && '\n' !in a.address && '\n' !in a.url
    ensures forall i :: 0 <= i < |AllAppLines(apps)| ==> '\n' !in AllAppLines(apps)[i]
    decreases |apps|
  {
    if apps != [] {
      AllAppLinesSingle(apps[1..]);
      var a := apps[0];
      assert '\n' !in "- " + a.title && '\n' !in "  " + a.address && '\n' !in "  " + a.url;
    }
  }

  lemma HeaderSingleLine(query: string)
    requires '\n' !in query
    ensures '\n' !in Header(query)
  {
    assert '\n' !in "The following " && '\n' !in "new planning ";
    assert '\n' !in "applications " && '\n' !in "were found for ";
  }

  /** When no field spans lines, splitting the body at line breaks gives the composed
      lines back: the body loses nothing. */
  lemma BodyLinesRecoverable(query: string, apps: seq<App>)
    requires SingleLineFields(query, apps)
    ensures Split(Body(query, apps), '\n') == BodyLines(query, apps)
  {
    AllAppLinesSingle(apps);
    var lines := BodyLines(query, apps);
    HeaderSingleLine(query);
    forall i | 0 <= i < |lines| ensures '\n' !in lines[i] {
      if i >= 2 {
        assert lines[i] == AllAppLines(apps)[i - 2];
      }
    }
    SplitJoin(lines, '\n');
  }

  // ---------------------------------------------------------------------
  // One watch
  // ---------------------------------------------------------------------

  /** What the command does with one active watch. */
  datatype WatchStep =
    | Skipped                                  // borough not implemented
    | ScrapeFailed                             // the scraper raised; logged, watch untouched
    | NothingNew                               // no unseen applications; nothing sent or saved
    | Notify(mail: Mail, seen: seq<string>)    // send `mail`, then save `seen`

  /** The decision for one watch, given what its scrape returned. */
  function Diff(w: PlanningWatch, apps: seq<App>, sender: string): (s: WatchStep)
    ensures s.Notify? <==> NewApps(apps, w.seenUrls) != []
    ensures s.Notify? ==>
      && s.mail == Mail(sender, w.email, Subject(w.query), Body(w.query, NewApps(apps, w.seenUrls)))
      && s.seen == UpdatedSeen(w.seenUrls, NewApps(apps, w.seenUrls))
  {
    var newOnes := NewApps(apps, w.seenUrls);
    if newOnes == [] then NothingNew
    else Notify(Mail(sender, w.email, Subject(w.query), Body(w.query, newOnes)), UpdatedSeen(w.seenUrls, newOnes))
  }

  /** The scrape the command runs for a watch. */
  function WatchScrape(w: PlanningWatch, fetch: Fetch, join: Join): Scrape {
    EalingScraper.Run(fetch, join, w.query, WatchMaxPages)
  }

  function Step(w: PlanningWatch, fetch: Fetch, join: Join, sender: string): (s: WatchStep)
    ensures w.boroughCode != EalingCode <==> s.Skipped?
    ensures s.ScrapeFailed? <==> w.boroughCode == EalingCode && WatchScrape(w, fetch, join).result.Failure?
    ensures s.Notify? ==> |s.mail.body| > 0 && s.mail.to == w.email
  {
    if w.boroughCode != EalingCode then Skipped
    else
      match WatchScrape(w, fetch, join).result
      case Failure(_) => ScrapeFailed
      case Success(apps) => Diff(w, apps, sender)
  }

  /** After a notification the seen set is the old one united with the new urls, with no
      duplicates, and every application of that scrape counts as seen. */
  lemma NotifiedSeenIsUnion(w: PlanningWatch, apps: seq<App>, sender: string)
    requires Diff(w, apps, sender).Notify?
    ensures var seen := Diff(w, apps, sender).seen;
      && NoDuplicates(seen)
      && (forall u :: u in w.seenUrls ==> u in seen)
      && (forall a :: a in apps ==> a.url in seen)
      && (forall u :: u in seen ==> u in w.seenUrls || exists a :: a in apps && a.url == u)
  {
    var newOnes := NewApps(apps, w.seenUrls);
    var seen := UpdatedSeen(w.seenUrls, newOnes);
    NewAppsMembers(apps, w.seenUrls);
    forall a | a in apps ensures a.url in seen {
      if a.url !in w.seenUrls {
        assert a in newOnes;
        var i :| 0 <= i < |newOnes| && newOnes[i] == a;
        assert Urls(newOnes)[i] == a.url;
      }
    }
    forall u | u in seen ensures u in w.seenUrls || exists a :: a in apps && a.url == u {
      if u !in w.seenUrls {
        var i :| 0 <= i < |Urls(newOnes)| && Urls(newOnes)[i] == u;
        assert newOnes[i] in apps;
      }
    }
  }

  /** Once every scraped url is seen, the same scrape yields nothing new. */
  lemma {:induction false} AllSeenNothingNew(apps: seq<App>, seen: seq<string>)
    requires forall a :: a in apps ==> a.url in seen
    ensures NewApps(apps, seen) == []
    decreases |apps|
  {
    if apps != [] {
      assert apps[0] in apps;
      AllSeenNothingNew(apps[1..], seen);
    }
  }

  /** What the command does with a row: inactive rows are not visited at all. */
  function Visit(w: PlanningWatch, fetch: Fetch, join: Join, sender: string): (s: WatchStep)
    ensures !w.active ==> s == Skipped
  {
    if w.active then Step(w, fetch, join, sender) else Skipped
  }

  /** The watch as the command leaves it when its delivery succeeds. */
  function Settle(w: PlanningWatch, fetch: Fetch, join: Join, sender: string): PlanningWatch {
    match Visit(w, fetch, join, sender)
    case Notify(_, seen) => w.(seenUrls := seen)
    case _ => w
  }

  /** Rerunning on a settled watch against the same pages finds nothing new. */
  lemma SettledIsQuiet(w: PlanningWatch, fetch: Fetch, join: Join, sender: string)
    ensures !Visit(Settle(w, fetch, join, sender), fetch, join, sender).Notify?
  {
    var v := Settle(w, fetch, join, sender);
    if v.active && v.boroughCode == EalingCode && WatchScrape(w, fetch, join).result.Success? {
      var apps := WatchScrape(w, fetch, join).result.value;
      assert WatchScrape(v, fetch, join) == WatchScrape(w, fetch, join);
      if Step(w, fetch, join, sender).Notify? {
        NotifiedSeenIsUnion(w, apps, sender);
        AllSeenNothingNew(apps, v.seenUrls);
      }
    }
  }

  // ---------------------------------------------------------------------
  // The whole command
  // ---------------------------------------------------------------------

  /** The rows after the run, the mails delivered, and whether a delivery failure ended
      the run early. */
  datatype CommandResult = CommandResult(watches: seq<PlanningWatch>, sent: seq<Mail>, aborted: bool)

  /** Reference definition of `handle`: rows in store order; inactive rows are not
      visited; a delivery that fails raises out of the command, leaving that row and every
      later one as it was, while the rows before it keep what was saved. */
  function RunWatches(ws: seq<PlanningWatch>, fetch: Fetch, join: Join, deliver: Mail -> bool, sender: string)
    : (r: CommandResult)
    ensures |r.watches| == |ws|
    decreases |ws|
  {
    if ws == [] then CommandResult([], [], false)
    else
      var w := ws[0];
      var step := Visit(w, fetch, join, sender);
      if step.Notify? && !deliver(step.mail) then CommandResult(ws, [], true)
      else
        var rest := RunWatches(ws[1..], fetch, join, deliver, sender);
        var v := if step.Notify? then w.(seenUrls := step.seen) else w;
        var mails := if step.Notify? then [step.mail] else [];
        CommandResult([v] + rest.watches, mails + rest.sent, rest.aborted)
  }

  /** The sender: the configured address, else the default. */
  function SenderOf(configured: Option<string>): string {
    configured.GetOr(DefaultSender)
  }

  /** One row whose delivery, if any, succeeds: it settles and the run goes on. */
  lemma RunWatchesCons(ws: seq<PlanningWatch>, fetch: Fetch, join: Join, deliver: Mail -> bool, sender: string)
    requires ws != []
    requires var step := Visit(ws[0], fetch, join, sender); !(step.Notify? && !deliver(step.mail))
    ensures var r := RunWatches(ws, fetch, join, deliver, sender);
      var rest := RunWatches(ws[1..], fetch, join, deliver, sender);
      r.watches == [Settle(ws[0], fetch, join, sender)] + rest.watches && r.aborted == rest.aborted
  {
  }

  /** How many rows a run settles before a delivery fails (all of them if none does). */
  ghost function SettledCount(ws: seq<PlanningWatch>, fetch: Fetch, join: Join, deliver: Mail -> bool, sender: string)
    : (k: nat)
    ensures k <= |ws|
    decreases |ws|
  {
    if ws == [] then 0
    else
      var step := Visit(ws[0], fetch, join, sender);
      if step.Notify? && !deliver(step.mail) then 0
      else 1 + SettledCount(ws[1..], fetch, join, deliver, sender)
  }

  /** The rows before the failing delivery are settled. */
  lemma {:induction false} SettledRows(ws: seq<PlanningWatch>, fetch: Fetch, join: Join, deliver: Mail -> bool, sender: string)
    ensures var r := RunWatches(ws, fetch, join, deliver, sender);
      forall i :: 0 <= i < SettledCount(ws, fetch, join, deliver, sender) ==> r.watches[i] == Settle(ws[i], fetch, join, sender)
    decreases |ws|
  {
    if ws != [] {
      var step := Visit(ws[0], fetch, join, sender);
      if !(step.Notify? && !deliver(step.mail)) {
        var r := RunWatches(ws, fetch, join, deliver, sender);
        var rest := RunWatches(ws[1..], fetch, join, deliver, sender);
        SettledRows(ws[1..], fetch, join, deliver, sender);
        RunWatchesCons(ws, fetch, join, deliver, sender);
        forall i | 1 <= i < SettledCount(ws, fetch, join, deliver, sender)
          ensures r.watches[i] == rest.watches[i - 1] && ws[i] == ws[1..][i - 1]
        {
        }
      }
    }
  }

  /** The failing row and every row after it are left as they were. */
  lemma {:induction false} UntouchedRows(ws: seq<PlanningWatch>, fetch: Fetch, join: Join, deliver: Mail -> bool, sender: string)
    ensures var r := RunWatches(ws, fetch, join, deliver, sender);
      forall i :: SettledCount(ws, fetch, join, deliver, sender) <= i < |ws| ==> r.watches[i] == ws[i]
    decreases |ws|
  {
    if ws != [] {
      var step := Visit(ws[0], fetch, join, sender);
      if !(step.Notify? && !deliver(step.mail)) {
        var r := RunWatches(ws, fetch, join, deliver, sender);
        var rest := RunWatches(ws[1..], fetch, join, deliver, sender);
        UntouchedRows(ws[1..], fetch, join, deliver, sender);
        RunWatchesCons(ws, fetch, join, deliver, sender);
        forall i | SettledCount(ws, fetch, join, deliver, sender) <= i < |ws|
          ensures r.watches[i] == rest.watches[i - 1] && ws[i] == ws[1..][i - 1]
        {
        }
      }
    }
  }

  /** A run aborts exactly when it stops short, and then on a failed delivery. */
  lemma {:induction false} AbortedAtFailure(ws: seq<PlanningWatch>, fetch: Fetch, join: Join, deliver: Mail -> bool, sender: string)
    ensures var r := RunWatches(ws, fetch, join, deliver, sender);
      var k := SettledCount(ws, fetch, join, deliver, sender);
      && (r.aborted <==> k < |ws|)
      && (r.aborted ==>
            Visit(ws[k], fetch, join, sender).Notify? && !deliver(Visit(ws[k], fetch, join, sender).mail))
    decreases |ws|
  {
    if ws != [] {
      var step := Visit(ws[0], fetch, join, sender);
      if !(step.Notify? && !deliver(step.mail)) {
        AbortedAtFailure(ws[1..], fetch, join, deliver, sender);
        RunWatchesCons(ws, fetch, join, deliver, sender);
        var k := SettledCount(ws[1..], fetch, join, deliver, sender);
        if k < |ws[1..]| {
          assert ws[k + 1] == ws[1..][k];
        }
      }
    }
  }

  /** Every row ends either as it was or as `Settle` leaves it; a run that was not
      aborted settles every row, and an aborted one settles exactly the rows before the
      failing delivery. Nothing but `seenUrls` ever changes. */
  lemma RunSettlesPrefix(ws: seq<PlanningWatch>, fetch: Fetch, join: Join, deliver: Mail -> bool, sender: string)
    returns (k: nat)
    ensures var r := RunWatches(ws, fetch, join, deliver, sender);
      && k <= |ws|
      && (forall i :: 0 <= i < k ==> r.watches[i] == Settle(ws[i], fetch, join, sender))
      && (forall i :: k <= i < |ws| ==> r.watches[i] == ws[i])
      && (r.aborted <==> k < |ws|)
      && (r.aborted ==>
            Visit(ws[k], fetch, join, sender).Notify? && !deliver(Visit(ws[k], fetch, join, sender).mail))
  {
    k := SettledCount(ws, fetch, join, deliver, sender);
    SettledRows(ws, fetch, join, deliver, sender);
    UntouchedRows(ws, fetch, join, deliver, sender);
    AbortedAtFailure(ws, fetch, join, deliver, sender);
  }

  /** Settling changes only `seenUrls`, only on an active Ealing row, and only upward. */
  lemma SettleOnlyGrowsSeen(w: PlanningWatch, fetch: Fetch, join: Join, sender: string)
    ensures var v := Settle(w, fetch, join, sender);
      && v == w.(seenUrls := v.seenUrls)
      && (!w.active || w.boroughCode != EalingCode ==> v == w)
      && (forall u :: u in w.seenUrls ==> u in v.seenUrls)
  {
    if Visit(w, fetch, join, sender).Notify? {
      NotifiedSeenIsUnion(w, WatchScrape(w, fetch, join).result.value, sender);
    }
  }

  /** Only `seenUrls` changes, only on active Ealing rows, and it only grows. */
  lemma OnlySeenUrlsGrow(ws: seq<PlanningWatch>, fetch: Fetch, join: Join, deliver: Mail -> bool, sender: string)
    ensures var r := RunWatches(ws, fetch, join, deliver, sender);
      forall i :: 0 <= i < |ws| ==>
        && r.watches[i] == ws[i].(seenUrls := r.watches[i].seenUrls)
        && (!ws[i].active || ws[i].boroughCode != EalingCode ==> r.watches[i] == ws[i])
        && (forall u :: u in ws[i].seenUrls ==> u in r.watches[i].seenUrls)
  {
    var k := RunSettlesPrefix(ws, fetch, join, deliver, sender);
    forall i | 0 <= i < k {
      SettleOnlyGrowsSeen(ws[i], fetch, join, sender);
    }
  }

  /** A run that completes leaves the store quiet: running again against the same pages
      sends nothing and changes nothing. */
  lemma RerunSendsNothing(ws: seq<PlanningWatch>, fetch: Fetch, join: Join, deliver: Mail -> bool, sender: string)
    requires !RunWatches(ws, fetch, join, deliver, sender).aborted
    ensures var after := RunWatches(ws, fetch, join, deliver, sender).watches;
      RunWatches(after, fetch, join, deliver, sender) == CommandResult(after, [], false)
  {
    var after := RunWatches(ws, fetch, join, deliver, sender).watches;
    var k := RunSettlesPrefix(ws, fetch, join, deliver, sender);
    forall i | 0 <= i < |after|
      ensures !Visit(after[i], fetch, join, sender).Notify?
    {
      SettledIsQuiet(ws[i], fetch, join, sender);
    }
    QuietRunIsIdentity(after, fetch, join, deliver, sender);
  }

  /** Rows none of which would produce a mail come through a run unchanged. */
  lemma {:induction false} QuietRunIsIdentity(ws: seq<PlanningWatch>, fetch: Fetch, join: Join, deliver: Mail -> bool, sender: string)
    requires forall i :: 0 <= i < |ws| ==> !Visit(ws[i], fetch, join, sender).Notify?
    ensures RunWatches(ws, fetch, join, deliver, sender) == CommandResult(ws, [], false)
    decreases |ws|
  {
    if ws != [] {
      QuietRunIsIdentity(ws[1..], fetch, join, deliver, sender);
      assert [ws[0]] + ws[1..] == ws;
    }
  }

  /** Prepends the rows already processed to the result of the rest. */
  function After(done: seq<PlanningWatch>, mails: seq<Mail>, r: CommandResult): CommandResult {
    CommandResult(done + r.watches, mails + r.sent, r.aborted)
  }

  /** One row: the scraper method runs only for active Ealing watches. */
  method VisitWatch(w: PlanningWatch, fetch: Fetch, join: Join, sender: string) returns (step: WatchStep)
    ensures step == Visit(w, fetch, join, sender)
  {
    step := Skipped;
    if w.active && w.boroughCode == EalingCode {
      var result, requests := EalingScraper.Scrape(w.query, WatchMaxPages, fetch, join);
      assert result == WatchScrape(w, fetch, join).result;
      step := if result.Failure? then ScrapeFailed else Diff(w, result.value, sender);
    }
  }

  lemma AfterAfter(d1: seq<PlanningWatch>, m1: seq<Mail>, d2: seq<PlanningWatch>, m2: seq<Mail>, r: CommandResult)
    ensures After(d1, m1, After(d2, m2, r)) == After(d1 + d2, m1 + m2, r)
  {
    assert d1 + (d2 + r.watches) == (d1 + d2) + r.watches;
    assert m1 + (m2 + r.sent) == (m1 + m2) + r.sent;
  }

  /** One step of the reference definition, as the loop takes it. */
  lemma RunWatchesStep(ws: seq<PlanningWatch>, i: nat, fetch: Fetch, join: Join, deliver: Mail -> bool, sender: string)
    requires i < |ws|
    ensures var step := Visit(ws[i], fetch, join, sender);
      RunWatches(ws[i..], fetch, join, deliver, sender) ==
        if step.Notify? && !deliver(step.mail) then CommandResult(ws[i..], [], true)
        else if step.Notify? then After([ws[i].(seenUrls := step.seen)], [step.mail], RunWatches(ws[i + 1..], fetch, join, deliver, sender))
        else After([ws[i]], [], RunWatches(ws[i + 1..], fetch, join, deliver, sender))
  {
    assert ws[i..][0] == ws[i];
    assert ws[i..][1..] == ws[i + 1..];
  }

  /** `handle` as a loop over the rows, calling the Ealing scraper method and the
      delivery oracle; it agrees with the reference definition. */
  method Handle(ws: seq<PlanningWatch>, fetch: Fetch, join: Join, deliver: Mail -> bool, configuredSender: Option<string>)
    returns (watches: seq<PlanningWatch>, sent: seq<Mail>, aborted: bool)
    ensures CommandResult(watches, sent, aborted) == RunWatches(ws, fetch, join, deliver, SenderOf(configuredSender))
  {
    var sender := SenderOf(configuredSender);
    ghost var goal := RunWatches(ws, fetch, join, deliver, sender);
    watches := [];
    sent := [];
    aborted := false;
    var i := 0;
    while i < |ws|
      invariant 0 <= i <= |ws|
      invariant goal == After(watches, sent, RunWatches(ws[i..], fetch, join, deliver, sender))
    {
      var w := ws[i];
      RunWatchesStep(ws, i, fetch, join, deliver, sender);
      var step := VisitWatch(w, fetch, join, sender);
      if step.Notify? && !deliver(step.mail) {
        assert goal == CommandResult(watches + ws[i..], sent + [], true);
        assert sent + [] == sent;
        watches := watches + ws[i..];
        aborted := true;
        return;
      }
      ghost var rest := RunWatches(ws[i + 1..], fetch, join, deliver, sender);
      if step.Notify? {
        AfterAfter(watches, sent, [w.(seenUrls := step.seen)], [step.mail], rest);
        watches := watches + [w.(seenUrls := step.seen)];
        sent := sent + [step.mail];
      } else {
        AfterAfter(watches, sent, [w], [], rest);
        assert sent + [] == sent;
        watches := watches + [w];
      }
      i := i + 1;
    }
    assert watches + [] == watches && sent + [] == sent;
  }

  /** The worked example: with `u1` seen and a scrape returning `u1` then `u2`, the mail
      announces only `u2` and the seen set becomes {u1, u2}. */
  lemma WorkedExample(a1: App, a2: App, w: PlanningWatch, sender: string)
    requires a1.url == "u1" && a2.url == "u2"
    requires w.seenUrls == ["u1"]
    ensures Diff(w, [a1, a2], sender).Notify?
    ensures Diff(w, [a1, a2], sender).mail.body == Body(w.query, [a2])
    ensures Diff(w, [a1, a2], sender).seen == ["u1", "u2"]
  {
    assert [a1, a2][1..] == [a2];
    assert NewApps([a1, a2], w.seenUrls) == [a2];
    assert Urls([a2]) == ["u2"];
    assert ["u1"] + ["u2"] == ["u1", "u2"];
    assert "u1" != "u2";
    DedupOfDistinct(["u1", "u2"]);
  }
}
