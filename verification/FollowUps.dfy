/**
 What the requests of a scan say after the first one (`fetch_next_page` in src/fdw.rs): a
 cursor replaces the pairs of its name, and a page URL takes the place of the whole query.
 */
module FollowUps {
  import opened Text
  import opened Json
  import opened TableOptions
  import LinkHeaders
  import opened Paging
  import opened PageTokens
  import opened Requests
  import opened PageWalk
  import opened Scan
  import Pushdown

  /** Whether the request that follows a token sends a pair. */
  predicate Carries(s: Setting, token: PageToken, pair: (string, string)) {
    match token
    case UrlToken(_) => false
    case CursorToken(cursor) =>
      if Some(pair.0) == s.table.cursorParam then pair.1 == cursor else pair in s.initial.query
  }

  /** A follow-up differs from the first request in its address and its query alone. */
  lemma FollowUpSays(s: Setting, token: PageToken, current: Url, pair: (string, string))
    requires FollowUp(s, token, current).Ok?
    ensures var request := FollowUp(s, token, current).value;
      && request.verb == s.initial.verb && request.body == s.initial.body
      && (token.CursorToken? ==> request.url == s.initial.url)
      && (pair in request.query <==> Carries(s, token, pair))
  {
    if token.CursorToken? {
      Pushdown.WithoutPairs(s.initial.query, s.table.cursorParam.value, pair);
    }
  }

  // ---------- every request of a run ----------

  /** The token that request `i` follows. */
  function Followed(w: Walk, i: nat): PageToken
    requires 0 < i <= |w.trace| && w.trace[i - 1].page.next.Some?
  {
    w.trace[i - 1].page.next.value
  }

  /** Which of the pairs the requests of a scan hold, however it is called and whatever is answered. */
  lemma SentRequestSays(world: World, cap: Option<nat>, calls: seq<Call>, i: nat, pair: (string, string))
    requires world.rules == TheRules() && i < |Run(world, cap, calls).sent|
    ensures var w, initial := Run(world, cap, calls), world.setting.initial;
      && w.sent[i].verb == initial.verb && w.sent[i].body == initial.body
      && (i == 0 ==> w.sent[i] == initial)
      && (i > 0 ==>
            && i <= |w.trace| && w.trace[i - 1].page.next.Some?
            && (pair in w.sent[i].query <==> Carries(world.setting, Followed(w, i), pair)))
  {
    TheRulesAreSound();
    RequestsFollowPages(world, cap, calls);
    var w := Run(world, cap, calls);
    if i > 0 {
      assert Leads(world, w.trace, i, w.sent[i]);
      FollowUpSays(world.setting, Followed(w, i), w.trace[i - 1].response.effectiveUrl, pair);
    }
  }

  /** Where a token leads: a page URL from the page it was found at, and a cursor to the first address again. */
  predicate LeadsTo(s: Setting, token: PageToken, current: Url, url: Url) {
    match token
    case UrlToken(raw) =>
      && Led(s.libraries, s.base, current, raw) == Some(url) && (url.scheme == "http" || url.scheme == "https")
      && (s.allowCrossOrigin || SameOrigin(s.base, url))
    case CursorToken(_) => url == s.initial.url
  }

  lemma FollowUpLeads(s: Setting, token: PageToken, current: Url)
    requires FollowUp(s, token, current).Ok?
    ensures LeadsTo(s, token, current, FollowUp(s, token, current).value.url)
  {
    if token.UrlToken? {
      var url := FollowUp(s, token, current).value.url;
      PageUrlIsExact(s.libraries, s.base, current, token.url, s.allowCrossOrigin, url);
    }
  }

  /** Every follow-up goes where its token leads from the page before it. */
  lemma SentUrlSays(world: World, cap: Option<nat>, calls: seq<Call>, i: nat)
    requires world.rules == TheRules() && 0 < i < |Run(world, cap, calls).sent|
    ensures var w := Run(world, cap, calls);
      && i <= |w.trace| && w.trace[i - 1].page.next.Some?
      && LeadsTo(world.setting, Followed(w, i), w.trace[i - 1].response.effectiveUrl, w.sent[i].url)
  {
    TheRulesAreSound();
    RequestsFollowPages(world, cap, calls);
    var w := Run(world, cap, calls);
    assert Leads(world, w.trace, i, w.sent[i]);
    FollowUpLeads(world.setting, Followed(w, i), w.trace[i - 1].response.effectiveUrl);
  }

  /** No request of a run leaves the service: the planned address, or the origin of the base URL. */
  lemma RequestsStayAtOrigin(world: World, cap: Option<nat>, calls: seq<Call>)
    requires world.rules == TheRules() && !world.setting.allowCrossOrigin
    ensures forall request <- Run(world, cap, calls).sent ::
      request.url == world.setting.initial.url || SameOrigin(world.setting.base, request.url)
  {
    TheRulesAreSound();
    RequestsAreBounded(world, cap, calls);
  }

  /** Some planned pair is missing behind the token. */
  predicate Drops(s: Setting, token: PageToken) {
    match token
    case UrlToken(_) => s.initial.query != []
    case CursorToken(cursor) =>
      exists pair <- s.initial.query :: Some(pair.0) == s.table.cursorParam && pair.1 != cursor
  }

  lemma DropsSome(s: Setting, token: PageToken)
    ensures Drops(s, token) <==> exists pair <- s.initial.query :: !Carries(s, token, pair)
  {
    if token.UrlToken? && s.initial.query != [] {
      assert s.initial.query[0] in s.initial.query && !Carries(s, token, s.initial.query[0]);
    }
  }

  predicate HoldsAll(request: HttpRequest, pairs: Query) {
    forall pair <- pairs :: pair in request.query
  }

  /** Request `i` follows a token that drops nothing. */
  predicate Kept(s: Setting, w: Walk, i: nat) {
    0 < i <= |w.trace| && w.trace[i - 1].page.next.Some? && !Drops(s, Followed(w, i))
  }

  /**
   Every request of a run sends all that is configured or pushed if and only if no page URL was
   followed, unless nothing was planned, and no cursor that differs from what is planned under its name.
   */
  lemma RunSendsAll(world: World, cap: Option<nat>, calls: seq<Call>)
    requires world.rules == TheRules()
    ensures var w := Run(world, cap, calls);
      (forall request <- w.sent :: HoldsAll(request, world.setting.initial.query)) <==>
      (forall i | 0 < i < |w.sent| :: Kept(world.setting, w, i))
  {
    var w := Run(world, cap, calls);
    forall i: nat | i < |w.sent|
      ensures HoldsAll(w.sent[i], world.setting.initial.query) <==> i == 0 || Kept(world.setting, w, i)
    {
      RequestHoldsAll(world, cap, calls, i);
    }
    AllAtIndices(w, world.setting);
  }

  lemma AllAtIndices(w: Walk, s: Setting)
    requires forall i: nat | i < |w.sent| :: HoldsAll(w.sent[i], s.initial.query) <==> i == 0 || Kept(s, w, i)
    ensures (forall request <- w.sent :: HoldsAll(request, s.initial.query)) <==>
      (forall i | 0 < i < |w.sent| :: Kept(s, w, i))
  {
    if forall request <- w.sent :: HoldsAll(request, s.initial.query) {
      forall i | 0 < i < |w.sent|
        ensures Kept(s, w, i)
      {
        assert w.sent[i] in w.sent;
      }
    }
  }

  lemma RequestHoldsAll(world: World, cap: Option<nat>, calls: seq<Call>, i: nat)
    requires world.rules == TheRules() && i < |Run(world, cap, calls).sent|
    ensures var w := Run(world, cap, calls);
      HoldsAll(w.sent[i], world.setting.initial.query) <==> i == 0 || Kept(world.setting, w, i)
  {
    var w := Run(world, cap, calls);
    SentRequestSays(world, cap, calls, i, ("", ""));
    if i > 0 {
      forall pair: (string, string)
        ensures pair in w.sent[i].query <==> Carries(world.setting, Followed(w, i), pair)
      {
        SentRequestSays(world, cap, calls, i, pair);
      }
      DropsSome(world.setting, Followed(w, i));
    }
  }

  // ---------- parameters that are lost ----------

  lemma OneConfiguredPair(libraries: Libraries, table: TableConfig, name: string, value: string)
    requires table.queryParams == map[name := Str(value)]
    ensures StaticQuery(libraries, table) == [(name, value)]
  {
    assert table.queryParams.Keys == {name} && {name} - {name} == {};
    assert InOrder({name}) == [name];
    assert StaticPairs(libraries, [name], table.queryParams) == JsonQueryValues(libraries, name, Str(value)) + [];
  }

  /** A configured parameter named like the cursor is sent once, and then replaced or gone. */
  lemma ConfiguredCursorIsLost(libraries: Libraries, s: Setting, token: PageToken, current: Url)
    requires s.table.queryParams == map["cursor" := Str("from")] && s.table.cursorParam == Some("cursor")
    requires s.table.pageSize.None? && s.initial.query == PlannedQuery(libraries, s.table, [], {}, None)
    requires FollowUp(s, token, current).Ok?
    ensures s.initial.query == StaticQuery(libraries, s.table) == [("cursor", "from")]
    ensures Pushdown.Overriding([], {}, s.table, None, "cursor") == None
    ensures FollowUp(s, token, current).value.query == match token
      case CursorToken(cursor) => [("cursor", cursor)]
      case UrlToken(_) => []
  {
    OneConfiguredPair(libraries, s.table, "cursor", "from");
    assert Without([("cursor", "from")], "cursor") == [];
  }

  // ---------- what no service can take away ----------

  function ServedBy(s: Setting, p: Projector, reply: Answers, first: nat, pageLimit: nat): World {
    World(TheRules(), s, p, reply, first, pageLimit)
  }

  /** Whatever the service answers and however the scan is called, each of its requests sends the pair. */
  ghost predicate AlwaysSent(s: Setting, p: Projector, first: nat, pageLimit: nat, cap: Option<nat>,
                             pair: (string, string)) {
    forall reply, calls :: SendsThroughout(Run(ServedBy(s, p, reply, first, pageLimit), cap, calls), pair)
  }

  predicate SendsThroughout(w: Walk, pair: (string, string)) {
    forall request <- w.sent :: pair in request.query
  }

  /** A scan that may go beyond its first page. */
  predicate MayPage(s: Setting, pageLimit: nat, cap: Option<nat>) {
    s.table.pagination == AutoPages && pageLimit >= 2 && (cap.Some? ==> cap.value >= 2)
  }

  lemma OneRequestOnly(world: World, cap: Option<nat>, calls: seq<Call>)
    requires world.rules == TheRules() && !MayPage(world.setting, world.pageLimit, cap)
    ensures |Run(world, cap, calls).sent| <= 1
  {
    TheRulesAreSound();
    RequestsAreBounded(world, cap, calls);
    RequestsFollowPages(world, cap, calls);
    RunIsGood(world, cap, calls);
    var w := Run(world, cap, calls);
    if |w.sent| > 1 {
      assert Leads(world, w.trace, 1, w.sent[1]);
      PageAt(world, w.trace, 0);
    }
  }

  /** A one-row page with a link to the next one. */
  function LinkedPage(table: TableConfig, url: Url): HttpResponse {
    HttpResponse(
      if table.responsePath.Some? then Nest(PointerTokens(table.responsePath.value), Bool(true)) else Bool(true),
      [LinkHeaders.PrintLink(NextLink())], url)
  }

  function PointerTokens(pointer: string): seq<string> {
    Map(Unescape, Split(pointer, '/')[1..])
  }

  function NextLink(): LinkHeaders.Link {
    LinkHeaders.Link("?page=2", [LinkHeaders.Rel(["next"], true)])
  }

  predicate IsRooted(pointer: Option<string>) {
    pointer.Some? ==> "/" <= pointer.value
  }

  predicate IsWebUrl(url: Url) {
    url.scheme in ["http", "https"] && url.host.Some?
  }

  lemma {:induction false} NestHoldsNoScalar(tokens: seq<string>, path: seq<string>)
    ensures ScalarString(Get(Nest(tokens, Bool(true)), path)) == None
    decreases |path|
  {
    if tokens != [] && path != [] && path[0] == tokens[0] {
      NestHoldsNoScalar(tokens[1..], path[1..]);
    }
  }

  lemma LinkedBodyIsRead(table: TableConfig, url: Url)
    requires IsRooted(table.responsePath)
    ensures var body := LinkedPage(table, url).value;
      && (if table.responsePath.Some? then ReadPointer(body, table.responsePath.value) else Some(AutoSelect(body)))
        == Some(Bool(true))
      && (table.cursorPath.Some? ==> ScalarString(ReadPointer(body, table.cursorPath.value)) == None)
  {
    var tokens := if table.responsePath.Some? then PointerTokens(table.responsePath.value) else [];
    NestIsRead(tokens, Bool(true));
    if table.cursorPath.Some? {
      NestHoldsNoScalar(tokens, PointerTokens(table.cursorPath.value));
      NestHoldsNoScalar(tokens, []);
    }
  }

  lemma LinkIsFound(body: Json, links: seq<string>, cursorPath: Option<string>, url: string)
    requires cursorPath.Some? ==> ScalarString(ReadPointer(body, cursorPath.value)) == None
    requires FirstLink(links) == Some(url)
    ensures FindNext(body, links, cursorPath) == Some(UrlToken(url))
  {
  }

  lemma LinkedPageIsRead(table: TableConfig, url: Url)
    requires table.pagination == AutoPages && IsRooted(table.responsePath)
    ensures var page := LinkedPage(table, url);
      NormalizePage(page.value, page.links, table) == Ok(Page([Bool(true)], Some(UrlToken("?page=2"))))
  {
    var page := LinkedPage(table, url);
    LinkedBodyIsRead(table, url);
    NextLinkIsRead();
    LinkIsFound(page.value, page.links, table.cursorPath, "?page=2");
  }

  lemma NextIsARelation()
    ensures LinkHeaders.IsToken("next") && LinkHeaders.IncludesNext(["next"])
  {
    assert Lowercase("next") == "next";
    assert "next" in ["next"] && LinkHeaders.Names("next", "next");
  }

  lemma NextLinkIsRead()
    ensures FirstLink([LinkHeaders.PrintLink(NextLink())]) == Some("?page=2")
  {
    NextIsARelation();
    var next := LinkHeaders.Rel(["next"], true);
    assert NextLink().parameters == [next] && LinkHeaders.IsNextParameter(next);
    assert next in NextLink().parameters;
    OneLinkIsRead(NextLink());
  }

  lemma OneLinkIsRead(link: LinkHeaders.Link)
    requires LinkHeaders.Printable(link) && LinkHeaders.IsNext(link)
    ensures FirstLink([LinkHeaders.PrintLink(link)]) == Some(link.url)
  {
    assert LinkHeaders.PrintLinks([link]) == LinkHeaders.PrintLink(link);
    LinkHeaders.PrintedLinksReadBack([link]);
  }

  /** A service that answers every request with a linked page. */
  function Linking(s: Setting): Answers {
    (n, request) => Ok(LinkedPage(s.table, s.base))
  }

  lemma NextLinkIsFollowed(s: Setting)
    requires IsWebUrl(s.base)
    ensures var request := FollowUp(s, UrlToken("?page=2"), s.base);
      request.Ok? && request.value.query == []
  {
    assert "?" <= "?page=2" && !IsAbsolute("?page=2") by {
      assert "?page=2"[0] == '?' && "http://"[0] == 'h' == "https://"[0];
    }
  }

  /** Followed to its second page, such a service is asked for it without any pair. */
  lemma SecondRequestIsBare(s: Setting, p: Projector, first: nat, pageLimit: nat, cap: Option<nat>)
    requires IsWebUrl(s.base) && IsRooted(s.table.responsePath) && MayPage(s, pageLimit, cap)
    ensures var w := Run(ServedBy(s, p, Linking(s), first, pageLimit), cap, [IterScan, IterScan]);
      |w.sent| == 2 && w.sent[1].query == []
  {
    var world := ServedBy(s, p, Linking(s), first, pageLimit);
    assert [IterScan][..0] == [] && [IterScan, IterScan][..1] == [IterScan];
    LinkedBegins(s, p, first, pageLimit, cap);
    var answered := Run(world, cap, [IterScan]);
    assert answered == Answer(world, Run(world, cap, [])).0;
    assert Run(world, cap, [IterScan, IterScan]) == Iterate(world, answered).0;
    NextLinkIsFollowed(s);
    FetchAsks(world, answered, FollowUp(s, UrlToken("?page=2"), s.base).value);
    IterateSteps(world, answered);
  }

  lemma LinkedBegins(s: Setting, p: Projector, first: nat, pageLimit: nat, cap: Option<nat>)
    requires IsRooted(s.table.responsePath) && MayPage(s, pageLimit, cap)
    ensures var w := Run(ServedBy(s, p, Linking(s), first, pageLimit), cap, []);
      && |w.rows| == 1 && w.rowIndex == 0 && w.next == Some(UrlToken("?page=2")) && w.currentUrl == Some(s.base)
      && w.sent == [s.initial] && w.pagesFetched == 1 && w.maximumRows == cap
  {
    LinkedPageIsRead(s.table, s.base);
    assert [] + [Bool(true)] == [Bool(true)] && [] + [s.initial] == [s.initial];
  }

  /** A fetch below the page limit sends the request it wants, whatever comes of it. */
  lemma FetchAsks(world: World, w: Walk, request: HttpRequest)
    requires w.pagesFetched < world.pageLimit && Wanted(world, w) == Ok(request)
    ensures Fetch(world, w).0.sent == w.sent + [request]
  {
  }

  lemma FirstIsSent(world: World, cap: Option<nat>)
    ensures Run(world, cap, []).sent == if world.pageLimit == 0 then [] else [world.setting.initial]
  {
    FetchOutcome(world, Initial(cap));
    assert [] + [world.setting.initial] == [world.setting.initial];
  }

  lemma PlannedIsSent(world: World, cap: Option<nat>, calls: seq<Call>, pair: (string, string))
    requires world.rules == TheRules() && !MayPage(world.setting, world.pageLimit, cap)
    ensures pair in world.setting.initial.query ==> SendsThroughout(Run(world, cap, calls), pair)
    ensures world.pageLimit == 0 ==> SendsThroughout(Run(world, cap, calls), pair)
  {
    TheRulesAreSound();
    OneRequestOnly(world, cap, calls);
    RequestsFollowPages(world, cap, calls);
    RequestsAreBounded(world, cap, calls);
  }

  /**
   Beyond its first page no scan can rely on any pair: one is sent throughout, whatever the service
   answers, if and only if the scan makes no request, or it is planned and there is no second page.
   */
  lemma AlwaysSentExactly(s: Setting, p: Projector, first: nat, pageLimit: nat, cap: Option<nat>,
                          pair: (string, string))
    requires IsWebUrl(s.base) && IsRooted(s.table.responsePath)
    ensures AlwaysSent(s, p, first, pageLimit, cap, pair) <==>
      pageLimit == 0 || (pair in s.initial.query && !MayPage(s, pageLimit, cap))
  {
    var world := ServedBy(s, p, Linking(s), first, pageLimit);
    if pageLimit > 0 && MayPage(s, pageLimit, cap) {
      SecondRequestIsBare(s, p, first, pageLimit, cap);
      var w := Run(world, cap, [IterScan, IterScan]);
      assert w.sent[1] in w.sent && !SendsThroughout(w, pair);
    } else if pageLimit > 0 && pair !in s.initial.query {
      FirstIsSent(world, cap);
      assert s.initial in Run(world, cap, []).sent && !SendsThroughout(Run(world, cap, []), pair);
    } else {
      forall reply, calls
        ensures SendsThroughout(Run(ServedBy(s, p, reply, first, pageLimit), cap, calls), pair)
      {
        PlannedIsSent(ServedBy(s, p, reply, first, pageLimit), cap, calls, pair);
      }
    }
  }

  // ---------- the last page ----------

  /** A collection is complete when its last page has no rows, or neither body nor headers name a successor. */
  lemma CompleteSaysNoMore(world: World, pages: seq<Exchange>, token: PageToken)
    requires world.rules == TheRules() && Complete(world, pages)
    ensures var last := pages[|pages| - 1];
      || last.page.rows == [] || world.setting.table.pagination != AutoPages
      || !Successor(last.response.value, last.response.links, world.setting.table, token)
  {
    var last := pages[|pages| - 1];
    PageAt(world, pages, |pages| - 1);
    PageIsExact(last.response.value, last.response.links, world.setting.table, token);
  }

  /** What the collection goes on with: as long as a page names a successor, its request follows. */
  lemma PagesFollowSuccessors(world: World, pages: seq<Exchange>, i: nat)
    requires world.rules == TheRules() && Pagination(world, pages) && 0 < i < |pages|
    ensures var before, table := pages[i - 1], world.setting.table;
      exists token :: Successor(before.response.value, before.response.links, table, token)
        && FollowUp(world.setting, token, before.response.effectiveUrl) == Ok(pages[i].request)
  {
    PageAt(world, pages, i);
    PageAt(world, pages, i - 1);
    var before := pages[i - 1];
    assert pages[..i][|pages[..i]| - 1] == before;
    PageIsExact(before.response.value, before.response.links, world.setting.table, before.page.next.value);
  }
}
