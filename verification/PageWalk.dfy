/**
 The pages of a collection, and what a scan in progress keeps about them, for any rules that
 lead from page to page and any answers.
 */
module PageWalk {
  import opened Text
  import opened Json
  import opened Cells
  import opened Requests
  import opened Paging
  import opened TableOptions

  /** The answer to a request may also depend on how many requests were sent before it. */
  type Answers = (nat, HttpRequest) -> Result<HttpResponse>

  /** What the requests of a scan depend on, besides the page tokens. */
  datatype Setting = Setting(
    libraries: Libraries, allowCrossOrigin: bool, table: TableConfig, base: Url, initial: HttpRequest)

  datatype Column = Column(name: string, typeOid: int)

  /** `json_to_cell`: the conversion to a column's type. */
  type Converter = (Json, Column) -> Result<Cell>

  /** What the projection of a row depends on. */
  datatype Projector = Projector(
    table: TableConfig, columns: seq<Column>, injected: map<string, string>, convert: Converter)

  /** How a scan gets from page to page, and from a JSON row to a table row. */
  datatype ScanRules = ScanRules(
    follow: (Setting, PageToken, Url) -> Result<HttpRequest>,   // from a token, and the URL it was found at
    normalize: (HttpResponse, TableConfig) -> Result<Page>,
    project: (Projector, Json) -> Result<Row>,
    mayGoTo: (Setting, Url) -> bool)                            // where requests may be sent
  {
    ghost predicate Sound() {
      && (forall s: Setting :: mayGoTo(s, s.initial.url))
      && (forall s, token, current :: follow(s, token, current).Ok? ==> mayGoTo(s, follow(s, token, current).value.url))
      && (forall r, table :: normalize(r, table).Ok? && normalize(r, table).value.next.Some? ==>
            normalize(r, table).value.rows != [])
    }
  }

  /** Everything that determines what a scan does. */
  datatype World = World(
    rules: ScanRules,
    setting: Setting,
    projector: Projector,
    reply: Answers,
    first: nat,        // how many requests were sent before the scan
    pageLimit: nat)

  datatype Exchange = Exchange(request: HttpRequest, response: HttpResponse, page: Page)

  // ---------- the pages of the collection ----------

  /** `e` is the next exchange: the right request, the service's answer, and its page. */
  predicate Continues(world: World, trace: seq<Exchange>, e: Exchange) {
    && (trace == [] ==> e.request == world.setting.initial)
    && (trace != [] ==>
          var last := trace[|trace| - 1];
          && last.page.next.Some?
          && world.rules.follow(world.setting, last.page.next.value, last.response.effectiveUrl) == Ok(e.request))
    && world.reply(world.first + |trace|, e.request) == Ok(e.response)
    && world.rules.normalize(e.response, world.setting.table) == Ok(e.page)
  }

  /** The first pages of the collection, each found through the one before. */
  predicate Pagination(world: World, trace: seq<Exchange>) {
    trace == [] ||
    var n := |trace| - 1;
    Pagination(world, trace[..n]) && Continues(world, trace[..n], trace[n])
  }

  function AllRows(trace: seq<Exchange>): seq<Json> {
    if trace == [] then [] else AllRows(trace[..|trace| - 1]) + trace[|trace| - 1].page.rows
  }

  /** The pages do not depend on when they are asked for. */
  lemma {:induction false} PaginationIsDetermined(world: World, a: seq<Exchange>, b: seq<Exchange>)
    requires Pagination(world, a) && Pagination(world, b) && |a| <= |b|
    ensures a <= b
    decreases |b|
  {
    if a != [] {
      var n := |b| - 1;
      if |a| == |b| {
        PaginationIsDetermined(world, a[..n], b[..n]);
        assert a[..n] == b[..n];
        assert a == a[..n] + [a[n]] && b == b[..n] + [b[n]];
      } else {
        PaginationIsDetermined(world, a, b[..n]);
      }
    }
  }

  lemma {:induction false} AllRowsPrefix(a: seq<Exchange>, b: seq<Exchange>)
    requires a <= b
    ensures AllRows(a) <= AllRows(b)
    decreases |b|
  {
    if a != b {
      assert a <= b[..|b| - 1];
      AllRowsPrefix(a, b[..|b| - 1]);
    }
  }

  /** Every page that has a successor holds at least one row. */
  lemma {:induction false} PagesHaveRows(world: World, trace: seq<Exchange>)
    requires world.rules.Sound() && Pagination(world, trace)
    ensures |AllRows(trace)| >= |trace| - 1
    ensures trace != [] && trace[|trace| - 1].page.next.Some? ==> |AllRows(trace)| >= |trace|
    decreases |trace|
  {
    if trace != [] {
      PagesHaveRows(world, trace[..|trace| - 1]);
    }
  }

  // ---------- tokens and destinations ----------

  function Tokens(trace: seq<Exchange>): set<PageToken> {
    if trace == [] then {}
    else
      var next := trace[|trace| - 1].page.next;
      Tokens(trace[..|trace| - 1]) + if next.Some? then {next.value} else {}
  }

  /** No token is ever followed twice. */
  predicate TokensDistinct(trace: seq<Exchange>) {
    trace == [] ||
    var front, next := trace[..|trace| - 1], trace[|trace| - 1].page.next;
    TokensDistinct(front) && (next.Some? ==> next.value !in Tokens(front))
  }

  lemma {:induction false} TokenIn(trace: seq<Exchange>, i: nat)
    requires i < |trace| && trace[i].page.next.Some?
    ensures trace[i].page.next.value in Tokens(trace)
  {
    if i < |trace| - 1 {
      TokenIn(trace[..|trace| - 1], i);
    }
  }

  /** What distinctness means position by position. */
  lemma {:induction false} TokensDiffer(trace: seq<Exchange>, i: nat, j: nat)
    requires TokensDistinct(trace) && i < j < |trace|
    requires trace[i].page.next.Some? && trace[j].page.next.Some?
    ensures trace[i].page.next != trace[j].page.next
  {
    if j < |trace| - 1 {
      TokensDiffer(trace[..|trace| - 1], i, j);
    } else {
      TokenIn(trace[..j], i);
    }
  }

  // ---------- a scan in progress ----------

  function Project(world: World, sources: seq<Json>): (r: seq<Result<Row>>)
    ensures |r| == |sources|
  {
    if sources == [] then []
    else Project(world, sources[..|sources| - 1]) + [world.rules.project(world.projector, sources[|sources| - 1])]
  }

  /** The state of a scan, with its history. */
  datatype Walk = Walk(
    next: Option<PageToken>,
    currentUrl: Option<Url>,
    seenTokens: set<PageToken>,
    rows: seq<Json>,
    rowIndex: nat,
    pagesFetched: nat,
    maximumRows: Option<nat>,
    sent: seq<HttpRequest>,       // the requests of this scan
    trace: seq<Exchange>,         // the exchanges whose rows are buffered
    answers: seq<Result<Row>>,    // the rows answered since the scan began or was rewound
    lost: bool)                   // a fetch has failed, or none has been made
  {
    /** The last page fetched has no successor. */
    predicate Exhausted() {
      trace != [] && trace[|trace| - 1].page.next.None?
    }

    predicate AtCap() {
      maximumRows.Some? && rowIndex >= maximumRows.value
    }
  }

  function Initial(cap: Option<nat>): Walk {
    Walk(None, None, {}, [], 0, 0, cap, [], [], [], true)
  }

  /** One fetch. The token is taken before anything can fail, but not when the page limit is reached. */
  function Fetch(world: World, w: Walk): (Walk, Result<()>) {
    if w.pagesFetched >= world.pageLimit then (w, Err(Response))
    else
      var taken := w.(next := None, lost := true);
      var current := if w.currentUrl.Some? then w.currentUrl.value else world.setting.initial.url;
      var request := if w.next.Some? then world.rules.follow(world.setting, w.next.value, current)
        else Ok(world.setting.initial);
      if request.Err? then (taken, Err(request.error)) else Send(world, taken, request.value)
  }

  function Send(world: World, w: Walk, request: HttpRequest): (Walk, Result<()>) {
    var asked := w.(sent := w.sent + [request]);
    var response := world.reply(world.first + |w.sent|, request);
    if response.Err? then (asked, Err(response.error))
    else
      var answered := asked.(currentUrl := Some(response.value.effectiveUrl));
      var page := world.rules.normalize(response.value, world.setting.table);
      if page.Err? then (answered, Err(page.error))
      else Absorb(answered, Exchange(request, response.value, page.value))
  }

  /** Buffers a page, unless its token was seen before. */
  function Absorb(w: Walk, e: Exchange): (Walk, Result<()>) {
    var counted := w.(pagesFetched := w.pagesFetched + 1);
    if e.page.next.Some? && e.page.next.value in w.seenTokens then (counted, Err(Response))
    else
      (counted.(
         next := e.page.next,
         seenTokens := w.seenTokens + if e.page.next.Some? then {e.page.next.value} else {},
         rows := w.rows + e.page.rows,
         trace := w.trace + [e],
         lost := false),
       Ok(()))
  }

  /** Answers the next buffered row. */
  function Answer(world: World, w: Walk): (Walk, Result<Option<Row>>)
    requires w.rowIndex < |w.rows|
  {
    var row := world.rules.project(world.projector, w.rows[w.rowIndex]);
    (w.(rowIndex := w.rowIndex + 1, answers := w.answers + [row]),
     match row case Ok(value) => Ok(Some(value)) case Err(e) => Err(e))
  }

  /** One request for a row: at most one page is fetched, and only when the buffer is used up. */
  function Iterate(world: World, w: Walk): (Walk, Result<Option<Row>>) {
    if w.AtCap() then (w, Ok(None))
    else if w.rowIndex < |w.rows| then Answer(world, w)
    else if w.next.None? then (w, Ok(None))
    else
      var (after, fetched) := Fetch(world, w);
      if fetched.Err? then (after, Err(fetched.error))
      else if after.rowIndex < |after.rows| then Answer(world, after)
      else (after, Ok(None))
  }

  /** After a successful fetch the same row is still to be answered, or there is none. */
  lemma IterateAfterFetch(world: World, w: Walk)
    requires world.rules.Sound() && !w.AtCap() && w.rowIndex == |w.rows| && w.next.Some? && Fetch(world, w).1.Ok?
    ensures var after := Fetch(world, w).0;
      && Iterate(world, after) == Iterate(world, w)
      && (after.next.Some? ==> |after.rows| > |w.rows|)
  {
  }

  function Rewind(w: Walk): Walk {
    w.(rowIndex := 0, answers := [])
  }

  // ---------- runs ----------

  datatype Call = IterScan | ReScan

  function Apply(world: World, w: Walk, call: Call): Walk {
    match call
    case IterScan => Iterate(world, w).0
    case ReScan => Rewind(w)
  }

  /** The state after a scan was begun and then called in any way. */
  function Run(world: World, cap: Option<nat>, calls: seq<Call>): Walk {
    if calls == [] then Fetch(world, Initial(cap)).0
    else Apply(world, Run(world, cap, calls[..|calls| - 1]), calls[|calls| - 1])
  }

  /** No call of the run returned an error. */
  predicate Clean(world: World, cap: Option<nat>, calls: seq<Call>) {
    if calls == [] then Fetch(world, Initial(cap)).1.Ok?
    else
      var front, last := calls[..|calls| - 1], calls[|calls| - 1];
      Clean(world, cap, front) && (last == IterScan ==> Iterate(world, Run(world, cap, front)).1.Ok?)
  }

  // ---------- what every run keeps ----------

  function Max(a: nat, b: nat): nat {
    if a < b then b else a
  }

  predicate StaysHome(world: World, sent: seq<HttpRequest>) {
    sent == [] || (world.rules.mayGoTo(world.setting, sent[|sent| - 1].url) && StaysHome(world, sent[..|sent| - 1]))
  }

  /** The answers so far are the projections of the first buffered rows. */
  predicate Buffered(world: World, w: Walk) {
    && w.rows == AllRows(w.trace)
    && w.rowIndex <= |w.rows|
    && (w.maximumRows.Some? ==> w.rowIndex <= w.maximumRows.value)
    && w.answers == Project(world, w.rows[..w.rowIndex])
  }

  /** The trace is a pagination of the remote collection, and `next` continues it. */
  predicate Fetching(world: World, w: Walk) {
    && Pagination(world, w.trace)
    && w.seenTokens == Tokens(w.trace) && TokensDistinct(w.trace)
    && (if w.lost then w.next.None? && !w.Exhausted() else
          && w.trace != []
          && w.next == w.trace[|w.trace| - 1].page.next
          && w.currentUrl == Some(w.trace[|w.trace| - 1].response.effectiveUrl)
          && w.pagesFetched == |w.sent| == |w.trace|)
  }

  /** Requests are bounded by the page limit and by the row cap, and go where they may. */
  predicate Bounded(world: World, w: Walk) {
    && |w.trace| <= w.pagesFetched <= |w.sent| <= world.pageLimit
    && (w.maximumRows.Some? ==> |w.sent| <= Max(1, w.maximumRows.value))
    && StaysHome(world, w.sent)
  }

  predicate Good(world: World, w: Walk) {
    Buffered(world, w) && Fetching(world, w) && Bounded(world, w)
  }

  lemma AnswerKeepsGood(world: World, w: Walk)
    requires Good(world, w) && w.rowIndex < |w.rows| && !w.AtCap()
    ensures Good(world, Answer(world, w).0)
  {
    assert w.rows[..w.rowIndex + 1][..w.rowIndex] == w.rows[..w.rowIndex];
  }

  /** The first fetch, or a later one when the buffer is used up below the cap. */
  predicate MayFetch(w: Walk) {
    w == Initial(w.maximumRows) || (w.next.Some? && !w.AtCap() && w.rowIndex == |w.rows|)
  }

  /** The request that a fetch makes. */
  function Wanted(world: World, w: Walk): Result<HttpRequest> {
    if w.next.Some? then
      var current := if w.currentUrl.Some? then w.currentUrl.value else world.setting.initial.url;
      world.rules.follow(world.setting, w.next.value, current)
    else Ok(world.setting.initial)
  }

  /** A successful fetch appends one exchange. */
  predicate Extended(world: World, w: Walk, after: Walk, e: Exchange) {
    && Wanted(world, w) == Ok(e.request)
    && world.reply(world.first + |w.sent|, e.request) == Ok(e.response)
    && world.rules.normalize(e.response, world.setting.table) == Ok(e.page)
    && (e.page.next.Some? ==> e.page.next.value !in w.seenTokens)
    && after == w.(next := e.page.next,
                   currentUrl := Some(e.response.effectiveUrl),
                   seenTokens := w.seenTokens + if e.page.next.Some? then {e.page.next.value} else {},
                   rows := w.rows + e.page.rows,
                   pagesFetched := w.pagesFetched + 1,
                   sent := w.sent + [e.request],
                   trace := w.trace + [e],
                   lost := false)
  }

  /** A failed fetch keeps what is buffered, and no further page can be reached. */
  predicate Failed(world: World, w: Walk, after: Walk) {
    && after == w.(next := None, lost := true,
                   sent := after.sent, pagesFetched := after.pagesFetched, currentUrl := after.currentUrl)
    && (after.sent == w.sent || (Wanted(world, w).Ok? && after.sent == w.sent + [Wanted(world, w).value]))
    && (after.pagesFetched == w.pagesFetched || (after.sent != w.sent && after.pagesFetched == w.pagesFetched + 1))
  }

  lemma FetchOutcome(world: World, w: Walk)
    ensures var (after, r) := Fetch(world, w);
      if w.pagesFetched >= world.pageLimit then after == w && r.Err?
      else if r.Ok? then |after.trace| == |w.trace| + 1 && Extended(world, w, after, after.trace[|w.trace|])
      else Failed(world, w, after)
  {
  }

  lemma ExtendedIsBuffered(world: World, w: Walk, after: Walk, e: Exchange)
    requires Buffered(world, w) && Extended(world, w, after, e)
    ensures Buffered(world, after)
  {
    assert after.trace[..|w.trace|] == w.trace;
    assert after.rows[..w.rowIndex] == w.rows[..w.rowIndex];
  }

  lemma ExtendedIsFetching(world: World, w: Walk, after: Walk, e: Exchange)
    requires Fetching(world, w) && MayFetch(w) && Extended(world, w, after, e)
    ensures Fetching(world, after)
  {
    assert after.trace[..|w.trace|] == w.trace;
  }

  lemma ExtendedIsBounded(world: World, w: Walk, after: Walk, e: Exchange)
    requires world.rules.Sound() && Good(world, w) && MayFetch(w) && w.pagesFetched < world.pageLimit
    requires Extended(world, w, after, e)
    ensures Bounded(world, after)
  {
    RoomForARequest(world, w);
    assert after.sent[..|w.sent|] == w.sent;
  }

  lemma ExtendedIsGood(world: World, w: Walk, after: Walk, e: Exchange)
    requires world.rules.Sound() && Good(world, w) && MayFetch(w) && w.pagesFetched < world.pageLimit
    requires Extended(world, w, after, e)
    ensures Good(world, after)
  {
    ExtendedIsBuffered(world, w, after, e);
    ExtendedIsFetching(world, w, after, e);
    ExtendedIsBounded(world, w, after, e);
  }

  lemma FailedIsFetching(world: World, w: Walk, after: Walk)
    requires Fetching(world, w) && MayFetch(w) && Failed(world, w, after)
    ensures Fetching(world, after)
  {
  }

  /** Where a fetch is made, another request is within the bounds. */
  lemma RoomForARequest(world: World, w: Walk)
    requires world.rules.Sound() && Good(world, w) && MayFetch(w) && w.pagesFetched < world.pageLimit
    ensures |w.sent| == w.pagesFetched
    ensures w.maximumRows.Some? ==> |w.sent| + 1 <= Max(1, w.maximumRows.value)
    ensures Wanted(world, w).Ok? ==> world.rules.mayGoTo(world.setting, Wanted(world, w).value.url)
  {
    PagesHaveRows(world, w.trace);
  }

  lemma FailedIsBounded(world: World, w: Walk, after: Walk)
    requires world.rules.Sound() && Good(world, w) && MayFetch(w) && w.pagesFetched < world.pageLimit
    requires Failed(world, w, after)
    ensures Bounded(world, after)
  {
    RoomForARequest(world, w);
    if after.sent != w.sent {
      assert after.sent[..|w.sent|] == w.sent;
    }
  }

  lemma FailedIsGood(world: World, w: Walk, after: Walk)
    requires world.rules.Sound() && Good(world, w) && MayFetch(w) && w.pagesFetched < world.pageLimit
    requires Failed(world, w, after)
    ensures Good(world, after)
  {
    FailedIsFetching(world, w, after);
    FailedIsBounded(world, w, after);
  }

  lemma FetchKeepsGood(world: World, w: Walk)
    requires world.rules.Sound() && Good(world, w) && MayFetch(w)
    ensures Good(world, Fetch(world, w).0)
  {
    FetchOutcome(world, w);
    var (after, r) := Fetch(world, w);
    if w.pagesFetched < world.pageLimit {
      if r.Ok? {
        ExtendedIsGood(world, w, after, after.trace[|w.trace|]);
      } else {
        FailedIsGood(world, w, after);
      }
    }
  }

  lemma FetchKeepsPosition(world: World, w: Walk)
    ensures Fetch(world, w).0.rowIndex == w.rowIndex && Fetch(world, w).0.maximumRows == w.maximumRows
  {
  }

  /** The states an iteration can lead to. */
  lemma IterateSteps(world: World, w: Walk)
    ensures var after := Fetch(world, w).0;
      Iterate(world, w).0 ==
        if w.AtCap() then w
        else if w.rowIndex < |w.rows| then Answer(world, w).0
        else if w.next.None? then w
        else if Fetch(world, w).1.Ok? && after.rowIndex < |after.rows| then Answer(world, after).0
        else after
  {
  }

  lemma IterateKeepsGood(world: World, w: Walk)
    requires world.rules.Sound() && Good(world, w)
    ensures Good(world, Iterate(world, w).0)
  {
    IterateSteps(world, w);
    if !w.AtCap() {
      if w.rowIndex < |w.rows| {
        AnswerKeepsGood(world, w);
      } else if w.next.Some? {
        FetchKeepsGood(world, w);
        FetchKeepsPosition(world, w);
        var after := Fetch(world, w).0;
        if after.rowIndex < |after.rows| {
          AnswerKeepsGood(world, after);
        }
      }
    }
  }

  lemma RewindKeepsGood(world: World, w: Walk)
    requires Good(world, w)
    ensures Good(world, Rewind(w))
  {
  }

  lemma InitialIsGood(world: World, cap: Option<nat>)
    ensures Good(world, Initial(cap))
  {
  }

  /** Every reachable state is good. */
  lemma {:induction false} RunIsGood(world: World, cap: Option<nat>, calls: seq<Call>)
    requires world.rules.Sound()
    ensures Good(world, Run(world, cap, calls))
  {
    if calls == [] {
      InitialIsGood(world, cap);
      FetchKeepsGood(world, Initial(cap));
    } else {
      var w := Run(world, cap, calls[..|calls| - 1]);
      RunIsGood(world, cap, calls[..|calls| - 1]);
      IterateKeepsGood(world, w);
      RewindKeepsGood(world, w);
    }
  }

  // ---------- what the caller sees ----------

  /** The whole collection: a pagination whose last page has no successor. */
  predicate Complete(world: World, pages: seq<Exchange>) {
    pages != [] && Pagination(world, pages) && pages[|pages| - 1].page.next.None?
  }

  lemma {:induction false} ProjectPrefix(world: World, sources: seq<Json>, n: nat)
    requires n <= |sources|
    ensures Project(world, sources)[..n] == Project(world, sources[..n])
  {
    if n < |sources| {
      ProjectPrefix(world, sources[..|sources| - 1], n);
      assert sources[..|sources| - 1][..n] == sources[..n];
    } else {
      assert sources[..n] == sources;
    }
  }

  /**
   After any calls, what was answered since the scan began or was rewound is a prefix of the
   projected rows of the collection, whichever way its pages are enumerated.
   */
  lemma AnswersArePrefix(world: World, cap: Option<nat>, calls: seq<Call>, pages: seq<Exchange>)
    requires world.rules.Sound() && Pagination(world, pages)
    requires |Run(world, cap, calls).trace| <= |pages| || Complete(world, pages)
    ensures var w := Run(world, cap, calls);
      && w.trace <= pages
      && w.answers <= Project(world, AllRows(pages))
      && |w.answers| == w.rowIndex
  {
    var w := Run(world, cap, calls);
    RunIsGood(world, cap, calls);
    if |w.trace| <= |pages| {
      PaginationIsDetermined(world, w.trace, pages);
    } else {
      NothingAfterComplete(world, pages, w.trace);
    }
    AllRowsPrefix(w.trace, pages);
    ProjectPrefix(world, AllRows(pages), w.rowIndex);
    assert AllRows(pages)[..w.rowIndex] == w.rows[..w.rowIndex];
  }

  /** No pagination goes past the last page. */
  lemma {:induction false} NothingAfterComplete(world: World, pages: seq<Exchange>, longer: seq<Exchange>)
    requires Complete(world, pages) && Pagination(world, longer)
    ensures |longer| <= |pages|
    decreases |longer|
  {
    if |longer| > |pages| {
      var n := |longer| - 1;
      NothingAfterComplete(world, pages, longer[..n]);
      PaginationIsDetermined(world, longer[..n], pages);
    }
  }

  /** A call that has to fetch, below the page limit, and cannot. */
  predicate FetchFails(world: World, w: Walk) {
    && !w.AtCap() && w.rowIndex >= |w.rows| && w.next.Some?
    && w.pagesFetched < world.pageLimit && Fetch(world, w).1.Err?
  }

  /** The fetch of the first page, or one of a later call, has failed. */
  predicate FetchFailed(world: World, cap: Option<nat>, calls: seq<Call>) {
    if calls == [] then Fetch(world, Initial(cap)).1.Err?
    else
      var front := calls[..|calls| - 1];
      || FetchFailed(world, cap, front)
      || (calls[|calls| - 1] == IterScan && FetchFails(world, Run(world, cap, front)))
  }

  lemma LostByFetchOnly(world: World, w: Walk)
    requires w.lost ==> w.next.None?
    ensures var after := Iterate(world, w).0;
      && (after.lost <==> w.lost || FetchFails(world, w))
      && (after.lost ==> after.next.None?)
      && (FetchFails(world, w) ==> Iterate(world, w).1.Err?)
  {
    FetchOutcome(world, w);
  }

  /** A page is lost exactly when some fetch below the page limit returned an error. */
  lemma {:induction false} LostMeansFetchFailed(world: World, cap: Option<nat>, calls: seq<Call>)
    ensures Run(world, cap, calls).lost <==> FetchFailed(world, cap, calls)
    ensures Run(world, cap, calls).lost ==> Run(world, cap, calls).next.None?
  {
    if calls == [] {
      FetchOutcome(world, Initial(cap));
    } else {
      LostMeansFetchFailed(world, cap, calls[..|calls| - 1]);
      LostByFetchOnly(world, Run(world, cap, calls[..|calls| - 1]));
    }
  }

  /**
   Below the row cap, the end of the scan is answered when every buffered row was; the
   collection is then incomplete exactly when an earlier fetch returned an error.
   */
  lemma EndOfScan(world: World, cap: Option<nat>, calls: seq<Call>)
    requires world.rules.Sound() && Iterate(world, Run(world, cap, calls)).1 == Ok(None)
    ensures var w := Run(world, cap, calls + [IterScan]);
      w.AtCap() || (w.rowIndex == |w.rows| && (FetchFailed(world, cap, calls) <==> !Complete(world, w.trace)))
  {
    RunIsGood(world, cap, calls);
    LostMeansFetchFailed(world, cap, calls);
    LostByFetchOnly(world, Run(world, cap, calls));
    EndOfIterate(world, Run(world, cap, calls));
    assert (calls + [IterScan])[..|calls|] == calls;
  }

  /** After a failed fetch the next call ends the scan, although the collection goes on. */
  lemma FailedFetchEndsTheScan(world: World, cap: Option<nat>, calls: seq<Call>)
    requires world.rules.Sound() && FetchFails(world, Run(world, cap, calls))
    ensures var w := Run(world, cap, calls + [IterScan]);
      && Iterate(world, Run(world, cap, calls)).1.Err?
      && Iterate(world, w).1 == Ok(None) && !w.AtCap() && !Complete(world, w.trace)
  {
    RunIsGood(world, cap, calls);
    assert (calls + [IterScan])[..|calls|] == calls;
    FailureEndsTheWalk(world, Run(world, cap, calls));
  }

  lemma FailureEndsTheWalk(world: World, w: Walk)
    requires Good(world, w) && FetchFails(world, w)
    ensures var after := Iterate(world, w).0;
      && Iterate(world, w).1.Err?
      && Iterate(world, after).1 == Ok(None) && !after.AtCap() && !Complete(world, after.trace)
  {
    FetchOutcome(world, w);
  }

  /** For instance: the first page holds one row and a token, and the second cannot be had. */
  lemma SecondPageFails(world: World, response: HttpResponse, row: Json, token: PageToken)
    requires world.rules.Sound() && world.pageLimit >= 2
    requires world.reply(world.first, world.setting.initial) == Ok(response)
    requires world.rules.normalize(response, world.setting.table) == Ok(Page([row], Some(token)))
    requires world.rules.follow(world.setting, token, response.effectiveUrl).Err?
    ensures FetchFails(world, Run(world, None, [IterScan]))
    ensures Iterate(world, Run(world, None, [IterScan, IterScan])).1 == Ok(None)
    ensures !Complete(world, Run(world, None, [IterScan, IterScan]).trace)
  {
    assert [IterScan][..0] == [] && [IterScan] + [IterScan] == [IterScan, IterScan];
    var w := Run(world, None, []);
    assert w.rows == [row] && w.next == Some(token) && w.rowIndex == 0;
    assert Run(world, None, [IterScan]) == Answer(world, w).0;
    FailedFetchEndsTheScan(world, None, [IterScan]);
  }

  lemma EndShape(world: World, w: Walk)
    requires world.rules.Sound() && w.rowIndex <= |w.rows| && Iterate(world, w).1 == Ok(None)
    ensures var after := Iterate(world, w).0;
      after.AtCap() || (after.rowIndex >= |after.rows| && after.next.None?)
  {
  }

  lemma EndOfIterate(world: World, w: Walk)
    requires world.rules.Sound() && Good(world, w) && Iterate(world, w).1 == Ok(None)
    ensures var after := Iterate(world, w).0;
      after.AtCap() || (after.rowIndex == |after.rows| && (after.lost <==> !Complete(world, after.trace)))
  {
    IterateKeepsGood(world, w);
    EndShape(world, w);
    var after := Iterate(world, w).0;
    assert Good(world, after);
  }

  /** In a run whose calls all succeeded no fetch has failed. */
  lemma {:induction false} CleanRunLosesNothing(world: World, cap: Option<nat>, calls: seq<Call>)
    requires Clean(world, cap, calls)
    ensures !FetchFailed(world, cap, calls)
  {
    if calls != [] {
      CleanRunLosesNothing(world, cap, calls[..|calls| - 1]);
      FetchOutcome(world, Run(world, cap, calls[..|calls| - 1]));
    }
  }

  lemma AnsweredToTheEnd(world: World, w: Walk)
    requires Buffered(world, w) && (w.AtCap() || (w.rowIndex == |w.rows| && Complete(world, w.trace)))
    ensures if w.maximumRows.Some? && |w.answers| >= w.maximumRows.value then |w.answers| == w.maximumRows.value
      else Complete(world, w.trace) && w.answers == Project(world, AllRows(w.trace))
  {
    assert w.rows[..|w.rows|] == w.rows;
  }

  /**
   No silent truncation: a clean run that is answered the end of the scan has answered the
   whole collection, or as many of its rows as the cap allows.
   */
  lemma CleanEndIsComplete(world: World, cap: Option<nat>, calls: seq<Call>)
    requires world.rules.Sound() && Clean(world, cap, calls)
    requires Iterate(world, Run(world, cap, calls)).1 == Ok(None)
    ensures var w := Run(world, cap, calls + [IterScan]);
      if cap.Some? && |w.answers| >= cap.value then |w.answers| == cap.value
      else Complete(world, w.trace) && w.answers == Project(world, AllRows(w.trace))
  {
    CleanRunLosesNothing(world, cap, calls);
    EndOfScan(world, cap, calls);
    RunIsGood(world, cap, calls + [IterScan]);
    CapIsKept(world, cap, calls + [IterScan]);
    AnsweredToTheEnd(world, Run(world, cap, calls + [IterScan]));
  }

  lemma {:induction false} CapIsKept(world: World, cap: Option<nat>, calls: seq<Call>)
    ensures Run(world, cap, calls).maximumRows == cap
  {
    if calls == [] {
      FetchOutcome(world, Initial(cap));
    } else {
      var w := Run(world, cap, calls[..|calls| - 1]);
      CapIsKept(world, cap, calls[..|calls| - 1]);
      FetchOutcome(world, w);
    }
  }

  lemma {:induction false} IndexStaysInBuffer(world: World, cap: Option<nat>, calls: seq<Call>)
    ensures Run(world, cap, calls).rowIndex <= |Run(world, cap, calls).rows|
  {
    if calls == [] {
      FetchOutcome(world, Initial(cap));
    } else {
      var w := Run(world, cap, calls[..|calls| - 1]);
      IndexStaysInBuffer(world, cap, calls[..|calls| - 1]);
      FetchOutcome(world, w);
    }
  }

  /** Over all calls and rewinds: bounded requests, to permitted places, never following a token twice. */
  lemma RequestsAreBounded(world: World, cap: Option<nat>, calls: seq<Call>)
    requires world.rules.Sound()
    ensures var w := Run(world, cap, calls);
      && |w.sent| <= world.pageLimit
      && (cap.Some? ==> |w.sent| <= Max(1, cap.value))
      && (forall request <- w.sent :: world.rules.mayGoTo(world.setting, request.url))
      && (forall i, j | 0 <= i < j < |w.trace| && w.trace[i].page.next.Some? ::
            w.trace[i].page.next != w.trace[j].page.next)
  {
    var w := Run(world, cap, calls);
    RunIsGood(world, cap, calls);
    CapIsKept(world, cap, calls);
    StaysHomeAll(world, w.sent);
    forall i, j | 0 <= i < j < |w.trace| && w.trace[i].page.next.Some?
      ensures w.trace[i].page.next != w.trace[j].page.next
    {
      if w.trace[j].page.next.Some? {
        TokensDiffer(w.trace, i, j);
      }
    }
  }

  /** The request that is made through page `i - 1`. */
  predicate Leads(world: World, trace: seq<Exchange>, i: nat, request: HttpRequest) {
    && 0 < i <= |trace| && trace[i - 1].page.next.Some?
    && var last := trace[i - 1];
       world.rules.follow(world.setting, last.page.next.value, last.response.effectiveUrl) == Ok(request)
  }

  /** The first request is the planned one, and each other is made through the page before it. */
  predicate Traced(world: World, w: Walk) {
    && (w.sent != [] ==> w.sent[0] == world.setting.initial)
    && forall i | 0 < i < |w.sent| :: Leads(world, w.trace, i, w.sent[i])
  }

  lemma LeadsFurther(world: World, trace: seq<Exchange>, longer: seq<Exchange>, i: nat, request: HttpRequest)
    requires trace <= longer && Leads(world, trace, i, request)
    ensures Leads(world, longer, i, request)
  {
  }

  lemma WantedLeads(world: World, w: Walk)
    requires Good(world, w) && MayFetch(w) && Wanted(world, w).Ok?
    ensures if w.sent == [] then Wanted(world, w).value == world.setting.initial
      else Leads(world, w.trace, |w.sent|, Wanted(world, w).value)
  {
  }

  lemma TracedFurther(world: World, w: Walk, after: Walk)
    requires Traced(world, w) && w.trace <= after.trace
    requires after.sent == w.sent || (
      && Wanted(world, w).Ok? && after.sent == w.sent + [Wanted(world, w).value]
      && if w.sent == [] then Wanted(world, w).value == world.setting.initial
         else Leads(world, w.trace, |w.sent|, Wanted(world, w).value))
    ensures Traced(world, after)
  {
    forall i | 0 < i < |after.sent|
      ensures Leads(world, after.trace, i, after.sent[i])
    {
      LeadsFurther(world, w.trace, after.trace, i, after.sent[i]);
    }
  }

  lemma FetchKeepsTraced(world: World, w: Walk)
    requires Good(world, w) && MayFetch(w) && Traced(world, w)
    ensures Traced(world, Fetch(world, w).0)
  {
    FetchOutcome(world, w);
    if Wanted(world, w).Ok? {
      WantedLeads(world, w);
    }
    TracedFurther(world, w, Fetch(world, w).0);
  }

  /** Over all calls and rewinds: which request was made for which page. */
  lemma {:induction false} RequestsFollowPages(world: World, cap: Option<nat>, calls: seq<Call>)
    requires world.rules.Sound()
    ensures Traced(world, Run(world, cap, calls))
  {
    if calls == [] {
      InitialIsGood(world, cap);
      FetchKeepsTraced(world, Initial(cap));
    } else {
      var w := Run(world, cap, calls[..|calls| - 1]);
      RequestsFollowPages(world, cap, calls[..|calls| - 1]);
      RunIsGood(world, cap, calls[..|calls| - 1]);
      IterateSteps(world, w);
      if !w.AtCap() && w.rowIndex == |w.rows| && w.next.Some? {
        FetchKeepsTraced(world, w);
      }
    }
  }

  /** A page behind which another request was made. */
  lemma {:induction false} PageAt(world: World, trace: seq<Exchange>, k: nat)
    requires Pagination(world, trace) && k < |trace|
    ensures Continues(world, trace[..k], trace[k])
    decreases |trace|
  {
    if k < |trace| - 1 {
      PageAt(world, trace[..|trace| - 1], k);
      assert trace[..|trace| - 1][..k] == trace[..k];
    }
  }

  lemma {:induction false} StaysHomeAll(world: World, sent: seq<HttpRequest>)
    requires StaysHome(world, sent)
    ensures forall request <- sent :: world.rules.mayGoTo(world.setting, request.url)
  {
    if sent != [] {
      StaysHomeAll(world, sent[..|sent| - 1]);
      assert sent == sent[..|sent| - 1] + [sent[|sent| - 1]];
    }
  }

  /** A call sends at most one request, and none while buffered rows remain. */
  lemma OneRequestPerCall(world: World, w: Walk)
    ensures var after := Iterate(world, w).0;
      && w.sent <= after.sent && |after.sent| <= |w.sent| + 1
      && (w.rowIndex < |w.rows| || w.AtCap() ==> after.sent == w.sent)
  {
    FetchOutcome(world, w);
  }

  /** Between rewinds a scan cannot go on answering rows for ever. */
  lemma AnsweringTerminates(world: World, w: Walk)
    requires w.rowIndex <= |w.rows| && Iterate(world, w).1.Ok? && Iterate(world, w).1.value.Some?
    ensures var after := Iterate(world, w).0;
      || (w.pagesFetched < after.pagesFetched <= world.pageLimit)
      || (after.pagesFetched == w.pagesFetched && 0 <= |after.rows| - after.rowIndex < |w.rows| - w.rowIndex)
  {
  }
}
