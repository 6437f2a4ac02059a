/**
 The scan of a foreign table (src/fdw.rs): a demand-driven walk over the pages of a remote
 collection, buffered so that it can be rewound. The remote service answers arbitrarily.
 */
module Scan {
  import opened Text
  import opened Json
  import opened Cells
  import opened TableOptions
  import opened PathSubstitution
  import opened Paging
  import opened RowMapping
  import opened Requests
  import opened PageWalk
  import opened ScanPlan

  /** The remote service, and the requests it has been sent. */
  class Remote {
    const reply: Answers
    var sent: seq<HttpRequest>

    constructor (reply: Answers)
      ensures this.reply == reply && sent == []
    {
      this.reply := reply;
      sent := [];
    }

    method ExecuteJson(request: HttpRequest) returns (r: Result<HttpResponse>)
      modifies this`sent
      ensures sent == old(sent) + [request] && r == reply(|old(sent)|, request)
    {
      r := reply(|sent|, request);
      sent := sent + [request];
    }
  }

  // ---------- the collection a table stands for ----------

  /** The request that follows a page token. */
  function FollowUp(s: Setting, token: PageToken, current: Url): Result<HttpRequest> {
    match token
    case UrlToken(raw) =>
      var url :- ResolvePageUrl(s.libraries, s.base, current, raw, s.allowCrossOrigin);
      Ok(s.initial.(url := url, query := []))
    case CursorToken(cursor) =>
      if s.table.cursorParam.None? then Err(Configuration)
      else Ok(s.initial.(query := SetQueryValue(s.initial.query, s.table.cursorParam.value, cursor)))
  }

  /** Credentials stay with the service: the first URL, and otherwise the base URL's origin. */
  predicate MayGoTo(s: Setting, url: Url) {
    s.allowCrossOrigin || url == s.initial.url || SameOrigin(s.base, url)
  }

  // ---------- projecting a row ----------

  function ProjectedValue(p: Projector, projected: Json, column: Column): Option<Json> {
    var value := ColumnValue(projected, column.name, p.table.columnMap);
    if value.Some? then value
    else if column.name in p.injected then Some(Str(p.injected[column.name]))
    else None
  }

  /** A value as a cell of a column: null is NULL, and so is a value that does not fit, if the table says so. */
  function ConvertedCell(p: Projector, value: Json, column: Column): Result<Option<Cell>> {
    if value.Null? then Ok(None)
    else match p.convert(value, column)
      case Ok(cell) => Ok(Some(cell))
      case Err(e) => if p.table.typeError == NullMode then Ok(None) else Err(e)
  }

  function ProjectedCell(p: Projector, source: Json, projected: Json, column: Column): Result<Option<Cell>> {
    if column.name == p.table.attrsColumn then Ok(Some(JsonB(source)))
    else
      var value := ProjectedValue(p, projected, column);
      if value.None? then Ok(None) else ConvertedCell(p, value.value, column)
  }

  function ProjectedCells(p: Projector, source: Json, projected: Json, columns: seq<Column>): Result<Row> {
    if columns == [] then Ok([])
    else
      var last := columns[|columns| - 1];
      var front :- ProjectedCells(p, source, projected, columns[..|columns| - 1]);
      var cell :- ProjectedCell(p, source, projected, last);
      Ok(front + [(last.name, cell)])
  }

  function ProjectedObject(p: Projector, source: Json): Option<Json> {
    if p.table.objectPath.Some? then ReadPointer(source, p.table.objectPath.value) else Some(source)
  }

  function RowOf(p: Projector, source: Json): Result<Row> {
    var projected := ProjectedObject(p, source);
    if projected.None? then Err(Response) else ProjectedCells(p, source, projected.value, p.columns)
  }

  /** A row has the cell of every column, under its name. */
  lemma {:induction false} RowHasCells(p: Projector, source: Json, projected: Json, columns: seq<Column>, k: nat)
    requires ProjectedCells(p, source, projected, columns).Ok? && k < |columns|
    ensures var row := ProjectedCells(p, source, projected, columns).value;
      && |row| == |columns|
      && row[k].0 == columns[k].name && ProjectedCell(p, source, projected, columns[k]) == Ok(row[k].1)
  {
    var front := columns[..|columns| - 1];
    RowIsLonger(p, source, projected, columns);
    if k < |front| {
      RowHasCells(p, source, projected, front, k);
    } else if |front| > 0 {
      RowHasCells(p, source, projected, front, 0);
    }
  }

  lemma RowIsLonger(p: Projector, source: Json, projected: Json, columns: seq<Column>)
    requires ProjectedCells(p, source, projected, columns).Ok? && columns != []
    ensures var front, last := ProjectedCells(p, source, projected, columns[..|columns| - 1]), columns[|columns| - 1];
      && front.Ok? && ProjectedCell(p, source, projected, last).Ok?
      && ProjectedCells(p, source, projected, columns).value
        == front.value + [(last.name, ProjectedCell(p, source, projected, last).value)]
  {
  }

  lemma {:induction false} FirstFailedColumn(p: Projector, source: Json, projected: Json, columns: seq<Column>, i: nat)
    requires i <= |columns| && ProjectedCells(p, source, projected, columns[..i]).Err?
    ensures ProjectedCells(p, source, projected, columns) == ProjectedCells(p, source, projected, columns[..i])
    decreases |columns|
  {
    if i < |columns| {
      assert columns[..|columns| - 1][..i] == columns[..i];
      FirstFailedColumn(p, source, projected, columns[..|columns| - 1], i);
    } else {
      assert columns[..i] == columns;
    }
  }

  method ProjectCell(p: Projector, source: Json, projected: Json, column: Column) returns (cell: Result<Option<Cell>>)
    ensures cell == ProjectedCell(p, source, projected, column)
  {
    if column.name == p.table.attrsColumn {
      return Ok(Some(JsonB(source)));
    }
    var value := ProjectedValue(p, projected, column);
    if value.None? || value.value.Null? {
      return Ok(None);
    }
    match p.convert(value.value, column) {
      case Ok(converted) => cell := Ok(Some(converted));
      case Err(e) => cell := if p.table.typeError == NullMode then Ok(None) else Err(e);
    }
  }

  lemma ProjectedStep(p: Projector, source: Json, projected: Json, columns: seq<Column>, i: nat, output: Row,
                      cell: Option<Cell>)
    requires i < |columns| && ProjectedCells(p, source, projected, columns[..i]) == Ok(output)
    requires ProjectedCell(p, source, projected, columns[i]) == Ok(cell)
    ensures ProjectedCells(p, source, projected, columns[..i + 1]) == Ok(output + [(columns[i].name, cell)])
  {
    assert columns[..i + 1][..i] == columns[..i];
  }

  lemma ProjectedFailure(p: Projector, source: Json, projected: Json, columns: seq<Column>, i: nat, output: Row,
                         error: Error)
    requires i < |columns| && ProjectedCells(p, source, projected, columns[..i]) == Ok(output)
    requires ProjectedCell(p, source, projected, columns[i]) == Err(error)
    ensures ProjectedCells(p, source, projected, columns) == Err(error)
  {
    assert columns[..i + 1][..i] == columns[..i];
    FirstFailedColumn(p, source, projected, columns, i + 1);
  }

  /** `project_row`. */
  method ProjectRow(p: Projector, source: Json) returns (r: Result<Row>)
    ensures r == RowOf(p, source)
  {
    var projected := ProjectedObject(p, source);
    if projected.None? {
      return Err(Response);
    }
    var output: Row := [];
    for i := 0 to |p.columns|
      invariant ProjectedCells(p, source, projected.value, p.columns[..i]) == Ok(output)
    {
      var cell := ProjectCell(p, source, projected.value, p.columns[i]);
      if cell.Err? {
        ProjectedFailure(p, source, projected.value, p.columns, i, output, cell.error);
        return Err(cell.error);
      }
      ProjectedStep(p, source, projected.value, p.columns, i, output, cell.value);
      output := output + [(p.columns[i].name, cell.value)];
    }
    assert p.columns[..|p.columns|] == p.columns;
    r := Ok(output);
  }

  /** In a lookup, a row without the column's property answers the value the column is pinned to. */
  lemma PinnedColumnAnswers(p: Projector, template: string, quals: seq<Qual>, projected: Json, column: Column)
    returns (i: nat)
    requires p.injected == Substituted(template, EqualityValues(quals)).injected && column.name in p.injected
    requires ColumnValue(projected, column.name, p.table.columnMap).None?
    ensures Pins(quals, i, Lowercase(column.name)) && forall j: nat | i < j :: !Pins(quals, j, Lowercase(column.name))
    ensures ProjectedValue(p, projected, column) == Some(Str(QualValue(quals[i]).value))
  {
    i := InjectedIsPinned(template, quals, column.name);
  }

  // ---------- the rules of a scan ----------

  /** The rules of the wrapper: `resolve_page_url`, `cursor_param`, `normalize_page` and `project_row`. */
  function TheRules(): ScanRules {
    ScanRules(
      (s, token, current) => FollowUp(s, token, current),
      (r: HttpResponse, table) => NormalizePage(r.value, r.links, table),
      (p, source) => RowOf(p, source),
      (s, url) => MayGoTo(s, url))
  }

  lemma TheRulesAreSound()
    ensures TheRules().Sound()
  {
  }

  // ---------- the wrapper ----------

  predicate SameRun(before: History, after: History) {
    after.scanning == before.scanning && after.first == before.first && after.calls == before.calls
  }

  /** The service's log grows by what the scan records, at most one request. */
  predicate SameLog(sent: seq<HttpRequest>, sent': seq<HttpRequest>, requests: seq<HttpRequest>,
                    requests': seq<HttpRequest>) {
    || (sent' == sent && requests' == requests)
    || (requests' != [] && sent' == sent + [requests'[|requests'| - 1]])
  }

  /** What a scan remembers of itself for its specification. */
  datatype History = History(
    scanning: bool,                // between begin_scan and end_scan
    first: nat,                    // how many requests were sent before the scan
    calls: seq<Call>,              // the calls since the scan began
    requests: seq<HttpRequest>,    // the requests of the scan
    trace: seq<Exchange>,          // the exchanges whose rows are buffered
    answers: seq<Result<Row>>,     // the rows answered since the scan began or was rewound
    lost: bool)                    // a fetch has failed, or none has been made

  class OpenApiFdw {
    const rules: ScanRules
    const libraries: Libraries
    const convert: Converter
    const allowCrossOrigin: bool
    const serverMaxPages: nat
    const remote: Remote

    var table: Option<TableConfig>
    var columns: seq<Column>
    var baseUrl: Option<Url>
    var initialRequest: Option<HttpRequest>
    var currentUrl: Option<Url>
    var next: Option<PageToken>
    var seenTokens: set<PageToken>
    var rows: seq<Json>
    var rowIndex: nat
    var pagesFetched: nat
    var maximumRows: Option<nat>
    var injected: map<string, string>

    ghost var history: History

    constructor (libraries: Libraries, convert: Converter, allowCrossOrigin: bool, serverMaxPages: nat, remote: Remote)
      ensures Valid() && !history.scanning && rules.Sound()
      ensures rules == TheRules() && this.libraries == libraries && this.convert == convert && this.remote == remote
      ensures this.allowCrossOrigin == allowCrossOrigin && this.serverMaxPages == serverMaxPages
    {
      TheRulesAreSound();
      this.rules, this.libraries, this.convert := TheRules(), libraries, convert;
      this.allowCrossOrigin, this.serverMaxPages := allowCrossOrigin, serverMaxPages;
      this.remote := remote;
      table, columns, baseUrl, initialRequest, currentUrl, next := None, [], None, None, None, None;
      seenTokens, rows, rowIndex, pagesFetched, maximumRows, injected := {}, [], 0, 0, None, map[];
      history := History(false, |remote.sent|, [], [], [], [], true);
    }

    // ----- what the fields mean -----

    function PageLimit(): nat
      reads this
      requires table.Some?
    {
      if table.value.maxPages.Some? then table.value.maxPages.value else serverMaxPages
    }

    function TheSetting(): Setting
      reads this
      requires table.Some? && baseUrl.Some? && initialRequest.Some?
    {
      Setting(libraries, allowCrossOrigin, table.value, baseUrl.value, initialRequest.value)
    }

    function TheProjector(): Projector
      reads this
      requires table.Some?
    {
      Projector(table.value, columns, injected, convert)
    }

    ghost function TheWorld(): World
      reads this
      requires table.Some? && baseUrl.Some? && initialRequest.Some?
    {
      World(rules, TheSetting(), TheProjector(), remote.reply, history.first, PageLimit())
    }

    ghost function TheWalk(): Walk
      reads this
    {
      Walk(next, currentUrl, seenTokens, rows, rowIndex, pagesFetched, maximumRows,
           history.requests, history.trace, history.answers, history.lost)
    }

    /** The service has been sent as many requests as the scan and its predecessors have made. */
    ghost predicate Logged()
      reads this, remote
    {
      |remote.sent| == history.first + |history.requests|
    }

    /** Nothing is to be requested: a placeholder of the endpoint had no value. */
    predicate Unbound()
      reads this
    {
      initialRequest.None?
    }

    /** The fields are where the calls since `begin_scan` lead. */
    ghost predicate Valid()
      reads this, remote
    {
      && Logged()
      && (if !history.scanning then rows == [] && next.None?
          else if table.None? then false
          else if Unbound() then TheWalk() == Initial(Some(0))
          else baseUrl.Some? && TheWalk() == Run(TheWorld(), maximumRows, history.calls))
    }

    // ----- fetching -----

    /** `fetch_next_page`. */
    method FetchNextPage() returns (r: Result<()>)
      requires table.Some? && baseUrl.Some? && initialRequest.Some? && Logged()
      modifies this, remote`sent
      ensures unchanged(`table, `columns, `baseUrl, `initialRequest, `injected, `maximumRows)
      ensures SameRun(old(history), history)
      ensures Logged() && SameLog(old(remote.sent), remote.sent, old(history.requests), history.requests)
      ensures (TheWalk(), r) == Fetch(TheWorld(), old(TheWalk()))
    {
      var pageLimit := if table.value.maxPages.Some? then table.value.maxPages.value else serverMaxPages;
      if pagesFetched >= pageLimit {
        return Err(Response);  // the token is kept: asking again fails again
      }
      history := history.(lost := true);
      var request := initialRequest.value;
      if next.Some? {
        var token := next.value;
        next := None;
        var current := if currentUrl.Some? then currentUrl.value else request.url;
        var following := rules.follow(TheSetting(), token, current);
        if following.Err? {
          return Err(following.error);
        }
        request := following.value;
      }
      r := SendAndAbsorb(request);
    }

    method SendAndAbsorb(request: HttpRequest) returns (r: Result<()>)
      requires table.Some? && baseUrl.Some? && initialRequest.Some? && Logged()
      requires next.None? && history.lost
      modifies this, remote`sent
      ensures unchanged(`table, `columns, `baseUrl, `initialRequest, `injected, `maximumRows)
      ensures SameRun(old(history), history)
      ensures Logged() && SameLog(old(remote.sent), remote.sent, old(history.requests), history.requests)
      ensures (TheWalk(), r) == Send(TheWorld(), old(TheWalk()), request)
    {
      var response := remote.ExecuteJson(request);
      history := history.(requests := history.requests + [request]);
      if response.Err? {
        return Err(response.error);
      }
      currentUrl := Some(response.value.effectiveUrl);
      var page := rules.normalize(response.value, table.value);
      if page.Err? {
        return Err(page.error);
      }
      r := AbsorbPage(Exchange(request, response.value, page.value));
    }

    method AbsorbPage(e: Exchange) returns (r: Result<()>)
      requires next.None? && history.lost
      modifies this
      ensures unchanged(`table, `columns, `baseUrl, `initialRequest, `injected, `maximumRows, `currentUrl)
      ensures SameRun(old(history), history) && history.requests == old(history.requests)
      ensures (TheWalk(), r) == Absorb(old(TheWalk()), e)
    {
      pagesFetched := pagesFetched + 1;
      if e.page.next.Some? {
        if e.page.next.value in seenTokens {
          return Err(Response);
        }
        seenTokens := seenTokens + {e.page.next.value};
        next := e.page.next;
      }
      rows := rows + e.page.rows;
      history := history.(trace := history.trace + [e], lost := false);
      assert seenTokens == old(seenTokens) + if e.page.next.Some? then {e.page.next.value} else {};
      r := Ok(());
    }

    // ----- the callbacks -----

    /** An empty buffer, before the first request. */
    method Reset(cap: Option<nat>)
      modifies this
      ensures history.first == |remote.sent| && Logged() && TheWalk() == Initial(cap)
      ensures history.scanning && history.calls == []
    {
      currentUrl, next, seenTokens, rows := None, None, {}, [];
      rowIndex, pagesFetched, maximumRows := 0, 0, cap;
      history := History(true, |remote.sent|, [], [], [], [], true);
      assert TheWalk() == Initial(cap);
    }

    /** Everything but the first fetch. */
    method Begin(plan: Plan, columns: seq<Column>)
      modifies this
      ensures this.columns == columns && Follows(plan) && Logged() && TheWalk() == Initial(plan.cap)
      ensures history.scanning && history.calls == [] && history.first == |remote.sent|
    {
      Reset(plan.cap);
      table, this.columns, injected := Some(plan.config), columns, plan.injected;
      baseUrl, initialRequest := plan.base, plan.request;
    }

    ghost predicate Follows(plan: Plan)
      reads this
    {
      && table == Some(plan.config) && injected == plan.injected && maximumRows == plan.cap
      && baseUrl == plan.base && initialRequest == plan.request
    }

    /** The rest of `begin_scan`, once its plan is made. */
    method Start(plan: Plan, columns: seq<Column>) returns (r: Result<()>)
      requires Valid()
      requires plan.request.Some? ==> plan.base.Some?
      requires plan.request.None? ==> plan.cap == Some(0)
      modifies this, remote`sent
      ensures Valid()
      ensures Follows(plan) && this.columns == columns
      ensures history.scanning && history.calls == [] && history.first == |old(remote.sent)|
      ensures Unbound() ==> r.Ok? && remote.sent == old(remote.sent)
      ensures !Unbound() ==> baseUrl.Some? && r == Fetch(TheWorld(), Initial(maximumRows)).1
    {
      Begin(plan, columns);
      if initialRequest.None? {
        return Ok(());
      }
      r := FetchNextPage();
    }

    /** `begin_scan`: unless the plan fails, a new scan with its first page requested. */
    method BeginScan(quals: seq<Qual>, columns: seq<Column>, sorted: bool, limit: Option<Limit>, options: Options,
                     base: Result<Url>)
      returns (r: Result<()>)
      requires Valid()
      modifies this, remote`sent
      ensures Valid()
      ensures var plan := Planned(libraries, quals, sorted, limit, FromOptions(options), base);
        if plan.Err? then r == Err(plan.error) && unchanged(this) && remote.sent == old(remote.sent)
        else
          && Follows(plan.value) && this.columns == columns
          && history.scanning && history.calls == [] && history.first == |old(remote.sent)|
          && (Unbound() ==> r.Ok? && remote.sent == old(remote.sent))
          && (!Unbound() ==> baseUrl.Some? && r == Fetch(TheWorld(), Initial(maximumRows)).1)
    {
      var plan :- PlanScan(libraries, quals, sorted, limit, options, base);
      PlanShape(libraries, quals, sorted, limit, FromOptions(options), base);
      r := Start(plan, columns);
    }

    method AnswerRow() returns (r: Result<Option<Row>>)
      requires table.Some? && baseUrl.Some? && initialRequest.Some? && rowIndex < |rows|
      modifies this`rowIndex, this`history
      ensures SameRun(old(history), history) && history.requests == old(history.requests)
      ensures (TheWalk(), r) == Answer(TheWorld(), old(TheWalk()))
    {
      var source := rows[rowIndex];
      rowIndex := rowIndex + 1;
      var row := rules.project(TheProjector(), source);
      history := history.(answers := history.answers + [row]);
      r := match row case Ok(value) => Ok(Some(value)) case Err(e) => Err(e);
    }

    /** Whether a row may be asked for: either nothing can be requested, and nothing may be answered, or all is set. */
    ghost predicate Ready()
      reads this
    {
      if Unbound() then maximumRows == Some(0) else table.Some? && baseUrl.Some? && rowIndex <= |rows|
    }

    /** What asking for a row does. */
    ghost function Step(): (Walk, Result<Option<Row>>)
      reads this
      requires Ready()
    {
      if Unbound() then (TheWalk(), Ok(None)) else Iterate(TheWorld(), TheWalk())
    }

    /** `fetch_next_page` as the loop uses it: a fetched page leaves the same row to be answered. */
    method Refill() returns (r: Result<()>)
      requires Ready() && !Unbound() && Logged() && rules.Sound()
      requires !TheWalk().AtCap() && rowIndex == |rows| && next.Some?
      modifies this, remote`sent
      ensures unchanged(`table, `columns, `baseUrl, `initialRequest, `injected, `maximumRows)
      ensures SameRun(old(history), history)
      ensures Logged() && SameLog(old(remote.sent), remote.sent, old(history.requests), history.requests)
      ensures r.Err? ==> (TheWalk(), Err(r.error)) == old(Step())
      ensures r.Ok? ==> Ready() && Step() == old(Step()) && (rowIndex < |rows| || next.None?)
    {
      ghost var w := TheWalk();
      r := FetchNextPage();
      if r.Ok? {
        IterateAfterFetch(TheWorld(), w);
      }
    }

    method NextRow() returns (r: Result<Option<Row>>)
      requires Ready() && Logged() && rules.Sound()
      modifies this, remote`sent
      ensures unchanged(`table, `columns, `baseUrl, `initialRequest, `injected, `maximumRows)
      ensures SameRun(old(history), history)
      ensures Logged() && SameLog(old(remote.sent), remote.sent, old(history.requests), history.requests)
      ensures (TheWalk(), r) == old(Step()) && (Unbound() ==> remote.sent == old(remote.sent))
    {
      while true
        invariant Ready() && Step() == old(Step())
        invariant Unbound() ==> remote.sent == old(remote.sent)
        invariant unchanged(`table, `columns, `baseUrl, `initialRequest, `injected, `maximumRows)
        invariant Logged() && SameRun(old(history), history)
        invariant SameLog(old(remote.sent), remote.sent, old(history.requests), history.requests)
        invariant history.requests != old(history.requests) ==> rowIndex < |rows| || next.None?
        decreases if rowIndex == |rows| && next.Some? then 1 else 0
      {
        if maximumRows.Some? && rowIndex >= maximumRows.value {
          return Ok(None);
        }
        if rowIndex < |rows| {
          r := AnswerRow();
          return;
        }
        if next.None? {
          return Ok(None);
        }
        var fetched := Refill();
        if fetched.Err? {
          return Err(fetched.error);
        }
      }
    }

    /** `iter_scan`: the loop is one step of the walk. */
    method IterScan() returns (r: Result<Option<Row>>)
      requires Valid() && history.scanning && rules.Sound()
      modifies this, remote`sent
      ensures unchanged(`table, `columns, `baseUrl, `initialRequest, `injected, `maximumRows)
      ensures Valid() && history.calls == old(history.calls) + [PageWalk.IterScan]
      ensures SameLog(old(remote.sent), remote.sent, old(history.requests), history.requests)
      ensures if Unbound() then r == Ok(None) && remote.sent == old(remote.sent)
        else (TheWalk(), r) == Iterate(TheWorld(), old(TheWalk()))
    {
      if !Unbound() {
        IndexStaysInBuffer(TheWorld(), maximumRows, history.calls);
      }
      r := NextRow();
      history := history.(calls := history.calls + [PageWalk.IterScan]);
      assert history.calls[..|history.calls| - 1] == old(history.calls);
    }

    /** `re_scan`: the buffer is replayed from its first row. */
    method ReScan()
      requires Valid() && history.scanning
      modifies this`rowIndex, this`history
      ensures Valid() && history.calls == old(history.calls) + [PageWalk.ReScan] && TheWalk() == Rewind(old(TheWalk()))
    {
      rowIndex := 0;
      history := history.(calls := history.calls + [PageWalk.ReScan], answers := []);
      assert history.calls[..|history.calls| - 1] == old(history.calls);
    }

    /** `end_scan`. */
    method EndScan()
      requires Valid()
      modifies this`rows, this`columns, this`table, this`initialRequest, this`currentUrl, this`next, this`injected
      modifies this`history
      ensures Valid() && !history.scanning
    {
      rows, columns, table, initialRequest, currentUrl, next := [], [], None, None, None, None;
      injected := map[];
      history := history.(scanning := false);
    }
  }
}
