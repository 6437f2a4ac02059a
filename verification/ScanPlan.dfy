/**
 What a scan is going to do, decided before its first request (`begin_scan` in src/fdw.rs):
 its configuration, its first request, and how many rows it may deliver.
 */
module ScanPlan {
  import opened Text
  import opened Cells
  import opened TableOptions
  import opened Templates
  import opened PathSubstitution
  import opened Requests
  import Pushdown

  /** No request is planned when a placeholder of the endpoint has no value. */
  datatype Plan = Plan(
    config: TableConfig,
    base: Option<Url>,
    request: Option<HttpRequest>,
    cap: Option<nat>,
    injected: map<string, string>)

  /** An empty relation: no bound placeholder, no request. */
  function EmptyPlan(config: TableConfig): Plan {
    Plan(config, None, None, Some(0), map[])
  }

  function PlannedLookup(libraries: Libraries, config: TableConfig, lookup: Lookup, quals: seq<Qual>, sorted: bool,
                         limit: Option<Limit>, base: Result<Url>): Result<Plan> {
    var url :- base;
    var endpoint := libraries.endpoint(url, lookup.endpoint);
    if endpoint.None? then Err(Configuration)
    else
      var cap := RowCap(quals, sorted, limit);
      var query := PlannedQuery(libraries, config, quals, lookup.used, cap);
      var request := HttpRequest(config.verb, endpoint.value, query, config.requestBody);
      Ok(Plan(config, Some(url), Some(request), cap, lookup.injected))
  }

  function PlannedFor(libraries: Libraries, config: TableConfig, quals: seq<Qual>, sorted: bool, limit: Option<Limit>,
                      base: Result<Url>): Result<Plan> {
    var lookup :- Lookups(config.endpoint, EqualityValues(quals));
    if lookup.None? then Ok(EmptyPlan(config))
    else PlannedLookup(libraries, config, lookup.value, quals, sorted, limit, base)
  }

  /** What a scan of a validated table starts with. */
  function Planned(libraries: Libraries, quals: seq<Qual>, sorted: bool, limit: Option<Limit>,
                   config: Result<TableConfig>,
                   base: Result<Url>): Result<Plan> {
    if config.Err? then Err(config.error) else PlannedFor(libraries, config.value, quals, sorted, limit, base)
  }

  method PlanScan(libraries: Libraries, quals: seq<Qual>, sorted: bool, limit: Option<Limit>, options: Options,
                  base: Result<Url>)
    returns (r: Result<Plan>)
    ensures r == Planned(libraries, quals, sorted, limit, FromOptions(options), base)
  {
    var config :- FromOptions(options);
    var lookup :- SubstitutePathParameters(config.endpoint, quals);
    if lookup.None? {
      return Ok(EmptyPlan(config));
    }
    var url :- base;
    var endpoint := libraries.endpoint(url, lookup.value.endpoint);
    if endpoint.None? {
      return Err(Configuration);
    }
    var cap := RowCap(quals, sorted, limit);
    var query := PlanQuery(libraries, config, quals, lookup.value.used, cap);
    var request := HttpRequest(config.verb, endpoint.value, query, config.requestBody);
    r := Ok(Plan(config, Some(url), Some(request), cap, lookup.value.injected));
  }

  // ---------- what a plan means ----------

  lemma PlanShape(libraries: Libraries, quals: seq<Qual>, sorted: bool, limit: Option<Limit>,
                  config: Result<TableConfig>, base: Result<Url>)
    ensures var plan := Planned(libraries, quals, sorted, limit, config, base);
      plan.Ok? ==> (if plan.value.request.Some? then plan.value.base.Some? else plan.value.cap == Some(0))
  {
  }

  /** The endpoint text of a lookup: every gap of the template filled with its pinned value. */
  function Filled(template: string, values: map<string, string>): string
    requires AllBound(Gaps(template), values)
  {
    LookupOfTemplate(template, values);
    Weave(Literals(template), Segments(Gaps(template), values))
  }

  /**
   What a scan can start with: a refused configuration and an unmatched brace are errors, an
   unpinned placeholder makes an empty relation whatever the base, and otherwise it takes the
   base and an endpoint that forms a URL with it; then there is a request.
   */
  lemma PlanOutcome(libraries: Libraries, quals: seq<Qual>, sorted: bool, limit: Option<Limit>,
                    config: Result<TableConfig>, base: Result<Url>)
    ensures var plan := Planned(libraries, quals, sorted, limit, config, base);
      if config.Err? then plan == Err(config.error)
      else
        var template, values := config.value.endpoint, EqualityValues(quals);
        if Unmatched(template) then plan == Err(Configuration)
        else if !AllBound(Gaps(template), values) then plan == Ok(EmptyPlan(config.value))
        else if base.Err? then plan == Err(base.error)
        else if libraries.endpoint(base.value, Filled(template, values)).None? then plan == Err(Configuration)
        else plan.Ok? && plan.value.request.Some?
  {
    if config.Ok? {
      LookupOfTemplate(config.value.endpoint, EqualityValues(quals));
    }
  }

  /**
   What the first request says: the address is the template filled with the pinned values, a
   pair is sent exactly if it overrides what is configured or is configured and not overridden,
   and the columns of the address are not sent again.
   */
  lemma PlannedRequestSays(libraries: Libraries, quals: seq<Qual>, sorted: bool, limit: Option<Limit>,
                           config: Result<TableConfig>,
                           base: Result<Url>, plan: Plan, pair: (string, string))
    requires Planned(libraries, quals, sorted, limit, config, base) == Ok(plan) && plan.request.Some?
    ensures config == Ok(plan.config) && base.Ok? && plan.base == Some(base.value)
    ensures plan.cap == RowCap(quals, sorted, limit)
    ensures AllBound(Gaps(plan.config.endpoint), EqualityValues(quals))
    ensures var request, used := plan.request.value, Substituted(plan.config.endpoint, EqualityValues(quals)).used;
      && request.verb == plan.config.verb && request.body == plan.config.requestBody
      && libraries.endpoint(base.value, Filled(plan.config.endpoint, EqualityValues(quals))) == Some(request.url)
      && (forall name <- Gaps(plan.config.endpoint) :: LookupKey(name) in used)
      && (pair in request.query <==>
          var overriding := Pushdown.Overriding(quals, used, plan.config, plan.cap, pair.0);
          if overriding.Some? then pair.1 == overriding.value else pair in StaticQuery(libraries, plan.config))
  {
    RequestSays(libraries, config.value, quals, sorted, limit, base, plan);
    Pushdown.PlannedPairs(libraries, plan.config, quals, Substituted(plan.config.endpoint, EqualityValues(quals)).used,
      plan.cap, pair);
  }

  lemma RequestSays(libraries: Libraries, config: TableConfig, quals: seq<Qual>, sorted: bool, limit: Option<Limit>,
                    base: Result<Url>, plan: Plan)
    requires PlannedFor(libraries, config, quals, sorted, limit, base) == Ok(plan) && plan.request.Some?
    ensures plan.config == config && base.Ok? && plan.base == Some(base.value)
    ensures plan.cap == RowCap(quals, sorted, limit)
    ensures AllBound(Gaps(config.endpoint), EqualityValues(quals))
    ensures var request, used := plan.request.value, Substituted(config.endpoint, EqualityValues(quals)).used;
      && request.verb == config.verb && request.body == config.requestBody
      && libraries.endpoint(base.value, Filled(config.endpoint, EqualityValues(quals))) == Some(request.url)
      && request.query == PlannedQuery(libraries, config, quals, used, plan.cap)
      && (forall name <- Gaps(config.endpoint) :: LookupKey(name) in used)
  {
    var values := EqualityValues(quals);
    LookupOfTemplate(config.endpoint, values);
    forall name | name in Gaps(config.endpoint)
      ensures LookupKey(name) in Substituted(config.endpoint, values).used
    {
      EveryPlaceholderInjected(config.endpoint, values, name);
    }
  }

  /** How many rows a limit asks for, within the range of its numbers. */
  function Wanted(limit: Limit): int {
    if limit.count + limit.offset > I64_MAX then I64_MAX
    else if limit.count + limit.offset < 0 then 0
    else limit.count + limit.offset
  }

  /**
   A scan is bounded exactly when nothing is filtered or sorted after it and there is a limit, and then
   by the rows up to the end of that limit.
   */
  lemma PlanIsBounded(libraries: Libraries, quals: seq<Qual>, sorted: bool, limit: Option<Limit>,
                      config: Result<TableConfig>, base: Result<Url>, plan: Plan)
    requires Planned(libraries, quals, sorted, limit, config, base) == Ok(plan) && plan.request.Some?
    ensures plan.cap.None? <==> quals != [] || sorted || limit.None?
    ensures plan.cap.Some? ==> plan.cap.value == Wanted(limit.value)
  {
    RequestSays(libraries, config.value, quals, sorted, limit, base, plan);
  }
}
