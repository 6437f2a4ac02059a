/**
 What a whole query answers: PostgreSQL's filter, sort and LIMIT over the rows of a scan give
 what they give over the configured collection.
 */
module QueryMeaning {
  import opened Text
  import opened Json
  import opened Cells
  import opened TableOptions
  import opened Requests
  import opened PageWalk
  import opened Pushdown
  import opened PathSubstitution
  import opened ScanPlan
  import Scan

  /** A scan that was called in any way, without errors, and has just answered its end. */
  ghost predicate Ended(world: World, cap: Option<nat>, calls: seq<Call>) {
    && world.rules.Sound() && Clean(world, cap, calls)
    && Iterate(world, Run(world, cap, calls)).1 == Ok(None)
  }

  /** What such a scan has answered since it began or was rewound. */
  function Answered(world: World, cap: Option<nat>, calls: seq<Call>): seq<Result<Row>> {
    Run(world, cap, calls + [IterScan]).answers
  }

  function UpTo<T>(rows: seq<T>, cap: Option<nat>): seq<T> {
    if cap.Some? then Prefix(rows, cap.value) else rows
  }

  lemma CompleteIsUnique(world: World, a: seq<Exchange>, b: seq<Exchange>)
    requires Complete(world, a) && Complete(world, b)
    ensures a == b
  {
    NothingAfterComplete(world, a, b);
    NothingAfterComplete(world, b, a);
    PaginationIsDetermined(world, a, b);
  }

  /** The answers are the projected rows of the collection, up to the cap. */
  lemma EndedScanAnswersTheCollection(world: World, cap: Option<nat>, calls: seq<Call>, pages: seq<Exchange>)
    requires Ended(world, cap, calls) && Complete(world, pages)
    ensures Answered(world, cap, calls) == UpTo(Project(world, AllRows(pages)), cap)
  {
    var w := Run(world, cap, calls + [IterScan]);
    CleanEndIsComplete(world, cap, calls);
    AnswersArePrefix(world, cap, calls + [IterScan], pages);
    if !(cap.Some? && |w.answers| >= cap.value) {
      CompleteIsUnique(world, w.trace, pages);
    }
  }

  /** The service's pages for the scan's request hold the rows it selects for the request's query. */
  ghost predicate Serves(service: Service, world: World, pages: seq<Exchange>) {
    Complete(world, pages) && AllRows(pages) == service.rows(world.setting.initial.query)
  }

  function Recheck(world: World, keep: Result<Row> -> bool): Json -> bool {
    (source: Json) => keep(world.rules.project(world.projector, source))
  }

  lemma {:induction false} FilterAppend<T>(front: seq<T>, last: T, keep: T -> bool)
    ensures Filter(front + [last], keep) == Filter(front, keep) + if keep(last) then [last] else []
  {
    if front == [] {
      assert front + [last] == [last];
    } else {
      FilterAppend(front[1..], last, keep);
      assert (front + [last])[1..] == front[1..] + [last];
    }
  }

  lemma ProjectAppend(world: World, front: seq<Json>, last: Json)
    ensures Project(world, front + [last]) == Project(world, front) + [world.rules.project(world.projector, last)]
  {
    assert (front + [last])[..|front|] == front;
  }

  /** Filtering rows is projecting the filtered sources. */
  lemma {:induction false} FilterProjects(world: World, sources: seq<Json>, keep: Result<Row> -> bool)
    ensures Filter(Project(world, sources), keep) == Project(world, Filter(sources, Recheck(world, keep)))
    decreases |sources|
  {
    if sources != [] {
      var front, last := sources[..|sources| - 1], sources[|sources| - 1];
      assert sources == front + [last];
      FilterProjects(world, front, keep);
      ProjectAppend(world, front, last);
      FilterAppend(Project(world, front), world.rules.project(world.projector, last), keep);
      FilterAppend(front, last, Recheck(world, keep));
      if Recheck(world, keep)(last) {
        ProjectAppend(world, Filter(front, Recheck(world, keep)), last);
      } else {
        assert Filter(front, Recheck(world, keep)) + [] == Filter(front, Recheck(world, keep));
      }
    }
  }

  /**
   A filtered query: what PostgreSQL keeps of the answers is what it would keep of the whole
   configured collection, although the service was asked for less.
   */
  lemma FilteredQueryIsExact(libraries: Libraries, service: Service, quals: seq<Qual>, used: set<string>,
                             world: World, calls: seq<Call>, pages: seq<Exchange>, keep: Result<Row> -> bool)
    requires Ended(world, None, calls) && Serves(service, world, pages)
    requires world.setting.initial.query == PlannedQuery(libraries, world.setting.table, quals, used, None)
    requires service.FiltersHonestly() && Rechecks(service, quals, used, world.setting.table, Recheck(world, keep))
    requires PageSizeName(world.setting.table).Some? ==> service.PagesNeutrally(PageSizeName(world.setting.table).value)
    requires var query := StaticQuery(libraries, world.setting.table);
      && Disjoint(query, quals, used, world.setting.table)
      && (PageSizeName(world.setting.table).Some? ==> !HasName(query, PageSizeName(world.setting.table).value))
    ensures Filter(Answered(world, None, calls), keep)
      == Filter(Project(world, service.rows(StaticQuery(libraries, world.setting.table))), keep)
  {
    var table := world.setting.table;
    EndedScanAnswersTheCollection(world, None, calls, pages);
    EqualityPushdown(libraries, service, quals, used, table, Recheck(world, keep));
    FilterProjects(world, AllRows(pages), keep);
    FilterProjects(world, service.rows(StaticQuery(libraries, table)), keep);
  }

  lemma PrefixProjects(world: World, sources: seq<Json>, n: nat)
    ensures Prefix(Project(world, sources), n) == Project(world, Prefix(sources, n))
  {
    if n <= |sources| {
      ProjectPrefix(world, sources, n);
    }
  }

  /**
   A limited query: LIMIT and OFFSET over the answers of the bounded scan are LIMIT and OFFSET
   over the whole configured collection, when the parameter that carries the bound is not a
   configured one and the service honours it.
   */
  lemma LimitedQueryIsExact(libraries: Libraries, service: Service, limit: Limit, used: set<string>,
                            world: World, calls: seq<Call>, pages: seq<Exchange>)
    requires 0 <= limit.count <= I64_MAX && 0 <= limit.offset <= I64_MAX
    requires Ended(world, RowCap([], false, Some(limit)), calls) && Serves(service, world, pages)
    requires var table, cap := world.setting.table, RowCap([], false, Some(limit));
      && world.setting.initial.query == PlannedQuery(libraries, table, [], used, cap)
      && (table.limitParam.Some? ==> service.LimitsHonestly(table.limitParam.value))
      && (table.limitParam.None? && PageSizeName(table).Some? ==> service.PagesNeutrally(PageSizeName(table).value))
      && (Bounding(table, cap).Some? ==> !HasName(StaticQuery(libraries, table), Bounding(table, cap).value.0))
    requires |service.rows(StaticQuery(libraries, world.setting.table))| <= I64_MAX && |AllRows(pages)| <= I64_MAX
    ensures Limited(Answered(world, RowCap([], false, Some(limit)), calls), limit)
      == Limited(Project(world, service.rows(StaticQuery(libraries, world.setting.table))), limit)
  {
    var cap := RowCap([], false, Some(limit));
    var full := service.rows(StaticQuery(libraries, world.setting.table));
    EndedScanAnswersTheCollection(world, cap, calls, pages);
    LimitedQueryKeepsFirstRows(libraries, service, used, world.setting.table, cap.value);
    PrefixProjects(world, AllRows(pages), cap.value);
    PrefixProjects(world, full, cap.value);
    LimitPushdown(Project(world, full), Project(world, AllRows(pages)), limit);
  }

  // ---------- the wrapper's own scans ----------

  /** A planned scan of the wrapper, called without errors, whose last call answered the end. */
  ghost predicate HasEnded(fdw: Scan.OpenApiFdw, plan: Plan)
    reads fdw, fdw.remote
  {
    && fdw.Valid() && fdw.history.scanning && fdw.Follows(plan) && plan.request.Some? && plan.base.Some?
    && fdw.history.calls != [] && fdw.history.calls[|fdw.history.calls| - 1] == IterScan
    && Ended(fdw.TheWorld(), plan.cap, fdw.history.calls[..|fdw.history.calls| - 1])
  }

  lemma EndedAnswers(fdw: Scan.OpenApiFdw, plan: Plan)
    requires HasEnded(fdw, plan)
    ensures fdw.history.answers == Answered(fdw.TheWorld(), plan.cap, fdw.history.calls[..|fdw.history.calls| - 1])
  {
    AnsweredBy(fdw.TheWorld(), plan.cap, fdw.history.calls, fdw.TheWalk());
  }

  lemma AnsweredBy(world: World, cap: Option<nat>, calls: seq<Call>, w: Walk)
    requires w == Run(world, cap, calls) && calls != [] && calls[|calls| - 1] == IterScan
    ensures w.answers == Answered(world, cap, calls[..|calls| - 1])
  {
    assert calls == calls[..|calls| - 1] + [IterScan];
  }

  /** What such a scan asks for first. */
  lemma EndedAsked(fdw: Scan.OpenApiFdw, quals: seq<Qual>, sorted: bool, limit: Option<Limit>,
                   config: Result<TableConfig>, base: Result<Url>, plan: Plan)
    requires Planned(fdw.libraries, quals, sorted, limit, config, base) == Ok(plan) && HasEnded(fdw, plan)
    ensures AllBound(Gaps(plan.config.endpoint), EqualityValues(quals)) && plan.cap == RowCap(quals, sorted, limit)
    ensures var used := Substituted(plan.config.endpoint, EqualityValues(quals)).used;
      && fdw.TheWorld().setting.table == plan.config
      && fdw.TheWorld().setting.initial.query == PlannedQuery(fdw.libraries, plan.config, quals, used, plan.cap)
  {
    RequestSays(fdw.libraries, config.value, quals, sorted, limit, base, plan);
  }

  /** `FilteredQueryIsExact` for a scan that `begin_scan` has started and `iter_scan` has ended. */
  lemma ScanFilters(fdw: Scan.OpenApiFdw, quals: seq<Qual>, sorted: bool, limit: Option<Limit>,
                    config: Result<TableConfig>, base: Result<Url>, plan: Plan,
                    service: Service, pages: seq<Exchange>, keep: Result<Row> -> bool)
    requires Planned(fdw.libraries, quals, sorted, limit, config, base) == Ok(plan)
    requires quals != [] || sorted || limit.None?
    requires HasEnded(fdw, plan) && Serves(service, fdw.TheWorld(), pages)
    requires service.FiltersHonestly()
    requires PageSizeName(plan.config).Some? ==> service.PagesNeutrally(PageSizeName(plan.config).value)
    requires AllBound(Gaps(plan.config.endpoint), EqualityValues(quals))
    requires var used := Substituted(plan.config.endpoint, EqualityValues(quals)).used;
      && Rechecks(service, quals, used, plan.config, Recheck(fdw.TheWorld(), keep))
      && Disjoint(StaticQuery(fdw.libraries, plan.config), quals, used, plan.config)
    requires PageSizeName(plan.config).Some? ==>
      !HasName(StaticQuery(fdw.libraries, plan.config), PageSizeName(plan.config).value)
    ensures Filter(fdw.history.answers, keep)
      == Filter(Project(fdw.TheWorld(), service.rows(StaticQuery(fdw.libraries, plan.config))), keep)
  {
    PlanIsBounded(fdw.libraries, quals, sorted, limit, config, base, plan);
    EndedAsked(fdw, quals, sorted, limit, config, base, plan);
    EndedAnswers(fdw, plan);
    var calls := fdw.history.calls[..|fdw.history.calls| - 1];
    var used := Substituted(plan.config.endpoint, EqualityValues(quals)).used;
    FilteredQueryIsExact(fdw.libraries, service, quals, used, fdw.TheWorld(), calls, pages, keep);
  }

  /** Without a bound and without qualifiers, the service selects the configured collection. */
  lemma UnboundedIsConfigured(libraries: Libraries, service: Service, table: TableConfig, used: set<string>)
    requires PagesFreely(libraries, service, table)
    ensures service.rows(PlannedQuery(libraries, table, [], used, None)) == service.rows(StaticQuery(libraries, table))
  {
    var query := StaticQuery(libraries, table);
    BoundPageSets(query, table, None);
    if PageSizeName(table).Some? {
      var pair := Bounding(table, None).value;
      WithoutAbsent(query, pair.0);
      assert SetQueryValue(query, pair.0, pair.1) == With(query, pair);
    }
  }

  /** The page size, if any, is a parameter of its own, and only cuts the collection into pages. */
  ghost predicate PagesFreely(libraries: Libraries, service: Service, table: TableConfig) {
    PageSizeName(table).Some? ==> (
      && service.PagesNeutrally(PageSizeName(table).value)
      && !HasName(StaticQuery(libraries, table), PageSizeName(table).value))
  }

  /** A scan without qualifiers that is sorted, or has no limit, answers the whole configured collection. */
  lemma ScanAnswersAll(fdw: Scan.OpenApiFdw, sorted: bool, limit: Option<Limit>, config: Result<TableConfig>,
                       base: Result<Url>, plan: Plan, service: Service, pages: seq<Exchange>)
    requires Planned(fdw.libraries, [], sorted, limit, config, base) == Ok(plan) && (sorted || limit.None?)
    requires HasEnded(fdw, plan) && Serves(service, fdw.TheWorld(), pages)
    requires PagesFreely(fdw.libraries, service, plan.config)
    ensures fdw.history.answers == Project(fdw.TheWorld(), service.rows(StaticQuery(fdw.libraries, plan.config)))
  {
    PlanIsBounded(fdw.libraries, [], sorted, limit, config, base, plan);
    EndedAsked(fdw, [], sorted, limit, config, base, plan);
    EndedAnswers(fdw, plan);
    var used := Substituted(plan.config.endpoint, EqualityValues([])).used;
    UnboundedIsConfigured(fdw.libraries, service, plan.config, used);
    AnswersServed(fdw.TheWorld(), fdw.history.calls[..|fdw.history.calls| - 1], service, pages);
  }

  lemma AnswersServed(world: World, calls: seq<Call>, service: Service, pages: seq<Exchange>)
    requires Ended(world, None, calls) && Serves(service, world, pages)
    ensures Answered(world, None, calls) == Project(world, service.rows(world.setting.initial.query))
  {
    EndedScanAnswersTheCollection(world, None, calls, pages);
  }

  /** A sorted query with a limit: sorting and limiting the answers is the same on the configured collection. */
  lemma ScanSorts(fdw: Scan.OpenApiFdw, limit: Limit, config: Result<TableConfig>, base: Result<Url>, plan: Plan,
                  service: Service, pages: seq<Exchange>, sort: seq<Result<Row>> -> seq<Result<Row>>)
    requires limit.count >= 0 && limit.offset >= 0
    requires Planned(fdw.libraries, [], true, Some(limit), config, base) == Ok(plan)
    requires HasEnded(fdw, plan) && Serves(service, fdw.TheWorld(), pages)
    requires PagesFreely(fdw.libraries, service, plan.config)
    ensures var all := Project(fdw.TheWorld(), service.rows(StaticQuery(fdw.libraries, plan.config)));
      Limited(sort(fdw.history.answers), limit) == Limited(sort(all), limit)
  {
    ScanAnswersAll(fdw, true, Some(limit), config, base, plan, service, pages);
  }

  /** `LimitedQueryIsExact` for a scan that `begin_scan` has started and `iter_scan` has ended. */
  lemma ScanLimits(fdw: Scan.OpenApiFdw, limit: Limit, config: Result<TableConfig>, base: Result<Url>, plan: Plan,
                   service: Service, pages: seq<Exchange>)
    requires 0 <= limit.count <= I64_MAX && 0 <= limit.offset <= I64_MAX
    requires Planned(fdw.libraries, [], false, Some(limit), config, base) == Ok(plan)
    requires HasEnded(fdw, plan) && Serves(service, fdw.TheWorld(), pages)
    requires plan.config.limitParam.Some? ==> service.LimitsHonestly(plan.config.limitParam.value)
    requires plan.config.limitParam.None? && PageSizeName(plan.config).Some? ==>
      service.PagesNeutrally(PageSizeName(plan.config).value)
    requires Bounding(plan.config, plan.cap).Some? ==>
      !HasName(StaticQuery(fdw.libraries, plan.config), Bounding(plan.config, plan.cap).value.0)
    requires |service.rows(StaticQuery(fdw.libraries, plan.config))| <= I64_MAX && |AllRows(pages)| <= I64_MAX
    ensures Limited(fdw.history.answers, limit)
      == Limited(Project(fdw.TheWorld(), service.rows(StaticQuery(fdw.libraries, plan.config))), limit)
  {
    EndedAsked(fdw, [], false, Some(limit), config, base, plan);
    EndedAnswers(fdw, plan);
    var calls := fdw.history.calls[..|fdw.history.calls| - 1];
    var used := Substituted(plan.config.endpoint, EqualityValues([])).used;
    LimitedQueryIsExact(fdw.libraries, service, limit, used, fdw.TheWorld(), calls, pages);
  }
}
