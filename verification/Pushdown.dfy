/**
 Why pushing LIMIT and equality qualifiers to the remote service does not change what a
 query means (src/fdw.rs): PostgreSQL applies its own limit and filters to whatever the scan
 delivers.
 */
module Pushdown {
  import opened Text
  import opened Json
  import opened Cells
  import opened TableOptions
  import opened Requests

  // ---------- LIMIT and OFFSET ----------

  function Prefix<T>(rows: seq<T>, n: nat): seq<T> {
    if n <= |rows| then rows[..n] else rows
  }

  function Skip<T>(rows: seq<T>, n: nat): seq<T> {
    if n <= |rows| then rows[n..] else []
  }

  /** PostgreSQL's Limit node. */
  function Limited<T>(rows: seq<T>, limit: Limit): seq<T>
    requires limit.count >= 0 && limit.offset >= 0
  {
    Prefix(Skip(rows, limit.offset), limit.count)
  }

  /**
   A bounded scan under the local Limit node answers what an unbounded one would, for every
   service that returns at least the first `cap` rows in order, whatever else it returns.
   */
  lemma LimitPushdown<T>(all: seq<T>, returned: seq<T>, limit: Limit)
    requires 0 <= limit.count <= I64_MAX && 0 <= limit.offset <= I64_MAX
    requires |all| <= I64_MAX && |returned| <= I64_MAX
    requires RowCap([], false, Some(limit)).Some?
    requires var cap := RowCap([], false, Some(limit)).value; Prefix(returned, cap) == Prefix(all, cap)
    ensures var cap := RowCap([], false, Some(limit)).value;
      Limited(Prefix(returned, cap), limit) == Limited(all, limit)
  {
  }

  // ---------- the pairs of a planned query ----------

  /** The value that the last pushed qualifier on a remote name carries. */
  function LastPushed(quals: seq<Qual>, used: set<string>, table: TableConfig, name: string): Option<string> {
    if quals == [] then None
    else
      var last := quals[|quals| - 1];
      if Pushed(last, used) && RemoteName(last.field, table) == name then QualValue(last)
      else LastPushed(quals[..|quals| - 1], used, table, name)
  }

  /** A qualifier speaks of a remote name: an equality on a column outside the path, under its mapped name. */
  predicate SaysOf(qual: Qual, used: set<string>, table: TableConfig, name: string, value: string) {
    && Lowercase(qual.field) !in used
    && (if qual.field in table.queryParamMap then table.queryParamMap[qual.field] == name else qual.field == name)
    && qual.operator == "=" && !qual.useOr && qual.operand.One? && PrintsAs(qual.operand.cell, value)
  }

  ghost predicate SaysNothingOf(qual: Qual, used: set<string>, table: TableConfig, name: string) {
    forall value :: !SaysOf(qual, used, table, name, value)
  }

  lemma PushedIsExact(qual: Qual, used: set<string>, table: TableConfig, name: string, value: string)
    ensures SaysOf(qual, used, table, name, value) <==>
      Pushed(qual, used) && RemoteName(qual.field, table) == name && QualValue(qual) == Some(value)
  {
    QualValueIsExact(qual);
  }

  lemma SilentIsExact(qual: Qual, used: set<string>, table: TableConfig, name: string)
    ensures SaysNothingOf(qual, used, table, name) <==> !(Pushed(qual, used) && RemoteName(qual.field, table) == name)
  {
    if QualValue(qual).Some? {
      PushedIsExact(qual, used, table, name, QualValue(qual).value);
    }
    forall value
      ensures SaysOf(qual, used, table, name, value) ==> Pushed(qual, used) && RemoteName(qual.field, table) == name
    {
      PushedIsExact(qual, used, table, name, value);
    }
  }

  /** The last qualifier that says something about a name has the say, and it alone. */
  lemma {:induction false} LastPushedIsExact(quals: seq<Qual>, used: set<string>, table: TableConfig, name: string,
                                             i: nat)
    requires i <= |quals| && forall j | i <= j < |quals| :: SaysNothingOf(quals[j], used, table, name)
    ensures i == 0 ==> LastPushed(quals, used, table, name) == None
    ensures forall value :: i > 0 && SaysOf(quals[i - 1], used, table, name, value) ==>
      LastPushed(quals, used, table, name) == Some(value)
  {
    if i < |quals| {
      SilentIsExact(quals[|quals| - 1], used, table, name);
      LastPushedIsExact(quals[..|quals| - 1], used, table, name, i);
    } else if i > 0 {
      forall value | SaysOf(quals[i - 1], used, table, name, value)
        ensures LastPushed(quals, used, table, name) == Some(value)
      {
        PushedIsExact(quals[i - 1], used, table, name, value);
      }
    }
  }

  lemma {:induction false} WithoutPairs(query: Query, name: string, pair: (string, string))
    ensures pair in Without(query, name) <==> pair in query && pair.0 != name
  {
    if query != [] {
      WithoutPairs(query[1..], name, pair);
      assert query == [query[0]] + query[1..];
    }
  }

  /** Exactly which pairs a planned query holds: a pushed qualifier replaces every pair of its name. */
  lemma {:induction false} PushedPairs(query: Query, quals: seq<Qual>, used: set<string>, table: TableConfig,
                                       pair: (string, string))
    ensures pair in PushQuals(query, quals, used, table) <==>
      var pushed := LastPushed(quals, used, table, pair.0);
      if pushed.Some? then pair.1 == pushed.value else pair in query
  {
    if quals != [] {
      var front, last := quals[..|quals| - 1], quals[|quals| - 1];
      PushedPairs(query, front, used, table, pair);
      if Pushed(last, used) {
        WithoutPairs(PushQuals(query, front, used, table), RemoteName(last.field, table), pair);
      }
    }
  }

  /** The pair by which a scan asks for so many rows, in all or per page. */
  function Bounding(table: TableConfig, cap: Option<nat>): Option<(string, string)> {
    if cap.Some? && table.limitParam.Some? then Some((table.limitParam.value, Decimal(cap.value)))
    else if PageSizeName(table).Some? then Some((PageSizeName(table).value, Decimal(table.pageSize.value)))
    else None
  }

  /** The name under which a scan without a row cap asks for a page size. */
  function PageSizeName(table: TableConfig): (name: Option<string>)
    ensures name.Some? ==> table.pageSize.Some?
  {
    if table.pageSize.None? then None
    else if table.pageSizeParam.Some? then table.pageSizeParam else table.limitParam
  }

  lemma BoundPageSets(query: Query, table: TableConfig, cap: Option<nat>)
    ensures BoundPage(query, table, cap) == match Bounding(table, cap)
      case Some((name, value)) => SetQueryValue(query, name, value)
      case None => query
  {
  }

  /** What a planned query finally says about a name, where the configuration has no say. */
  function Overriding(quals: seq<Qual>, used: set<string>, table: TableConfig, cap: Option<nat>,
                      name: string): Option<string> {
    match Bounding(table, cap)
    case Some((bound, value)) => if bound == name then Some(value) else LastPushed(quals, used, table, name)
    case None => LastPushed(quals, used, table, name)
  }

  /** Exactly which pairs the query that is sent holds. */
  lemma PlannedPairs(libraries: Libraries, table: TableConfig, quals: seq<Qual>, used: set<string>, cap: Option<nat>,
                     pair: (string, string))
    ensures pair in PlannedQuery(libraries, table, quals, used, cap) <==>
      var overriding := Overriding(quals, used, table, cap, pair.0);
      if overriding.Some? then pair.1 == overriding.value else pair in StaticQuery(libraries, table)
  {
    var pushed := PushQuals(StaticQuery(libraries, table), quals, used, table);
    PushedPairs(StaticQuery(libraries, table), quals, used, table, pair);
    BoundPageSets(pushed, table, cap);
    if Bounding(table, cap).Some? {
      WithoutPairs(pushed, Bounding(table, cap).value.0, pair);
    }
  }

  /**
   The configured parameters are all sent if and only if neither a pushed qualifier nor the
   row limit or page size gives one of their names another value.
   */
  lemma StaticPairsSurvive(libraries: Libraries, table: TableConfig, quals: seq<Qual>, used: set<string>,
                           cap: Option<nat>)
    ensures var configured, planned := StaticQuery(libraries, table), PlannedQuery(libraries, table, quals, used, cap);
      (forall pair <- configured :: pair in planned) <==>
      (forall pair <- configured :: Overriding(quals, used, table, cap, pair.0) in {None, Some(pair.1)})
  {
    forall pair | pair in StaticQuery(libraries, table)
      ensures pair in PlannedQuery(libraries, table, quals, used, cap) <==>
        Overriding(quals, used, table, cap, pair.0) in {None, Some(pair.1)}
    {
      PlannedPairs(libraries, table, quals, used, cap, pair);
    }
  }

  /** A configured limit is replaced by the limit of the query, larger or not. */
  lemma StaticLimitOverridden(libraries: Libraries, table: TableConfig, configured: string, cap: nat)
    requires table.limitParam == Some("limit") && StaticQuery(libraries, table) == [("limit", configured)]
    ensures PlannedQuery(libraries, table, [], {}, Some(cap)) == [("limit", Decimal(cap))]
  {
    assert Without([("limit", configured)], "limit") == [];
  }

  // ---------- equality pushdown ----------

  predicate HasName(query: Query, name: string) {
    exists pair <- query :: pair.0 == name
  }

  function With(query: Query, pair: (string, string)): Query {
    query + [pair]
  }

  /** `narrow` is `full` without some of the rows that do not match. */
  predicate Narrows(narrow: seq<Json>, full: seq<Json>, matches: Json -> bool) {
    if full == [] then narrow == []
    else
      || (narrow != [] && narrow[0] == full[0] && Narrows(narrow[1..], full[1..], matches))
      || (!matches(full[0]) && Narrows(narrow, full[1..], matches))
  }

  function Filter<T>(rows: seq<T>, keep: T -> bool): seq<T> {
    if rows == [] then [] else (if keep(rows[0]) then [rows[0]] else []) + Filter(rows[1..], keep)
  }

  /** Filtering a narrowed relation by something at least as strict gives the same rows. */
  lemma {:induction false} FilterNarrowed(narrow: seq<Json>, full: seq<Json>, matches: Json -> bool, keep: Json -> bool)
    requires Narrows(narrow, full, matches)
    requires forall row :: keep(row) ==> matches(row)
    ensures Filter(narrow, keep) == Filter(full, keep)
    decreases |full|
  {
    if full != [] {
      if narrow != [] && narrow[0] == full[0] && Narrows(narrow[1..], full[1..], matches) {
        FilterNarrowed(narrow[1..], full[1..], matches, keep);
      } else {
        FilterNarrowed(narrow, full[1..], matches, keep);
      }
    }
  }

  /** What the service does with query parameters. */
  datatype Service = Service(
    rows: Query -> seq<Json>,               // the collection a query selects, over all its pages
    matches: (string, string) -> Json -> bool)
  {
    /** A parameter the query does not have yet may only drop rows that do not match it. */
    ghost predicate FiltersHonestly() {
      forall query: Query, pair: (string, string) :: !HasName(query, pair.0) ==>
        Narrows(rows(With(query, pair)), rows(query), matches(pair.0, pair.1))
    }

    /** A limit the query does not have yet leaves at least its first rows, in order. */
    ghost predicate LimitsHonestly(name: string) {
      forall query: Query, n: nat :: !HasName(query, name) ==>
        Prefix(rows(With(query, (name, Decimal(n)))), n) == Prefix(rows(query), n)
    }

    /** The page size does not change which rows the pages hold together. */
    ghost predicate PagesNeutrally(name: string) {
      forall query: Query, size: string :: !HasName(query, name) ==> rows(With(query, (name, size))) == rows(query)
    }
  }

  /** `keep` is PostgreSQL's recheck: it keeps no row that the service would not match. */
  ghost predicate Rechecks(service: Service, quals: seq<Qual>, used: set<string>, table: TableConfig,
                           keep: Json -> bool) {
    forall qual, row | qual in quals && Pushed(qual, used) && keep(row) ::
      service.matches(RemoteName(qual.field, table), QualValue(qual).value)(row)
  }

  /** Pairs with distinct names, none of them static, each from a pushed qualifier. */
  predicate Additions(added: Query, query: Query, quals: seq<Qual>, used: set<string>, table: TableConfig) {
    added == [] ||
    var front, last := added[..|added| - 1], added[|added| - 1];
    && Additions(front, query, quals, used, table)
    && !HasName(query, last.0) && !HasName(front, last.0)
    && exists qual <- quals :: Pushed(qual, used) && last == (RemoteName(qual.field, table), QualValue(qual).value)
  }

  lemma {:induction false} WithoutConcat(a: Query, b: Query, name: string)
    ensures Without(a + b, name) == Without(a, name) + Without(b, name)
  {
    if a == [] {
      assert a + b == b;
    } else {
      WithoutConcat(a[1..], b, name);
      assert a == [a[0]] + a[1..] && a + b == [a[0]] + (a[1..] + b);
      WithoutFirst(a[0], a[1..], name);
      WithoutFirst(a[0], a[1..] + b, name);
    }
  }

  lemma WithoutFirst(first: (string, string), rest: Query, name: string)
    ensures Without([first] + rest, name) == (if first.0 == name then [] else [first]) + Without(rest, name)
  {
    assert ([first] + rest)[1..] == rest;
  }

  lemma {:induction false} WithoutAbsent(query: Query, name: string)
    requires !HasName(query, name)
    ensures Without(query, name) == query
  {
    if query != [] {
      assert query[0] in query && forall pair <- query[1..] :: pair in query;
      WithoutAbsent(query[1..], name);
    }
  }

  lemma {:induction false} RemainingAdditions(added: Query, query: Query, quals: seq<Qual>, used: set<string>,
                                              table: TableConfig, name: string)
    requires Additions(added, query, quals, used, table)
    ensures Additions(Without(added, name), query, quals, used, table)
  {
    if added != [] {
      var front, last := added[..|added| - 1], added[|added| - 1];
      RemainingAdditions(front, query, quals, used, table, name);
      WithoutConcat(front, [last], name);
      assert added == front + [last];
      NoNewNames(front, name, last.0);
      if last.0 == name {
        assert Without(added, name) == Without(front, name);
      } else {
        assert Without(added, name)[..|Without(added, name)| - 1] == Without(front, name);
      }
    }
  }

  lemma NoNewNames(query: Query, removed: string, name: string)
    requires !HasName(query, name)
    ensures !HasName(Without(query, removed), name)
  {
  }

  lemma NameRemoved(query: Query, name: string)
    ensures !HasName(Without(query, name), name)
  {
  }

  lemma {:induction false} MoreQuals(added: Query, query: Query, quals: seq<Qual>, more: seq<Qual>, used: set<string>,
                                     table: TableConfig)
    requires Additions(added, query, quals, used, table) && forall qual <- quals :: qual in more
    ensures Additions(added, query, more, used, table)
  {
    if added != [] {
      MoreQuals(added[..|added| - 1], query, quals, more, used, table);
    }
  }

  /** No pushed qualifier has the remote name of a parameter that is already there. */
  predicate Disjoint(query: Query, quals: seq<Qual>, used: set<string>, table: TableConfig) {
    forall qual <- quals | Pushed(qual, used) :: !HasName(query, RemoteName(qual.field, table))
  }

  lemma {:induction false} PushedAdditions(query: Query, quals: seq<Qual>, used: set<string>,
                                           table: TableConfig) returns (added: Query)
    requires Disjoint(query, quals, used, table)
    ensures PushQuals(query, quals, used, table) == query + added
    ensures Additions(added, query, quals, used, table)
  {
    if quals == [] {
      added := [];
      assert query + added == query;
    } else {
      var front, last := quals[..|quals| - 1], quals[|quals| - 1];
      added := PushedAdditions(query, front, used, table);
      MoreQuals(added, query, front, quals, used, table);
      if Pushed(last, used) {
        var name := RemoteName(last.field, table);
        WithoutConcat(query, added, name);
        WithoutAbsent(query, name);
        RemainingAdditions(added, query, quals, used, table, name);
        NameRemoved(added, name);
        var pair := (name, QualValue(last).value);
        var kept := Without(added, name);
        added := kept + [pair];
        assert added[..|added| - 1] == kept && query + kept + [pair] == query + added;
      }
    }
  }

  lemma {:induction false} AdditionsAreRechecked(
    service: Service, added: Query, query: Query, quals: seq<Qual>, used: set<string>, table: TableConfig,
    keep: Json -> bool)
    requires service.FiltersHonestly() && Rechecks(service, quals, used, table, keep)
    requires Additions(added, query, quals, used, table)
    ensures Filter(service.rows(query + added), keep) == Filter(service.rows(query), keep)
  {
    if added == [] {
      assert query + added == query;
    } else {
      var front, last := added[..|added| - 1], added[|added| - 1];
      AdditionsAreRechecked(service, front, query, quals, used, table, keep);
      assert query + added == With(query + front, last);
      assert !HasName(query + front, last.0);
      FilterNarrowed(service.rows(query + added), service.rows(query + front), service.matches(last.0, last.1), keep);
    }
  }

  /**
   Pushing any qualifiers and rechecking them locally selects the same rows, in the same
   order, as filtering the collection of the static parameters, when neither a pushed name
   nor the page-size parameter is a static parameter. The page-size parameter may collide
   with a pushed name: then that qualifier is only checked locally.
   */
  lemma EqualityPushdown(libraries: Libraries, service: Service, quals: seq<Qual>, used: set<string>,
                         table: TableConfig, keep: Json -> bool)
    requires service.FiltersHonestly() && Rechecks(service, quals, used, table, keep)
    requires PageSizeName(table).Some? ==> service.PagesNeutrally(PageSizeName(table).value)
    requires var query := StaticQuery(libraries, table);
      Disjoint(query, quals, used, table) && (PageSizeName(table).Some? ==> !HasName(query, PageSizeName(table).value))
    ensures Filter(service.rows(PlannedQuery(libraries, table, quals, used, None)), keep)
      == Filter(service.rows(StaticQuery(libraries, table)), keep)
  {
    var query := StaticQuery(libraries, table);
    var added := PushedAdditions(query, quals, used, table);
    if PageSizeName(table).Some? {
      var name := PageSizeName(table).value;
      WithoutConcat(query, added, name);
      WithoutAbsent(query, name);
      RemainingAdditions(added, query, quals, used, table, name);
      NameRemoved(added, name);
      added := Without(added, name);
      assert !HasName(query + added, name);
    }
    AdditionsAreRechecked(service, added, query, quals, used, table, keep);
  }

  /** Without that condition a qualifier silently replaces a configured filter. */
  lemma StaticParameterOverridden(name: string, configured: string, qual: Qual, table: TableConfig)
    requires Pushed(qual, {}) && RemoteName(qual.field, table) == name && QualValue(qual).value != configured
    ensures PushQuals([(name, configured)], [qual], {}, table) == [(name, QualValue(qual).value)]
  {
    var query := [(name, configured)];
    assert [qual][..0] == [] && query[1..] == [];
    assert PushQuals(query, [], {}, table) == query;
    assert Without(query, name) == [];
  }

  /** Whatever bounds a query that pushes nothing, it keeps the first rows of the configured collection. */
  lemma LimitedQueryKeepsFirstRows(libraries: Libraries, service: Service, used: set<string>, table: TableConfig,
                                   cap: nat)
    requires table.limitParam.Some? ==> service.LimitsHonestly(table.limitParam.value)
    requires table.limitParam.None? && PageSizeName(table).Some? ==> service.PagesNeutrally(PageSizeName(table).value)
    requires Bounding(table, Some(cap)).Some? ==>
      !HasName(StaticQuery(libraries, table), Bounding(table, Some(cap)).value.0)
    ensures Prefix(service.rows(PlannedQuery(libraries, table, [], used, Some(cap))), cap)
      == Prefix(service.rows(StaticQuery(libraries, table)), cap)
  {
    var query := StaticQuery(libraries, table);
    BoundPageSets(query, table, Some(cap));
    if Bounding(table, Some(cap)).Some? {
      var pair := Bounding(table, Some(cap)).value;
      WithoutAbsent(query, pair.0);
      assert SetQueryValue(query, pair.0, pair.1) == With(query, pair);
    }
  }

  /** A collection of one row, for which a limit of 0 selects nothing. */
  function OneRow(): Service {
    Service(query => if ("limit", Decimal(0)) in query then [] else [Null], (name, value) => row => true)
  }

  /** With a configured limit, even a service that honours limits answers another query than the one configured. */
  lemma OverriddenLimitChangesTheAnswer(libraries: Libraries, table: TableConfig)
    requires table.limitParam == Some("limit") && StaticQuery(libraries, table) == [("limit", Decimal(0))]
    ensures OneRow().LimitsHonestly("limit")
    ensures Limited(OneRow().rows(PlannedQuery(libraries, table, [], {}, Some(1))), Limit(1, 0))
      != Limited(OneRow().rows(StaticQuery(libraries, table)), Limit(1, 0))
  {
    StaticLimitOverridden(libraries, table, Decimal(0), 1);
    forall query: Query, n: nat | !HasName(query, "limit")
      ensures Prefix(OneRow().rows(With(query, ("limit", Decimal(n)))), n) == Prefix(OneRow().rows(query), n)
    {
      if Decimal(n) == Decimal(0) {
        DecimalInjective(n, 0);
      }
      assert ("limit", Decimal(0)) !in query;
    }
    if Decimal(1) == Decimal(0) {
      DecimalInjective(1, 0);
    }
  }
}
