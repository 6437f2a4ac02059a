/**
 Requests to the remote service: URLs (src/http.rs) and query strings (src/fdw.rs).
 URL parsing and the printing of JSON belong to other libraries and are parameters.
 */
module Requests {
  import opened Text
  import opened Json
  import opened Cells
  import opened TableOptions

  // ---------- URLs (src/http.rs) ----------

  datatype Url = Url(scheme: string, host: Option<string>, port: Option<nat>, path: string, query: Option<string>)

  /** What other libraries decide. */
  datatype Libraries = Libraries(
    parse: string -> Option<Url>,            // Url::parse
    join: (Url, string) -> Option<Url>,      // Url::join
    endpoint: (Url, string) -> Option<Url>,  // endpoint_url: the base and the path, parsed
    display: Json -> string)                 // Value::to_string

  function PortOrDefault(url: Url): Option<nat> {
    if url.port.Some? then url.port
    else if Lowercase(url.scheme) == "http" then Some(80)
    else if Lowercase(url.scheme) == "https" then Some(443)
    else None
  }

  /** `same_origin`. */
  predicate SameOrigin(a: Url, b: Url) {
    && Lowercase(a.scheme) == Lowercase(b.scheme)
    && a.host.Some? && b.host.Some? && Lowercase(a.host.value) == Lowercase(b.host.value)
    && PortOrDefault(a) == PortOrDefault(b)
  }

  /** `resolve_page_url`. */
  function ResolvePageUrl(libraries: Libraries, base: Url, current: Url, raw: string,
                          allowCrossOrigin: bool): (r: Result<Url>)
    ensures r.Ok? && !allowCrossOrigin ==> SameOrigin(base, r.value)
  {
    var next :=
      if IsAbsolute(raw) then libraries.parse(raw)
      else if "?" <= raw then Some(current.(query := Some(raw[1..])))
      else if "/" <= raw then libraries.join(base, raw)
      else libraries.join(current, raw);
    if next.None? || next.value.scheme !in ["http", "https"] then Err(Response)
    else if !allowCrossOrigin && !SameOrigin(base, next.value) then Err(Response)
    else Ok(next.value)
  }

  /** The port a URL is reached at. */
  predicate ReachedAt(url: Url, port: nat) {
    if url.port.Some? then url.port.value == port
    else (Lowercase(url.scheme) == "http" && port == 80) || (Lowercase(url.scheme) == "https" && port == 443)
  }

  /** One origin is one scheme, one host and one port, given or implied. */
  lemma OriginIsExact(a: Url, b: Url)
    requires Lowercase(a.scheme) in ["http", "https"]
    ensures SameOrigin(a, b) <==> (
      && Lowercase(a.scheme) == Lowercase(b.scheme) && a.host.Some? && b.host.Some?
      && Lowercase(a.host.value) == Lowercase(b.host.value)
      && exists port :: ReachedAt(a, port) && ReachedAt(b, port))
  {
    if SameOrigin(a, b) {
      assert ReachedAt(a, PortOrDefault(a).value) && ReachedAt(b, PortOrDefault(a).value);
    }
  }

  /** Where a page URL leads: by itself, as a query, below the base, or relative to the page it was found at. */
  function Led(libraries: Libraries, base: Url, current: Url, raw: string): Option<Url> {
    if "http://" <= raw || "https://" <= raw then libraries.parse(raw)
    else if raw != "" && raw[0] == '?' then Some(current.(query := Some(raw[1..])))
    else if raw != "" && raw[0] == '/' then libraries.join(base, raw)
    else libraries.join(current, raw)
  }

  /** A page URL is followed exactly there, if that is a web address of the base's origin or origins do not matter. */
  lemma PageUrlIsExact(libraries: Libraries, base: Url, current: Url, raw: string, allowCrossOrigin: bool, url: Url)
    ensures ResolvePageUrl(libraries, base, current, raw, allowCrossOrigin) == Ok(url) <==>
      && Led(libraries, base, current, raw) == Some(url)
      && (url.scheme == "http" || url.scheme == "https")
      && (allowCrossOrigin || SameOrigin(base, url))
  {
  }

  // ---------- requests ----------

  type Query = seq<(string, string)>

  datatype HttpRequest = HttpRequest(verb: string, url: Url, query: Query, body: Option<Json>)

  datatype HttpResponse = HttpResponse(value: Json, links: seq<string>, effectiveUrl: Url)

  function Without(query: Query, name: string): Query {
    if query == [] then []
    else if query[0].0 == name then Without(query[1..], name)
    else [query[0]] + Without(query[1..], name)
  }

  /** `set_query_value`: the name's only pair, at the end. */
  function SetQueryValue(query: Query, name: string, value: string): Query {
    Without(query, name) + [(name, value)]
  }

  // ---------- the planned query ----------

  /** `json_scalar_string`. */
  function JsonScalar(value: Json): Option<string> {
    match value
    case Bool(b) => Some(if b then "true" else "false")
    case Num(text) => Some(text)
    case Str(text) => Some(text)
    case _ => None
  }

  function Scalars(name: string, values: seq<Json>): Query {
    if values == [] then []
    else (match JsonScalar(values[0]) case Some(text) => [(name, text)] case None => []) + Scalars(name, values[1..])
  }

  /** `json_query_values`. */
  function JsonQueryValues(libraries: Libraries, name: string, value: Json): Query {
    if value.Arr? then Scalars(name, value.items)
    else match JsonScalar(value)
      case Some(text) => [(name, text)]
      case None => [(name, libraries.display(value))]
  }

  function StaticPairs(libraries: Libraries, names: seq<string>, params: map<string, Json>): Query {
    if names == [] then []
    else (if names[0] in params then JsonQueryValues(libraries, names[0], params[names[0]]) else [])
         + StaticPairs(libraries, names[1..], params)
  }

  /** The configured query parameters. */
  function StaticQuery(libraries: Libraries, table: TableConfig): Query {
    StaticPairs(libraries, InOrder(table.queryParams.Keys), table.queryParams)
  }

  /** How a configured scalar is sent. */
  predicate SentAs(value: Json, text: string) {
    || value == Str(text) || value == Num(text)
    || (value == Bool(true) && text == "true") || (value == Bool(false) && text == "false")
  }

  predicate SomeSentAs(values: seq<Json>, text: string) {
    exists value <- values :: SentAs(value, text)
  }

  lemma FirstOrRest(values: seq<Json>, text: string)
    requires values != []
    ensures SomeSentAs(values, text) <==> SentAs(values[0], text) || SomeSentAs(values[1..], text)
  {
    assert values == [values[0]] + values[1..];
  }

  lemma ScalarIsExact(value: Json, text: string)
    ensures JsonScalar(value) == Some(text) <==> SentAs(value, text)
  {
  }

  /** What a configured parameter sends: a scalar as text, each scalar of a list, and anything else as JSON. */
  predicate Sends(libraries: Libraries, value: Json, text: string) {
    match value
    case Arr(items) => SomeSentAs(items, text)
    case Obj(_) => text == libraries.display(value)
    case Null => text == libraries.display(value)
    case _ => SentAs(value, text)
  }

  lemma {:induction false} ScalarsAreExact(name: string, values: seq<Json>, pair: (string, string))
    ensures pair in Scalars(name, values) <==> pair.0 == name && SomeSentAs(values, pair.1)
  {
    if values != [] {
      ScalarsAreExact(name, values[1..], pair);
      ScalarIsExact(values[0], pair.1);
      FirstOrRest(values, pair.1);
      var first := Scalars(name, [values[0]]);
      FirstScalars(name, values[0], values[1..]);
      assert values == [values[0]] + values[1..];
    }
  }

  lemma FirstScalars(name: string, value: Json, rest: seq<Json>)
    ensures Scalars(name, [value] + rest) == Scalars(name, [value]) + Scalars(name, rest)
  {
    assert ([value] + rest)[1..] == rest;
  }

  /** The scalars of a list are sent one after the other. */
  lemma {:induction false} ScalarsInOrder(name: string, front: seq<Json>, back: seq<Json>)
    ensures Scalars(name, front + back) == Scalars(name, front) + Scalars(name, back)
  {
    if front == [] {
      assert front + back == back;
    } else {
      ScalarsInOrder(name, front[1..], back);
      FirstScalars(name, front[0], front[1..] + back);
      FirstScalars(name, front[0], front[1..]);
      assert front == [front[0]] + front[1..];
      assert front + back == [front[0]] + (front[1..] + back);
      var first, middle, last := Scalars(name, [front[0]]), Scalars(name, front[1..]), Scalars(name, back);
      assert first + (middle + last) == first + middle + last;
    }
  }

  lemma QueryValuesAreExact(libraries: Libraries, name: string, value: Json, pair: (string, string))
    ensures pair in JsonQueryValues(libraries, name, value) <==> pair.0 == name && Sends(libraries, value, pair.1)
  {
    if value.Arr? {
      ScalarsAreExact(name, value.items, pair);
    }
  }

  lemma {:induction false} StaticPairsAreExact(libraries: Libraries, names: seq<string>, params: map<string, Json>,
                                               pair: (string, string))
    ensures pair in StaticPairs(libraries, names, params) <==>
      pair.0 in names && pair.0 in params && Sends(libraries, params[pair.0], pair.1)
  {
    if names != [] {
      StaticPairsAreExact(libraries, names[1..], params, pair);
      assert names == [names[0]] + names[1..];
      if names[0] in params {
        QueryValuesAreExact(libraries, names[0], params[names[0]], pair);
      }
    }
  }

  /** The configured query says exactly what the configured parameters send. */
  lemma StaticQueryIsExact(libraries: Libraries, table: TableConfig, pair: (string, string))
    ensures pair in StaticQuery(libraries, table) <==>
      pair.0 in table.queryParams && Sends(libraries, table.queryParams[pair.0], pair.1)
  {
    StaticPairsAreExact(libraries, InOrder(table.queryParams.Keys), table.queryParams, pair);
  }

  /** The remote name of a column. */
  function RemoteName(field: string, table: TableConfig): string {
    if field in table.queryParamMap then table.queryParamMap[field] else field
  }

  /** Whether a qualifier goes into the query string. */
  predicate Pushed(qual: Qual, used: set<string>) {
    Lowercase(qual.field) !in used && QualValue(qual).Some?
  }

  function PushQuals(query: Query, quals: seq<Qual>, used: set<string>, table: TableConfig): Query {
    if quals == [] then query
    else
      var last := quals[|quals| - 1];
      var sofar := PushQuals(query, quals[..|quals| - 1], used, table);
      if Pushed(last, used) then SetQueryValue(sofar, RemoteName(last.field, table), QualValue(last).value) else sofar
  }

  datatype Limit = Limit(count: int, offset: int)

  const I64_MIN := -0x8000_0000_0000_0000
  const I64_MAX := 0x7FFF_FFFF_FFFF_FFFF

  function SaturatingAdd(a: int, b: int): int {
    if a + b > I64_MAX then I64_MAX else if a + b < I64_MIN then I64_MIN else a + b
  }

  /** How many rows a scan may deliver; only an unfiltered, unsorted scan is bounded. */
  function RowCap(quals: seq<Qual>, sorted: bool, limit: Option<Limit>): Option<nat> {
    if quals == [] && !sorted && limit.Some? then
      var rows := SaturatingAdd(limit.value.count, limit.value.offset);
      Some(if rows < 0 then 0 else rows)
    else None
  }

  function BoundPage(query: Query, table: TableConfig, cap: Option<nat>): Query {
    if cap.Some? && table.limitParam.Some? then SetQueryValue(query, table.limitParam.value, Decimal(cap.value))
    else
      var name := if table.pageSizeParam.Some? then table.pageSizeParam else table.limitParam;
      if table.pageSize.Some? && name.Some? then SetQueryValue(query, name.value, Decimal(table.pageSize.value))
      else query
  }

  /** The query string a scan starts with. */
  function PlannedQuery(libraries: Libraries, table: TableConfig, quals: seq<Qual>, used: set<string>,
                        cap: Option<nat>): Query {
    BoundPage(PushQuals(StaticQuery(libraries, table), quals, used, table), table, cap)
  }

  method PlanQuery(libraries: Libraries, table: TableConfig, quals: seq<Qual>, used: set<string>, cap: Option<nat>)
    returns (query: Query)
    ensures query == PlannedQuery(libraries, table, quals, used, cap)
  {
    query := StaticQuery(libraries, table);
    ghost var start := query;
    for i := 0 to |quals|
      invariant query == PushQuals(start, quals[..i], used, table)
    {
      assert quals[..i + 1][..i] == quals[..i];
      if Lowercase(quals[i].field) in used {
        continue;
      }
      var value := QualValue(quals[i]);
      if value.Some? {
        query := SetQueryValue(query, RemoteName(quals[i].field, table), value.value);
      }
    }
    assert quals[..|quals|] == quals;
    if cap.Some? && table.limitParam.Some? {
      query := SetQueryValue(query, table.limitParam.value, Decimal(cap.value));
    } else if table.pageSize.Some? {
      var name := if table.pageSizeParam.Some? then table.pageSizeParam else table.limitParam;
      if name.Some? {
        query := SetQueryValue(query, name.value, Decimal(table.pageSize.value));
      }
    }
  }
}
