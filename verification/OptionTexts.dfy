/**
 What the options of a table say (src/options.rs): which texts and documents are accepted, and
 which configuration they stand for.
 */
module OptionTexts {
  import opened Text
  import opened Json
  import opened Templates
  import opened TableOptions
  import opened Configurations

  // ---------- numbers ----------

  /** A number in decimal, perhaps behind zeros and a plus sign. */
  ghost predicate Denotes(text: string, n: nat) {
    exists k: nat | k <= |text| :: text == Zeros(k) + Decimal(n) || text == "+" + (Zeros(k) + Decimal(n))
  }

  lemma NumberIsExact(text: string, n: nat)
    ensures ParseU64(text) == Some(n) <==> Denotes(text, n) && n <= U64_MAX
  {
    var digits := if text != "" && text[0] == '+' then text[1..] else text;
    if ParseU64(text) == Some(n) {
      var k := DigitsArePadded(digits);
      assert text == digits || text == "+" + digits;
    }
    if Denotes(text, n) {
      var k: nat :| k <= |text| && (text == Zeros(k) + Decimal(n) || text == "+" + (Zeros(k) + Decimal(n)));
      PaddedIsParsed(k, n);
      var padded := Zeros(k) + Decimal(n);
      assert padded[0] in padded;
      assert digits == padded;
    }
  }

  // ---------- single options ----------

  /** A number option: absent, or a number from one to the maximum. */
  ghost predicate SaysNumber(o: Options, name: string, maximum: nat, n: Option<nat>) {
    if name in o.text then n.Some? && 1 <= n.value <= maximum && Denotes(o.text[name], n.value) else n.None?
  }

  /** A pointer option: absent or empty, or a rooted path. */
  predicate SaysPointer(o: Options, name: string, pointer: Option<string>) {
    if name in o.text && o.text[name] != "" then pointer == Some(o.text[name]) && o.text[name][0] == '/'
    else pointer.None?
  }

  /** A name option: absent, switched off by a blank text, or given. */
  predicate SaysName(o: Options, name: string, default: Option<string>, value: Option<string>) {
    if name !in o.text then value == default
    else if IsBlank(o.text[name]) then value.None? else value == Some(o.text[name])
  }

  /** A method, in any case of letters. */
  predicate SaysVerb(o: Options, name: string, default: string, verb: string) {
    if name in o.text then verb == Uppercase(o.text[name]) else verb == default
  }

  predicate SaysPages(o: Options, mode: PaginationMode) {
    match TextOption(o, "pagination")
    case None => mode == AutoPages
    case Some(text) => (text == "auto" && mode == AutoPages) || (text == "none" && mode == NoPages)
  }

  predicate SaysErrors(o: Options, mode: TypeErrorMode) {
    match TextOption(o, "on_type_error")
    case None => mode == ErrorMode
    case Some(text) => (text == "error" && mode == ErrorMode) || (text == "null" && mode == NullMode)
  }

  predicate SaysWrites(o: Options, mode: WriteMode) {
    TextOption(o, "write_mode") == Some(ModeName(mode)) || (TextOption(o, "write_mode").None? && mode == ColumnsMode)
  }

  predicate SaysAttrs(o: Options, column: string) {
    TextOption(o, "attrs_column") == Some(column) || (TextOption(o, "attrs_column").None? && column == "attrs")
  }

  predicate SaysDocument(o: Options, name: string, value: Option<Json>) {
    if name in o.json then value.Some? && o.json[name] == value else value.None?
  }

  predicate SaysObject(o: Options, name: string, fields: map<string, Json>) {
    if name in o.json then o.json[name] == Some(Obj(fields)) else fields == map[]
  }

  predicate SaysStrings(o: Options, name: string, strings: map<string, string>) {
    if name in o.json then o.json[name] == Some(StringObject(strings)) else strings == map[]
  }

  /** A list of names: absent, or with at least one entry and none that is blank. */
  ghost predicate SaysNames(o: Options, name: string, names: Option<set<string>>) {
    if name !in o.json then names.None?
    else exists items: seq<Json> :: o.json[name] == Some(Arr(items)) && ListsNames(items, names)
  }

  ghost predicate ListsNames(items: seq<Json>, names: Option<set<string>>) {
    && items != [] && names.Some?
    && (forall i | 0 <= i < |items| :: items[i].Str? && !IsBlank(items[i].text))
    && forall n :: n in names.value <==> Str(n) in items
  }

  lemma BoundedIsExact(o: Options, name: string, maximum: nat, n: Option<nat>)
    requires maximum <= U64_MAX
    ensures BoundedOption(o, name, 1, maximum) == Ok(n) <==> SaysNumber(o, name, maximum, n)
  {
    if name in o.text {
      if n.Some? {
        NumberIsExact(o.text[name], n.value);
      }
    }
  }

  lemma StringsAreExact(o: Options, name: string, strings: map<string, string>)
    ensures StringMapOption(o, name) == Ok(strings) <==> SaysStrings(o, name, strings)
  {
    if SaysStrings(o, name, strings) && name in o.json {
      StringMapReadsBack(o, name, strings);
    }
    if StringMapOption(o, name) == Ok(strings) && name in o.json {
      var fields := ObjectOption(o, name).value;
      assert strings == map key | key in fields :: if fields[key].Str? then fields[key].text else "";
      forall key | key in fields
        ensures key in strings && fields[key] == Str(strings[key])
      {
      }
      assert fields == StringObject(strings).fields;
    }
  }

  lemma TextsOfItems(items: seq<Json>)
    requires forall i | 0 <= i < |items| :: items[i].Str?
    ensures forall n :: n in (set item | item in items && item.Str? :: item.text) <==> Str(n) in items
  {
  }

  lemma NamesAreExact(o: Options, name: string, names: Option<set<string>>)
    ensures StringSetOption(o, name) == Ok(names) <==> SaysNames(o, name, names)
  {
    if name in o.json && o.json[name].Some? && o.json[name].value.Arr? {
      ItemsAreExact(o, name, o.json[name].value.items, names);
      assert o.json[name] == Some(Arr(o.json[name].value.items));
    }
  }

  lemma ItemsAreExact(o: Options, name: string, items: seq<Json>, names: Option<set<string>>)
    requires name in o.json && o.json[name] == Some(Arr(items))
    ensures StringSetOption(o, name) == Ok(names) <==> ListsNames(items, names)
  {
    var texts := set item | item in items && item.Str? :: item.text;
    if forall item <- items :: IsColumnName(item) {
      assert forall i | 0 <= i < |items| :: items[i] in items;
      TextsOfItems(items);
      if ListsNames(items, names) {
        assert names.value == texts;
      }
    } else {
      var item :| item in items && !IsColumnName(item);
      var i :| 0 <= i < |items| && items[i] == item;
    }
  }

  // ---------- mutations ----------

  /** A template holds the identity's placeholder and no other, and at least one where a row is meant. */
  predicate RefersTo(endpoint: string, parameter: Option<string>, needsRow: bool) {
    var placeholders := PathPlaceholders(endpoint);
    && placeholders.Ok? && (forall p <- placeholders.value :: parameter == Some(p))
    && (needsRow ==> placeholders.value != [])
  }

  /** An operation: without an endpoint nothing may be said of its method. */
  predicate SaysOperation(o: Options, endpointName: string, methodName: string, default: string, verbs: seq<string>,
                          parameter: Option<string>, needsRow: bool, operation: Option<MutationOperation>) {
    match operation
    case None => methodName !in o.text && SaysName(o, endpointName, None, None)
    case Some(MutationOperation(endpoint, verb)) =>
      && SaysName(o, endpointName, None, Some(endpoint)) && SaysVerb(o, methodName, default, verb)
      && verb in verbs && !IsAbsolute(endpoint) && RefersTo(endpoint, parameter, needsRow)
  }

  lemma OperationIsExact(o: Options, endpointName: string, methodName: string, default: string, verbs: seq<string>,
                         parameter: Option<string>, needsRow: bool, operation: Option<MutationOperation>)
    ensures ParseMutation(o, endpointName, methodName, default, verbs, parameter, needsRow) == Ok(operation) <==>
      SaysOperation(o, endpointName, methodName, default, verbs, parameter, needsRow, operation)
  {
    var endpoint := NonEmptyOption(o, endpointName, None);
    if endpoint.Some? && PathPlaceholders(endpoint.value).Ok? {
      PlaceholdersRefer(endpoint.value, parameter, needsRow);
    }
  }

  lemma PlaceholdersRefer(endpoint: string, parameter: Option<string>, needsRow: bool)
    requires PathPlaceholders(endpoint).Ok?
    ensures var placeholders := PathPlaceholders(endpoint).value;
      RefersTo(endpoint, parameter, needsRow) <==>
        !UsesOtherName(placeholders, parameter)
        && !(needsRow && (parameter.None? || parameter.value !in placeholders))
  {
    var placeholders := PathPlaceholders(endpoint).value;
    if placeholders != [] {
      assert placeholders[0] in placeholders;
    }
  }

  // ---------- the write side ----------

  /** The identity of a row: its column, and the placeholder that stands for it. */
  predicate SaysIdentity(o: Options, rowid: Option<string>, parameter: Option<string>) {
    && SaysName(o, "rowid_column", None, rowid) && ("rowid_parameter" in o.text ==> rowid.Some?)
    && parameter == (
         if "rowid_parameter" in o.text && !IsBlank(o.text["rowid_parameter"]) then Some(o.text["rowid_parameter"])
         else rowid)
    && (parameter.Some? ==> !IsBlank(parameter.value) && forall c <- parameter.value :: c !in "{}/?#")
  }

  predicate SaysOperations(o: Options, m: Mutations) {
    && SaysOperation(o, "insert_endpoint", "insert_method", "POST", ["POST", "PUT"], m.rowidParameter, false, m.insert)
    && SaysOperation(o, "update_endpoint", "update_method", "PATCH", ["PATCH", "PUT"], m.rowidParameter, true, m.update)
    && SaysOperation(o, "delete_endpoint", "delete_method", "DELETE", ["DELETE"], m.rowidParameter, true, m.delete)
  }

  /** What may be said of writing depends on what else is said. */
  predicate Combines(m: Mutations, modeGiven: bool, attrs: string) {
    && (m.insert.Some? || m.update.Some? || m.delete.Some? ==> m.rowidColumn.Some?)
    && (m.insert.None? && m.update.None? && m.delete.None? ==> !modeGiven && m.writeColumns.None?)
    && (m.writeColumns.Some? ==>
          && m.writeMode != AttrsMode && attrs !in m.writeColumns.value
          && (m.rowidColumn.Some? ==> m.rowidColumn.value !in m.writeColumns.value))
  }

  ghost predicate SaysWriteSide(o: Options, m: Mutations, attrs: string) {
    && SaysIdentity(o, m.rowidColumn, m.rowidParameter) && SaysOperations(o, m)
    && SaysWrites(o, m.writeMode) && SaysNames(o, "write_columns", m.writeColumns)
    && Combines(m, "write_mode" in o.text, attrs)
  }

  lemma IdentityIsExact(o: Options, rowid: Option<string>, parameter: Option<string>)
    ensures SaysIdentity(o, rowid, parameter) <==>
      && RowidColumnOption(o) == rowid && ParameterOption(o) == parameter
      && ("rowid_parameter" in o.text ==> rowid.Some?)
      && (parameter.Some? ==> IsParameterName(parameter.value))
  {
  }

  lemma OperationsAreExact(o: Options, m: Mutations)
    requires ParameterOption(o) == m.rowidParameter
    ensures SaysOperations(o, m) <==>
      InsertOption(o) == Ok(m.insert) && UpdateOption(o) == Ok(m.update) && DeleteOption(o) == Ok(m.delete)
  {
    var parameter := m.rowidParameter;
    OperationIsExact(o, "insert_endpoint", "insert_method", "POST", ["POST", "PUT"], parameter, false, m.insert);
    OperationIsExact(o, "update_endpoint", "update_method", "PATCH", ["PATCH", "PUT"], parameter, true, m.update);
    OperationIsExact(o, "delete_endpoint", "delete_method", "DELETE", ["DELETE"], parameter, true, m.delete);
  }

  lemma ChecksAreExact(rowid: Option<string>, parameter: Option<string>, parameterGiven: bool,
                       insert: Result<Option<MutationOperation>>, update: Result<Option<MutationOperation>>,
                       delete: Result<Option<MutationOperation>>, mode: Result<WriteMode>, modeGiven: bool,
                       columns: Result<Option<set<string>>>, attrs: string, m: Mutations)
    ensures
      (CheckMutations(rowid, parameter, parameterGiven, insert, update, delete, mode, modeGiven, columns, attrs)
        == Ok(m)) <==>
      && m.rowidColumn == rowid && m.rowidParameter == parameter && (parameterGiven ==> rowid.Some?)
      && (parameter.Some? ==> IsParameterName(parameter.value))
      && insert == Ok(m.insert) && update == Ok(m.update) && delete == Ok(m.delete)
      && mode == Ok(m.writeMode) && columns == Ok(m.writeColumns)
      && Combines(m, modeGiven, attrs)
  {
  }

  lemma WriteModeIsExact(o: Options, mode: WriteMode)
    ensures WriteModeOption(o) == Ok(mode) <==> SaysWrites(o, mode)
  {
  }

  lemma WriteSideIsExact(o: Options, m: Mutations)
    ensures ParseMutations(o) == Ok(m) <==> SaysWriteSide(o, m, AttrsColumn(o))
  {
    IdentityIsExact(o, m.rowidColumn, m.rowidParameter);
    if ParameterOption(o) == m.rowidParameter {
      OperationsAreExact(o, m);
    }
    WriteModeIsExact(o, m.writeMode);
    NamesAreExact(o, "write_columns", m.writeColumns);
    ChecksAreExact(RowidColumnOption(o), ParameterOption(o), TextOption(o, "rowid_parameter").Some?,
      InsertOption(o), UpdateOption(o), DeleteOption(o), WriteModeOption(o), TextOption(o, "write_mode").Some?,
      StringSetOption(o, "write_columns"), AttrsColumn(o), m);
  }

  // ---------- the whole table ----------

  predicate SaysPlaces(o: Options, c: TableConfig) {
    && SaysPointer(o, "response_path", c.responsePath) && SaysPointer(o, "object_path", c.objectPath)
    && SaysPointer(o, "cursor_path", c.cursorPath)
    && SaysName(o, "limit_param", Some("limit"), c.limitParam) && SaysName(o, "page_size_param", None, c.pageSizeParam)
    && SaysName(o, "cursor_param", Some("cursor"), c.cursorParam) && SaysAttrs(o, c.attrsColumn)
  }

  predicate SaysDocuments(o: Options, c: TableConfig) {
    && SaysObject(o, "query_params", c.queryParams) && SaysDocument(o, "request_body", c.requestBody)
    && SaysStrings(o, "column_map", c.columnMap) && SaysStrings(o, "query_param_map", c.queryParamMap)
  }

  ghost predicate SaysLimits(o: Options, c: TableConfig) {
    && SaysPages(o, c.pagination) && SaysErrors(o, c.typeError)
    && SaysNumber(o, "page_size", 1_000_000, c.pageSize) && SaysNumber(o, "max_pages", 10_000, c.maxPages)
  }

  /** A relative endpoint, read by GET or POST. */
  predicate SaysEndpoint(o: Options, c: TableConfig) {
    && TextOption(o, "endpoint") == Some(c.endpoint) && !IsBlank(c.endpoint) && !IsAbsolute(c.endpoint)
    && SaysVerb(o, "method", "GET", c.verb) && (c.verb == "GET" || c.verb == "POST")
  }

  ghost predicate Says(o: Options, c: TableConfig) {
    && SaysEndpoint(o, c) && SaysPlaces(o, c) && SaysDocuments(o, c) && SaysLimits(o, c)
    && SaysWriteSide(o, WriteSide(c), c.attrsColumn)
  }

  predicate Reads(r: ReadSide, c: TableConfig) {
    && r.endpoint == Some(c.endpoint) && !IsBlank(c.endpoint) && !IsAbsolute(c.endpoint)
    && r.verb == c.verb && (c.verb == "GET" || c.verb == "POST")
    && r.responsePath == Ok(c.responsePath) && r.objectPath == Ok(c.objectPath) && r.cursorPath == Ok(c.cursorPath)
    && r.queryParams == Ok(c.queryParams) && r.requestBody == Ok(c.requestBody)
    && r.pagination == Ok(c.pagination) && r.typeError == Ok(c.typeError)
    && r.columnMap == Ok(c.columnMap) && r.queryParamMap == Ok(c.queryParamMap)
    && r.pageSize == Ok(c.pageSize) && r.maxPages == Ok(c.maxPages) && r.attrsColumn == c.attrsColumn
    && r.limitParam == c.limitParam && r.pageSizeParam == c.pageSizeParam && r.cursorParam == c.cursorParam
  }

  lemma CheckIsExact(r: ReadSide, m: Result<Mutations>, c: TableConfig)
    ensures CheckTable(r, m) == Ok(c) <==> Reads(r, c) && m == Ok(WriteSide(c))
  {
  }

  lemma PointerIsExact(o: Options, name: string, pointer: Option<string>)
    ensures PointerOption(o, name) == Ok(pointer) <==> SaysPointer(o, name, pointer)
  {
  }

  lemma ObjectIsExact(o: Options, name: string, fields: map<string, Json>)
    ensures ObjectOption(o, name) == Ok(fields) <==> SaysObject(o, name, fields)
  {
  }

  lemma DocumentIsExact(o: Options, name: string, value: Option<Json>)
    ensures JsonOption(o, name) == Ok(value) <==> SaysDocument(o, name, value)
  {
  }

  lemma ModesAreExact(o: Options, c: TableConfig)
    ensures PaginationOption(o) == Ok(c.pagination) <==> SaysPages(o, c.pagination)
    ensures TypeErrorOption(o) == Ok(c.typeError) <==> SaysErrors(o, c.typeError)
  {
  }

  lemma PlacesAreExact(o: Options, c: TableConfig)
    ensures SaysPlaces(o, c) <==>
      && PointerOption(o, "response_path") == Ok(c.responsePath) && PointerOption(o, "object_path") == Ok(c.objectPath)
      && PointerOption(o, "cursor_path") == Ok(c.cursorPath)
      && NonEmptyOption(o, "limit_param", Some("limit")) == c.limitParam
      && NonEmptyOption(o, "page_size_param", None) == c.pageSizeParam
      && NonEmptyOption(o, "cursor_param", Some("cursor")) == c.cursorParam && AttrsColumn(o) == c.attrsColumn
  {
    PointerIsExact(o, "response_path", c.responsePath);
    PointerIsExact(o, "object_path", c.objectPath);
    PointerIsExact(o, "cursor_path", c.cursorPath);
  }

  lemma DocumentsAreExact(o: Options, c: TableConfig)
    ensures SaysDocuments(o, c) <==>
      && ObjectOption(o, "query_params") == Ok(c.queryParams) && JsonOption(o, "request_body") == Ok(c.requestBody)
      && StringMapOption(o, "column_map") == Ok(c.columnMap)
      && StringMapOption(o, "query_param_map") == Ok(c.queryParamMap)
  {
    ObjectIsExact(o, "query_params", c.queryParams);
    DocumentIsExact(o, "request_body", c.requestBody);
    StringsAreExact(o, "column_map", c.columnMap);
    StringsAreExact(o, "query_param_map", c.queryParamMap);
  }

  lemma LimitsAreExact(o: Options, c: TableConfig)
    ensures SaysLimits(o, c) <==>
      && PaginationOption(o) == Ok(c.pagination) && TypeErrorOption(o) == Ok(c.typeError)
      && BoundedOption(o, "page_size", 1, 1_000_000) == Ok(c.pageSize)
      && BoundedOption(o, "max_pages", 1, 10_000) == Ok(c.maxPages)
  {
    ModesAreExact(o, c);
    BoundedIsExact(o, "page_size", 1_000_000, c.pageSize);
    BoundedIsExact(o, "max_pages", 10_000, c.maxPages);
  }

  lemma ReadSideIsExact(o: Options, c: TableConfig)
    ensures Reads(ParseReadSide(o), c) <==>
      SaysEndpoint(o, c) && SaysPlaces(o, c) && SaysDocuments(o, c) && SaysLimits(o, c)
  {
    PlacesAreExact(o, c);
    DocumentsAreExact(o, c);
    LimitsAreExact(o, c);
  }

  /** Options are accepted and give a configuration exactly if each of them says its part of it. */
  lemma TableIsExact(o: Options, c: TableConfig)
    ensures FromOptions(o) == Ok(c) <==> Says(o, c)
  {
    CheckIsExact(ParseReadSide(o), ParseMutations(o), c);
    ReadSideIsExact(o, c);
    WriteSideIsExact(o, WriteSide(c));
    PlacesAreExact(o, c);
  }
}
