/**
 Which tables can be configured (src/options.rs): every valid configuration has options that stand
 for it, and whatever options are accepted stand for a valid one. The options are printed in full,
 defaults included; a name that is absent is switched off by an empty text, and JSON-valued options
 are printed as documents.
 */
module Configurations {
  import opened Text
  import opened Json
  import opened Templates
  import opened PathSubstitution
  import opened TableOptions
  import opened RowMutations

  // ---------- valid configurations ----------

  predicate IsRooted(pointer: Option<string>) {
    pointer.Some? ==> pointer.value != "" && pointer.value[0] == '/'
  }

  predicate IsGiven(name: Option<string>) {
    name.Some? ==> !IsBlank(name.value)
  }

  predicate IsWithin(n: Option<nat>, maximum: nat) {
    n.Some? ==> 1 <= n.value <= maximum
  }

  predicate ValidRead(c: TableConfig) {
    && !IsBlank(c.endpoint) && !IsAbsolute(c.endpoint) && (c.verb == "GET" || c.verb == "POST")
    && IsRooted(c.responsePath) && IsRooted(c.objectPath) && IsRooted(c.cursorPath)
    && IsWithin(c.pageSize, 1_000_000) && IsWithin(c.maxPages, 10_000)
    && IsGiven(c.limitParam) && IsGiven(c.pageSizeParam) && IsGiven(c.cursorParam)
  }

  /** An operation at a relative template that holds the identity's placeholder and no other. */
  predicate ValidOperation(operation: Option<MutationOperation>, verbs: seq<string>, parameter: Option<string>,
                           needsRow: bool) {
    operation.Some? ==> (
      && operation.value.verb in verbs
      && !IsBlank(operation.value.endpoint) && !IsAbsolute(operation.value.endpoint)
      && var placeholders := PathPlaceholders(operation.value.endpoint);
         && placeholders.Ok? && parameter.Some?
         && (forall p <- placeholders.value :: p == parameter.value)
         && (needsRow ==> placeholders.value != []))
  }

  predicate ValidIdentity(c: TableConfig) {
    && IsGiven(c.rowidColumn) && (c.rowidColumn.Some? <==> c.rowidParameter.Some?)
    && (c.rowidParameter.Some? ==>
          !IsBlank(c.rowidParameter.value) && forall ch <- c.rowidParameter.value :: ch !in "{}/?#")
  }

  predicate ValidColumns(c: TableConfig) {
    c.writeColumns.Some? ==> (
      && c.writeMode != AttrsMode && c.writeColumns.value != {}
      && (forall name <- c.writeColumns.value :: !IsBlank(name))
      && (c.rowidColumn.Some? ==> c.rowidColumn.value !in c.writeColumns.value)
      && c.attrsColumn !in c.writeColumns.value)
  }

  predicate ValidWrite(c: TableConfig) {
    && ValidIdentity(c) && ValidColumns(c)
    && ValidOperation(c.insert, ["POST", "PUT"], c.rowidParameter, false)
    && ValidOperation(c.update, ["PATCH", "PUT"], c.rowidParameter, true)
    && ValidOperation(c.delete, ["DELETE"], c.rowidParameter, true)
    && (c.insert.None? && c.update.None? && c.delete.None? ==> c.writeMode == ColumnsMode && c.writeColumns.None?)
  }

  predicate ValidTable(c: TableConfig) {
    ValidRead(c) && ValidWrite(c)
  }

  // ---------- printed options ----------

  predicate Writable(c: TableConfig) {
    c.insert.Some? || c.update.Some? || c.delete.Some?
  }

  /** An absent name is switched off with an empty option. */
  function OrEmpty(name: Option<string>): Option<string> {
    if name.Some? then name else Some("")
  }

  function Number(n: Option<nat>): Option<string> {
    if n.Some? then Some(Decimal(n.value)) else None
  }

  function PathOf(operation: Option<MutationOperation>): Option<string> {
    if operation.Some? then Some(operation.value.endpoint) else None
  }

  function VerbOf(operation: Option<MutationOperation>): Option<string> {
    if operation.Some? then Some(operation.value.verb) else None
  }

  function ModeName(mode: WriteMode): string {
    match mode
    case ColumnsMode => "columns"
    case AttrsMode => "attrs"
    case MergeMode => "merge"
  }

  function PathText(c: TableConfig, name: string): Option<string> {
    if name == "endpoint" then Some(c.endpoint)
    else if name == "method" then Some(c.verb)
    else if name == "response_path" then c.responsePath
    else if name == "object_path" then c.objectPath
    else if name == "cursor_path" then c.cursorPath
    else None
  }

  function NameText(c: TableConfig, name: string): Option<string> {
    if name == "attrs_column" then Some(c.attrsColumn)
    else if name == "limit_param" then OrEmpty(c.limitParam)
    else if name == "page_size_param" then OrEmpty(c.pageSizeParam)
    else if name == "cursor_param" then OrEmpty(c.cursorParam)
    else None
  }

  function ModeText(c: TableConfig, name: string): Option<string> {
    if name == "page_size" then Number(c.pageSize)
    else if name == "max_pages" then Number(c.maxPages)
    else if name == "pagination" then Some(if c.pagination == AutoPages then "auto" else "none")
    else if name == "on_type_error" then Some(if c.typeError == ErrorMode then "error" else "null")
    else None
  }

  function WriteText(c: TableConfig, name: string): Option<string> {
    if name == "rowid_column" then c.rowidColumn
    else if name == "rowid_parameter" then c.rowidParameter
    else if name == "insert_endpoint" then PathOf(c.insert)
    else if name == "insert_method" then VerbOf(c.insert)
    else if name == "update_endpoint" then PathOf(c.update)
    else if name == "update_method" then VerbOf(c.update)
    else if name == "delete_endpoint" then PathOf(c.delete)
    else if name == "delete_method" then VerbOf(c.delete)
    else if name == "write_mode" then if Writable(c) then Some(ModeName(c.writeMode)) else None
    else None
  }

  function OrElse(a: Option<string>, b: Option<string>): Option<string> {
    if a.Some? then a else b
  }

  function PrintedText(c: TableConfig, name: string): Option<string> {
    OrElse(PathText(c, name), OrElse(NameText(c, name), OrElse(ModeText(c, name), WriteText(c, name))))
  }

  function StringObject(fields: map<string, string>): Json {
    Obj(map name | name in fields :: Str(fields[name]))
  }

  function StringArray(names: set<string>): Json {
    Arr(Map((name: string) => Str(name), InOrder(names)))
  }

  function PrintedJson(c: TableConfig, name: string): Option<Json> {
    if name == "query_params" then Some(Obj(c.queryParams))
    else if name == "request_body" then c.requestBody
    else if name == "column_map" then Some(StringObject(c.columnMap))
    else if name == "query_param_map" then Some(StringObject(c.queryParamMap))
    else if name == "write_columns" then if c.writeColumns.Some? then Some(StringArray(c.writeColumns.value)) else None
    else None
  }

  function PrintedOptions(c: TableConfig): Options {
    Options(
      map name | name in {"endpoint", "method", "response_path", "object_path", "cursor_path", "attrs_column",
        "limit_param",
        "page_size_param", "cursor_param", "page_size", "max_pages", "pagination", "on_type_error", "rowid_column",
        "rowid_parameter", "insert_endpoint", "insert_method", "update_endpoint", "update_method", "delete_endpoint",
        "delete_method", "write_mode"} && PrintedText(c, name).Some? :: PrintedText(c, name).value,
      map name | name in {"query_params", "request_body", "column_map", "query_param_map", "write_columns"}
        && PrintedJson(c, name).Some? :: PrintedJson(c, name))
  }

  lemma TextOf(c: TableConfig, name: string)
    ensures TextOption(PrintedOptions(c), name) == PrintedText(c, name)
  {
  }

  lemma JsonOf(c: TableConfig, name: string)
    ensures JsonOption(PrintedOptions(c), name) == Ok(PrintedJson(c, name))
  {
  }

  // ---------- single options read back ----------

  lemma BoundedReadsBack(o: Options, name: string, n: Option<nat>, maximum: nat)
    requires TextOption(o, name) == Number(n) && IsWithin(n, maximum) && maximum <= U64_MAX
    ensures BoundedOption(o, name, 1, maximum) == Ok(n)
  {
    if n.Some? {
      DecimalIsParsed(n.value);
      assert IsDigit(Decimal(n.value)[0]);
    }
  }

  lemma NameReadsBack(o: Options, name: string, value: Option<string>, default: Option<string>)
    requires TextOption(o, name) == OrEmpty(value) && IsGiven(value)
    ensures NonEmptyOption(o, name, default) == value
  {
    assert IsBlank("");
  }

  lemma PointerReadsBack(o: Options, name: string, pointer: Option<string>)
    requires TextOption(o, name) == pointer && IsRooted(pointer)
    ensures PointerOption(o, name) == Ok(pointer)
  {
  }

  lemma VerbIsUpper(verb: string)
    requires verb in ["GET", "POST", "PUT", "PATCH", "DELETE"]
    ensures Uppercase(verb) == verb
  {
  }

  lemma StringMapReadsBack(o: Options, name: string, fields: map<string, string>)
    requires JsonOption(o, name) == Ok(Some(StringObject(fields)))
    ensures StringMapOption(o, name) == Ok(fields)
  {
    var printed := StringObject(fields).fields;
    assert ObjectOption(o, name) == Ok(printed);
    assert (map key | key in printed :: if printed[key].Str? then printed[key].text else "") == fields;
  }

  lemma StringSetReadsBack(o: Options, name: string, names: Option<set<string>>)
    requires JsonOption(o, name) == Ok(if names.Some? then Some(StringArray(names.value)) else None)
    requires names.Some? ==> names.value != {} && forall n <- names.value :: !IsBlank(n)
    ensures StringSetOption(o, name) == Ok(names)
  {
    if names.Some? {
      ItemsOfArray(names.value);
    }
  }

  lemma ItemsOfArray(names: set<string>)
    requires names != {} && forall n <- names :: !IsBlank(n)
    ensures var items := StringArray(names).items;
      && items != [] && (forall item <- items :: IsColumnName(item))
      && names == set item | item in items && item.Str? :: item.text
  {
    var sorted, items := InOrder(names), StringArray(names).items;
    forall i | 0 <= i < |items|
      ensures items[i].Str? && items[i].text in names
    {
      assert sorted[i] in sorted;
    }
    forall n | n in names
      ensures Str(n) in items
    {
      assert n in sorted;
      var i :| 0 <= i < |sorted| && sorted[i] == n;
      assert items[i] == Str(n);
    }
    var n :| n in names;
    assert Str(n) in items;
  }

  /** The names of one operation's options. */
  lemma OperationReadsBack(o: Options, endpointName: string, methodName: string, default: string, verbs: seq<string>,
                           parameter: Option<string>, needsRow: bool, operation: Option<MutationOperation>)
    requires ValidOperation(operation, verbs, parameter, needsRow)
    requires forall verb <- verbs :: verb in ["POST", "PUT", "PATCH", "DELETE"]
    requires TextOption(o, endpointName) == PathOf(operation) && TextOption(o, methodName) == VerbOf(operation)
    ensures ParseMutation(o, endpointName, methodName, default, verbs, parameter, needsRow) == Ok(operation)
  {
    if operation.Some? {
      VerbIsUpper(operation.value.verb);
      var placeholders := PathPlaceholders(operation.value.endpoint).value;
      assert !UsesOtherName(placeholders, parameter);
      if placeholders != [] {
        assert placeholders[0] in placeholders;
      }
    }
  }

  lemma ModeReadsBack(o: Options, mode: WriteMode)
    requires
      TextOption(o, "write_mode") == Some(ModeName(mode)) || (TextOption(o, "write_mode").None? && mode == ColumnsMode)
    ensures WriteModeOption(o) == Ok(mode)
  {
  }

  // ---------- the write side read back ----------

  lemma IdentityReadsBack(c: TableConfig)
    requires ValidIdentity(c)
    ensures RowidColumnOption(PrintedOptions(c)) == c.rowidColumn
    ensures ParameterOption(PrintedOptions(c)) == c.rowidParameter
    ensures TextOption(PrintedOptions(c), "rowid_parameter").Some? ==> c.rowidColumn.Some?
  {
    TextOf(c, "rowid_column");
    TextOf(c, "rowid_parameter");
  }

  lemma OperationsReadBack(c: TableConfig)
    requires ValidWrite(c)
    ensures InsertOption(PrintedOptions(c)) == Ok(c.insert) && UpdateOption(PrintedOptions(c)) == Ok(c.update)
    ensures DeleteOption(PrintedOptions(c)) == Ok(c.delete)
  {
    var o := PrintedOptions(c);
    IdentityReadsBack(c);
    InsertReadsBack(c, o);
    UpdateReadsBack(c, o);
    DeleteReadsBack(c, o);
  }

  lemma InsertReadsBack(c: TableConfig, o: Options)
    requires ValidWrite(c) && o == PrintedOptions(c)
    ensures ParseMutation(o, "insert_endpoint", "insert_method", "POST", ["POST", "PUT"], c.rowidParameter, false)
      == Ok(c.insert)
  {
    TextOf(c, "insert_endpoint");
    TextOf(c, "insert_method");
    OperationReadsBack(o, "insert_endpoint", "insert_method", "POST", ["POST", "PUT"], c.rowidParameter, false,
      c.insert);
  }

  lemma UpdateReadsBack(c: TableConfig, o: Options)
    requires ValidWrite(c) && o == PrintedOptions(c)
    ensures ParseMutation(o, "update_endpoint", "update_method", "PATCH", ["PATCH", "PUT"], c.rowidParameter, true)
      == Ok(c.update)
  {
    TextOf(c, "update_endpoint");
    TextOf(c, "update_method");
    OperationReadsBack(o, "update_endpoint", "update_method", "PATCH", ["PATCH", "PUT"], c.rowidParameter, true,
      c.update);
  }

  lemma DeleteReadsBack(c: TableConfig, o: Options)
    requires ValidWrite(c) && o == PrintedOptions(c)
    ensures
      ParseMutation(o, "delete_endpoint", "delete_method", "DELETE", ["DELETE"], c.rowidParameter, true) == Ok(c.delete)
  {
    TextOf(c, "delete_endpoint");
    TextOf(c, "delete_method");
    OperationReadsBack(o, "delete_endpoint", "delete_method", "DELETE", ["DELETE"], c.rowidParameter, true, c.delete);
  }

  lemma WriteColumnsReadBack(c: TableConfig)
    requires ValidWrite(c)
    ensures WriteModeOption(PrintedOptions(c)) == Ok(c.writeMode)
    ensures TextOption(PrintedOptions(c), "write_mode").Some? <==> Writable(c)
    ensures StringSetOption(PrintedOptions(c), "write_columns") == Ok(c.writeColumns)
    ensures AttrsColumn(PrintedOptions(c)) == c.attrsColumn
  {
    TextOf(c, "write_mode");
    TextOf(c, "attrs_column");
    JsonOf(c, "write_columns");
    ModeReadsBack(PrintedOptions(c), c.writeMode);
    StringSetReadsBack(PrintedOptions(c), "write_columns", c.writeColumns);
  }

  lemma ChecksPass(c: TableConfig, parameterGiven: bool, modeGiven: bool)
    requires ValidWrite(c) && (parameterGiven ==> c.rowidColumn.Some?) && (modeGiven ==> Writable(c))
    ensures CheckMutations(c.rowidColumn, c.rowidParameter, parameterGiven, Ok(c.insert), Ok(c.update), Ok(c.delete),
      Ok(c.writeMode), modeGiven, Ok(c.writeColumns), c.attrsColumn) == Ok(WriteSide(c))
  {
  }

  lemma WriteSideReadsBack(c: TableConfig)
    requires ValidWrite(c)
    ensures ParseMutations(PrintedOptions(c)) == Ok(WriteSide(c))
  {
    IdentityReadsBack(c);
    OperationsReadBack(c);
    WriteColumnsReadBack(c);
    var o := PrintedOptions(c);
    ChecksPass(c, TextOption(o, "rowid_parameter").Some?, TextOption(o, "write_mode").Some?);
  }

  // ---------- the read side read back ----------

  function PrintedRead(c: TableConfig): ReadSide {
    ReadSide(Some(c.endpoint), c.verb, Ok(c.responsePath), Ok(c.objectPath), Ok(c.cursorPath), Ok(c.queryParams),
      Ok(c.requestBody), Ok(c.pagination), Ok(c.typeError), Ok(c.columnMap), Ok(c.queryParamMap),
      Ok(c.pageSize), Ok(c.maxPages), c.attrsColumn, c.limitParam, c.pageSizeParam, c.cursorParam)
  }

  lemma PathsReadBack(c: TableConfig)
    requires ValidRead(c)
    ensures var o := PrintedOptions(c);
      && TextOption(o, "endpoint") == Some(c.endpoint) && MethodOption(o, "method", "GET") == c.verb
      && PointerOption(o, "response_path") == Ok(c.responsePath) && PointerOption(o, "object_path") == Ok(c.objectPath)
      && PointerOption(o, "cursor_path") == Ok(c.cursorPath)
  {
    EndpointReadsBack(c);
    RowPathsReadBack(c);
  }

  lemma EndpointReadsBack(c: TableConfig)
    requires ValidRead(c)
    ensures var o := PrintedOptions(c);
      TextOption(o, "endpoint") == Some(c.endpoint) && MethodOption(o, "method", "GET") == c.verb
  {
    TextOf(c, "endpoint");
    TextOf(c, "method");
    VerbIsUpper(c.verb);
  }

  lemma RowPathsReadBack(c: TableConfig)
    requires ValidRead(c)
    ensures var o := PrintedOptions(c);
      && PointerOption(o, "response_path") == Ok(c.responsePath) && PointerOption(o, "object_path") == Ok(c.objectPath)
      && PointerOption(o, "cursor_path") == Ok(c.cursorPath)
  {
    var o := PrintedOptions(c);
    TextOf(c, "response_path");
    TextOf(c, "object_path");
    TextOf(c, "cursor_path");
    PointerReadsBack(o, "response_path", c.responsePath);
    PointerReadsBack(o, "object_path", c.objectPath);
    PointerReadsBack(o, "cursor_path", c.cursorPath);
  }

  lemma NamesReadBack(c: TableConfig)
    requires ValidRead(c)
    ensures var o := PrintedOptions(c);
      && AttrsColumn(o) == c.attrsColumn && NonEmptyOption(o, "limit_param", Some("limit")) == c.limitParam
      && NonEmptyOption(o, "page_size_param", None) == c.pageSizeParam
      && NonEmptyOption(o, "cursor_param", Some("cursor")) == c.cursorParam
  {
    TextOf(c, "attrs_column");
    ParametersReadBack(c);
  }

  lemma ParametersReadBack(c: TableConfig)
    requires ValidRead(c)
    ensures var o := PrintedOptions(c);
      && NonEmptyOption(o, "limit_param", Some("limit")) == c.limitParam
      && NonEmptyOption(o, "page_size_param", None) == c.pageSizeParam
      && NonEmptyOption(o, "cursor_param", Some("cursor")) == c.cursorParam
  {
    var o := PrintedOptions(c);
    TextOf(c, "limit_param");
    TextOf(c, "page_size_param");
    TextOf(c, "cursor_param");
    NameReadsBack(o, "limit_param", c.limitParam, Some("limit"));
    NameReadsBack(o, "page_size_param", c.pageSizeParam, None);
    NameReadsBack(o, "cursor_param", c.cursorParam, Some("cursor"));
  }

  lemma BoundsReadBack(c: TableConfig)
    requires ValidRead(c)
    ensures var o := PrintedOptions(c);
      && BoundedOption(o, "page_size", 1, 1_000_000) == Ok(c.pageSize)
      && BoundedOption(o, "max_pages", 1, 10_000) == Ok(c.maxPages)
      && PaginationOption(o) == Ok(c.pagination) && TypeErrorOption(o) == Ok(c.typeError)
  {
    var o := PrintedOptions(c);
    TextOf(c, "page_size");
    TextOf(c, "max_pages");
    BoundedReadsBack(o, "page_size", c.pageSize, 1_000_000);
    BoundedReadsBack(o, "max_pages", c.maxPages, 10_000);
    ModesReadBack(c);
  }

  lemma ModesReadBack(c: TableConfig)
    ensures var o := PrintedOptions(c);
      PaginationOption(o) == Ok(c.pagination) && TypeErrorOption(o) == Ok(c.typeError)
  {
    TextOf(c, "pagination");
    TextOf(c, "on_type_error");
  }

  lemma DocumentsReadBack(c: TableConfig)
    ensures var o := PrintedOptions(c);
      && ObjectOption(o, "query_params") == Ok(c.queryParams) && JsonOption(o, "request_body") == Ok(c.requestBody)
      && StringMapOption(o, "column_map") == Ok(c.columnMap)
      && StringMapOption(o, "query_param_map") == Ok(c.queryParamMap)
  {
    var o := PrintedOptions(c);
    JsonOf(c, "query_params");
    JsonOf(c, "request_body");
    JsonOf(c, "column_map");
    JsonOf(c, "query_param_map");
    StringMapReadsBack(o, "column_map", c.columnMap);
    StringMapReadsBack(o, "query_param_map", c.queryParamMap);
  }

  lemma ReadSideReadsBack(c: TableConfig)
    requires ValidRead(c)
    ensures ParseReadSide(PrintedOptions(c)) == PrintedRead(c)
  {
    PathsReadBack(c);
    NamesReadBack(c);
    BoundsReadBack(c);
    DocumentsReadBack(c);
  }

  /** Every valid configuration is configured by its printed options. */
  lemma PrintedTableReadsBack(c: TableConfig)
    requires ValidTable(c)
    ensures FromOptions(PrintedOptions(c)) == Ok(c)
  {
    ReadSideReadsBack(c);
    WriteSideReadsBack(c);
    TableIsChecked(c);
  }

  lemma TableIsChecked(c: TableConfig)
    requires ValidRead(c)
    ensures CheckTable(PrintedRead(c), Ok(WriteSide(c))) == Ok(c)
  {
  }

  // ---------- defaults ----------

  /** What a table is that says nothing but its endpoint. */
  function Default(endpoint: string): TableConfig {
    TableConfig(endpoint, "GET", None, None, map[], None, map[], map[], "attrs", Some("limit"), None, None, None,
      Some("cursor"), AutoPages, None, ErrorMode, None, None, None, None, None, ColumnsMode, None)
  }

  lemma OnlyEndpoint(o: Options, endpoint: string, name: string)
    requires o == Options(map["endpoint" := endpoint], map[])
    ensures TextOption(o, name) == if name == "endpoint" then Some(endpoint) else None
    ensures JsonOption(o, name) == Ok(None)
  {
  }

  lemma DefaultRead(o: Options, endpoint: string)
    requires o == Options(map["endpoint" := endpoint], map[])
    ensures ParseReadSide(o) == PrintedRead(Default(endpoint))
  {
    assert forall name | name != "endpoint" :: TextOption(o, name) == None;
  }

  lemma DefaultWrite(o: Options, endpoint: string)
    requires o == Options(map["endpoint" := endpoint], map[])
    ensures ParseMutations(o) == Ok(WriteSide(Default(endpoint)))
  {
    assert forall name | name != "endpoint" :: TextOption(o, name) == None;
  }

  /** Every other option has its default. */
  lemma DefaultsAreTaken(endpoint: string)
    requires !IsBlank(endpoint) && !IsAbsolute(endpoint)
    ensures FromOptions(Options(map["endpoint" := endpoint], map[])) == Ok(Default(endpoint))
  {
    var o := Options(map["endpoint" := endpoint], map[]);
    DefaultRead(o, endpoint);
    DefaultWrite(o, endpoint);
    assert FromOptions(o) == CheckTable(PrintedRead(Default(endpoint)), Ok(WriteSide(Default(endpoint))));
  }

  // ---------- accepted options are valid ----------

  lemma {:induction false} AllIsForall(names: seq<string>, parameter: string)
    requires All(names, parameter)
    ensures forall name <- names :: name == parameter
  {
    if names != [] {
      AllIsForall(names[1..], parameter);
      assert names == [names[0]] + names[1..];
    }
  }

  lemma OperationIsValid(operation: Option<MutationOperation>, verbs: seq<string>, parameter: Option<string>,
                         needsRow: bool)
    requires operation.Some? ==> operation.value.verb in verbs && parameter.Some?
    requires operation.Some? ==>
      if needsRow then Addresses(operation.value, parameter) else Template(operation.value, parameter)
    ensures ValidOperation(operation, verbs, parameter, needsRow)
  {
    if operation.Some? {
      AllIsForall(PathPlaceholders(operation.value.endpoint).value, parameter.value);
    }
  }

  lemma ReadIsValid(o: Options)
    requires FromOptions(o).Ok?
    ensures ValidRead(FromOptions(o).value)
  {
    ReadSideIsValid(o);
    CheckedRead(ParseReadSide(o), ParseMutations(o));
  }

  predicate ValidReadSide(r: ReadSide) {
    && (r.responsePath.Ok? ==> IsRooted(r.responsePath.value)) && (r.objectPath.Ok? ==> IsRooted(r.objectPath.value))
    && (r.cursorPath.Ok? ==> IsRooted(r.cursorPath.value))
    && (r.pageSize.Ok? ==> IsWithin(r.pageSize.value, 1_000_000))
    && (r.maxPages.Ok? ==> IsWithin(r.maxPages.value, 10_000))
    && IsGiven(r.limitParam) && IsGiven(r.pageSizeParam) && IsGiven(r.cursorParam)
  }

  lemma ReadSideIsValid(o: Options)
    ensures ValidReadSide(ParseReadSide(o))
  {
    assert "limit"[0] in "limit" && "cursor"[0] in "cursor" && !IsWhitespace('l') && !IsWhitespace('c');
  }

  lemma CheckedRead(r: ReadSide, m: Result<Mutations>)
    requires ValidReadSide(r) && CheckTable(r, m).Ok?
    ensures ValidRead(CheckTable(r, m).value)
  {
  }

  lemma ColumnsAreGiven(o: Options)
    ensures var columns := StringSetOption(o, "write_columns");
      columns.Ok? && columns.value.Some? ==>
        columns.value.value != {} && forall name <- columns.value.value :: !IsBlank(name)
  {
    var columns := StringSetOption(o, "write_columns");
    if columns.Ok? && columns.value.Some? {
      var items := JsonOption(o, "write_columns").value.value.items;
      assert items[0] in items && IsColumnName(items[0]) && items[0].text in columns.value.value;
    }
  }

  predicate ValidIdentityOf(rowid: Option<string>, parameter: Option<string>) {
    && IsGiven(rowid) && (rowid.Some? <==> parameter.Some?)
    && (parameter.Some? ==> IsParameterName(parameter.value))
  }

  lemma IdentityIsValid(o: Options)
    requires ParseMutations(o).Ok?
    ensures var m := ParseMutations(o).value;
      && ValidIdentityOf(m.rowidColumn, m.rowidParameter) && WriteModeOption(o) == Ok(m.writeMode)
      && StringSetOption(o, "write_columns") == Ok(m.writeColumns)
      && (m.insert.None? && m.update.None? && m.delete.None? ==> m.writeMode == ColumnsMode && m.writeColumns.None?)
  {
  }

  lemma WriteIsValid(o: Options)
    requires FromOptions(o).Ok?
    ensures ValidWrite(FromOptions(o).value)
  {
    var c := FromOptions(o).value;
    AcceptedTablesAreValidated(o);
    CheckedWriteSide(ParseReadSide(o), ParseMutations(o));
    IdentityIsValid(o);
    ColumnsAreGiven(o);
    OperationIsValid(c.insert, ["POST", "PUT"], c.rowidParameter, false);
    OperationIsValid(c.update, ["PATCH", "PUT"], c.rowidParameter, true);
    OperationIsValid(c.delete, ["DELETE"], c.rowidParameter, true);
  }

  /** A configuration can be given by options exactly if it is valid. */
  lemma ConfigurableIsValid(c: TableConfig)
    ensures (exists o :: FromOptions(o) == Ok(c)) <==> ValidTable(c)
  {
    if o :| FromOptions(o) == Ok(c) {
      ReadIsValid(o);
      WriteIsValid(o);
    }
    if ValidTable(c) {
      PrintedTableReadsBack(c);
    }
  }
}
