/**
 The options of a foreign table and their validation (src/options.rs).
 JSON-valued options are given as parsed documents, `None` standing for malformed text.
 */
module TableOptions {
  import opened Text
  import opened Json
  import opened Templates

  datatype Options = Options(text: map<string, string>, json: map<string, Option<Json>>)

  datatype PaginationMode = AutoPages | NoPages
  datatype TypeErrorMode = ErrorMode | NullMode
  datatype WriteMode = ColumnsMode | AttrsMode | MergeMode

  datatype MutationOperation = MutationOperation(endpoint: string, verb: string)

  datatype TableConfig = TableConfig(
    endpoint: string,
    verb: string,
    responsePath: Option<string>,
    objectPath: Option<string>,
    queryParams: map<string, Json>,
    requestBody: Option<Json>,
    columnMap: map<string, string>,
    queryParamMap: map<string, string>,
    attrsColumn: string,
    limitParam: Option<string>,
    pageSize: Option<nat>,
    pageSizeParam: Option<string>,
    cursorPath: Option<string>,
    cursorParam: Option<string>,
    pagination: PaginationMode,
    maxPages: Option<nat>,
    typeError: TypeErrorMode,
    rowidColumn: Option<string>,
    rowidParameter: Option<string>,
    insert: Option<MutationOperation>,
    update: Option<MutationOperation>,
    delete: Option<MutationOperation>,
    writeMode: WriteMode,
    writeColumns: Option<set<string>>)

  // ---------- single options ----------

  function TextOption(o: Options, name: string): Option<string> {
    if name in o.text then Some(o.text[name]) else None
  }

  /** `non_empty_option`. */
  function NonEmptyOption(o: Options, name: string, default: Option<string>): Option<string> {
    if name in o.text then (if IsBlank(o.text[name]) then None else Some(o.text[name])) else default
  }

  predicate IsAbsolute(url: string) {
    "http://" <= url || "https://" <= url
  }

  /** `parse_pointer`. */
  function PointerOption(o: Options, name: string): Result<Option<string>> {
    if name !in o.text || o.text[name] == "" then Ok(None)
    else if o.text[name][0] == '/' then Ok(Some(o.text[name]))
    else Err(Configuration)
  }

  function JsonOption(o: Options, name: string): Result<Option<Json>> {
    if name !in o.json then Ok(None)
    else if o.json[name].None? then Err(Configuration)
    else Ok(Some(o.json[name].value))
  }

  function ObjectOption(o: Options, name: string): Result<map<string, Json>> {
    var value :- JsonOption(o, name);
    if value.None? then Ok(map[])
    else if value.value.Obj? then Ok(value.value.fields)
    else Err(Configuration)
  }

  /** `parse_string_map`. */
  function StringMapOption(o: Options, name: string): Result<map<string, string>> {
    var fields :- ObjectOption(o, name);
    if forall key <- fields :: fields[key].Str? then
      Ok(map key | key in fields :: if fields[key].Str? then fields[key].text else "")
    else Err(Configuration)
  }

  predicate IsColumnName(value: Json) {
    value.Str? && !IsBlank(value.text)
  }

  /** `parse_string_set`. */
  function StringSetOption(o: Options, name: string): Result<Option<set<string>>> {
    var value :- JsonOption(o, name);
    if value.None? then Ok(None)
    else if !value.value.Arr? || value.value.items == [] then Err(Configuration)
    else if forall item <- value.value.items :: IsColumnName(item) then
      Ok(Some(set item | item in value.value.items && item.Str? :: item.text))
    else Err(Configuration)
  }

  const U64_MAX := 0xFFFF_FFFF_FFFF_FFFF

  function ParseU64(raw: string): Option<nat> {
    var digits := if raw != "" && raw[0] == '+' then raw[1..] else raw;
    if digits != "" && (forall c <- digits :: IsDigit(c)) && ParseNat(digits) <= U64_MAX
    then Some(ParseNat(digits)) else None
  }

  /** `parse_optional_bounded`. */
  function BoundedOption(o: Options, name: string, minimum: nat, maximum: nat): Result<Option<nat>> {
    if name !in o.text then Ok(None)
    else
      var value := ParseU64(o.text[name]);
      if value.Some? && minimum <= value.value <= maximum then Ok(value) else Err(Configuration)
  }

  function MethodOption(o: Options, name: string, default: string): string {
    if name in o.text then Uppercase(o.text[name]) else default
  }

  // ---------- mutations ----------

  predicate IsParameterName(parameter: string) {
    !IsBlank(parameter) && forall c <- parameter :: c !in "{}/?#"
  }

  predicate UsesOtherName(placeholders: seq<string>, parameter: Option<string>) {
    placeholders != [] && (parameter.None? || exists p <- placeholders :: p != parameter.value)
  }

  /** `parse_mutation_operation`. */
  function ParseMutation(o: Options, endpointName: string, methodName: string, default: string,
                         allowed: seq<string>, parameter: Option<string>, requiresRowid: bool)
    : Result<Option<MutationOperation>>
  {
    var endpoint := NonEmptyOption(o, endpointName, None);
    if endpoint.None? then
      if methodName in o.text then Err(Configuration) else Ok(None)
    else if IsAbsolute(endpoint.value) then Err(Configuration)
    else
      var verb := MethodOption(o, methodName, default);
      if verb !in allowed then Err(Configuration)
      else
        var placeholders :- PathPlaceholders(endpoint.value);
        if UsesOtherName(placeholders, parameter) then Err(Configuration)
        else if requiresRowid && (parameter.None? || parameter.value !in placeholders) then Err(Configuration)
        else Ok(Some(MutationOperation(endpoint.value, verb)))
  }

  datatype Mutations = Mutations(
    rowidColumn: Option<string>,
    rowidParameter: Option<string>,
    insert: Option<MutationOperation>,
    update: Option<MutationOperation>,
    delete: Option<MutationOperation>,
    writeMode: WriteMode,
    writeColumns: Option<set<string>>)

  function WriteModeOption(o: Options): Result<WriteMode> {
    match TextOption(o, "write_mode")
    case None => Ok(ColumnsMode)
    case Some(mode) =>
      if mode == "columns" then Ok(ColumnsMode)
      else if mode == "attrs" then Ok(AttrsMode)
      else if mode == "merge" then Ok(MergeMode)
      else Err(Configuration)
  }

  function AttrsColumn(o: Options): string {
    if "attrs_column" in o.text then o.text["attrs_column"] else "attrs"
  }

  /** The checks on the write side, once its options are parsed. */
  function CheckMutations(rowidColumn: Option<string>, parameter: Option<string>, parameterGiven: bool,
                          insert: Result<Option<MutationOperation>>, update: Result<Option<MutationOperation>>,
                          delete: Result<Option<MutationOperation>>, mode: Result<WriteMode>, modeGiven: bool,
                          columns: Result<Option<set<string>>>, attrsColumn: string): Result<Mutations>
  {
    if parameterGiven && rowidColumn.None? then Err(Configuration)
    else if parameter.Some? && !IsParameterName(parameter.value) then Err(Configuration)
    else
      var insert :- insert;
      var update :- update;
      var delete :- delete;
      var hasMutations := insert.Some? || update.Some? || delete.Some?;
      if hasMutations && rowidColumn.None? then Err(Configuration)
      else
        var mode :- mode;
        var columns :- columns;
        if !hasMutations && (modeGiven || columns.Some?) then Err(Configuration)
        else if mode == AttrsMode && columns.Some? then Err(Configuration)
        else if columns.Some? && rowidColumn.Some? && rowidColumn.value in columns.value then Err(Configuration)
        else if columns.Some? && attrsColumn in columns.value then Err(Configuration)
        else Ok(Mutations(rowidColumn, parameter, insert, update, delete, mode, columns))
  }

  function RowidColumnOption(o: Options): Option<string> {
    NonEmptyOption(o, "rowid_column", None)
  }

  /** The placeholder of the row identity: given, or named like its column. */
  function ParameterOption(o: Options): Option<string> {
    var explicit := NonEmptyOption(o, "rowid_parameter", None);
    if explicit.Some? then explicit else RowidColumnOption(o)
  }

  function InsertOption(o: Options): Result<Option<MutationOperation>> {
    ParseMutation(o, "insert_endpoint", "insert_method", "POST", ["POST", "PUT"], ParameterOption(o), false)
  }

  function UpdateOption(o: Options): Result<Option<MutationOperation>> {
    ParseMutation(o, "update_endpoint", "update_method", "PATCH", ["PATCH", "PUT"], ParameterOption(o), true)
  }

  function DeleteOption(o: Options): Result<Option<MutationOperation>> {
    ParseMutation(o, "delete_endpoint", "delete_method", "DELETE", ["DELETE"], ParameterOption(o), true)
  }

  /** The write side of `TableConfig::from_options`. */
  function ParseMutations(o: Options): Result<Mutations> {
    CheckMutations(RowidColumnOption(o), ParameterOption(o), TextOption(o, "rowid_parameter").Some?,
      InsertOption(o), UpdateOption(o), DeleteOption(o), WriteModeOption(o), TextOption(o, "write_mode").Some?,
      StringSetOption(o, "write_columns"), AttrsColumn(o))
  }

  // ---------- the whole table ----------

  function PaginationOption(o: Options): Result<PaginationMode> {
    match TextOption(o, "pagination")
    case None => Ok(AutoPages)
    case Some(mode) =>
      if mode == "auto" then Ok(AutoPages)
      else if mode == "none" then Ok(NoPages) else Err(Configuration)
  }

  function TypeErrorOption(o: Options): Result<TypeErrorMode> {
    match TextOption(o, "on_type_error")
    case None => Ok(ErrorMode)
    case Some(mode) =>
      if mode == "error" then Ok(ErrorMode)
      else if mode == "null" then Ok(NullMode) else Err(Configuration)
  }

  /** The parsed options of the read side. */
  datatype ReadSide = ReadSide(
    endpoint: Option<string>,
    verb: string,
    responsePath: Result<Option<string>>,
    objectPath: Result<Option<string>>,
    cursorPath: Result<Option<string>>,
    queryParams: Result<map<string, Json>>,
    requestBody: Result<Option<Json>>,
    pagination: Result<PaginationMode>,
    typeError: Result<TypeErrorMode>,
    columnMap: Result<map<string, string>>,
    queryParamMap: Result<map<string, string>>,
    pageSize: Result<Option<nat>>,
    maxPages: Result<Option<nat>>,
    attrsColumn: string,
    limitParam: Option<string>,
    pageSizeParam: Option<string>,
    cursorParam: Option<string>)

  function ParseReadSide(o: Options): ReadSide {
    ReadSide(
      TextOption(o, "endpoint"), MethodOption(o, "method", "GET"),
      PointerOption(o, "response_path"), PointerOption(o, "object_path"), PointerOption(o, "cursor_path"),
      ObjectOption(o, "query_params"), JsonOption(o, "request_body"), PaginationOption(o), TypeErrorOption(o),
      StringMapOption(o, "column_map"), StringMapOption(o, "query_param_map"),
      BoundedOption(o, "page_size", 1, 1_000_000), BoundedOption(o, "max_pages", 1, 10_000), AttrsColumn(o),
      NonEmptyOption(o, "limit_param", Some("limit")), NonEmptyOption(o, "page_size_param", None),
      NonEmptyOption(o, "cursor_param", Some("cursor")))
  }

  function CheckTable(read: ReadSide, mutations: Result<Mutations>): Result<TableConfig> {
    if read.endpoint.None? || IsBlank(read.endpoint.value) || IsAbsolute(read.endpoint.value) then Err(Configuration)
    else if read.verb !in ["GET", "POST"] then Err(Configuration)
    else
      var responsePath :- read.responsePath;
      var objectPath :- read.objectPath;
      var cursorPath :- read.cursorPath;
      var queryParams :- read.queryParams;
      var requestBody :- read.requestBody;
      var pagination :- read.pagination;
      var typeError :- read.typeError;
      var m :- mutations;
      var columnMap :- read.columnMap;
      var queryParamMap :- read.queryParamMap;
      var pageSize :- read.pageSize;
      var maxPages :- read.maxPages;
      Ok(TableConfig(
        read.endpoint.value, read.verb, responsePath, objectPath, queryParams, requestBody,
        columnMap, queryParamMap, read.attrsColumn, read.limitParam, pageSize, read.pageSizeParam, cursorPath,
        read.cursorParam, pagination, maxPages, typeError,
        m.rowidColumn, m.rowidParameter, m.insert, m.update, m.delete, m.writeMode, m.writeColumns))
  }

  /** `TableConfig::from_options`. */
  function FromOptions(o: Options): Result<TableConfig> {
    CheckTable(ParseReadSide(o), ParseMutations(o))
  }

  /** The write side of a table. */
  function WriteSide(table: TableConfig): Mutations {
    Mutations(table.rowidColumn, table.rowidParameter, table.insert, table.update, table.delete,
      table.writeMode, table.writeColumns)
  }
}
