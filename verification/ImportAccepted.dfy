/**
 The options that `create_sql` gives an imported table (src/spec.rs) are accepted by
 `TableConfig::from_options` (src/options.rs) and configure what was inferred.
 */
module ImportAccepted {
  import opened Text
  import opened Json
  import opened Identifiers
  import opened Templates
  import opened TableOptions
  import opened ImportedColumns
  import opened Importer

  datatype ImportedTable = ImportedTable(
    endpoint: string,
    verb: string,
    responsePath: Option<string>,
    objectPath: Option<string>,
    columns: seq<ImportedColumn>,
    mutations: Option<ImportedMutations>)

  // ---------- create_sql ----------

  function EndpointOf(operation: Option<MutationOperation>): Option<string> {
    if operation.Some? then Some(operation.value.endpoint) else None
  }

  function VerbOf(operation: Option<MutationOperation>): Option<string> {
    if operation.Some? then Some(operation.value.verb) else None
  }

  function MutationText(m: ImportedMutations, name: string): Option<string> {
    if name == "rowid_column" then Some(m.rowidColumn)
    else if name == "rowid_parameter" then if m.rowidParameter == m.rowidColumn then None else Some(m.rowidParameter)
    else if name == "insert_endpoint" then EndpointOf(m.insert)
    else if name == "insert_method" then VerbOf(m.insert)
    else if name == "update_endpoint" then EndpointOf(m.update)
    else if name == "update_method" then VerbOf(m.update)
    else if name == "delete_endpoint" then m.delete
    else None
  }

  /** The value of a text option; `attrs` is the attrs column when it has to be named. */
  function TextValue(t: ImportedTable, attrs: Option<string>, name: string): Option<string> {
    if name == "endpoint" then Some(t.endpoint)
    else if name == "method" then if t.verb == "GET" then None else Some(t.verb)
    else if name == "response_path" then t.responsePath
    else if name == "object_path" then t.objectPath
    else if name == "attrs_column" then attrs
    else if t.mutations.Some? then MutationText(t.mutations.value, name) else None
  }

  function TextOptions(t: ImportedTable, attrs: Option<string>): map<string, string> {
    map name | name in {"endpoint", "method", "response_path", "object_path", "attrs_column", "rowid_column",
      "rowid_parameter", "insert_endpoint", "insert_method", "update_endpoint", "update_method", "delete_endpoint"}
      && TextValue(t, attrs, name).Some? :: TextValue(t, attrs, name).value
  }

  /** Which property a column stands for, where the names differ. */
  /** What goes without saying is not printed: the method GET, and a placeholder named like its column. */
  lemma DefaultsAreOmitted(t: ImportedTable, attrs: Option<string>)
    ensures "method" in TextOptions(t, attrs) <==> t.verb != "GET"
    ensures "rowid_parameter" in TextOptions(t, attrs) <==>
      t.mutations.Some? && t.mutations.value.rowidParameter != t.mutations.value.rowidColumn
  {
  }

  function ColumnMap(columns: seq<ImportedColumn>): map<string, string> {
    if columns == [] then map[]
    else
      var front, last := ColumnMap(columns[..|columns| - 1]), columns[|columns| - 1];
      if last.name == last.jsonName then front else front[last.name := last.jsonName]
  }

  function JsonMap(fields: map<string, string>): Json {
    Obj(map name | name in fields :: Str(fields[name]))
  }

  function JsonNames(names: set<string>): Json {
    Arr(Map((name: string) => Str(name), InOrder(names)))
  }

  function JsonValue(t: ImportedTable, name: string): Option<Json> {
    if name == "column_map" then
      if ColumnMap(t.columns) == map[] then None else Some(JsonMap(ColumnMap(t.columns)))
    else if name == "write_columns" then
      if t.mutations.None? || t.mutations.value.writeColumns == {} then None
      else Some(JsonNames(t.mutations.value.writeColumns))
    else None
  }

  function JsonOptions(t: ImportedTable): map<string, Option<Json>> {
    map name | name in {"column_map", "write_columns"} && JsonValue(t, name).Some? :: JsonValue(t, name)
  }

  /** The attrs column as an option: only when it exists and is not called `attrs`. */
  ghost function NamedAttrs(columns: seq<ImportedColumn>, includeAttrs: bool): Option<string> {
    if includeAttrs && AttrsName(Used(columns)) != "attrs" then Some(AttrsName(Used(columns))) else None
  }

  /** The option list of `create_sql`. */
  ghost function ImportOptions(t: ImportedTable, includeAttrs: bool): Options {
    Options(TextOptions(t, NamedAttrs(t.columns, includeAttrs)), JsonOptions(t))
  }

  lemma TextLookup(t: ImportedTable, includeAttrs: bool, name: string)
    ensures TextOption(ImportOptions(t, includeAttrs), name) == TextValue(t, NamedAttrs(t.columns, includeAttrs), name)
  {
  }

  lemma JsonLookup(t: ImportedTable, includeAttrs: bool, name: string)
    ensures JsonOption(ImportOptions(t, includeAttrs), name) == Ok(JsonValue(t, name))
  {
  }

  // ---------- one mutation ----------

  lemma ParsedMutation(o: Options, endpointName: string, methodName: string, default: string, allowed: seq<string>,
                       parameter: Option<string>, requiresRowid: bool, op: MutationOperation)
    requires TextOption(o, endpointName) == Some(op.endpoint) && MethodOption(o, methodName, default) == op.verb
    requires op.verb in allowed && !IsBlank(op.endpoint) && !IsAbsolute(op.endpoint)
    requires (TemplateParameters(op.endpoint) == Some([]) && !requiresRowid)
      || (parameter.Some? && HasParameter(op.endpoint, parameter.value))
    ensures ParseMutation(o, endpointName, methodName, default, allowed, parameter, requiresRowid) == Ok(Some(op))
  {
    ImporterAgreesWithValidator(op.endpoint);
  }

  lemma AbsentMutation(o: Options, endpointName: string, methodName: string, default: string, allowed: seq<string>,
                       parameter: Option<string>, requiresRowid: bool)
    requires TextOption(o, endpointName) == None == TextOption(o, methodName)
    ensures ParseMutation(o, endpointName, methodName, default, allowed, parameter, requiresRowid) == Ok(None)
  {
  }

  lemma MisnamedMutation(o: Options, endpointName: string, methodName: string, default: string, allowed: seq<string>,
                         parameter: string, requiresRowid: bool, other: string)
    requires TextOption(o, endpointName).Some? && HasParameter(TextOption(o, endpointName).value, other)
    requires parameter != other
    ensures ParseMutation(o, endpointName, methodName, default, allowed, Some(parameter), requiresRowid).Err?
  {
    var endpoint := TextOption(o, endpointName).value;
    ParameterIsName(endpoint, other);
    ImporterAgreesWithValidator(endpoint);
    assert NonEmptyOption(o, endpointName, None) == Some(endpoint);
    assert PathPlaceholders(endpoint) == Ok([other]);
    MisnamedIsOther(other, parameter);
  }

  lemma MisnamedIsOther(other: string, parameter: string)
    requires other != parameter
    ensures UsesOtherName([other], Some(parameter))
  {
    assert other in [other];
  }

  // ---------- the write side ----------

  /** The parameter name the validator ends up with: a blank one falls back to the column. */
  function EffectiveParameter(m: ImportedMutations): string {
    if IsBlank(m.rowidParameter) then m.rowidColumn else m.rowidParameter
  }

  /** What an inferred set of mutations must avoid to be accepted. */
  predicate Acceptable(m: ImportedMutations, includeAttrs: bool) {
    && (if IsBlank(m.rowidParameter) then m.update.None? && m.delete.None?
        else forall c <- m.rowidParameter :: c !in "/?#")
    && (includeAttrs || "attrs" !in m.writeColumns)
  }

  function DeleteOperation(m: ImportedMutations): Option<MutationOperation> {
    if m.delete.Some? then Some(MutationOperation(m.delete.value, "DELETE")) else None
  }

  function Configured(m: ImportedMutations): Mutations {
    Mutations(Some(m.rowidColumn), Some(EffectiveParameter(m)), m.insert, m.update, DeleteOperation(m), ColumnsMode,
      if m.writeColumns == {} then None else Some(m.writeColumns))
  }

  lemma StringsOf(names: set<string>)
    requires forall name <- names :: IsColumnId(name)
    ensures JsonNames(names).items == [] <==> names == {}
    ensures forall item <- JsonNames(names).items :: IsColumnName(item)
    ensures names == set item | item in JsonNames(names).items && item.Str? :: item.text
  {
    var items := JsonNames(names).items;
    forall i | 0 <= i < |items|
      ensures IsColumnName(items[i]) && items[i].text in names
    {
      NameIsItem(names, i);
    }
    forall name | name in names
      ensures Str(name) in items
    {
      ItemOfName(names, name);
    }
  }

  lemma NameIsItem(names: set<string>, i: nat)
    requires (forall name <- names :: IsColumnId(name)) && i < |JsonNames(names).items|
    ensures var item := JsonNames(names).items[i];
      item.Str? && item.text in names && IsColumnName(item)
  {
    var sorted := InOrder(names);
    assert sorted[i] in sorted;
    ColumnIdIsNotBlank(sorted[i]);
  }

  lemma ItemOfName(names: set<string>, name: string)
    requires name in names
    ensures Str(name) in JsonNames(names).items
  {
    var sorted := InOrder(names);
    assert name in sorted;
    var i :| 0 <= i < |sorted| && sorted[i] == name;
    assert JsonNames(names).items[i] == Str(name);
  }

  /** The names to write are read back as the set that was written. */
  lemma WriteColumnsParse(t: ImportedTable, includeAttrs: bool)
    requires t.mutations.Some? && forall name <- t.mutations.value.writeColumns :: IsColumnId(name)
    ensures var columns := t.mutations.value.writeColumns;
      StringSetOption(ImportOptions(t, includeAttrs), "write_columns")
        == Ok(if columns == {} then None else Some(columns))
  {
    JsonLookup(t, includeAttrs, "write_columns");
    StringsOf(t.mutations.value.writeColumns);
  }

  /** The two options that name the row identity. */
  lemma IdentityParses(t: ImportedTable, includeAttrs: bool)
    requires t.mutations.Some? && IsColumnId(t.mutations.value.rowidColumn)
    ensures var m, o := t.mutations.value, ImportOptions(t, includeAttrs);
      var explicit := NonEmptyOption(o, "rowid_parameter", None);
      && NonEmptyOption(o, "rowid_column", None) == Some(m.rowidColumn)
      && (if explicit.Some? then explicit.value else m.rowidColumn) == EffectiveParameter(m)
  {
    TextLookup(t, includeAttrs, "rowid_column");
    TextLookup(t, includeAttrs, "rowid_parameter");
    ColumnIdIsNotBlank(t.mutations.value.rowidColumn);
  }

  lemma ColumnIdIsNotBlank(name: string)
    requires IsColumnId(name)
    ensures !IsBlank(name) && IsParameterName(name)
  {
    assert IsIdentifierChar(name[0]) && !IsWhitespace(name[0]);
    forall c | c in name
      ensures c !in "{}/?#"
    {
      assert IsIdentifierChar(c);
    }
  }

  /** The default attrs column is free exactly when the table was given an attrs column or writes none of that name. */
  lemma AttrsParses(t: ImportedTable, includeAttrs: bool)
    requires t.mutations.Some? && t.mutations.value.writeColumns <= Used(t.columns)
    ensures AttrsColumn(ImportOptions(t, includeAttrs)) in t.mutations.value.writeColumns
      <==> !includeAttrs && "attrs" in t.mutations.value.writeColumns
  {
  }

  /** The three operations, each as inferred, unless a blank parameter is misread as the column. */
  lemma OperationsParse(t: ImportedTable, includeAttrs: bool)
    requires t.mutations.Some? && Consistent(t.mutations.value, t.endpoint, Used(t.columns))
    requires IsColumnId(t.mutations.value.rowidColumn) && !IsBlank(t.endpoint) && !IsAbsolute(t.endpoint)
    ensures var m, o := t.mutations.value, ImportOptions(t, includeAttrs);
      var p := Some(EffectiveParameter(m));
      var named := !IsBlank(m.rowidParameter);
      && ParseMutation(o, "insert_endpoint", "insert_method", "POST", ["POST", "PUT"], p, false) == Ok(m.insert)
      && (var update := ParseMutation(o, "update_endpoint", "update_method", "PATCH", ["PATCH", "PUT"], p, true);
          if named || m.update.None? then update == Ok(m.update) else update.Err?)
      && (var delete := ParseMutation(o, "delete_endpoint", "delete_method", "DELETE", ["DELETE"], p, true);
          if named || m.delete.None? then delete == Ok(DeleteOperation(m)) else delete.Err?)
  {
    InsertParses(t, includeAttrs);
    UpdateParses(t, includeAttrs);
    DeleteParses(t, includeAttrs);
  }

  lemma InsertParses(t: ImportedTable, includeAttrs: bool)
    requires t.mutations.Some? && Consistent(t.mutations.value, t.endpoint, Used(t.columns))
    requires !IsBlank(t.endpoint) && !IsAbsolute(t.endpoint)
    ensures ParseMutation(ImportOptions(t, includeAttrs), "insert_endpoint", "insert_method", "POST", ["POST", "PUT"],
        Some(EffectiveParameter(t.mutations.value)), false) == Ok(t.mutations.value.insert)
  {
    var m, o := t.mutations.value, ImportOptions(t, includeAttrs);
    TextLookup(t, includeAttrs, "insert_endpoint");
    TextLookup(t, includeAttrs, "insert_method");
    var p := Some(EffectiveParameter(m));
    if m.insert.Some? {
      VerbParses(o, "insert_method", "POST", "POST");
      ParsedMutation(o, "insert_endpoint", "insert_method", "POST", ["POST", "PUT"], p, false, m.insert.value);
    } else {
      AbsentMutation(o, "insert_endpoint", "insert_method", "POST", ["POST", "PUT"], p, false);
    }
  }

  lemma VerbParses(o: Options, methodName: string, default: string, verb: string)
    requires TextOption(o, methodName) == Some(verb) && verb in ["POST", "PATCH", "PUT"]
    ensures MethodOption(o, methodName, default) == verb
  {
  }

  lemma UpdateParses(t: ImportedTable, includeAttrs: bool)
    requires t.mutations.Some? && Consistent(t.mutations.value, t.endpoint, Used(t.columns))
    requires IsColumnId(t.mutations.value.rowidColumn) && !IsAbsolute(t.endpoint)
    ensures var m := t.mutations.value;
      var update := ParseMutation(ImportOptions(t, includeAttrs), "update_endpoint", "update_method", "PATCH",
        ["PATCH", "PUT"], Some(EffectiveParameter(m)), true);
      if IsBlank(m.rowidParameter) && m.update.Some? then update.Err? else update == Ok(m.update)
  {
    var m, o := t.mutations.value, ImportOptions(t, includeAttrs);
    TextLookup(t, includeAttrs, "update_endpoint");
    TextLookup(t, includeAttrs, "update_method");
    var p := EffectiveParameter(m);
    if m.update.None? {
      AbsentMutation(o, "update_endpoint", "update_method", "PATCH", ["PATCH", "PUT"], Some(p), true);
    } else if IsBlank(m.rowidParameter) {
      ColumnIdIsNotBlank(p);
      MisnamedMutation(o, "update_endpoint", "update_method", "PATCH", ["PATCH", "PUT"], p, true, m.rowidParameter);
    } else {
      VerbParses(o, "update_method", "PATCH", m.update.value.verb);
      ParameterIsName(m.update.value.endpoint, p);
      ParsedMutation(o, "update_endpoint", "update_method", "PATCH", ["PATCH", "PUT"], Some(p), true, m.update.value);
    }
  }

  lemma DeleteParses(t: ImportedTable, includeAttrs: bool)
    requires t.mutations.Some? && Consistent(t.mutations.value, t.endpoint, Used(t.columns))
    requires IsColumnId(t.mutations.value.rowidColumn) && !IsAbsolute(t.endpoint)
    ensures var m := t.mutations.value;
      var delete := ParseMutation(ImportOptions(t, includeAttrs), "delete_endpoint", "delete_method", "DELETE",
        ["DELETE"], Some(EffectiveParameter(m)), true);
      if IsBlank(m.rowidParameter) && m.delete.Some? then delete.Err? else delete == Ok(DeleteOperation(m))
  {
    var m, o := t.mutations.value, ImportOptions(t, includeAttrs);
    TextLookup(t, includeAttrs, "delete_endpoint");
    TextLookup(t, includeAttrs, "delete_method");
    var p := EffectiveParameter(m);
    if m.delete.None? {
      AbsentMutation(o, "delete_endpoint", "delete_method", "DELETE", ["DELETE"], Some(p), true);
    } else if IsBlank(m.rowidParameter) {
      ColumnIdIsNotBlank(p);
      MisnamedMutation(o, "delete_endpoint", "delete_method", "DELETE", ["DELETE"], p, true, m.rowidParameter);
    } else {
      ParameterIsName(m.delete.value, p);
      ParsedMutation(o, "delete_endpoint", "delete_method", "DELETE", ["DELETE"], Some(p), true,
        DeleteOperation(m).value);
    }
  }

  /** How the parts decide the whole, for a table with some operation. */
  lemma PartsDecide(o: Options, rowid: string, p: string, m: Mutations)
    requires NonEmptyOption(o, "rowid_column", None) == Some(rowid)
    requires var explicit := NonEmptyOption(o, "rowid_parameter", None);
      p == if explicit.Some? then explicit.value else rowid
    requires WriteModeOption(o) == Ok(ColumnsMode) && StringSetOption(o, "write_columns") == Ok(m.writeColumns)
    requires m.insert.Some? || m.update.Some? || m.delete.Some?
    requires m.writeColumns.Some? ==> rowid !in m.writeColumns.value
    requires m.rowidColumn == Some(rowid) && m.rowidParameter == Some(p) && m.writeMode == ColumnsMode
    requires ParseMutation(o, "insert_endpoint", "insert_method", "POST", ["POST", "PUT"], Some(p), false)
      == Ok(m.insert)
    requires var update :=
        ParseMutation(o, "update_endpoint", "update_method", "PATCH", ["PATCH", "PUT"], Some(p), true);
      update == Ok(m.update) || update.Err?
    requires var delete := ParseMutation(o, "delete_endpoint", "delete_method", "DELETE", ["DELETE"], Some(p), true);
      delete == Ok(m.delete) || delete.Err?
    ensures ParseMutations(o) == Ok(m) || ParseMutations(o).Err?
    ensures ParseMutations(o).Ok? <==> (
      && IsParameterName(p)
      && ParseMutation(o, "update_endpoint", "update_method", "PATCH", ["PATCH", "PUT"], Some(p), true) == Ok(m.update)
      && ParseMutation(o, "delete_endpoint", "delete_method", "DELETE", ["DELETE"], Some(p), true) == Ok(m.delete)
      && (m.writeColumns.Some? ==> AttrsColumn(o) !in m.writeColumns.value))
  {
  }

  /** The write side is accepted exactly when it is acceptable, and then configures what was inferred. */
  lemma MutationsParse(t: ImportedTable, includeAttrs: bool)
    requires t.mutations.Some? && Consistent(t.mutations.value, t.endpoint, Used(t.columns))
    requires HaveColumnIds(t.columns) && !IsBlank(t.endpoint) && !IsAbsolute(t.endpoint)
    ensures var r := ParseMutations(ImportOptions(t, includeAttrs));
      if Acceptable(t.mutations.value, includeAttrs) then r == Ok(Configured(t.mutations.value)) else r.Err?
  {
    var m, o := t.mutations.value, ImportOptions(t, includeAttrs);
    ColumnIdIsNotBlank(m.rowidColumn);
    IdentityParses(t, includeAttrs);
    OperationsParse(t, includeAttrs);
    AttrsParses(t, includeAttrs);
    WriteColumnsParse(t, includeAttrs);
    TextLookup(t, includeAttrs, "write_mode");
    PartsDecide(o, m.rowidColumn, EffectiveParameter(m), Configured(m));
  }

  // ---------- the whole table ----------

  predicate IsPath(pointer: Option<string>) {
    pointer.Some? ==> pointer.value != "" && pointer.value[0] == '/'
  }

  /** A table as the importer makes them. */
  predicate Imported(t: ImportedTable) {
    && t.verb in ["GET", "POST"] && IsPath(t.responsePath) && IsPath(t.objectPath)
    && HaveColumnIds(t.columns)
    && (t.mutations.Some? ==> Consistent(t.mutations.value, t.endpoint, Used(t.columns)))
  }

  /** The condition for a table to be accepted: on its path, its parameter name, and its attrs column. */
  predicate AcceptableTable(t: ImportedTable, includeAttrs: bool) {
    && !IsBlank(t.endpoint) && !IsAbsolute(t.endpoint)
    && (t.mutations.Some? ==> Acceptable(t.mutations.value, includeAttrs))
  }

  lemma NoPartsDecide(o: Options)
    requires TextOption(o, "rowid_column") == None == TextOption(o, "rowid_parameter")
    requires TextOption(o, "insert_endpoint") == None == TextOption(o, "insert_method")
    requires TextOption(o, "update_endpoint") == None == TextOption(o, "update_method")
    requires TextOption(o, "delete_endpoint") == None == TextOption(o, "delete_method")
    requires TextOption(o, "write_mode") == None && JsonOption(o, "write_columns") == Ok(None)
    ensures ParseMutations(o) == Ok(Mutations(None, None, None, None, None, ColumnsMode, None))
  {
  }

  lemma NoMutationsParse(t: ImportedTable, includeAttrs: bool)
    requires t.mutations.None?
    ensures ParseMutations(ImportOptions(t, includeAttrs))
      == Ok(Mutations(None, None, None, None, None, ColumnsMode, None))
  {
    TextLookup(t, includeAttrs, "rowid_column");
    TextLookup(t, includeAttrs, "rowid_parameter");
    TextLookup(t, includeAttrs, "insert_endpoint");
    TextLookup(t, includeAttrs, "insert_method");
    TextLookup(t, includeAttrs, "update_endpoint");
    TextLookup(t, includeAttrs, "update_method");
    TextLookup(t, includeAttrs, "delete_endpoint");
    TextLookup(t, includeAttrs, "delete_method");
    TextLookup(t, includeAttrs, "write_mode");
    JsonLookup(t, includeAttrs, "write_columns");
    NoPartsDecide(ImportOptions(t, includeAttrs));
  }

  lemma StringMapParses(o: Options, name: string, m: map<string, string>)
    requires JsonOption(o, name) == Ok(if m == map[] then None else Some(JsonMap(m)))
    ensures StringMapOption(o, name) == Ok(m)
  {
    var fields: map<string, Json> := if m == map[] then map[] else JsonMap(m).fields;
    assert ObjectOption(o, name) == Ok(fields);
    assert (map key | key in fields :: if fields[key].Str? then fields[key].text else "") == m;
  }

  lemma ColumnMapParses(t: ImportedTable, includeAttrs: bool)
    ensures StringMapOption(ImportOptions(t, includeAttrs), "column_map") == Ok(ColumnMap(t.columns))
  {
    JsonLookup(t, includeAttrs, "column_map");
    StringMapParses(ImportOptions(t, includeAttrs), "column_map", ColumnMap(t.columns));
  }

  /** The options that the importer leaves out take their defaults. */
  lemma DefaultsParse(t: ImportedTable, includeAttrs: bool)
    requires t.verb in ["GET", "POST"] && IsPath(t.responsePath) && IsPath(t.objectPath)
    ensures var o := ImportOptions(t, includeAttrs);
      && MethodOption(o, "method", "GET") == t.verb
      && PointerOption(o, "response_path") == Ok(t.responsePath) && PointerOption(o, "object_path") == Ok(t.objectPath)
      && PointerOption(o, "cursor_path") == Ok(None)
      && PaginationOption(o) == Ok(AutoPages) && TypeErrorOption(o) == Ok(ErrorMode)
  {
    var o := ImportOptions(t, includeAttrs);
    TextLookup(t, includeAttrs, "method");
    TextLookup(t, includeAttrs, "response_path");
    TextLookup(t, includeAttrs, "object_path");
    TextLookup(t, includeAttrs, "cursor_path");
    TextLookup(t, includeAttrs, "pagination");
    TextLookup(t, includeAttrs, "on_type_error");
    MethodParses(o, t.verb);
    PathParses(o, "response_path", t.responsePath);
    PathParses(o, "object_path", t.objectPath);
    PathParses(o, "cursor_path", None);
  }

  lemma MethodParses(o: Options, verb: string)
    requires verb in ["GET", "POST"] && TextOption(o, "method") == if verb == "GET" then None else Some(verb)
    ensures MethodOption(o, "method", "GET") == verb
  {
    assert Uppercase("POST") == "POST";
  }

  lemma PathParses(o: Options, name: string, pointer: Option<string>)
    requires TextOption(o, name) == pointer && IsPath(pointer)
    ensures PointerOption(o, name) == Ok(pointer)
  {
  }

  lemma OtherDefaultsParse(t: ImportedTable, includeAttrs: bool)
    ensures var o := ImportOptions(t, includeAttrs);
      && ObjectOption(o, "query_params") == Ok(map[]) && JsonOption(o, "request_body") == Ok(None)
      && StringMapOption(o, "query_param_map").Ok?
      && BoundedOption(o, "page_size", 1, 1_000_000) == Ok(None) && BoundedOption(o, "max_pages", 1, 10_000) == Ok(None)
  {
  }

  /** How the parts of a table decide the whole. */
  lemma TableDecides(o: Options, endpoint: string, columnMap: map<string, string>)
    requires TextOption(o, "endpoint") == Some(endpoint) && MethodOption(o, "method", "GET") in ["GET", "POST"]
    requires PointerOption(o, "response_path").Ok? && PointerOption(o, "object_path").Ok?
    requires PointerOption(o, "cursor_path").Ok?
    requires ObjectOption(o, "query_params").Ok? && JsonOption(o, "request_body").Ok?
    requires PaginationOption(o).Ok? && TypeErrorOption(o).Ok?
    requires StringMapOption(o, "column_map") == Ok(columnMap) && StringMapOption(o, "query_param_map").Ok?
    requires BoundedOption(o, "page_size", 1, 1_000_000).Ok? && BoundedOption(o, "max_pages", 1, 10_000).Ok?
    ensures FromOptions(o).Ok? <==> !IsBlank(endpoint) && !IsAbsolute(endpoint) && ParseMutations(o).Ok?
    ensures FromOptions(o).Ok? ==> (
      var config, m := FromOptions(o).value, ParseMutations(o).value;
      && config.endpoint == endpoint && config.verb == MethodOption(o, "method", "GET")
      && config.responsePath == PointerOption(o, "response_path").value
      && config.objectPath == PointerOption(o, "object_path").value
      && config.columnMap == columnMap && config.attrsColumn == AttrsColumn(o)
      && WriteSide(config) == m)
  {
  }

  /** The configuration says what was imported. */
  ghost predicate Faithful(config: TableConfig, t: ImportedTable, includeAttrs: bool) {
    && config.endpoint == t.endpoint && config.verb == t.verb
    && config.responsePath == t.responsePath && config.objectPath == t.objectPath
    && config.columnMap == ColumnMap(t.columns)
    && config.attrsColumn == (if includeAttrs then AttrsName(Used(t.columns)) else "attrs")
    && WriteSide(config)
       == if t.mutations.Some? then Configured(t.mutations.value)
          else Mutations(None, None, None, None, None, ColumnsMode, None)
  }

  /**
   The importer's output is accepted exactly when its path is relative and not blank, its
   parameter is a usable name, and the default attrs column is not written to; and what is
   accepted is configured as it was inferred.
   */
  lemma ImportedTablesAreAccepted(t: ImportedTable, includeAttrs: bool)
    requires Imported(t)
    ensures FromOptions(ImportOptions(t, includeAttrs)).Ok? <==> AcceptableTable(t, includeAttrs)
    ensures AcceptableTable(t, includeAttrs) ==>
      Faithful(FromOptions(ImportOptions(t, includeAttrs)).value, t, includeAttrs)
  {
    var o := ImportOptions(t, includeAttrs);
    TextLookup(t, includeAttrs, "endpoint");
    TextLookup(t, includeAttrs, "attrs_column");
    DefaultsParse(t, includeAttrs);
    OtherDefaultsParse(t, includeAttrs);
    ColumnMapParses(t, includeAttrs);
    TableDecides(o, t.endpoint, ColumnMap(t.columns));
    if t.mutations.None? {
      NoMutationsParse(t, includeAttrs);
    } else if !IsBlank(t.endpoint) && !IsAbsolute(t.endpoint) {
      MutationsParse(t, includeAttrs);
    }
  }

  // ---------- from the document to the configuration ----------

  /** The table of a path, with its columns in any order: `endpoints` sorts them by name. */
  ghost predicate TableOf(t: ImportedTable, readPath: string, inference: Inference) {
    && t.endpoint == readPath && t.verb == "GET" && t.mutations == inference.mutations
    && multiset(t.columns) == multiset(inference.columns)
    && IsPath(t.responsePath) && IsPath(t.objectPath)
  }

  lemma SameNames(columns: seq<ImportedColumn>, shuffled: seq<ImportedColumn>)
    requires multiset(columns) == multiset(shuffled)
    ensures Used(columns) == Used(shuffled)
    ensures HaveColumnIds(columns) ==> HaveColumnIds(shuffled)
  {
    assert forall c :: c in columns <==> c in multiset(columns);
    assert forall c :: c in shuffled <==> c in multiset(shuffled);
  }

  /** Every table the importer infers satisfies `Imported`, and so the exact condition applies to it. */
  lemma InferredTablesAreImported(t: ImportedTable, spec: Json, readPath: string, operations: map<string, Json>,
                                  paths: map<string, Json>, columns: seq<ImportedColumn>)
    requires TableOf(t, readPath, Infer(spec, readPath, operations, paths, columns))
    requires HaveColumnIds(Infer(spec, readPath, operations, paths, columns).columns)
    ensures Imported(t)
  {
    InferredIsConsistent(spec, readPath, operations, paths, columns);
    SameNames(Infer(spec, readPath, operations, paths, columns).columns, t.columns);
  }

  /** Ordinary documents: rooted paths, usable parameter names, and the attrs column included. */
  lemma OrdinaryTablesAreAccepted(t: ImportedTable, spec: Json, readPath: string, operations: map<string, Json>,
                                  paths: map<string, Json>, columns: seq<ImportedColumn>)
    requires TableOf(t, readPath, Infer(spec, readPath, operations, paths, columns))
    requires HaveColumnIds(Infer(spec, readPath, operations, paths, columns).columns)
    requires readPath != "" && readPath[0] == '/'
    requires t.mutations.Some? ==>
      !IsBlank(t.mutations.value.rowidParameter) && forall c <- t.mutations.value.rowidParameter :: c !in "/?#"
    ensures FromOptions(ImportOptions(t, true)).Ok?
    ensures Faithful(FromOptions(ImportOptions(t, true)).value, t, true)
  {
    InferredTablesAreImported(t, spec, readPath, operations, paths, columns);
    RootedIsRelative(readPath);
    ImportedTablesAreAccepted(t, true);
  }

  lemma RootedIsRelative(path: string)
    requires path != "" && path[0] == '/'
    ensures !IsBlank(path) && !IsAbsolute(path)
  {
    assert path[0] in path && !IsWhitespace('/');
  }

  /** A collection whose items have a writable property `attrs`. */
  function TableWithAttrs(): ImportedTable {
    ImportedTable("/a", "GET", None, None, [ImportedColumn("id", "id"), ImportedColumn("attrs", "attrs")],
      Some(ImportedMutations("id", "id", Some(MutationOperation("/a", "POST")), None, None, {"attrs"})))
  }

  lemma TableWithAttrsIsImported()
    ensures Imported(TableWithAttrs()) && AcceptableTable(TableWithAttrs(), true)
    ensures "attrs" in TableWithAttrs().mutations.value.writeColumns
  {
    var columns := [ImportedColumn("id", "id"), ImportedColumn("attrs", "attrs")];
    assert columns[0].name == "id" && columns[1].name == "attrs";
    assert Used(columns) == {"id", "attrs"};
    IdAndAttrsAreIds();
    WritesAttrs("/a", Used(columns));
    assert "/a"[0] in "/a" && !IsWhitespace('/');
  }

  lemma IdAndAttrsAreIds()
    ensures IsColumnId("id") && IsColumnId("attrs")
  {
    assert "id"[0] == 'i' && "attrs"[0] == 'a';
  }

  lemma WritesAttrs(path: string, used: set<string>)
    requires "id" in used && "attrs" in used && path == "/a"
    ensures var insert := Some(MutationOperation(path, "POST"));
      Consistent(ImportedMutations("id", "id", insert, None, None, {"attrs"}), path, used)
  {
    IdAndAttrsAreIds();
    NextParts(path);
    assert TemplateParameters(path) == Some([]);
  }

  /** Without the attrs column, a table that may write a property `attrs` is refused. */
  lemma WrittenAttrsAreRefused(t: ImportedTable)
    requires Imported(t) && AcceptableTable(t, true)
    requires t.mutations.Some? && "attrs" in t.mutations.value.writeColumns
    ensures FromOptions(ImportOptions(t, true)).Ok? && FromOptions(ImportOptions(t, false)).Err?
  {
    ImportedTablesAreAccepted(t, true);
    ImportedTablesAreAccepted(t, false);
  }

  /** There is such a table. */
  lemma AttrsPropertyIsRefused()
    ensures exists t ::
      Imported(t) && FromOptions(ImportOptions(t, true)).Ok? && FromOptions(ImportOptions(t, false)).Err?
  {
    TableWithAttrsIsImported();
    WrittenAttrsAreRefused(TableWithAttrs());
  }
}
