/**
 From the importer to the validator through SQL text: the OPTIONS list that `create_sql`
 prints (src/spec.rs), read by PostgreSQL's rules and validated (src/options.rs), configures
 the table that was imported.
 */
module ImportedSql {
  import opened Text
  import opened Json
  import opened TableOptions
  import opened ImportAccepted
  import opened SqlStatements

  /** How JSON is printed and parsed by the JSON library. */
  datatype JsonText = JsonText(display: Json -> string, parse: string -> Option<Json>)
  {
    /** What the importer prints, a map or a list of strings, is parsed back. */
    ghost predicate RoundTrips() {
      && (forall fields :: parse(display(JsonMap(fields))) == Some(JsonMap(fields)))
      && (forall names :: parse(display(JsonNames(names))) == Some(JsonNames(names)))
    }
  }

  // ---------- the printed options ----------

  /** The option names in the order they are printed. */
  function PrintedNames(): seq<string> {
    ["endpoint", "method", "response_path", "object_path", "column_map", "attrs_column", "rowid_column",
     "rowid_parameter", "insert_endpoint", "insert_method", "update_endpoint", "update_method", "delete_endpoint",
     "write_columns"]
  }

  function PrintedValue(t: ImportedTable, attrs: Option<string>, json: JsonText, name: string): Option<string> {
    if JsonValue(t, name).Some? then Some(json.display(JsonValue(t, name).value)) else TextValue(t, attrs, name)
  }

  function PrintedEntries(t: ImportedTable, attrs: Option<string>, json: JsonText, names: seq<string>): seq<Entry> {
    if names == [] then []
    else
      var front := PrintedEntries(t, attrs, json, names[..|names| - 1]);
      var value := PrintedValue(t, attrs, json, names[|names| - 1]);
      if value.Some? then front + [(names[|names| - 1], value.value)] else front
  }

  /** The OPTIONS list of the statement, up to its closing parenthesis. */
  ghost function PrintedOptions(t: ImportedTable, includeAttrs: bool, json: JsonText): seq<Entry> {
    PrintedEntries(t, NamedAttrs(t.columns, includeAttrs), json, PrintedNames())
  }

  function OptionText(entries: seq<Entry>): string {
    Join(Lines(entries, QuoteAllPlain(entries)), ",\n") + "\n)"
  }

  function Lookup(options: map<string, string>, name: string): Option<string> {
    if name in options then Some(options[name]) else None
  }

  lemma {:induction false} PrintedEntriesMakeTheMap(t: ImportedTable, attrs: Option<string>, json: JsonText,
                                                    names: seq<string>, name: string)
    ensures Lookup(ToMap(PrintedEntries(t, attrs, json, names)), name)
      == if name in names then PrintedValue(t, attrs, json, name) else None
  {
    if names != [] {
      var front, last := names[..|names| - 1], names[|names| - 1];
      PrintedEntriesMakeTheMap(t, attrs, json, front, name);
      assert names == front + [last];
      if PrintedValue(t, attrs, json, last).Some? {
        ToMapAppend(PrintedEntries(t, attrs, json, front), last, PrintedValue(t, attrs, json, last).value);
      }
    }
  }

  lemma ToMapAppend(entries: seq<Entry>, name: string, value: string)
    ensures ToMap(entries + [(name, value)]) == ToMap(entries)[name := value]
  {
    assert (entries + [(name, value)])[..|entries|] == entries;
  }

  lemma OnlyPrintedNames(t: ImportedTable, attrs: Option<string>, json: JsonText, name: string)
    requires PrintedValue(t, attrs, json, name).Some?
    ensures name in PrintedNames()
  {
  }

  lemma PrintedLookup(t: ImportedTable, attrs: Option<string>, json: JsonText, name: string)
    ensures Lookup(ToMap(PrintedEntries(t, attrs, json, PrintedNames())), name) == PrintedValue(t, attrs, json, name)
  {
    PrintedEntriesMakeTheMap(t, attrs, json, PrintedNames(), name);
    if PrintedValue(t, attrs, json, name).Some? {
      OnlyPrintedNames(t, attrs, json, name);
    }
  }

  lemma {:induction false} PrintedEntriesAreNamed(t: ImportedTable, attrs: Option<string>, json: JsonText,
                                                  names: seq<string>)
    requires forall name <- names :: IsOptionName(name)
    ensures AreNamed(PrintedEntries(t, attrs, json, names))
  {
    if names != [] {
      PrintedEntriesAreNamed(t, attrs, json, names[..|names| - 1]);
      assert names[|names| - 1] in names;
    }
  }

  predicate AreNamed(entries: seq<Entry>) {
    forall i | 0 <= i < |entries| :: IsOptionName(entries[i].0)
  }

  lemma ReadNames()
    ensures IsOptionName("endpoint") && IsOptionName("method") && IsOptionName("response_path")
    ensures IsOptionName("object_path") && IsOptionName("column_map")
  {
  }

  lemma IdentityNames()
    ensures IsOptionName("attrs_column") && IsOptionName("rowid_column") && IsOptionName("rowid_parameter")
  {
  }

  lemma EndpointNames()
    ensures IsOptionName("insert_endpoint") && IsOptionName("update_endpoint") && IsOptionName("delete_endpoint")
  {
  }

  lemma MethodNames()
    ensures IsOptionName("insert_method") && IsOptionName("update_method") && IsOptionName("write_columns")
  {
  }

  lemma PrintedNamesAreNames()
    ensures forall name <- PrintedNames() :: IsOptionName(name)
  {
    ReadNames();
    IdentityNames();
    EndpointNames();
    MethodNames();
  }

  /** PostgreSQL reads from the statement exactly the options that were printed into it, or none if one holds a NUL. */
  lemma PrintedOptionsReadBack(t: ImportedTable, includeAttrs: bool, json: JsonText)
    ensures var entries := PrintedOptions(t, includeAttrs, json);
      ParseOptions(OptionText(entries)) == ReadEntries(entries, "\n)")
  {
    var attrs := NamedAttrs(t.columns, includeAttrs);
    var entries := PrintedOptions(t, includeAttrs, json);
    PrintedNamesAreNames();
    PrintedEntriesAreNamed(t, attrs, json, PrintedNames());
    NamesOfEntries(entries);
    PrintedLookup(t, attrs, json, "endpoint");
    assert "endpoint" in ToMap(entries);
    assert "\n)"[0] == '\n';
    ImportedOptionsReadBack(entries, "\n)");
  }

  // ---------- the validator's view ----------

  /** The options as the validator gets them: texts, parsed where it expects JSON. */
  function AsOptions(text: map<string, string>, json: JsonText): Options {
    Options(text, map name | name in text :: json.parse(text[name]))
  }

  predicate SameText(a: Options, b: Options, name: string) {
    TextOption(a, name) == TextOption(b, name)
  }

  predicate SameJson(a: Options, b: Options, name: string) {
    JsonOption(a, name) == JsonOption(b, name)
  }

  lemma SameMutation(a: Options, b: Options, endpointName: string, methodName: string, default: string,
                     allowed: seq<string>, parameter: Option<string>, requiresRowid: bool)
    requires SameText(a, b, endpointName) && SameText(a, b, methodName)
    ensures ParseMutation(a, endpointName, methodName, default, allowed, parameter, requiresRowid)
      == ParseMutation(b, endpointName, methodName, default, allowed, parameter, requiresRowid)
  {
  }

  predicate SameMutationOptions(a: Options, b: Options) {
    && SameText(a, b, "rowid_column") && SameText(a, b, "rowid_parameter")
    && SameText(a, b, "insert_endpoint") && SameText(a, b, "insert_method")
    && SameText(a, b, "update_endpoint") && SameText(a, b, "update_method")
    && SameText(a, b, "delete_endpoint") && SameText(a, b, "delete_method")
    && SameText(a, b, "write_mode") && SameText(a, b, "attrs_column") && SameJson(a, b, "write_columns")
  }

  lemma SameParameter(a: Options, b: Options)
    requires SameText(a, b, "rowid_column") && SameText(a, b, "rowid_parameter")
    ensures RowidColumnOption(a) == RowidColumnOption(b) && ParameterOption(a) == ParameterOption(b)
  {
  }

  lemma SameOperations(a: Options, b: Options)
    requires SameMutationOptions(a, b)
    ensures InsertOption(a) == InsertOption(b) && UpdateOption(a) == UpdateOption(b)
    ensures DeleteOption(a) == DeleteOption(b)
  {
    SameParameter(a, b);
    var parameter := ParameterOption(a);
    SameMutation(a, b, "insert_endpoint", "insert_method", "POST", ["POST", "PUT"], parameter, false);
    SameMutation(a, b, "update_endpoint", "update_method", "PATCH", ["PATCH", "PUT"], parameter, true);
    SameMutation(a, b, "delete_endpoint", "delete_method", "DELETE", ["DELETE"], parameter, true);
  }

  lemma SameSet(a: Options, b: Options, name: string)
    requires SameJson(a, b, name)
    ensures StringSetOption(a, name) == StringSetOption(b, name)
    ensures ObjectOption(a, name) == ObjectOption(b, name) && StringMapOption(a, name) == StringMapOption(b, name)
  {
  }

  lemma SameModes(a: Options, b: Options)
    requires SameText(a, b, "write_mode") && SameText(a, b, "attrs_column")
    ensures WriteModeOption(a) == WriteModeOption(b) && AttrsColumn(a) == AttrsColumn(b)
  {
  }

  lemma SameMutations(a: Options, b: Options)
    requires SameMutationOptions(a, b)
    ensures ParseMutations(a) == ParseMutations(b)
  {
    SameParameter(a, b);
    SameOperations(a, b);
    SameSet(a, b, "write_columns");
    SameModes(a, b);
  }

  predicate SameReadOptions(a: Options, b: Options) {
    && SameText(a, b, "endpoint") && SameText(a, b, "method") && SameText(a, b, "attrs_column")
    && SameText(a, b, "response_path") && SameText(a, b, "object_path") && SameText(a, b, "cursor_path")
    && SameJson(a, b, "query_params") && SameJson(a, b, "request_body")
    && SameText(a, b, "pagination") && SameText(a, b, "on_type_error")
    && SameJson(a, b, "column_map") && SameJson(a, b, "query_param_map")
    && SameText(a, b, "page_size") && SameText(a, b, "max_pages") && SameText(a, b, "limit_param")
    && SameText(a, b, "page_size_param") && SameText(a, b, "cursor_param")
  }

  lemma SameValue(a: Options, b: Options, name: string, default: Option<string>, text: string, minimum: nat,
                  maximum: nat)
    requires SameText(a, b, name)
    ensures PointerOption(a, name) == PointerOption(b, name)
    ensures NonEmptyOption(a, name, default) == NonEmptyOption(b, name, default)
    ensures MethodOption(a, name, text) == MethodOption(b, name, text)
    ensures BoundedOption(a, name, minimum, maximum) == BoundedOption(b, name, minimum, maximum)
  {
  }

  lemma SameChoices(a: Options, b: Options)
    requires SameText(a, b, "pagination") && SameText(a, b, "on_type_error") && SameText(a, b, "attrs_column")
    ensures PaginationOption(a) == PaginationOption(b)
    ensures TypeErrorOption(a) == TypeErrorOption(b) && AttrsColumn(a) == AttrsColumn(b)
  {
  }

  lemma SameReadSide(a: Options, b: Options)
    requires SameReadOptions(a, b)
    ensures ParseReadSide(a) == ParseReadSide(b)
  {
    SameValue(a, b, "method", None, "GET", 0, 0);
    SameValue(a, b, "response_path", None, "", 0, 0);
    SameValue(a, b, "object_path", None, "", 0, 0);
    SameValue(a, b, "cursor_path", None, "", 0, 0);
    SameSet(a, b, "query_params");
    SameSet(a, b, "column_map");
    SameSet(a, b, "query_param_map");
    SameValue(a, b, "page_size", None, "", 1, 1_000_000);
    SameValue(a, b, "max_pages", None, "", 1, 10_000);
    SameValue(a, b, "limit_param", Some("limit"), "", 0, 0);
    SameValue(a, b, "page_size_param", None, "", 0, 0);
    SameValue(a, b, "cursor_param", Some("cursor"), "", 0, 0);
    SameChoices(a, b);
  }

  /** A configuration depends on nothing but the options the validator looks up. */
  lemma SameConfiguration(a: Options, b: Options)
    requires SameReadOptions(a, b) && SameMutationOptions(a, b)
    ensures FromOptions(a) == FromOptions(b)
  {
    SameReadSide(a, b);
    SameMutations(a, b);
  }

  /** The options of the imported table, as the validator reads them from the statement. */
  ghost function ReadOptions(t: ImportedTable, includeAttrs: bool, json: JsonText): Options {
    AsOptions(ToMap(PrintedOptions(t, includeAttrs, json)), json)
  }

  lemma TextSurvives(t: ImportedTable, includeAttrs: bool, json: JsonText, name: string)
    requires name != "column_map" && name != "write_columns"
    ensures SameText(ReadOptions(t, includeAttrs, json), ImportOptions(t, includeAttrs), name)
  {
    PrintedLookup(t, NamedAttrs(t.columns, includeAttrs), json, name);
    TextLookup(t, includeAttrs, name);
  }

  lemma JsonSurvives(t: ImportedTable, includeAttrs: bool, json: JsonText, name: string)
    requires json.RoundTrips() && TextValue(t, NamedAttrs(t.columns, includeAttrs), name).None?
    ensures SameJson(ReadOptions(t, includeAttrs, json), ImportOptions(t, includeAttrs), name)
  {
    PrintedLookup(t, NamedAttrs(t.columns, includeAttrs), json, name);
    JsonLookup(t, includeAttrs, name);
    var printed := ToMap(PrintedOptions(t, includeAttrs, json));
    assert Lookup(printed, name).Some? <==> name in printed;
  }

  lemma EndpointOptionsSurvive(t: ImportedTable, includeAttrs: bool, json: JsonText)
    ensures var a, b := ReadOptions(t, includeAttrs, json), ImportOptions(t, includeAttrs);
      && SameText(a, b, "insert_endpoint") && SameText(a, b, "insert_method")
      && SameText(a, b, "update_endpoint") && SameText(a, b, "update_method")
      && SameText(a, b, "delete_endpoint") && SameText(a, b, "delete_method")
  {
    TextSurvives(t, includeAttrs, json, "insert_endpoint");
    TextSurvives(t, includeAttrs, json, "insert_method");
    TextSurvives(t, includeAttrs, json, "update_endpoint");
    TextSurvives(t, includeAttrs, json, "update_method");
    TextSurvives(t, includeAttrs, json, "delete_endpoint");
    TextSurvives(t, includeAttrs, json, "delete_method");
  }

  lemma WriteColumnsAreNoText(t: ImportedTable, attrs: Option<string>)
    ensures TextValue(t, attrs, "write_columns").None?
  {
  }

  lemma WriteOptionsSurvive(t: ImportedTable, includeAttrs: bool, json: JsonText)
    requires json.RoundTrips()
    ensures var a, b := ReadOptions(t, includeAttrs, json), ImportOptions(t, includeAttrs);
      && SameText(a, b, "rowid_column") && SameText(a, b, "rowid_parameter")
      && SameText(a, b, "write_mode") && SameText(a, b, "attrs_column") && SameJson(a, b, "write_columns")
  {
    TextSurvives(t, includeAttrs, json, "rowid_column");
    TextSurvives(t, includeAttrs, json, "rowid_parameter");
    TextSurvives(t, includeAttrs, json, "write_mode");
    TextSurvives(t, includeAttrs, json, "attrs_column");
    WriteColumnsAreNoText(t, NamedAttrs(t.columns, includeAttrs));
    JsonSurvives(t, includeAttrs, json, "write_columns");
  }

  lemma MutationOptionsSurvive(t: ImportedTable, includeAttrs: bool, json: JsonText)
    requires json.RoundTrips()
    ensures SameMutationOptions(ReadOptions(t, includeAttrs, json), ImportOptions(t, includeAttrs))
  {
    EndpointOptionsSurvive(t, includeAttrs, json);
    WriteOptionsSurvive(t, includeAttrs, json);
  }

  lemma PathOptionsSurvive(t: ImportedTable, includeAttrs: bool, json: JsonText)
    ensures var a, b := ReadOptions(t, includeAttrs, json), ImportOptions(t, includeAttrs);
      && SameText(a, b, "endpoint") && SameText(a, b, "method") && SameText(a, b, "attrs_column")
      && SameText(a, b, "response_path") && SameText(a, b, "object_path") && SameText(a, b, "cursor_path")
      && SameText(a, b, "pagination") && SameText(a, b, "on_type_error")
  {
    TextSurvives(t, includeAttrs, json, "endpoint");
    TextSurvives(t, includeAttrs, json, "method");
    TextSurvives(t, includeAttrs, json, "attrs_column");
    TextSurvives(t, includeAttrs, json, "response_path");
    TextSurvives(t, includeAttrs, json, "object_path");
    TextSurvives(t, includeAttrs, json, "cursor_path");
    TextSurvives(t, includeAttrs, json, "pagination");
    TextSurvives(t, includeAttrs, json, "on_type_error");
  }

  lemma PageOptionsSurvive(t: ImportedTable, includeAttrs: bool, json: JsonText)
    ensures var a, b := ReadOptions(t, includeAttrs, json), ImportOptions(t, includeAttrs);
      && SameText(a, b, "page_size") && SameText(a, b, "max_pages") && SameText(a, b, "limit_param")
      && SameText(a, b, "page_size_param") && SameText(a, b, "cursor_param")
  {
    TextSurvives(t, includeAttrs, json, "page_size");
    TextSurvives(t, includeAttrs, json, "max_pages");
    TextSurvives(t, includeAttrs, json, "limit_param");
    TextSurvives(t, includeAttrs, json, "page_size_param");
    TextSurvives(t, includeAttrs, json, "cursor_param");
  }

  lemma ReadJsonIsNoText(t: ImportedTable, attrs: Option<string>)
    ensures TextValue(t, attrs, "query_params").None? && TextValue(t, attrs, "request_body").None?
  {
  }

  lemma MapsAreNoText(t: ImportedTable, attrs: Option<string>)
    ensures TextValue(t, attrs, "column_map").None? && TextValue(t, attrs, "query_param_map").None?
  {
  }

  lemma JsonOptionsSurvive(t: ImportedTable, includeAttrs: bool, json: JsonText)
    requires json.RoundTrips()
    ensures var a, b := ReadOptions(t, includeAttrs, json), ImportOptions(t, includeAttrs);
      && SameJson(a, b, "query_params") && SameJson(a, b, "request_body")
      && SameJson(a, b, "column_map") && SameJson(a, b, "query_param_map")
  {
    ReadJsonIsNoText(t, NamedAttrs(t.columns, includeAttrs));
    MapsAreNoText(t, NamedAttrs(t.columns, includeAttrs));
    JsonSurvives(t, includeAttrs, json, "query_params");
    JsonSurvives(t, includeAttrs, json, "request_body");
    JsonSurvives(t, includeAttrs, json, "column_map");
    JsonSurvives(t, includeAttrs, json, "query_param_map");
  }

  lemma ReadOptionsSurvive(t: ImportedTable, includeAttrs: bool, json: JsonText)
    requires json.RoundTrips()
    ensures SameReadOptions(ReadOptions(t, includeAttrs, json), ImportOptions(t, includeAttrs))
  {
    PathOptionsSurvive(t, includeAttrs, json);
    PageOptionsSurvive(t, includeAttrs, json);
    JsonOptionsSurvive(t, includeAttrs, json);
  }

  /** No printed text holds a NUL, which no string constant of PostgreSQL can. */
  predicate PrintsNoNul(t: ImportedTable, attrs: Option<string>, json: JsonText) {
    forall name <- PrintedNames() :: HoldsNoNul(PrintedValue(t, attrs, json, name))
  }

  predicate HoldsNoNul(value: Option<string>) {
    value.Some? ==> '\0' !in value.value
  }

  lemma AllCleanAppend(entries: seq<Entry>, entry: Entry)
    ensures (forall e <- entries + [entry] :: '\0' !in e.1) <==>
      (forall e <- entries :: '\0' !in e.1) && '\0' !in entry.1
  {
    assert (entries + [entry])[|entries|] == entry;
    assert forall e <- entries :: e in entries + [entry];
  }

  lemma {:induction false} PrintedNul(t: ImportedTable, attrs: Option<string>, json: JsonText, names: seq<string>)
    ensures (forall e <- PrintedEntries(t, attrs, json, names) :: '\0' !in e.1)
      <==> (forall name <- names :: HoldsNoNul(PrintedValue(t, attrs, json, name)))
  {
    if names != [] {
      var front, last := names[..|names| - 1], names[|names| - 1];
      PrintedNul(t, attrs, json, front);
      assert names == front + [last];
      var before, value := PrintedEntries(t, attrs, json, front), PrintedValue(t, attrs, json, last);
      assert (forall name <- names :: HoldsNoNul(PrintedValue(t, attrs, json, name)))
        <==> (forall name <- front :: HoldsNoNul(PrintedValue(t, attrs, json, name))) && HoldsNoNul(value);
      if value.Some? {
        AllCleanAppend(before, (last, value.value));
      }
    }
  }

  /** The configuration made of the text of an option list. */
  function Reconfigured(text: string, json: JsonText): Result<TableConfig> {
    match ParseOptions(text)
    case None => Err(Configuration)
    case Some(parsed) => FromOptions(AsOptions(ToMap(parsed.entries), json))
  }

  /**
   The whole way: an imported table, printed as SQL, lexed by PostgreSQL and validated again,
   is the table that was imported if it is acceptable and prints no NUL, and is refused otherwise.
   */
  lemma ImportSurvivesSql(t: ImportedTable, includeAttrs: bool, json: JsonText)
    requires Imported(t) && json.RoundTrips()
    ensures var config := Reconfigured(OptionText(PrintedOptions(t, includeAttrs, json)), json);
      && (config.Ok? <==> AcceptableTable(t, includeAttrs) && PrintsNoNul(t, NamedAttrs(t.columns, includeAttrs), json))
      && (config.Ok? ==> Faithful(config.value, t, includeAttrs))
  {
    PrintedOptionsReadBack(t, includeAttrs, json);
    NulFreeEntries(PrintedOptions(t, includeAttrs, json));
    PrintedNul(t, NamedAttrs(t.columns, includeAttrs), json, PrintedNames());
    MutationOptionsSurvive(t, includeAttrs, json);
    ReadOptionsSurvive(t, includeAttrs, json);
    SameConfiguration(ReadOptions(t, includeAttrs, json), ImportOptions(t, includeAttrs));
    ImportedTablesAreAccepted(t, includeAttrs);
  }

  /** The table of a path that holds a NUL. */
  function NulTable(): ImportedTable {
    ImportedTable("/a\0", "GET", None, None, [], None)
  }

  /** The validator would take it, but its statement cannot be read. */
  lemma NulPathIsLost(json: JsonText)
    requires json.RoundTrips()
    ensures Imported(NulTable()) && AcceptableTable(NulTable(), true)
    ensures Reconfigured(OptionText(PrintedOptions(NulTable(), true, json)), json).Err?
  {
    assert "/a\0"[0] in "/a\0" && !IsWhitespace('/') && "/a\0"[2] == '\0';
    NulEndpointIsPrinted(NulTable(), NamedAttrs([], true), json);
    ImportSurvivesSql(NulTable(), true, json);
  }

  lemma NulEndpointIsPrinted(t: ImportedTable, attrs: Option<string>, json: JsonText)
    requires '\0' in t.endpoint
    ensures !PrintsNoNul(t, attrs, json)
  {
    assert PrintedNames()[0] == "endpoint";
    assert PrintedValue(t, attrs, json, "endpoint") == Some(t.endpoint);
  }
}
