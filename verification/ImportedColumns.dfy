/**
 The columns of an imported table (src/spec.rs): from the response schema, from path
 parameters, from request bodies, and the attrs column; all under distinct names that
 PostgreSQL does not cut.
 */
module ImportedColumns {
  import opened Text
  import opened Json
  import opened Identifiers
  import opened SchemaResolver

  /** A column and the JSON property it stands for. */
  datatype ImportedColumn = ImportedColumn(name: string, jsonName: string)

  function Used(columns: seq<ImportedColumn>): set<string> {
    set c | c in columns :: c.name
  }

  predicate HasName(columns: seq<ImportedColumn>, name: string) {
    exists column <- columns :: column.name == name
  }

  ghost predicate DistinctNames(columns: seq<ImportedColumn>) {
    forall i, j | 0 <= i < j < |columns| :: columns[i].name != columns[j].name
  }

  predicate IsColumnId(name: string) {
    name != "" && |name| <= MAX_LENGTH && forall c <- name :: IsIdentifierChar(c)
  }

  predicate HaveColumnIds(columns: seq<ImportedColumn>) {
    forall c <- columns :: IsColumnId(c.name)
  }

  /** A list of columns that makes a table definition PostgreSQL takes as written. */
  ghost predicate WellNamed(columns: seq<ImportedColumn>) {
    HaveColumnIds(columns) && DistinctNames(columns)
  }

  /** No vector is longer than a 64-bit machine can index. */
  const USIZE_MAX := 0xFFFF_FFFF_FFFF_FFFF

  lemma {:induction false} UsedCount(columns: seq<ImportedColumn>)
    ensures |Used(columns)| <= |columns|
  {
    if columns != [] {
      var front, last := columns[..|columns| - 1], columns[|columns| - 1];
      UsedCount(front);
      assert columns == front + [last];
      assert Used(columns) == Used(front) + {last.name};
    }
  }

  lemma PowerExceedsIndices()
    ensures USIZE_MAX + 2 < Power10(20)
  {
    assert Power10(5) == 100_000;
    assert Power10(10) == 100_000 * Power10(5);
    assert Power10(15) == 100_000 * Power10(10);
    assert Power10(20) == 100_000 * Power10(15);
  }

  lemma NumberedIsName(base: string, n: nat)
    requires IsColumnId(base) && n < Power10(20)
    ensures IsColumnId(Numbered(base, n))
  {
    NumberedLength(base, n);
    var decimal := Decimal(n);
    assert forall c <- decimal :: IsDigit(c);
    assert forall i | 0 <= i < |Cut(base, n)| :: Cut(base, n)[i] in base;
    forall c | c in Numbered(base, n)
      ensures IsIdentifierChar(c)
    {
      assert c in base || c in decimal || c == '_';
    }
  }

  // ---------- unique_column_name ----------

  function Candidates(base: string): nat -> string {
    (n: nat) => Numbered(base, n)
  }

  lemma CandidatesDiffer(base: string)
    ensures Injective(Candidates(base), 2)
  {
    forall i: nat, j: nat | 2 <= i < j
      ensures Candidates(base)(i) != Candidates(base)(j)
    {
      if Numbered(base, i) == Numbered(base, j) {
        NumberedUnique(base, i, base, j);
      }
    }
  }

  function OrField(base: string): string {
    if base == "" then "field" else base
  }

  /** The base, or else the base under the least free number. */
  ghost function UniqueColumnName(base: string, columns: seq<ImportedColumn>): (name: string)
    ensures name !in Used(columns)
  {
    if OrField(base) !in Used(columns) then OrField(base)
    else Numbered(OrField(base), FreeNumber(OrField(base), Used(columns)))
  }

  ghost function FreeNumber(base: string, used: set<string>): (n: nat)
    ensures n >= 2 && Numbered(base, n) !in used
  {
    CandidatesDiffer(base);
    FirstFree(Candidates(base), used, 2)
  }

  lemma NumberSearch(base: string, used: set<string>, n: nat)
    requires 2 <= n <= FreeNumber(base, used)
    ensures Numbered(base, n) !in used <==> n == FreeNumber(base, used)
  {
    CandidatesDiffer(base);
    SearchStep(Candidates(base), used, 2, n);
    assert Candidates(base)(n) == Numbered(base, n);
  }

  /** `unique_column_name`: the search ends, because only so many numbered names can be taken. */
  method FindUniqueColumnName(base: string, columns: seq<ImportedColumn>) returns (name: string)
    ensures name == UniqueColumnName(base, columns)
  {
    var base' := if base == "" then "field" else base;
    var used := set c | c in columns :: c.name;
    if base' !in used {
      return base';
    }
    var ordinal := 2;
    while true
      invariant 2 <= ordinal <= FreeNumber(base', used)
      decreases FreeNumber(base', used) - ordinal
    {
      var candidate := Numbered(base', ordinal);
      NumberSearch(base', used, ordinal);
      if candidate !in used {
        return candidate;
      }
      ordinal := ordinal + 1;
    }
  }

  lemma UniqueColumnNameIsName(base: string, columns: seq<ImportedColumn>)
    requires base == "" || IsColumnId(base)
    requires |columns| <= USIZE_MAX
    ensures IsColumnId(UniqueColumnName(base, columns))
  {
    var used := Used(columns);
    assert IsColumnId("field");
    if OrField(base) in used {
      CandidatesDiffer(OrField(base));
      var n := FirstFree(Candidates(OrField(base)), used, 2);
      assert Taken(Candidates(OrField(base)), used, 2) <= used;
      SubsetCount(Taken(Candidates(OrField(base)), used, 2), used);
      UsedCount(columns);
      PowerExceedsIndices();
      NumberedIsName(OrField(base), n);
    }
  }

  lemma {:induction false} SubsetCount<T>(a: set<T>, b: set<T>)
    requires a <= b
    ensures |a| <= |b|
    decreases a
  {
    if x :| x in a {
      SubsetCount(a - {x}, b - {x});
    }
  }

  lemma SanitizedIsName(raw: string)
    ensures Sanitize(raw) == "" || IsColumnId(Sanitize(raw))
  {
    SanitizeShape(raw);
  }

  // ---------- columns_from_schema ----------

  /** Whether a flag of a schema is set. */
  predicate Flag(schema: Json, name: string) {
    AsBool(Field(schema, name)) == Some(true)
  }

  /** The names, in order, of the properties without the flag. */
  function Without(properties: map<string, Json>, names: seq<string>, flag: string): (r: seq<string>)
    ensures |r| <= |names|
  {
    if names == [] then []
    else
      var front, last := Without(properties, names[..|names| - 1], flag), names[|names| - 1];
      if last in properties && Flag(properties[last], flag) then front else front + [last]
  }

  lemma WithoutStep(properties: map<string, Json>, names: seq<string>, i: nat, flag: string)
    requires i < |names| && names[i] in properties
    ensures Without(properties, names[..i + 1], flag)
      == Without(properties, names[..i], flag) + if Flag(properties[names[i]], flag) then [] else [names[i]]
  {
    assert names[..i + 1][..i] == names[..i];
  }

  function PropertiesOf(schema: Json): map<string, Json> {
    if schema.Obj? then Properties(schema.fields) else map[]
  }

  /** The readable properties of a row schema, in key order. */
  function ReadableProperties(spec: Json, rawSchema: Json): seq<string> {
    var properties := PropertiesOf(ResolveSchema(spec, rawSchema, 0, {}));
    Without(properties, InOrder(properties.Keys), "writeOnly")
  }

  lemma {:induction false} WithoutIsFilter(properties: map<string, Json>, names: seq<string>, flag: string,
                                           name: string)
    ensures name in Without(properties, names, flag) <==>
      name in names && !(name in properties && Field(properties[name], flag) == Some(Bool(true)))
  {
    if names != [] {
      WithoutIsFilter(properties, names[..|names| - 1], flag, name);
      assert names == names[..|names| - 1] + [names[|names| - 1]];
    }
  }

  lemma {:induction false} WithoutIsSorted(properties: map<string, Json>, names: seq<string>, flag: string)
    requires Sorted(names)
    ensures Sorted(Without(properties, names, flag))
  {
    if names != [] {
      var front, last := names[..|names| - 1], names[|names| - 1];
      WithoutIsSorted(properties, front, flag);
      var kept := Without(properties, front, flag);
      forall k | 0 <= k < |kept|
        ensures Before(kept[k], last)
      {
        WithoutIsFilter(properties, front, flag, kept[k]);
        assert kept[k] in kept;
        var a :| 0 <= a < |front| && front[a] == kept[k];
        assert names[a] == kept[k];
      }
    }
  }

  /** A schema declares a property. */
  predicate Declares(schema: Json, name: string, property: Json) {
    var properties := Field(schema, "properties");
    && properties.Some? && properties.value.Obj? && name in properties.value.fields
    && properties.value.fields[name] == property
  }

  predicate IsTrue(schema: Json, flag: string) {
    Field(schema, flag) == Some(Bool(true))
  }

  /** A schema declares a property without the flag. */
  ghost predicate DeclaresWithout(schema: Json, name: string, flag: string) {
    exists property :: Declares(schema, name, property) && !IsTrue(property, flag)
  }

  lemma KeptAreUnflagged(properties: map<string, Json>, name: string, flag: string)
    ensures var kept := Without(properties, InOrder(properties.Keys), flag);
      Sorted(kept) && (name in kept <==> name in properties && !IsTrue(properties[name], flag))
  {
    WithoutIsSorted(properties, InOrder(properties.Keys), flag);
    WithoutIsFilter(properties, InOrder(properties.Keys), flag, name);
  }

  lemma UnflaggedAreDeclared(schema: Json, name: string, flag: string)
    ensures DeclaresWithout(schema, name, flag) <==>
      name in PropertiesOf(schema) && !IsTrue(PropertiesOf(schema)[name], flag)
  {
    PropertiesAreDeclared(schema, name);
    if name in PropertiesOf(schema) {
      assert Declares(schema, name, PropertiesOf(schema)[name]);
    }
  }

  /** The columns of a row schema are its properties in key order, without those that are only written. */
  lemma ReadableIsExact(spec: Json, rawSchema: Json, name: string)
    ensures Sorted(ReadableProperties(spec, rawSchema))
    ensures name in ReadableProperties(spec, rawSchema) <==>
      DeclaresWithout(ResolveSchema(spec, rawSchema, 0, {}), name, "writeOnly")
  {
    var schema := ResolveSchema(spec, rawSchema, 0, {});
    KeptAreUnflagged(PropertiesOf(schema), name, "writeOnly");
    UnflaggedAreDeclared(schema, name, "writeOnly");
  }

  lemma PropertiesAreDeclared(schema: Json, name: string)
    ensures forall property :: Declares(schema, name, property) <==>
      name in PropertiesOf(schema) && PropertiesOf(schema)[name] == property
  {
  }

  function ColumnKey(jsonName: string): string {
    Key(Sanitize(jsonName), "field")
  }

  function ColumnKeys(names: seq<string>): (keys: seq<string>)
    ensures |keys| == |names|
  {
    if names == [] then [] else ColumnKeys(names[..|names| - 1]) + [ColumnKey(names[|names| - 1])]
  }

  /** Every readable property under the next name of its key. */
  ghost function SchemaColumns(names: seq<string>): (columns: seq<ImportedColumn>)
    ensures |columns| == |names|
  {
    seq(|names|, i requires 0 <= i < |names| => ImportedColumn(Names(ColumnKeys(names))[i], names[i]))
  }

  lemma SchemaColumnsAppend(names: seq<string>, last: string, name: string)
    requires Names(ColumnKeys(names) + [ColumnKey(last)]) == Names(ColumnKeys(names)) + [name]
    ensures SchemaColumns(names + [last]) == SchemaColumns(names) + [ImportedColumn(name, last)]
    ensures ColumnKeys(names + [last]) == ColumnKeys(names) + [ColumnKey(last)]
  {
    var all := names + [last];
    assert all[..|names|] == names;
    assert ColumnKeys(all) == ColumnKeys(names) + [ColumnKey(last)];
    Extended(SchemaColumns(names), SchemaColumns(all), ImportedColumn(name, last));
  }

  /** `columns_from_schema`. */
  method ColumnsFromSchema(spec: Json, rawSchema: Json) returns (columns: seq<ImportedColumn>)
    ensures columns == SchemaColumns(ReadableProperties(spec, rawSchema))
  {
    var schema := ResolveSchema(spec, rawSchema, 0, {});
    var properties := PropertiesOf(schema);
    var names := InOrder(properties.Keys);
    var seen: map<string, nat> := map[];
    columns := [];
    ghost var done := [];
    EmptyCounts();
    for i := 0 to |names|
      invariant done == Without(properties, names[..i], "writeOnly")
      invariant columns == SchemaColumns(done)
      invariant Counted(seen, ColumnKeys(done))
    {
      var jsonName := names[i];
      assert jsonName in names;
      WithoutStep(properties, names, i, "writeOnly");
      if !Flag(properties[jsonName], "writeOnly") {
        var sanitized := SanitizeIdentifier(jsonName);
        var name;
        name, seen := UniqueIdentifier(sanitized, "field", seen, ColumnKeys(done));
        SchemaColumnsAppend(done, jsonName, name);
        columns := columns + [ImportedColumn(name, jsonName)];
        done := done + [jsonName];
      }
    }
    assert names[..|names|] == names;
  }

  lemma EmptyCounts()
    ensures Counted(map[], ColumnKeys([]))
  {
  }

  /** The columns of a schema are distinct exactly when their keys do not collide. */
  lemma SchemaColumnsDistinct(names: seq<string>)
    ensures DistinctNames(SchemaColumns(names)) <==> CollisionFree(ColumnKeys(names))
  {
    NamesDistinct(ColumnKeys(names));
    var columns, keys := SchemaColumns(names), Names(ColumnKeys(names));
    assert forall i | 0 <= i < |names| :: columns[i].name == keys[i];
  }

  lemma {:induction false} CountIsBounded(keys: seq<string>, key: string)
    ensures Count(keys, key) <= |keys|
  {
    if keys != [] {
      CountIsBounded(keys[..|keys| - 1], key);
    }
  }

  lemma {:induction false} KeysAreNames(names: seq<string>)
    ensures forall key <- ColumnKeys(names) :: IsColumnId(key)
  {
    if names != [] {
      KeysAreNames(names[..|names| - 1]);
      SanitizedIsName(names[|names| - 1]);
      assert IsColumnId("field");
    }
  }

  lemma NumberedKeyIsName(keys: seq<string>, i: nat)
    requires i < |keys| <= USIZE_MAX && IsColumnId(keys[i])
    ensures IsColumnId(Numbered(keys[i], Occurrence(keys, i)))
  {
    OccurrenceBounds(keys, i);
    CountIsBounded(keys, keys[i]);
    PowerExceedsIndices();
    NumberedIsName(keys[i], Occurrence(keys, i));
  }

  lemma SchemaColumnName(names: seq<string>, i: nat)
    requires i < |names|
    ensures SchemaColumns(names)[i].name == Numbered(ColumnKeys(names)[i], Occurrence(ColumnKeys(names), i))
  {
    var given := Names(ColumnKeys(names));
    assert SchemaColumns(names)[i] == ImportedColumn(given[i], names[i]);
    assert given[i] == NameAt(ColumnKeys(names), i);
  }

  lemma SchemaColumnsAreNames(names: seq<string>)
    requires |names| <= USIZE_MAX
    ensures HaveColumnIds(SchemaColumns(names))
  {
    var keys, columns := ColumnKeys(names), SchemaColumns(names);
    KeysAreNames(names);
    forall i | 0 <= i < |columns|
      ensures IsColumnId(columns[i].name)
    {
      assert keys[i] in keys;
      NumberedKeyIsName(keys, i);
      SchemaColumnName(names, i);
    }
  }

  // ---------- path_parameter_columns ----------

  function Items(value: Option<Json>): seq<Json> {
    if value.Some? && value.value.Arr? then value.value.items else []
  }

  predicate Lists(value: Option<Json>, item: Json) {
    value.Some? && value.value.Arr? && item in value.value.items
  }

  /** The parameters are those that the path and the operation list. */
  lemma ItemsAreListed(path: Option<Json>, operation: Option<Json>, item: Json)
    ensures item in Items(path) + Items(operation) <==> Lists(path, item) || Lists(operation, item)
  {
  }

  /** The property name of a path parameter, if the entry is one. */
  function PathParameter(spec: Json, parameter: Json): Option<string> {
    var resolved := ResolveRef(spec, parameter, 0, {});
    if AsString(Field(resolved, "in")) == Some("path") then AsString(Field(resolved, "name")) else None
  }

  function ParameterName(jsonName: string): string {
    if Sanitize(jsonName) == "" then "parameter" else Sanitize(jsonName)
  }

  /** Column names with their parameters: a later parameter replaces an earlier one of the same name. */
  function WithParameter(columns: map<string, string>, jsonName: Option<string>, existing: set<string>): map<string,
                         string> {
    if jsonName.None? || ParameterName(jsonName.value) in existing then columns
    else columns[ParameterName(jsonName.value) := jsonName.value]
  }

  function ParameterMap(spec: Json, parameters: seq<Json>, existing: set<string>): map<string, string> {
    if parameters == [] then map[]
    else
      WithParameter(ParameterMap(spec, parameters[..|parameters| - 1], existing),
        PathParameter(spec, parameters[|parameters| - 1]), existing)
  }

  function Values(names: seq<string>, columns: map<string, string>): (r: seq<ImportedColumn>)
    requires forall name <- names :: name in columns
    ensures |r| == |names| && forall i | 0 <= i < |r| :: r[i] == ImportedColumn(names[i], columns[names[i]])
  {
    if names == [] then []
    else
      assert forall name <- names[1..] :: name in names;
      [ImportedColumn(names[0], columns[names[0]])] + Values(names[1..], columns)
  }

  function ParameterColumns(spec: Json, parameters: seq<Json>, existing: set<string>): seq<ImportedColumn> {
    var columns := ParameterMap(spec, parameters, existing);
    Values(InOrder(columns.Keys), columns)
  }

  method AddParameter(columns: map<string, string>, jsonName: Option<string>, existing: seq<ImportedColumn>)
    returns (r: map<string, string>)
    ensures r == WithParameter(columns, jsonName, Used(existing))
  {
    if jsonName.None? {
      return columns;
    }
    var name := SanitizeIdentifier(jsonName.value);
    if name == "" {
      name := "parameter";
    }
    r := if HasName(existing, name) then columns else columns[name := jsonName.value];
  }

  lemma ParameterStep(spec: Json, parameters: seq<Json>, i: nat, existing: set<string>)
    requires i < |parameters|
    ensures ParameterMap(spec, parameters[..i + 1], existing)
      == WithParameter(ParameterMap(spec, parameters[..i], existing), PathParameter(spec, parameters[i]), existing)
  {
    assert parameters[..i + 1][..i] == parameters[..i];
  }

  /** `path_parameter_columns`. */
  method PathParameterColumns(spec: Json, pathParameters: Option<Json>, operationParameters: Option<Json>,
                              existing: seq<ImportedColumn>)
    returns (r: seq<ImportedColumn>)
    ensures r == ParameterColumns(spec, Items(pathParameters) + Items(operationParameters), Used(existing))
  {
    var columns: map<string, string> := map[];
    var parameters := Items(pathParameters) + Items(operationParameters);
    for i := 0 to |parameters|
      invariant columns == ParameterMap(spec, parameters[..i], Used(existing))
    {
      ParameterStep(spec, parameters, i, Used(existing));
      columns := AddParameter(columns, PathParameter(spec, parameters[i]), existing);
    }
    assert parameters[..|parameters|] == parameters;
    r := Values(InOrder(columns.Keys), columns);
  }

  lemma {:induction false} ParameterMapNames(spec: Json, parameters: seq<Json>, existing: set<string>)
    ensures forall name <- ParameterMap(spec, parameters, existing) :: name !in existing && IsColumnId(name)
  {
    if parameters != [] {
      ParameterMapNames(spec, parameters[..|parameters| - 1], existing);
      var jsonName := PathParameter(spec, parameters[|parameters| - 1]);
      if jsonName.Some? {
        SanitizedIsName(jsonName.value);
        assert IsColumnId("parameter");
      }
    }
  }

  /** An entry describes the path parameter behind a column. */
  predicate Describes(spec: Json, parameter: Json, column: ImportedColumn) {
    var resolved := ResolveRef(spec, parameter, 0, {});
    && Field(resolved, "in") == Some(Str("path")) && Field(resolved, "name") == Some(Str(column.jsonName))
    && column.name == if Sanitize(column.jsonName) == "" then "parameter" else Sanitize(column.jsonName)
  }

  ghost predicate DescribesName(spec: Json, parameter: Json, name: string) {
    exists jsonName :: Describes(spec, parameter, ImportedColumn(name, jsonName))
  }

  lemma DescribedIsExact(spec: Json, parameter: Json, column: ImportedColumn)
    ensures Describes(spec, parameter, column) <==>
      PathParameter(spec, parameter) == Some(column.jsonName) && column.name == ParameterName(column.jsonName)
    ensures DescribesName(spec, parameter, column.name) <==>
      PathParameter(spec, parameter).Some? && column.name == ParameterName(PathParameter(spec, parameter).value)
  {
    var found := PathParameter(spec, parameter);
    if found.Some? && column.name == ParameterName(found.value) {
      assert Describes(spec, parameter, ImportedColumn(column.name, found.value));
    }
  }

  /** Entry `i` is the last that describes a parameter of the column's name. */
  ghost predicate IsLastFor(spec: Json, parameters: seq<Json>, i: nat, column: ImportedColumn) {
    && i < |parameters| && Describes(spec, parameters[i], column)
    && forall j | i < j < |parameters| :: !DescribesName(spec, parameters[j], column.name)
  }

  predicate MapsTo(columns: map<string, string>, column: ImportedColumn) {
    column.name in columns && columns[column.name] == column.jsonName
  }

  lemma MapsToStep(columns: map<string, string>, jsonName: Option<string>, existing: set<string>,
                   column: ImportedColumn)
    ensures MapsTo(WithParameter(columns, jsonName, existing), column) <==>
      if jsonName.Some? && ParameterName(jsonName.value) !in existing && ParameterName(jsonName.value) == column.name
      then jsonName == Some(column.jsonName) else MapsTo(columns, column)
  {
  }

  lemma {:induction false} ParameterMapIsExact(spec: Json, parameters: seq<Json>, existing: set<string>,
                                               column: ImportedColumn)
    ensures MapsTo(ParameterMap(spec, parameters, existing), column) <==>
      column.name !in existing && exists i: nat :: IsLastFor(spec, parameters, i, column)
  {
    if parameters != [] {
      var front, last := parameters[..|parameters| - 1], parameters[|parameters| - 1];
      ParameterMapIsExact(spec, front, existing, column);
      DescribedIsExact(spec, last, column);
      MapsToStep(ParameterMap(spec, front, existing), PathParameter(spec, last), existing, column);
      ParameterMapNames(spec, front, existing);
      LastForStep(spec, front, last, column);
      assert parameters == front + [last];
    }
  }

  lemma LastForStep(spec: Json, front: seq<Json>, last: Json, column: ImportedColumn)
    ensures (exists i: nat :: IsLastFor(spec, front + [last], i, column)) <==>
      || Describes(spec, last, column)
      || (!DescribesName(spec, last, column.name) && exists i: nat :: IsLastFor(spec, front, i, column))
  {
    var all := front + [last];
    if i: nat :| IsLastFor(spec, all, i, column) {
      if i < |front| {
        assert !DescribesName(spec, all[|front|], column.name);
        assert forall j | i < j < |front| :: all[j] == front[j];
        assert IsLastFor(spec, front, i, column);
      }
    }
    if Describes(spec, last, column) {
      assert IsLastFor(spec, all, |front|, column);
    } else if !DescribesName(spec, last, column.name) {
      if i: nat :| IsLastFor(spec, front, i, column) {
        assert IsLastFor(spec, all, i, column);
      }
    }
  }

  /** The parameter columns: the last path parameter of each name that no column has. */
  lemma ParameterColumnsAreExact(spec: Json, parameters: seq<Json>, existing: set<string>, column: ImportedColumn)
    ensures column in ParameterColumns(spec, parameters, existing) <==>
      column.name !in existing && exists i: nat :: IsLastFor(spec, parameters, i, column)
  {
    ParameterMapIsExact(spec, parameters, existing, column);
    var columns := ParameterMap(spec, parameters, existing);
    var names := InOrder(columns.Keys);
    var values := Values(names, columns);
    if column in values {
      var i :| 0 <= i < |values| && values[i] == column;
      assert names[i] in names;
    }
    if MapsTo(columns, column) {
      var i :| 0 <= i < |names| && names[i] == column.name;
      assert values[i] == column;
    }
  }

  /** Path parameters extend a well-named list to a well-named list. */
  lemma PathParametersKeepNames(spec: Json, parameters: seq<Json>, columns: seq<ImportedColumn>)
    requires WellNamed(columns)
    ensures WellNamed(columns + ParameterColumns(spec, parameters, Used(columns)))
  {
    var added := ParameterMap(spec, parameters, Used(columns));
    ParameterMapNames(spec, parameters, Used(columns));
    var names := InOrder(added.Keys);
    SortedDistinct(names);
    var all := columns + ParameterColumns(spec, parameters, Used(columns));
    forall i | |columns| <= i < |all|
      ensures all[i].name == names[i - |columns|] && all[i].name in added
    {
      assert names[i - |columns|] in names;
    }
    forall i, j | 0 <= i < j < |all|
      ensures all[i].name != all[j].name
    {
      if i < |columns| <= j {
        assert columns[i] in columns;
      }
    }
  }

  // ---------- ensure_request_columns ----------

  /** The first column for a property. */
  function ColumnOf(columns: seq<ImportedColumn>, jsonName: string): Option<string> {
    if columns == [] then None
    else if columns[0].jsonName == jsonName then Some(columns[0].name)
    else ColumnOf(columns[1..], jsonName)
  }

  lemma {:induction false} ColumnOfAppend(columns: seq<ImportedColumn>, more: seq<ImportedColumn>, jsonName: string)
    ensures ColumnOf(columns + more, jsonName)
      == if ColumnOf(columns, jsonName).Some? then ColumnOf(columns, jsonName) else ColumnOf(more, jsonName)
  {
    if columns == [] {
      assert columns + more == more;
    } else {
      ColumnOfAppend(columns[1..], more, jsonName);
      assert (columns + more)[1..] == columns[1..] + more;
    }
  }

  lemma {:induction false} ColumnOfMember(columns: seq<ImportedColumn>, jsonName: string)
    ensures ColumnOf(columns, jsonName).Some? ==> ImportedColumn(ColumnOf(columns, jsonName).value, jsonName) in columns
  {
    if columns != [] {
      ColumnOfMember(columns[1..], jsonName);
    }
  }

  ghost function WithColumn(columns: seq<ImportedColumn>, jsonName: string): (r: seq<ImportedColumn>)
    ensures columns <= r
  {
    if ColumnOf(columns, jsonName).Some? then columns
    else columns + [ImportedColumn(UniqueColumnName(Sanitize(jsonName), columns), jsonName)]
  }

  /** The columns once every property of a request body has one. */
  ghost function WithColumns(columns: seq<ImportedColumn>, names: seq<string>): (r: seq<ImportedColumn>)
    ensures columns <= r
  {
    if names == [] then columns else WithColumn(WithColumns(columns, names[..|names| - 1]), names[|names| - 1])
  }

  /** The columns of the given properties, except the row identity. */
  function ColumnsOf(columns: seq<ImportedColumn>, names: seq<string>, rowid: string): seq<string> {
    if names == [] then []
    else
      var front := ColumnsOf(columns, names[..|names| - 1], rowid);
      var last := ColumnOf(columns, names[|names| - 1]);
      if last.Some? && last.value != rowid then front + [last.value] else front
  }

  lemma {:induction false} ColumnsOfStable(columns: seq<ImportedColumn>, more: seq<ImportedColumn>, names: seq<string>,
                                           rowid: string)
    requires forall name <- names :: ColumnOf(columns, name).Some?
    ensures ColumnsOf(columns + more, names, rowid) == ColumnsOf(columns, names, rowid)
  {
    if names != [] {
      ColumnsOfStable(columns, more, names[..|names| - 1], rowid);
      ColumnOfAppend(columns, more, names[|names| - 1]);
      assert names[|names| - 1] in names;
    }
  }

  lemma {:induction false} EveryNameHasColumn(columns: seq<ImportedColumn>, names: seq<string>)
    ensures forall name <- names :: ColumnOf(WithColumns(columns, names), name).Some?
  {
    if names != [] {
      var front, last := names[..|names| - 1], names[|names| - 1];
      var before := WithColumns(columns, front);
      EveryNameHasColumn(columns, front);
      var added := if ColumnOf(before, last).Some? then []
        else [ImportedColumn(UniqueColumnName(Sanitize(last), before), last)];
      assert WithColumn(before, last) == before + added;
      forall name | name in names
        ensures ColumnOf(before + added, name).Some?
      {
        ColumnOfAppend(before, added, name);
        assert name == last || name in front;
      }
    }
  }

  predicate IsJsonMedia(name: string) {
    Lowercase(name) == "application/json" || (|name| >= 5 && name[|name| - 5..] == "+json")
  }

  function FirstJsonMedia(names: seq<string>): Option<string> {
    if names == [] then None else if IsJsonMedia(names[0]) then Some(names[0]) else FirstJsonMedia(names[1..])
  }

  /** The schema of a request's or response's JSON content, or of its first content. */
  function MediaSchema(message: Json): Option<Json> {
    var content := Field(message, "content");
    if content.None? || !content.value.Obj? || content.value.fields == map[] then None
    else
      var names := InOrder(content.value.fields.Keys);
      var media := FirstJsonMedia(names);
      var name := if media.Some? then media.value else if names != [] then names[0] else "";
      if name in content.value.fields then Field(content.value.fields[name], "schema") else None
  }

  /** `request_schema`. */
  function RequestSchema(spec: Json, operation: map<string, Json>): Option<Json> {
    if "requestBody" in operation then MediaSchema(ResolveRef(spec, operation["requestBody"], 0, {})) else None
  }

  function ResolveAll(spec: Json, properties: map<string, Json>): map<string, Json> {
    map name | name in properties :: ResolveSchema(spec, properties[name], 0, {})
  }

  /** The properties a request may set: those not resolved to read-only schemas. */
  function WritableProperties(spec: Json, operation: map<string, Json>): seq<string> {
    var schema := RequestSchema(spec, operation);
    if schema.None? then []
    else
      var properties := PropertiesOf(ResolveSchema(spec, schema.value, 0, {}));
      Without(ResolveAll(spec, properties), InOrder(ResolveAll(spec, properties).Keys), "readOnly")
  }

  lemma {:induction false} FirstJsonInOrder(names: seq<string>, k: nat)
    requires k <= |names| && forall j | 0 <= j < k :: !IsJsonMedia(names[j])
    requires k < |names| ==> IsJsonMedia(names[k])
    ensures FirstJsonMedia(names) == if k < |names| then Some(names[k]) else None
    decreases |names|
  {
    if k > 0 {
      FirstJsonInOrder(names[1..], k - 1);
    }
  }

  lemma JsonMediaNames()
    ensures IsJsonMedia("application/json") && IsJsonMedia("Application/JSON") && IsJsonMedia("application/hal+json")
    ensures !IsJsonMedia("text/csv")
  {
    assert Lowercase("application/json") == "application/json" && Lowercase("Application/JSON") == "application/json";
    var hal := "application/hal+json";
    assert hal[|hal| - 5..] == "+json";
    assert "text/csv"[7] == 'v' && |Lowercase("text/csv")| == 8;
  }

  /** The schema of a message is that of its first JSON content, or of its first content if none is JSON. */
  lemma MediaIsExact(message: Json, content: map<string, Json>, k: nat)
    requires Field(message, "content") == Some(Obj(content)) && content != map[]
    requires var names := InOrder(content.Keys);
      && k <= |names| && (forall j | 0 <= j < k :: !IsJsonMedia(names[j]))
      && (k < |names| ==> IsJsonMedia(names[k]))
    ensures var names := InOrder(content.Keys);
      && names != [] && names[0] in content && (k < |names| ==> names[k] in content)
      && MediaSchema(message) == Field(content[if k < |names| then names[k] else names[0]], "schema")
  {
    var names := InOrder(content.Keys);
    var name :| name in content;
    assert name in names && names[0] in names;
    FirstJsonInOrder(names, k);
  }

  /** A schema declares a property that stands for one without the flag. */
  ghost predicate ResolvesWithout(spec: Json, schema: Json, name: string, flag: string) {
    exists property :: Declares(schema, name, property) && !IsTrue(ResolveSchema(spec, property, 0, {}), flag)
  }

  lemma ResolvedAreUnflagged(spec: Json, schema: Json, name: string, flag: string)
    ensures var resolved := ResolveAll(spec, PropertiesOf(schema));
      ResolvesWithout(spec, schema, name, flag) <==> name in resolved && !IsTrue(resolved[name], flag)
  {
    PropertiesAreDeclared(schema, name);
    if name in PropertiesOf(schema) {
      assert Declares(schema, name, PropertiesOf(schema)[name]);
    }
  }

  /** The columns a request may write are the properties of its schema, without those that are only read. */
  lemma WritableIsExact(spec: Json, operation: map<string, Json>, name: string)
    ensures Sorted(WritableProperties(spec, operation))
    ensures var request := RequestSchema(spec, operation);
      name in WritableProperties(spec, operation) <==>
        request.Some? && ResolvesWithout(spec, ResolveSchema(spec, request.value, 0, {}), name, "readOnly")
  {
    var request := RequestSchema(spec, operation);
    if request.Some? {
      var schema := ResolveSchema(spec, request.value, 0, {});
      KeptAreUnflagged(ResolveAll(spec, PropertiesOf(schema)), name, "readOnly");
      ResolvedAreUnflagged(spec, schema, name, "readOnly");
    }
  }

  /** The request body is read at its reference. */
  lemma RequestIsExact(spec: Json, operation: map<string, Json>)
    ensures RequestSchema(spec, operation) ==
      if "requestBody" in operation then MediaSchema(ResolveRef(spec, operation["requestBody"], 0, {})) else None
  {
  }

  /** One more property: the columns and the written names after it. */
  lemma RequestStep(columns: seq<ImportedColumn>, done: seq<string>, jsonName: string, rowid: string)
    ensures var before, after := WithColumns(columns, done), WithColumns(columns, done + [jsonName]);
      && after == WithColumn(before, jsonName) && ColumnOf(after, jsonName).Some?
      && ColumnsOf(after, done + [jsonName], rowid) == ColumnsOf(before, done, rowid)
        + if ColumnOf(after, jsonName).value == rowid then [] else [ColumnOf(after, jsonName).value]
  {
    var before := WithColumns(columns, done);
    assert (done + [jsonName])[..|done|] == done;
    EveryNameHasColumn(columns, done);
    var added := if ColumnOf(before, jsonName).Some? then []
      else [ImportedColumn(UniqueColumnName(Sanitize(jsonName), before), jsonName)];
    assert WithColumn(before, jsonName) == before + added;
    ColumnsOfStable(before, added, done, rowid);
    ColumnOfAppend(before, added, jsonName);
  }

  /** The column of a property, made if there is none. */
  method EnsureColumn(columns: seq<ImportedColumn>, jsonName: string)
    returns (extended: seq<ImportedColumn>, name: string)
    ensures extended == WithColumn(columns, jsonName) && ColumnOf(extended, jsonName) == Some(name)
  {
    var existing := ColumnOf(columns, jsonName);
    if existing.Some? {
      return columns, existing.value;
    }
    var sanitized := SanitizeIdentifier(jsonName);
    name := FindUniqueColumnName(sanitized, columns);
    ColumnOfAppend(columns, [ImportedColumn(name, jsonName)], jsonName);
    extended := columns + [ImportedColumn(name, jsonName)];
  }

  /** `ensure_request_columns`: the extended columns and the names to write. */
  method EnsureRequestColumns(spec: Json, operation: map<string, Json>, columns: seq<ImportedColumn>, rowid: string)
    returns (extended: seq<ImportedColumn>, written: seq<string>)
    ensures extended == WithColumns(columns, WritableProperties(spec, operation))
    ensures written == ColumnsOf(extended, WritableProperties(spec, operation), rowid)
  {
    extended, written := columns, [];
    var schema := RequestSchema(spec, operation);
    if schema.None? {
      return;
    }
    var properties := PropertiesOf(ResolveSchema(spec, schema.value, 0, {}));
    extended, written := EnsurePropertyColumns(ResolveAll(spec, properties), columns, rowid);
  }

  method EnsurePropertyColumns(properties: map<string, Json>, columns: seq<ImportedColumn>, rowid: string)
    returns (extended: seq<ImportedColumn>, written: seq<string>)
    ensures extended == WithColumns(columns, Without(properties, InOrder(properties.Keys), "readOnly"))
    ensures written == ColumnsOf(extended, Without(properties, InOrder(properties.Keys), "readOnly"), rowid)
  {
    extended, written := columns, [];
    var names := InOrder(properties.Keys);
    ghost var done := [];
    for i := 0 to |names|
      invariant done == Without(properties, names[..i], "readOnly")
      invariant extended == WithColumns(columns, done)
      invariant written == ColumnsOf(extended, done, rowid)
    {
      assert names[i] in names;
      WithoutStep(properties, names, i, "readOnly");
      if Flag(properties[names[i]], "readOnly") {
        continue;
      }
      RequestStep(columns, done, names[i], rowid);
      var name;
      extended, name := EnsureColumn(extended, names[i]);
      done := done + [names[i]];
      if name != rowid {
        written := written + [name];
      }
    }
    assert names[..|names|] == names;
  }

  lemma {:induction false} WithColumnsBound(columns: seq<ImportedColumn>, names: seq<string>)
    ensures |WithColumns(columns, names)| <= |columns| + |names|
  {
    if names != [] {
      WithColumnsBound(columns, names[..|names| - 1]);
    }
  }

  lemma AppendKeepsNames(columns: seq<ImportedColumn>, column: ImportedColumn)
    requires WellNamed(columns) && IsColumnId(column.name) && column.name !in Used(columns)
    ensures WellNamed(columns + [column])
  {
  }

  /** Request bodies extend a well-named list to a well-named list. */
  lemma {:induction false} RequestColumnsKeepNames(columns: seq<ImportedColumn>, names: seq<string>)
    requires WellNamed(columns) && |columns| + |names| <= USIZE_MAX
    ensures WellNamed(WithColumns(columns, names))
  {
    if names != [] {
      var front, last := names[..|names| - 1], names[|names| - 1];
      RequestColumnsKeepNames(columns, front);
      WithColumnsBound(columns, front);
      var before := WithColumns(columns, front);
      if ColumnOf(before, last).None? {
        SanitizedIsName(last);
        UniqueColumnNameIsName(Sanitize(last), before);
        AppendKeepsNames(before, ImportedColumn(UniqueColumnName(Sanitize(last), before), last));
      }
    }
  }

  /** What is written is a column of the table and never the row identity. */
  lemma {:induction false} WrittenAreColumns(columns: seq<ImportedColumn>, names: seq<string>, rowid: string)
    ensures forall name <- ColumnsOf(columns, names, rowid) :: name in Used(columns) && name != rowid
  {
    if names != [] {
      WrittenAreColumns(columns, names[..|names| - 1], rowid);
      ColumnOfMember(columns, names[|names| - 1]);
    }
  }

  // ---------- the attrs column ----------

  function AttrsCandidate(ordinal: nat): string {
    if ordinal == 0 then "attrs" else if ordinal == 1 then "_attrs" else "_attrs" + Suffix(ordinal)
  }

  function AttrsCandidates(): nat -> string {
    (ordinal: nat) => AttrsCandidate(ordinal)
  }

  lemma AttrsCandidatesDiffer()
    ensures Injective(AttrsCandidates(), 0)
  {
    forall i: nat, j: nat | i < j
      ensures AttrsCandidates()(i) != AttrsCandidates()(j)
    {
      if i >= 2 && AttrsCandidate(i) == AttrsCandidate(j) {
        SuffixUnique("_attrs", i, "_attrs", j);
      }
      assert j >= 2 ==> |AttrsCandidate(j)| > 6;
    }
  }

  /** The first of `attrs`, `_attrs`, `_attrs_2`, ... that no column uses. */
  ghost function AttrsName(used: set<string>): (name: string)
    ensures name !in used
  {
    AttrsCandidate(FreeOrdinal(used))
  }

  ghost function FreeOrdinal(used: set<string>): (n: nat)
    ensures AttrsCandidate(n) !in used
  {
    AttrsCandidatesDiffer();
    FirstFree(AttrsCandidates(), used, 0)
  }

  lemma OrdinalSearch(used: set<string>, n: nat)
    requires n <= FreeOrdinal(used)
    ensures AttrsCandidate(n) !in used <==> n == FreeOrdinal(used)
  {
    AttrsCandidatesDiffer();
    SearchStep(AttrsCandidates(), used, 0, n);
    assert AttrsCandidates()(n) == AttrsCandidate(n);
  }

  lemma AttrsCandidateText(ordinal: nat)
    ensures AttrsCandidate(ordinal) ==
      if ordinal == 0 then "attrs" else if ordinal == 1 then "_attrs" else "_attrs_" + Decimal(ordinal)
  {
    assert "_attrs" + Suffix(ordinal) == "_attrs_" + Decimal(ordinal);
  }

  /** The search for the attrs column in `create_sql`. */
  method FindAttrsName(columns: seq<ImportedColumn>) returns (name: string)
    ensures name == AttrsName(Used(columns))
  {
    var ordinal := 0;
    while true
      invariant ordinal <= FreeOrdinal(Used(columns))
      decreases FreeOrdinal(Used(columns)) - ordinal
    {
      name := if ordinal == 0 then "attrs" else if ordinal == 1 then "_attrs" else "_attrs_" + Decimal(ordinal);
      AttrsCandidateText(ordinal);
      OrdinalSearch(Used(columns), ordinal);
      if !HasName(columns, name) {
        return;
      }
      ordinal := ordinal + 1;
    }
  }

  lemma FewTaken(columns: seq<ImportedColumn>)
    requires DistinctNames(columns)
    ensures FreeOrdinal(Used(columns)) <= |columns|
  {
    AttrsCandidatesDiffer();
    SubsetCount(Taken(AttrsCandidates(), Used(columns), 0), Used(columns));
    UsedCount(columns);
  }

  lemma AttrsCandidateIsId(n: nat)
    requires n <= USIZE_MAX
    ensures IsColumnId(AttrsCandidate(n))
  {
    assert IsColumnId("attrs") && IsColumnId("_attrs");
    if n >= 2 {
      PowerExceedsIndices();
      DecimalLength(n, 20);
      assert "_attrs" == Cut("_attrs", n);
      NumberedIsName("_attrs", n);
    }
  }

  lemma AttrsNameIsFirst(used: set<string>)
    ensures AttrsName(used) == "attrs" <==> "attrs" !in used
  {
    OrdinalSearch(used, 0);
    assert forall n | n >= 1 :: AttrsCandidate(n)[0] == '_';
  }

  /** The attrs column joins the table without a clash. */
  lemma AttrsNameFits(columns: seq<ImportedColumn>, jsonName: string)
    requires WellNamed(columns) && |columns| <= USIZE_MAX
    ensures WellNamed(columns + [ImportedColumn(AttrsName(Used(columns)), jsonName)])
    ensures AttrsName(Used(columns)) == "attrs" <==> "attrs" !in Used(columns)
  {
    FewTaken(columns);
    AttrsCandidateIsId(FreeOrdinal(Used(columns)));
    AttrsNameIsFirst(Used(columns));
    AppendKeepsNames(columns, ImportedColumn(AttrsName(Used(columns)), jsonName));
  }
}
