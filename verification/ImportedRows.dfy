/**
 Imported columns stand for the properties they came from: with the column map the importer
 writes (src/spec.rs), the wrapper reads (src/fdw.rs) each column from its property and
 writes it back to the same one.
 */
module ImportedRows {
  import opened Text
  import opened Json
  import opened Identifiers
  import opened Cells
  import opened TableOptions
  import opened PageWalk
  import opened Scan
  import opened RowMapping
  import opened ImportedColumns
  import opened ImportAccepted

  /** With distinct names, the map has an entry for a column exactly when its property is named differently. */
  lemma {:induction false} ColumnMapOf(columns: seq<ImportedColumn>, i: nat)
    requires DistinctNames(columns) && i < |columns|
    ensures var c, m := columns[i], ColumnMap(columns);
      if c.name == c.jsonName then c.name !in m else c.name in m && m[c.name] == c.jsonName
  {
    var front, last := columns[..|columns| - 1], columns[|columns| - 1];
    if i < |front| {
      ColumnMapOf(front, i);
    } else {
      ColumnMapNames(front);
      assert last.name !in Used(front);
    }
  }

  lemma {:induction false} ColumnMapNames(columns: seq<ImportedColumn>)
    ensures ColumnMap(columns).Keys <= Used(columns)
  {
    if columns != [] {
      var front, last := columns[..|columns| - 1], columns[|columns| - 1];
      ColumnMapNames(front);
      assert columns == front + [last];
    }
  }

  lemma {:induction false} ReplaceIsNoLonger(s: string, pat: string, with: string)
    requires pat != "" && |with| <= |pat|
    ensures |Replace(s, pat, with)| <= |s|
    decreases |s|
  {
    if pat <= s {
      ReplaceIsNoLonger(s[|pat|..], pat, with);
    } else if s != "" {
      ReplaceIsNoLonger(s[1..], pat, with);
    }
  }

  /** A document whose only property is named like a pointer has nothing at that pointer. */
  lemma PointerMissesItsOwnName(pointer: string, value: Json)
    requires IsPointer(pointer)
    ensures ReadPointer(Obj(map[pointer := value]), pointer) == None
  {
    assert pointer == "" + (['/'] + pointer[1..]);
    SplitStep("", '/', pointer[1..]);
    var tokens := Split(pointer, '/')[1..];
    assert tokens == Split(pointer[1..], '/');
    ReplaceIsNoLonger(tokens[0], "~1", "/");
    ReplaceIsNoLonger(Replace(tokens[0], "~1", "/"), "~0", "~");
    assert |tokens[0]| < |pointer|;
  }

  lemma PropertyIsRead(fields: map<string, Json>, name: string, jsonName: string, columnMap: map<string, string>)
    requires !IsPointer(jsonName) && jsonName in fields
    requires if name == jsonName then name !in columnMap else name in columnMap && columnMap[name] == jsonName
    ensures ColumnValue(Obj(fields), name, columnMap) == Some(fields[jsonName])
  {
  }

  lemma ColumnMapFinds(columns: seq<ImportedColumn>, i: nat, fields: map<string, Json>)
    requires DistinctNames(columns) && i < |columns| && columns[i].jsonName in fields && !IsPointer(columns[i].jsonName)
    ensures ColumnValue(Obj(fields), columns[i].name, ColumnMap(columns)) == Some(fields[columns[i].jsonName])
  {
    ColumnMapOf(columns, i);
    PropertyIsRead(fields, columns[i].name, columns[i].jsonName, ColumnMap(columns));
  }

  lemma ColumnMapMisses(columns: seq<ImportedColumn>, i: nat, value: Json)
    requires DistinctNames(columns) && i < |columns| && IsColumnId(columns[i].name) && IsPointer(columns[i].jsonName)
    ensures ColumnValue(Obj(map[columns[i].jsonName := value]), columns[i].name, ColumnMap(columns)) == None
  {
    ColumnMapOf(columns, i);
    assert IsIdentifierChar(columns[i].name[0]);
    PointerMissesItsOwnName(columns[i].jsonName, value);
  }

  // ---------- whole rows ----------

  /** If a row has the column's property, its cell of the column is the conversion of that property. */
  predicate RowAnswers(config: TableConfig, c: ImportedColumn, p: Projector, source: Json, fields: map<string, Json>,
                       k: nat) {
    p.table == config && k < |p.columns| && p.columns[k].name == c.name
    && ProjectedObject(p, source) == Some(Obj(fields)) && c.jsonName in fields
    && RowOf(p, source).Ok? && k < |RowOf(p, source).value| ==>
      ConvertedCell(p, fields[c.jsonName], p.columns[k]) == Ok(RowOf(p, source).value[k].1)
  }

  /** For every list of queried columns, every conversion, and every row of the service. */
  ghost predicate AnswersItsProperty(config: TableConfig, c: ImportedColumn) {
    forall p, source, fields, k: nat :: RowAnswers(config, c, p, source, fields, k)
  }

  /** Whatever the object path is, some row has a given object there. */
  lemma SomeRowHas(objectPath: Option<string>, fields: map<string, Json>) returns (source: Json)
    requires IsPath(objectPath)
    ensures objectPath.None? ==> source == Obj(fields)
    ensures objectPath.Some? ==> ReadPointer(source, objectPath.value) == Some(Obj(fields))
    ensures source.Obj?
  {
    if objectPath.None? {
      source := Obj(fields);
    } else {
      var tokens := Map(Unescape, Split(objectPath.value, '/')[1..]);
      NestIsRead(tokens, Obj(fields));
      source := Nest(tokens, Obj(fields));
    }
  }

  /** A conversion that keeps the JSON, for a query of one column. */
  function Plainly(config: TableConfig, name: string): Projector {
    Projector(config, [Column(name, 0)], map[], (value, column) => Ok(JsonB(value)))
  }

  lemma OneCellRow(p: Projector, column: Column, source: Json, projected: Json, cell: Option<Cell>)
    requires p.columns == [column] && ProjectedObject(p, source) == Some(projected)
    requires ProjectedCell(p, source, projected, column) == Ok(cell)
    ensures RowOf(p, source) == Ok([(column.name, cell)])
  {
    assert [column][..0] == [];
    assert ProjectedCells(p, source, projected, []) == Ok([]);
    var row: Row := [];
    assert row + [(column.name, cell)] == [(column.name, cell)];
    assert ProjectedCells(p, source, projected, [column]) == Ok(row + [(column.name, cell)]);
  }

  lemma MissedProperty(config: TableConfig, c: ImportedColumn, cell: Option<Cell>, source: Json,
                       fields: map<string, Json>)
    requires c.jsonName in fields && fields[c.jsonName] == Bool(true) && cell != Some(JsonB(Bool(true)))
    requires ProjectedObject(Plainly(config, c.name), source) == Some(Obj(fields))
    requires ProjectedCell(Plainly(config, c.name), source, Obj(fields), Column(c.name, 0)) == Ok(cell)
    ensures !AnswersItsProperty(config, c)
  {
    OneCellRow(Plainly(config, c.name), Column(c.name, 0), source, Obj(fields), cell);
    assert !RowAnswers(config, c, Plainly(config, c.name), source, fields, 0);
  }

  lemma RowAnswersItsProperty(config: TableConfig, columns: seq<ImportedColumn>, i: nat, p: Projector, source: Json,
                              fields: map<string, Json>, k: nat)
    requires DistinctNames(columns) && i < |columns| && !IsPointer(columns[i].jsonName)
    requires config.columnMap == ColumnMap(columns) && config.attrsColumn != columns[i].name
    ensures RowAnswers(config, columns[i], p, source, fields, k)
  {
    var c := columns[i];
    if p.table == config && k < |p.columns| && p.columns[k].name == c.name && c.jsonName in fields
       && ProjectedObject(p, source) == Some(Obj(fields)) && RowOf(p, source).Ok? {
      RowHasCells(p, source, Obj(fields), p.columns, k);
      ColumnMapFinds(columns, i, fields);
    }
  }

  /**
   A column of an accepted import answers its own property in every row that has it, if and
   only if the property's name does not begin with a slash and the column is not called attrs
   in a table imported without its attrs column.
   */
  lemma ImportedColumnAnswersItsProperty(t: ImportedTable, includeAttrs: bool, config: TableConfig, i: nat)
    requires Imported(t) && DistinctNames(t.columns) && i < |t.columns|
    requires Faithful(config, t, includeAttrs)
    ensures AnswersItsProperty(config, t.columns[i])
      <==> !IsPointer(t.columns[i].jsonName) && (includeAttrs || t.columns[i].name != "attrs")
  {
    var c := t.columns[i];
    assert c in t.columns;
    if !includeAttrs && c.name == "attrs" {
      var fields: map<string, Json> := map[c.jsonName := Bool(true)];
      var source := SomeRowHas(config.objectPath, fields);
      MissedProperty(config, c, Some(JsonB(source)), source, fields);
    } else if IsPointer(c.jsonName) {
      var fields: map<string, Json> := map[c.jsonName := Bool(true)];
      var source := SomeRowHas(config.objectPath, fields);
      ColumnMapMisses(t.columns, i, Bool(true));
      MissedProperty(config, c, None, source, fields);
    } else {
      forall p, source, fields, k: nat
        ensures RowAnswers(config, c, p, source, fields, k)
      {
        RowAnswersItsProperty(config, t.columns, i, p, source, fields, k);
      }
    }
  }

  /** The table of a document with one readable property `attrs`. */
  function OnlyAttrs(): ImportedTable {
    ImportedTable("/a", "GET", None, None, [ImportedColumn("attrs", "attrs")], None)
  }

  lemma OnlyAttrsIsImported()
    ensures Imported(OnlyAttrs()) && AcceptableTable(OnlyAttrs(), false) && DistinctNames(OnlyAttrs().columns)
  {
    assert IsColumnId("attrs");
    assert "/a"[0] in "/a" && !IsWhitespace('/');
  }

  lemma OnlyAttrsConfigures()
    ensures FromOptions(ImportOptions(OnlyAttrs(), false)).Ok?
    ensures Faithful(FromOptions(ImportOptions(OnlyAttrs(), false)).value, OnlyAttrs(), false)
  {
    OnlyAttrsIsImported();
    ImportedTablesAreAccepted(OnlyAttrs(), false);
  }

  lemma AttrsCellIsTheRow(p: Projector, source: Json, column: Column)
    requires p.table.attrsColumn == column.name && p.table.objectPath.None? && p.columns == [column]
    ensures RowOf(p, source) == Ok([(column.name, Some(JsonB(source)))])
  {
    OneCellRow(p, column, source, source, Some(JsonB(source)));
  }

  /** Imported without the attrs column, it is accepted, and its column answers whole rows. */
  lemma AttrsPropertyAnswersTheRow(config: TableConfig, p: Projector, source: Json, typeOid: int)
    requires FromOptions(ImportOptions(OnlyAttrs(), false)) == Ok(config)
    requires p.table == config && p.columns == [Column("attrs", typeOid)]
    ensures RowOf(p, source) == Ok([("attrs", Some(JsonB(source)))])
    ensures !AnswersItsProperty(config, OnlyAttrs().columns[0])
  {
    OnlyAttrsIsImported();
    OnlyAttrsConfigures();
    AttrsCellIsTheRow(p, source, Column("attrs", typeOid));
    ImportedColumnAnswersItsProperty(OnlyAttrs(), false, config, 0);
  }

  // ---------- writing ----------

  /**
   Of a table that can insert or update, exactly the inferred write columns are sent, and each
   to its own property, if and only if the property's name does not begin with a slash.
   */
  lemma ImportedColumnWritesItsProperty(t: ImportedTable, includeAttrs: bool, config: TableConfig, i: nat)
    requires Imported(t) && DistinctNames(t.columns) && i < |t.columns|
    requires AcceptableTable(t, includeAttrs) && Faithful(config, t, includeAttrs)
    requires t.mutations.Some? && (t.mutations.value.insert.Some? || t.mutations.value.update.Some?)
    ensures Selected(t.columns[i].name, config) <==> t.columns[i].name in t.mutations.value.writeColumns
    ensures TargetPath(Target(t.columns[i].name, config)) == Some([t.columns[i].jsonName])
      <==> !IsPointer(t.columns[i].jsonName)
  {
    var c := t.columns[i];
    assert c in t.columns;
    ColumnMapOf(t.columns, i);
    assert IsIdentifierChar(c.name[0]);
    assert Target(c.name, config) == c.jsonName;
    if IsPointer(c.jsonName) && TargetPath(c.jsonName).Some? {
      TargetPathNonempty(c.jsonName);
      FirstTokenIsShorter(c.jsonName, TargetPath(c.jsonName).value);
    }
  }
}
