/**
 Rows and JSON documents (src/fdw.rs): how a column reads its value from a document, how a
 row becomes a request body, and that the two agree.
 */
module RowMapping {
  import opened Text
  import opened Json
  import opened Cells
  import opened Identifiers
  import opened PointerWrites
  import opened TableOptions

  // ---------- reading a column ----------

  /** The first property, in key order, whose sanitized name is the column. */
  function SanitizedMatch(names: seq<string>, column: string): Option<string> {
    if names == [] then None
    else if Sanitize(names[0]) == column then Some(names[0])
    else SanitizedMatch(names[1..], column)
  }

  function MappedValue(projected: Json, column: string, columnMap: map<string, string>): Option<Json> {
    if column in columnMap then
      var target := columnMap[column];
      if target != "" && target[0] == '/' then ReadPointer(projected, target) else Field(projected, target)
    else if Field(projected, column).Some? then Field(projected, column)
    else if projected.Obj? then
      var name := SanitizedMatch(InOrder(projected.fields.Keys), column);
      if name.Some? then Field(projected, name.value) else None
    else None
  }

  /** `column_value`. */
  function ColumnValue(projected: Json, column: string, columnMap: map<string, string>): Option<Json> {
    var found := MappedValue(projected, column, columnMap);
    if found.Some? then found
    else if !projected.Obj? && column == "value" then Some(projected)
    else None
  }

  // ---------- write targets ----------

  predicate IsPointer(target: string) {
    target != "" && target[0] == '/'
  }

  function DecodeTokens(tokens: seq<string>): Option<seq<string>> {
    if tokens == [] then Some([])
    else
      var head := DecodeToken(tokens[0]);
      if head.Some? then Prepend([head.value], DecodeTokens(tokens[1..])) else None
  }

  /** Where `insert_write_value` puts a value: a property, or the decoded pointer. */
  function TargetPath(target: string): Option<seq<string>> {
    if IsPointer(target) then DecodeTokens(Split(target, '/')[1..]) else Some([target])
  }

  lemma {:induction false} DecodeTokensIsUnescape(tokens: seq<string>)
    requires DecodeTokens(tokens).Some?
    ensures DecodeTokens(tokens).value == Map(Unescape, tokens)
  {
    if tokens != [] {
      DecodeRejectsMalformed(tokens[0]);
      DecodeIsUnescape(tokens[0]);
      DecodeTokensIsUnescape(tokens[1..]);
    }
  }

  lemma {:induction false} DecodeTokensFails(tokens: seq<string>)
    ensures DecodeTokens(tokens).None? <==> exists token <- tokens :: !WellFormed(token)
  {
    if tokens != [] {
      DecodeRejectsMalformed(tokens[0]);
      DecodeTokensFails(tokens[1..]);
      assert tokens == [tokens[0]] + tokens[1..];
    }
  }

  /** A target is refused exactly for a pointer with a malformed token; a name is taken as it is. */
  lemma TargetIsRefused(target: string)
    ensures "/" <= target ==>
      (TargetPath(target).None? <==> exists token <- Split(target, '/')[1..] :: !WellFormed(token))
    ensures !("/" <= target) ==> TargetPath(target) == Some([target])
  {
    DecodeTokensFails(Split(target, '/')[1..]);
  }

  /** A pointer has at least one token, so a write never targets the document root. */
  lemma TargetPathNonempty(target: string)
    requires TargetPath(target).Some?
    ensures TargetPath(target).value != []
  {
  }

  /** The writer's decoding and the reader's unescaping agree on every accepted pointer. */
  lemma ReadPointerFollowsTarget(value: Json, target: string)
    requires IsPointer(target) && TargetPath(target).Some?
    ensures ReadPointer(value, target) == Get(value, TargetPath(target).value)
  {
    DecodeTokensIsUnescape(Split(target, '/')[1..]);
  }

  // ---------- write_body ----------

  function Target(column: string, table: TableConfig): string {
    if column in table.columnMap then table.columnMap[column] else column
  }

  /** The columns a request body takes its values from. */
  predicate Selected(column: string, table: TableConfig) {
    && table.writeMode != AttrsMode
    && table.rowidColumn != Some(column)
    && column != table.attrsColumn
    && (table.writeColumns.Some? ==> column in table.writeColumns.value)
  }

  function CellJson(cell: Option<Cell>): Result<Json> {
    if cell.Some? then ToJson(cell.value) else Ok(Null)
  }

  /** The write of one selected column: its target must decode and its cell must have a JSON form. */
  function ColumnWrite(column: string, cell: Option<Cell>, table: TableConfig): (r: Result<Write>)
    ensures r.Ok? ==> r.value.path != []
  {
    var value :- CellJson(cell);
    var path := TargetPath(Target(column, table));
    if path.None? then Err(Configuration)
    else
      TargetPathNonempty(Target(column, table));
      Ok(Write(path.value, value))
  }

  /** The writes a row asks for. */
  function Writes(row: Row, table: TableConfig): (r: Result<seq<Write>>)
    ensures r.Ok? ==> forall w <- r.value :: w.path != []
  {
    if row == [] then Ok([])
    else
      var last := row[|row| - 1];
      var front :- Writes(row[..|row| - 1], table);
      if !Selected(last.0, table) then Ok(front)
      else
        var write :- ColumnWrite(last.0, last.1, table);
        Ok(front + [write])
  }

  function WithLast(writes: Result<seq<Write>>, last: (string, Option<Cell>), table: TableConfig): Result<seq<Write>> {
    var front :- writes;
    if !Selected(last.0, table) then Ok(front)
    else
      var write :- ColumnWrite(last.0, last.1, table);
      Ok(front + [write])
  }

  lemma WritesLast(front: Row, last: (string, Option<Cell>), table: TableConfig)
    ensures Writes(front + [last], table) == WithLast(Writes(front, table), last, table)
  {
    assert (front + [last])[..|front|] == front;
  }

  /** What a body starts from: nothing, or the object in the attrs column. */
  function InitialBody(row: Row, table: TableConfig): Result<map<string, Json>> {
    if table.writeMode == ColumnsMode then Ok(map[])
    else match RowCell(row, table.attrsColumn)
      case Some(JsonB(json)) => if json.Obj? then Ok(json.fields) else Err(Configuration)
      case Some(_) => Err(Configuration)
      case None => if table.writeMode == AttrsMode then Err(Configuration) else Ok(map[])
  }

  /** The body of a mutation: all writes applied to the initial body; an empty body is refused. */
  function Body(row: Row, table: TableConfig): Result<Json> {
    var start :- InitialBody(row, table);
    var writes :- Writes(row, table);
    var body := PutAll(start, writes);
    if body.None? || body.value == map[] then Err(Configuration) else Ok(Obj(body.value))
  }

  lemma {:induction false} FirstErrorDecides(start: map<string, Json>, row: Row, i: nat, table: TableConfig)
    requires i <= |row|
    requires Writes(row[..i], table).Err? || PutAll(start, Writes(row[..i], table).value).None?
    ensures Writes(row, table).Err? || PutAll(start, Writes(row, table).value).None?
    ensures Writes(row, table).Err? ==> Writes(row, table).error == Configuration
    decreases |row|
  {
    if i < |row| {
      assert row[..|row| - 1][..i] == row[..i];
      FirstErrorDecides(start, row[..|row| - 1], i, table);
      var front := Writes(row[..|row| - 1], table);
      if Writes(row, table).Ok? && Selected(row[|row| - 1].0, table) {
        var writes := Writes(row, table).value;
        assert writes[..|writes| - 1] == front.value;
      }
    } else {
      assert row[..i] == row;
      WritesError(row, table);
    }
  }

  lemma {:induction false} WritesError(row: Row, table: TableConfig)
    ensures Writes(row, table).Err? ==> Writes(row, table).error == Configuration
  {
    if row != [] {
      WritesError(row[..|row| - 1], table);
    }
  }

  /** The body with the first `i` cells written. */
  predicate Built(start: map<string, Json>, row: Row, i: nat, table: TableConfig, body: map<string, Json>) {
    && i <= |row| && Writes(row[..i], table).Ok?
    && PutAll(start, Writes(row[..i], table).value) == Some(body)
  }

  lemma BuiltStep(start: map<string, Json>, row: Row, i: nat, table: TableConfig, body: map<string, Json>)
    requires i < |row| && Built(start, row, i, table, body)
    ensures var after := Writes(row[..i + 1], table);
      if !Selected(row[i].0, table) then Built(start, row, i + 1, table, body)
      else
        var write := ColumnWrite(row[i].0, row[i].1, table);
        if write.Err? then after.Err?
        else after.Ok? && PutAll(start, after.value) == Put(body, write.value.path, write.value.value)
  {
    var sofar := Writes(row[..i], table).value;
    assert row[..i + 1][..i] == row[..i] && row[..i + 1][i] == row[i];
    if Selected(row[i].0, table) && ColumnWrite(row[i].0, row[i].1, table).Ok? {
      PutAllStep(start, sofar, ColumnWrite(row[i].0, row[i].1, table).value, body);
    }
  }

  lemma PutAllStep(start: map<string, Json>, writes: seq<Write>, last: Write, body: map<string, Json>)
    requires (forall w <- writes + [last] :: w.path != []) && (forall w <- writes :: w.path != [])
    requires PutAll(start, writes) == Some(body) && last.path != []
    ensures PutAll(start, writes + [last]) == Put(body, last.path, last.value)
  {
    assert (writes + [last])[..|writes|] == writes;
  }

  /** `write_body`. */
  method WriteBody(row: Row, table: TableConfig) returns (r: Result<Json>)
    ensures r == Body(row, table)
  {
    var body :- InitialBody(row, table);
    ghost var start := body;
    WritesError(row, table);
    if table.writeMode != AttrsMode {
      for i := 0 to |row|
        invariant Built(start, row, i, table, body)
      {
        BuiltStep(start, row, i, table, body);
        var (column, cell) := row[i];
        if table.rowidColumn == Some(column) || column == table.attrsColumn {
          continue;
        }
        if table.writeColumns.Some? && column !in table.writeColumns.value {
          continue;
        }
        var write := ColumnWrite(column, cell, table);
        var next := if write.Ok? then Put(body, write.value.path, write.value.value) else None;
        if next.None? {
          FirstErrorDecides(start, row, i + 1, table);
          return Err(Configuration);
        }
        body := next.value;
      }
      assert row[..|row|] == row;
    } else {
      NothingSelected(row, table);
    }
    r := if body == map[] then Err(Configuration) else Ok(Obj(body));
  }

  lemma {:induction false} NothingSelected(row: Row, table: TableConfig)
    requires table.writeMode == AttrsMode
    ensures Writes(row, table) == Ok([])
  {
    if row != [] {
      NothingSelected(row[..|row| - 1], table);
    }
  }

  // ---------- reading back what was written ----------

  lemma {:induction false} WriteOfColumn(row: Row, table: TableConfig, i: nat)
    requires i < |row| && Selected(row[i].0, table) && Writes(row, table).Ok?
    ensures ColumnWrite(row[i].0, row[i].1, table).Ok?
    ensures ColumnWrite(row[i].0, row[i].1, table).value in Writes(row, table).value
  {
    if i < |row| - 1 {
      WriteOfColumn(row[..|row| - 1], table, i);
    }
  }

  /** A column that a mutation may write: not in attrs mode, neither identity nor attrs, and listed if listed at all. */
  predicate MayWrite(column: string, table: TableConfig) {
    && (table.writeMode == ColumnsMode || table.writeMode == MergeMode)
    && (table.rowidColumn.Some? ==> column != table.rowidColumn.value)
    && column != table.attrsColumn
    && (table.writeColumns.None? || column in table.writeColumns.value)
  }

  /** Where a column is written: under its mapped name, or its own. */
  predicate IsTarget(column: string, table: TableConfig, target: string) {
    if column in table.columnMap then target == table.columnMap[column] else target == column
  }

  /** The JSON value of a nullable cell. */
  predicate BecomesJson(cell: Option<Cell>, json: Json) {
    if cell.None? then json == Null else Becomes(cell.value, json)
  }

  /** A write is that of a column: its own value at its own target. */
  predicate IsWriteOf(write: Write, column: string, cell: Option<Cell>, table: TableConfig) {
    MayWrite(column, table) && BecomesJson(cell, write.value) && TargetPath(Target(column, table)) == Some(write.path)
  }

  lemma ColumnWriteIsExact(column: string, cell: Option<Cell>, table: TableConfig)
    ensures IsTarget(column, table, Target(column, table)) && (Selected(column, table) <==> MayWrite(column, table))
    ensures forall write :: Selected(column, table) && ColumnWrite(column, cell, table) == Ok(write) <==>
      IsWriteOf(write, column, cell, table)
    ensures ColumnWrite(column, cell, table).Err? <==>
      TargetPath(Target(column, table)).None? || (cell.Some? && (cell.value.NonFinite? || cell.value == Compound(None)))
  {
    if cell.Some? {
      ToJsonIsExact(cell.value);
    }
  }

  /** Every write of a row is that of one of its columns. */
  lemma {:induction false} WriteComesFromColumn(row: Row, table: TableConfig, w: Write) returns (i: nat)
    requires Writes(row, table).Ok? && w in Writes(row, table).value
    ensures i < |row| && IsWriteOf(w, row[i].0, row[i].1, table)
  {
    var front, last := row[..|row| - 1], row[|row| - 1];
    ColumnWriteIsExact(last.0, last.1, table);
    if w in Writes(front, table).value {
      i := WriteComesFromColumn(front, table, w);
    } else {
      i := |row| - 1;
    }
  }

  /** A cell that cannot be written: its target does not decode, or it has no JSON form. */
  predicate CannotWrite(column: string, cell: Option<Cell>, table: TableConfig) {
    MayWrite(column, table) && (
      || TargetPath(Target(column, table)).None?
      || (cell.Some? && (cell.value.NonFinite? || cell.value == Compound(None))))
  }

  /** The writes of a row fail exactly for such a cell. */
  lemma {:induction false} WritesFail(row: Row, table: TableConfig)
    ensures Writes(row, table).Err? <==> exists i | 0 <= i < |row| :: CannotWrite(row[i].0, row[i].1, table)
  {
    if row != [] {
      var front, last := row[..|row| - 1], row[|row| - 1];
      WritesFail(front, table);
      ColumnWriteIsExact(last.0, last.1, table);
      if i :| 0 <= i < |row| && CannotWrite(row[i].0, row[i].1, table) {
        assert i == |row| - 1 || front[i] == row[i];
      }
      if i :| 0 <= i < |front| && CannotWrite(front[i].0, front[i].1, table) {
        assert row[i] == front[i];
      }
    }
  }

  /**
   A body is refused exactly if the attrs cell is, a cell cannot be written, a write meets something that is
   not an object, or nothing would be sent.
   */
  lemma BodyIsRefused(row: Row, table: TableConfig)
    ensures Body(row, table).Err? <==>
      || AttrsRefused(row, table)
      || (exists i | 0 <= i < |row| :: CannotWrite(row[i].0, row[i].1, table))
      || (Writes(row, table).Ok? && PutAll(Kept(row, table), Writes(row, table).value) in {None, Some(map[])})
  {
    AttrsCellDecides(row, table);
    WritesFail(row, table);
  }

  /** Reading a column looks where writing it puts its value. */
  predicate ReadsItsTarget(column: string, table: TableConfig) {
    column in table.columnMap || !IsPointer(column)
  }

  lemma TargetReadsBack(column: string, table: TableConfig, fields: map<string, Json>, value: Json)
    requires ReadsItsTarget(column, table)
    requires TargetPath(Target(column, table)).Some?
    requires Get(Obj(fields), TargetPath(Target(column, table)).value) == Some(value)
    ensures ColumnValue(Obj(fields), column, table.columnMap) == Some(value)
  {
    var target := Target(column, table);
    if IsPointer(target) {
      ReadPointerFollowsTarget(Obj(fields), target);
    } else {
      assert Get(Obj(fields), [target]) == Field(Obj(fields), target);
    }
  }

  /**
   Every column of an accepted body reads back the JSON of its own cell, when the targets
   are pairwise diverging and no unmapped column is named like a pointer.
   */
  lemma WrittenColumnsReadBack(row: Row, table: TableConfig, i: nat)
    requires Body(row, table).Ok? && Apart(Writes(row, table).value)
    requires i < |row| && Selected(row[i].0, table) && ReadsItsTarget(row[i].0, table)
    ensures CellJson(row[i].1).Ok?
    ensures ColumnValue(Body(row, table).value, row[i].0, table.columnMap) == Some(CellJson(row[i].1).value)
    ensures BecomesJson(row[i].1, ColumnValue(Body(row, table).value, row[i].0, table.columnMap).value)
  {
    ColumnWriteIsExact(row[i].0, row[i].1, table);
    var start, writes := InitialBody(row, table).value, Writes(row, table).value;
    WriteOfColumn(row, table, i);
    var write := ColumnWrite(row[i].0, row[i].1, table).value;
    PutAllThenGet(start, writes, []);
    TargetReadsBack(row[i].0, table, PutAll(start, writes).value, write.value);
  }

  // ---------- the attrs column ----------

  /** The attrs cell makes the write an error: it holds no object, or it has to hold one and is NULL. */
  predicate AttrsRefused(row: Row, table: TableConfig) {
    var cell := RowCell(row, table.attrsColumn);
    match table.writeMode
    case ColumnsMode => false
    case AttrsMode => cell.None? || !cell.value.JsonB? || !cell.value.json.Obj?
    case MergeMode => cell.Some? && (!cell.value.JsonB? || !cell.value.json.Obj?)
  }

  /** What is in the attrs column before any column is written: only a merge or an attrs write starts from it. */
  function Kept(row: Row, table: TableConfig): map<string, Json> {
    match RowCell(row, table.attrsColumn)
    case Some(JsonB(Obj(fields))) => if table.writeMode == ColumnsMode then map[] else fields
    case _ => map[]
  }

  /** The attrs cell is an error exactly where the mode refuses it, and otherwise a body starts from what it keeps. */
  lemma AttrsCellDecides(row: Row, table: TableConfig)
    ensures InitialBody(row, table) == if AttrsRefused(row, table) then Err(Configuration) else Ok(Kept(row, table))
    ensures AttrsRefused(row, table) ==> Body(row, table) == Err(Configuration)
  {
  }

  /** In attrs mode the body is exactly the object in the attrs column, if it is not empty. */
  lemma AttrsBodyIsTheObject(row: Row, table: TableConfig)
    requires table.writeMode == AttrsMode
    ensures forall fields ::
      Body(row, table) == Ok(Obj(fields)) <==>
        RowCell(row, table.attrsColumn) == Some(JsonB(Obj(fields))) && fields != map[]
  {
    NothingSelected(row, table);
  }

  /**
   A merge sends everything in the attrs object that diverges from all targets unchanged, and nothing else
   beside them; a write of columns sends nothing beside its targets.
   */
  lemma MergeKeepsTheRest(row: Row, table: TableConfig, path: seq<string>, fields: map<string, Json>)
    requires Body(row, table).Ok? && Apart(Writes(row, table).value)
    requires forall w <- Writes(row, table).value :: Incomparable(w.path, path)
    ensures table.writeMode != ColumnsMode && RowCell(row, table.attrsColumn) == Some(JsonB(Obj(fields))) ==>
      Get(Body(row, table).value, path) == Get(Obj(fields), path)
    ensures table.writeMode == ColumnsMode || RowCell(row, table.attrsColumn) == None ==>
      Get(Body(row, table).value, path) == Get(Obj(map[]), path)
  {
    AttrsCellDecides(row, table);
    PutAllThenGet(InitialBody(row, table).value, Writes(row, table).value, path);
  }

  /** The first property, in key order, whose column name is the column. */
  ghost predicate IsFirstNamed(names: seq<string>, column: string, name: string) {
    && name in names && Sanitize(name) == column
    && forall other <- names :: Sanitize(other) == column ==> other == name || Before(name, other)
  }

  lemma {:induction false} SanitizedMatchIsFirst(names: seq<string>, column: string, name: string)
    requires Sorted(names)
    ensures SanitizedMatch(names, column) == Some(name) <==> IsFirstNamed(names, column, name)
  {
    if names != [] {
      if Sanitize(names[0]) == column {
        FirstIsFirst(names, column, name);
      } else {
        SanitizedMatchIsFirst(names[1..], column, name);
        OthersAreFirst(names[0], names[1..], column, name);
        assert names == [names[0]] + names[1..];
      }
    }
  }

  lemma FirstIsFirst(names: seq<string>, column: string, name: string)
    requires Sorted(names) && names != [] && Sanitize(names[0]) == column
    ensures IsFirstNamed(names, column, name) <==> name == names[0]
  {
    if name in names && name != names[0] {
      var k :| 0 <= k < |names| && names[k] == name;
      assert Before(names[0], names[k]);
      BeforeTotal(names[0], name);
      assert names[0] in names;
    }
    forall other | other in names
      ensures other == names[0] || Before(names[0], other)
    {
      var k :| 0 <= k < |names| && names[k] == other;
    }
  }

  lemma OthersAreFirst(first: string, rest: seq<string>, column: string, name: string)
    requires Sanitize(first) != column
    ensures IsFirstNamed([first] + rest, column, name) <==> IsFirstNamed(rest, column, name)
  {
    var all := [first] + rest;
    assert forall other :: other in all <==> other == first || other in rest;
  }

  /** Where a column's value comes from: its mapped place, its own property, or the first one named like it. */
  ghost predicate ComesFrom(row: Json, column: string, columnMap: map<string, string>, value: Json) {
    if column in columnMap then
      var target := columnMap[column];
      if IsPointer(target) then ReadPointer(row, target) == Some(value) else Field(row, target) == Some(value)
    else if !row.Obj? then false
    else if column in row.fields then row.fields[column] == value
    else exists name :: IsFirstNamed(InOrder(row.fields.Keys), column, name) && Field(row, name) == Some(value)
  }

  lemma MappedIsExact(row: Json, column: string, columnMap: map<string, string>, value: Json)
    ensures MappedValue(row, column, columnMap) == Some(value) <==> ComesFrom(row, column, columnMap, value)
  {
    if column !in columnMap && row.Obj? && column !in row.fields {
      var names := InOrder(row.fields.Keys);
      var name := SanitizedMatch(names, column);
      if name.Some? {
        SanitizedMatchIsFirst(names, column, name.value);
      }
      forall other
        ensures IsFirstNamed(names, column, other) <==> name == Some(other)
      {
        SanitizedMatchIsFirst(names, column, other);
      }
    }
  }

  /** What a column answers: the value it comes from, or a row that is no object, under the name `value`. */
  lemma ColumnValueIsExact(row: Json, column: string, columnMap: map<string, string>, value: Json)
    ensures ColumnValue(row, column, columnMap) == Some(value) <==>
      || ComesFrom(row, column, columnMap, value)
      || ((forall other :: !ComesFrom(row, column, columnMap, other))
          && !row.Obj? && column == "value" && value == row)
  {
    MappedIsExact(row, column, columnMap, value);
    forall other
      ensures MappedValue(row, column, columnMap) == Some(other) <==> ComesFrom(row, column, columnMap, other)
    {
      MappedIsExact(row, column, columnMap, other);
    }
  }

  lemma {:induction false} SanitizedMatchSound(names: seq<string>, column: string)
    ensures SanitizedMatch(names, column).Some? ==> Sanitize(SanitizedMatch(names, column).value) == column
  {
    if names != [] {
      SanitizedMatchSound(names[1..], column);
    }
  }

  /**
   The condition on the name is exact: a body holding one column reads it back if and only
   if the column is mapped or its name does not begin with a slash.
   */
  lemma SingleColumnReadsBackExactly(column: string, cell: Option<Cell>, table: TableConfig)
    requires table.writeMode == ColumnsMode && Selected(column, table)
    requires Body([(column, cell)], table).Ok?
    ensures ColumnValue(Body([(column, cell)], table).value, column, table.columnMap) == Some(CellJson(cell).value)
      <==> ReadsItsTarget(column, table)
  {
    OneWrite(column, cell, table);
    if ReadsItsTarget(column, table) {
      WrittenColumnsReadBack([(column, cell)], table, 0);
    } else {
      var write := ColumnWrite(column, cell, table).value;
      PointerNamesMissed(column, write.path, write.value);
      UnmappedColumn(Body([(column, cell)], table).value, column, table.columnMap);
    }
  }

  lemma OneWrite(column: string, cell: Option<Cell>, table: TableConfig)
    requires table.writeMode == ColumnsMode && Selected(column, table)
    requires Body([(column, cell)], table).Ok?
    ensures var write := ColumnWrite(column, cell, table);
      && write.Ok? && Writes([(column, cell)], table) == Ok([write.value])
      && Put(map[], write.value.path, write.value.value).Some?
      && Body([(column, cell)], table).value == Obj(Put(map[], write.value.path, write.value.value).value)
  {
    var row := [(column, cell)];
    assert row[..0] == [] && Writes(row[..0], table) == Ok([]);
    var write := ColumnWrite(column, cell, table).value;
    PutAllStep(map[], [], write, map[]);
    assert [] + [write] == [write];
  }

  lemma UnmappedColumn(row: Json, column: string, columnMap: map<string, string>)
    requires column !in columnMap
    ensures ColumnValue(row, column, columnMap) == ColumnValue(row, column, map[])
  {
  }

  lemma PointerNamesMissed(column: string, path: seq<string>, value: Json)
    requires IsPointer(column) && TargetPath(column) == Some(path)
    requires path != [] && Put(map[], path, value).Some?
    ensures ColumnValue(Obj(Put(map[], path, value).value), column, map[]) == None
  {
    var fields := Put(map[], path, value).value;
    FirstTokenIsShorter(column, path);
    assert fields.Keys == {path[0]};
    var names := InOrder(fields.Keys);
    SanitizedMatchSound(names, column);
    assert column[0] in column && !IsIdentifierChar(column[0]);
    if SanitizedMatch(names, column).Some? {
      SanitizeShape(SanitizedMatch(names, column).value);
    }
  }

  lemma {:induction false} DecodedIsNoLonger(raw: string)
    ensures DecodeToken(raw).Some? ==> |DecodeToken(raw).value| <= |raw|
  {
    if raw != "" {
      DecodedIsNoLonger(raw[1..]);
      if |raw| > 1 {
        DecodedIsNoLonger(raw[2..]);
      }
    }
  }

  lemma FirstTokenIsShorter(target: string, path: seq<string>)
    requires IsPointer(target) && TargetPath(target) == Some(path) && path != []
    ensures path[0] != target
  {
    assert target == "" + (['/'] + target[1..]);
    SplitStep("", '/', target[1..]);
    var tokens := Split(target[1..], '/');
    DecodedIsNoLonger(tokens[0]);
  }
}
