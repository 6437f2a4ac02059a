/**
 INSERT, UPDATE and DELETE requests (src/fdw.rs) for a table whose options were accepted
 (src/options.rs): which endpoint a row goes to, and with which body.
 */
module RowMutations {
  import opened Text
  import opened Json
  import opened Templates
  import opened PercentEncoding
  import opened Cells
  import opened PathSubstitution
  import opened TableOptions
  import opened RowMapping

  // ---------- what validation leaves to rely on ----------

  /** An operation whose template has no placeholder but the row identity. */
  ghost predicate Template(operation: MutationOperation, parameter: Option<string>) {
    && !IsBlank(operation.endpoint) && !IsAbsolute(operation.endpoint)
    && PathPlaceholders(operation.endpoint).Ok?
    && (parameter.Some? ==> All(PathPlaceholders(operation.endpoint).value, parameter.value))
  }

  ghost predicate Addresses(operation: MutationOperation, parameter: Option<string>) {
    Template(operation, parameter) && PathPlaceholders(operation.endpoint).value != []
  }

  ghost predicate ValidMutations(m: Mutations, attrsColumn: string) {
    && (m.insert.Some? || m.update.Some? || m.delete.Some? ==>
        m.rowidColumn.Some? && m.rowidParameter.Some? && IsParameterName(m.rowidParameter.value))
    && (m.insert.Some? ==> Template(m.insert.value, m.rowidParameter) && m.insert.value.verb in ["POST", "PUT"])
    && (m.update.Some? ==> Addresses(m.update.value, m.rowidParameter) && m.update.value.verb in ["PATCH", "PUT"])
    && (m.delete.Some? ==> Addresses(m.delete.value, m.rowidParameter) && m.delete.value.verb in ["DELETE"])
    && (m.writeColumns.Some? && m.rowidColumn.Some? ==> m.rowidColumn.value !in m.writeColumns.value)
    && (m.writeColumns.Some? ==> attrsColumn !in m.writeColumns.value)
    && (m.writeMode == AttrsMode ==> m.writeColumns.None?)
  }

  ghost predicate Validated(table: TableConfig) {
    ValidMutations(WriteSide(table), table.attrsColumn)
  }

  lemma {:induction false} AllSame(names: seq<string>, parameter: string)
    requires forall p <- names :: p == parameter
    ensures All(names, parameter)
  {
    if names != [] {
      assert names[0] in names && forall p <- names[1..] :: p in names;
      AllSame(names[1..], parameter);
    }
  }

  lemma OtherNamesAreRefused(o: Options, endpointName: string, methodName: string, default: string,
                             allowed: seq<string>,
                             parameter: string, requiresRowid: bool, name: string)
    requires TextOption(o, endpointName).Some? && PathPlaceholders(TextOption(o, endpointName).value).Ok?
    requires name in PathPlaceholders(TextOption(o, endpointName).value).value && name != parameter
    requires !IsBlank(TextOption(o, endpointName).value)
    ensures ParseMutation(o, endpointName, methodName, default, allowed, Some(parameter), requiresRowid).Err?
  {
    var endpoint := TextOption(o, endpointName).value;
    var placeholders := PathPlaceholders(endpoint).value;
    assert NonEmptyOption(o, endpointName, None) == Some(endpoint);
    assert name in placeholders && name != parameter;
    assert UsesOtherName(placeholders, Some(parameter));
  }

  lemma ParsedIsTemplate(o: Options, endpointName: string, methodName: string, default: string, allowed: seq<string>,
                         parameter: Option<string>, requiresRowid: bool)
    ensures var r := ParseMutation(o, endpointName, methodName, default, allowed, parameter, requiresRowid);
      r.Ok? && r.value.Some? ==> (
        && Template(r.value.value, parameter) && r.value.value.verb in allowed
        && (requiresRowid ==> Addresses(r.value.value, parameter)))
  {
    var r := ParseMutation(o, endpointName, methodName, default, allowed, parameter, requiresRowid);
    if r.Ok? && r.value.Some? {
      var endpoint := NonEmptyOption(o, endpointName, None).value;
      var names := PathPlaceholders(endpoint).value;
      assert r.value.value.endpoint == endpoint;
      if parameter.Some? {
        forall i | 0 <= i < |names|
          ensures names[i] == parameter.value
        {
          if names[i] != parameter.value {
            OtherNamesAreRefused(o, endpointName, methodName, default, allowed, parameter.value, requiresRowid,
              names[i]);
          }
        }
        AllSame(names, parameter.value);
      }
    }
  }

  lemma ParsedMutationsAreValid(o: Options)
    ensures ParseMutations(o).Ok? ==> ValidMutations(ParseMutations(o).value, AttrsColumn(o))
  {
    var rowid := NonEmptyOption(o, "rowid_column", None);
    var explicit := NonEmptyOption(o, "rowid_parameter", None);
    var parameter := if explicit.Some? then explicit else rowid;
    ParsedIsTemplate(o, "insert_endpoint", "insert_method", "POST", ["POST", "PUT"], parameter, false);
    ParsedIsTemplate(o, "update_endpoint", "update_method", "PATCH", ["PATCH", "PUT"], parameter, true);
    ParsedIsTemplate(o, "delete_endpoint", "delete_method", "DELETE", ["DELETE"], parameter, true);
  }

  /** Every accepted table is validated, so the wrapper's `expect`s on it cannot fail. */
  lemma AcceptedTablesAreValidated(o: Options)
    ensures FromOptions(o).Ok? ==> Validated(FromOptions(o).value)
  {
    ParsedMutationsAreValid(o);
    CheckedWriteSide(ParseReadSide(o), ParseMutations(o));
  }

  lemma CheckedWriteSide(read: ReadSide, mutations: Result<Mutations>)
    ensures CheckTable(read, mutations).Ok? ==> (
      var table := CheckTable(read, mutations).value;
      mutations == Ok(WriteSide(table)) && table.attrsColumn == read.attrsColumn)
  {
  }

  // ---------- the requests ----------

  datatype Mutation = Mutation(endpoint: string, verb: string, body: Option<Json>)

  /** `mutation_endpoint`. */
  function Addressed(template: string, table: TableConfig, rowid: Cell): Result<string>
    requires table.rowidParameter.Some?
  {
    var raw :- PathValue(rowid);
    Ok(MutationEndpoint(template, table.rowidParameter.value, raw))
  }

  /** `insert`. */
  ghost function InsertRequest(table: TableConfig, row: Row): Result<Mutation>
    requires Validated(table)
  {
    if table.insert.None? then Err(Configuration)
    else
      var operation := table.insert.value;
      var rowid := RowCell(row, table.rowidColumn.value);
      if '{' in operation.endpoint && rowid.None? then Err(Configuration)
      else
        var endpoint :-
          if '{' in operation.endpoint then Addressed(operation.endpoint, table, rowid.value)
          else Ok(operation.endpoint);
        var body :- Body(row, table);
        Ok(Mutation(endpoint, operation.verb, Some(body)))
  }

  /** `update`. */
  ghost function UpdateRequest(table: TableConfig, rowid: Cell, row: Row): Result<Mutation>
    requires Validated(table)
  {
    if table.update.None? then Err(Configuration)
    else
      var endpoint :- Addressed(table.update.value.endpoint, table, rowid);
      var body :- Body(row, table);
      Ok(Mutation(endpoint, table.update.value.verb, Some(body)))
  }

  /** `delete`. */
  ghost function DeleteRequest(table: TableConfig, rowid: Cell): Result<Mutation>
    requires Validated(table)
  {
    if table.delete.None? then Err(Configuration)
    else
      var endpoint :- Addressed(table.delete.value.endpoint, table, rowid);
      Ok(Mutation(endpoint, table.delete.value.verb, None))
  }

  /** The address of a row in a template: the name of the row, encoded, in every gap. */
  ghost predicate IsAddress(endpoint: string, template: string, rowid: Cell) {
    exists text :: NamesRow(rowid, text) && endpoint == Fill(Literals(template), Segment(text))
  }

  lemma AddressedIsExact(operation: MutationOperation, table: TableConfig, rowid: Cell)
    requires table.rowidParameter.Some? && IsParameterName(table.rowidParameter.value)
    requires Template(operation, table.rowidParameter)
    ensures forall endpoint ::
      Addressed(operation.endpoint, table, rowid) == Ok(endpoint) <==> IsAddress(endpoint, operation.endpoint, rowid)
    ensures Addressed(operation.endpoint, table, rowid).Err? <==> forall text :: !NamesRow(rowid, text)
  {
    ParameterHasNoSlash(table.rowidParameter.value);
    PathValueIsExact(rowid);
    if PathValue(rowid).Ok? {
      MutationEndpointShape(operation.endpoint, table.rowidParameter.value, PathValue(rowid).value);
    }
  }

  /** An update is exactly the configured method at the row's address, with the body of the row. */
  lemma UpdateIsExact(table: TableConfig, rowid: Cell, row: Row, request: Mutation)
    requires Validated(table)
    ensures UpdateRequest(table, rowid, row) == Ok(request) <==> (
      && table.update.Some? && request.verb == table.update.value.verb
      && IsAddress(request.endpoint, table.update.value.endpoint, rowid)
      && request.body.Some? && Body(row, table) == Ok(request.body.value))
  {
    if table.update.Some? {
      AddressedIsExact(table.update.value, table, rowid);
    }
  }

  /** A delete is exactly a DELETE at the row's address, without a body. */
  lemma DeleteIsExact(table: TableConfig, rowid: Cell, request: Mutation)
    requires Validated(table)
    ensures DeleteRequest(table, rowid) == Ok(request) <==> (
      && table.delete.Some? && request.verb == "DELETE" && request.body == None
      && IsAddress(request.endpoint, table.delete.value.endpoint, rowid))
  {
    if table.delete.Some? {
      AddressedIsExact(table.delete.value, table, rowid);
    }
  }

  /** An insert goes to the template itself, or to the address of its identity where it has a placeholder. */
  lemma InsertIsExact(table: TableConfig, row: Row, request: Mutation)
    requires Validated(table)
    ensures InsertRequest(table, row) == Ok(request) <==> (
      && table.insert.Some? && request.verb == table.insert.value.verb
      && request.body.Some? && Body(row, table) == Ok(request.body.value)
      && var rowid, template := RowCell(row, table.rowidColumn.value), table.insert.value.endpoint;
         if '{' in template then rowid.Some? && IsAddress(request.endpoint, template, rowid.value)
         else request.endpoint == template)
  {
    if table.insert.Some? {
      var rowid := RowCell(row, table.rowidColumn.value);
      if rowid.Some? {
        AddressedIsExact(table.insert.value, table, rowid.value);
      }
    }
  }

  lemma ParameterHasNoSlash(parameter: string)
    requires IsParameterName(parameter)
    ensures '/' !in parameter
  {
  }

  /** An address has the shape of its template: nothing left to fill in, and no further path level. */
  predicate Follows(endpoint: string, template: string) {
    '{' !in endpoint && CountChar(endpoint, '/') == CountChar(template, '/')
  }

  lemma AddressFollowsTemplate(operation: MutationOperation, table: TableConfig, rowid: Cell)
    requires table.rowidParameter.Some? && IsParameterName(table.rowidParameter.value)
    requires Template(operation, table.rowidParameter)
    ensures var endpoint := Addressed(operation.endpoint, table, rowid);
      endpoint.Ok? ==> Follows(endpoint.value, operation.endpoint)
  {
    ParameterHasNoSlash(table.rowidParameter.value);
    if PathValue(rowid).Ok? {
      MutationEndpointShape(operation.endpoint, table.rowidParameter.value, PathValue(rowid).value);
    }
  }

  /** Every request of an accepted table goes to a finished address of its template. */
  lemma InsertsFollowTheTemplate(table: TableConfig, row: Row)
    requires Validated(table) && InsertRequest(table, row).Ok?
    ensures Follows(InsertRequest(table, row).value.endpoint, table.insert.value.endpoint)
  {
    var identity := RowCell(row, table.rowidColumn.value);
    if '{' in table.insert.value.endpoint {
      AddressFollowsTemplate(table.insert.value, table, identity.value);
    }
  }

  lemma UpdatesFollowTheTemplate(table: TableConfig, rowid: Cell, row: Row)
    requires Validated(table) && UpdateRequest(table, rowid, row).Ok?
    ensures Follows(UpdateRequest(table, rowid, row).value.endpoint, table.update.value.endpoint)
  {
    AddressFollowsTemplate(table.update.value, table, rowid);
  }

  lemma DeletesFollowTheTemplate(table: TableConfig, rowid: Cell)
    requires Validated(table) && DeleteRequest(table, rowid).Ok?
    ensures Follows(DeleteRequest(table, rowid).value.endpoint, table.delete.value.endpoint)
  {
    AddressFollowsTemplate(table.delete.value, table, rowid);
  }

  lemma AddressDeterminesRow(operation: MutationOperation, table: TableConfig, a: Cell, b: Cell)
    requires table.rowidParameter.Some? && IsParameterName(table.rowidParameter.value)
    requires Addresses(operation, table.rowidParameter)
    requires Addressed(operation.endpoint, table, a).Ok?
    requires Addressed(operation.endpoint, table, a) == Addressed(operation.endpoint, table, b)
    ensures NameOneRow(a, b)
  {
    ParameterHasNoSlash(table.rowidParameter.value);
    MutationEndpointInjective(operation.endpoint, table.rowidParameter.value, PathValue(a).value, PathValue(b).value);
    SamePathValue(a, b);
  }

  /** Two identities that name one row: by one text, so two numbers have one literal and two texts are one. */
  ghost predicate NameOneRow(a: Cell, b: Cell) {
    && (exists text :: NamesRow(a, text) && NamesRow(b, text))
    && (a.Number? && b.Number? ==> a.literal == b.literal)
    && ((a.Text? || a.Display?) && (b.Text? || b.Display?) ==> a.text == b.text)
    && (a.Boolean? && b.Boolean? ==> a.value == b.value)
  }

  lemma SamePathValue(a: Cell, b: Cell)
    requires PathValue(a).Ok? && PathValue(a) == PathValue(b)
    ensures NameOneRow(a, b)
  {
    PathValueIsExact(a);
    PathValueIsExact(b);
    assert NamesRow(a, PathValue(a).value) && NamesRow(b, PathValue(a).value);
  }

  /** Updates of an accepted table never confuse two rows: one address means one identity. */
  lemma UpdatesDetermineRows(table: TableConfig, a: Cell, b: Cell, left: Row, right: Row)
    requires Validated(table)
    requires UpdateRequest(table, a, left).Ok? && UpdateRequest(table, b, right).Ok?
    requires UpdateRequest(table, a, left).value.endpoint == UpdateRequest(table, b, right).value.endpoint
    ensures NameOneRow(a, b)
  {
    AddressDeterminesRow(table.update.value, table, a, b);
  }

  /** Nor do deletes. */
  lemma DeletesDetermineRows(table: TableConfig, a: Cell, b: Cell)
    requires Validated(table)
    requires DeleteRequest(table, a).Ok? && DeleteRequest(table, a) == DeleteRequest(table, b)
    ensures NameOneRow(a, b)
  {
    AddressDeterminesRow(table.delete.value, table, a, b);
  }

  /** The row identity is never part of a body: the table writes neither it nor the attrs column. */
  lemma {:induction false} IdentityIsNotWritten(row: Row, table: TableConfig, i: nat)
    requires i < |row|
    requires table.rowidColumn == Some(row[i].0) || row[i].0 == table.attrsColumn
    ensures Writes(row, table) == Writes(row[..i] + row[i + 1..], table)
    decreases |row|
  {
    var front, last := row[..|row| - 1], row[|row| - 1];
    var rest := row[..i] + row[i + 1..];
    assert row == front + [last];
    WritesLast(front, last, table);
    if i == |row| - 1 {
      assert rest == front;
    } else {
      var fewer := front[..i] + front[i + 1..];
      IdentityIsNotWritten(front, table, i);
      WritesLast(fewer, last, table);
      assert rest == fewer + [last];
    }
  }
}
