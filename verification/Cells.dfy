/**
 PostgreSQL values on their way to and from JSON, and the qualifiers of a scan.
 Number and date printing belongs to other libraries: a cell carries the texts they produce.
 */
module Cells {
  import opened Text
  import opened Json

  datatype Cell =
    | Boolean(value: bool)
    | Number(display: string, literal: string) // integers, finite floats and numerics
    | NonFinite(display: string)             // NaN and the infinities have no JSON form
    | Text(text: string)
    | Display(text: string)                  // uuid, date, time and the timestamps
    | Compound(encoded: Option<Json>)        // intervals, byte strings and arrays; none with a non-finite element
    | JsonB(json: Json)

  /** `cell_to_json`. */
  function ToJson(cell: Cell): Result<Json> {
    match cell
    case Boolean(value) => Ok(Bool(value))
    case Number(_, literal) => Ok(Num(literal))
    case NonFinite(_) => Err(Configuration)
    case Text(text) => Ok(Str(text))
    case Display(text) => Ok(Str(text))
    case Compound(encoded) => if encoded.Some? then Ok(encoded.value) else Err(Configuration)
    case JsonB(json) => Ok(json)
  }

  /** `cell_path_value`: a row identity must be a scalar. */
  function PathValue(cell: Cell): Result<string> {
    var json :- ToJson(cell);
    match json
    case Bool(value) => Ok(if value then "true" else "false")
    case Num(text) => Ok(text)
    case Str(text) => Ok(text)
    case _ => Err(Configuration)
  }

  datatype Operand = One(cell: Cell) | Many(cells: seq<Cell>)

  datatype Qual = Qual(field: string, operator: string, operand: Operand, useOr: bool)

  /** `qual_value`: the text a plain equality can be pushed down as. */
  function QualValue(qual: Qual): Option<string> {
    if qual.operator != "=" || qual.useOr || qual.operand.Many? then None
    else match qual.operand.cell
      case Boolean(value) => Some(if value then "true" else "false")
      case Number(display, _) => Some(display)
      case NonFinite(display) => Some(display)
      case Text(text) => Some(text)
      case Display(text) => Some(text)
      case Compound(_) => None
      case JsonB(_) => None
  }

  /** A row: column names with nullable cells, in column order. */
  type Row = seq<(string, Option<Cell>)>

  /** `row_cell`: the non-NULL cell of the first column with this name. */
  function RowCell(row: Row, column: string): Option<Cell> {
    if row == [] then None
    else if row[0].0 == column then row[0].1
    else RowCell(row[1..], column)
  }

  // ---------- what cells stand for ----------

  /** The JSON value of a cell, if it has one: strings and dates are strings, numbers keep their digits. */
  predicate Becomes(cell: Cell, json: Json) {
    || (cell.Boolean? && json == Bool(cell.value))
    || (cell.Number? && json == Num(cell.literal))
    || (cell.Text? && json == Str(cell.text))
    || (cell.Display? && json == Str(cell.text))
    || (cell.Compound? && cell.encoded == Some(json))
    || (cell.JsonB? && json == cell.json)
  }

  /** The text by which a cell names a row: that of a scalar. */
  predicate NamesRow(cell: Cell, text: string) {
    || Becomes(cell, Str(text))
    || Becomes(cell, Num(text))
    || (Becomes(cell, Bool(true)) && text == "true")
    || (Becomes(cell, Bool(false)) && text == "false")
  }

  /** The text of a plain equality: PostgreSQL's own, where the cell is a scalar of it. */
  predicate PrintsAs(cell: Cell, text: string) {
    || (cell == Boolean(true) && text == "true")
    || (cell == Boolean(false) && text == "false")
    || ((cell.Number? || cell.NonFinite?) && text == cell.display)
    || ((cell.Text? || cell.Display?) && text == cell.text)
  }

  lemma ToJsonIsExact(cell: Cell)
    ensures forall json :: ToJson(cell) == Ok(json) <==> Becomes(cell, json)
    ensures ToJson(cell).Err? ==> ToJson(cell) == Err(Configuration)
    ensures ToJson(cell).Err? <==> cell.NonFinite? || cell == Compound(None)
  {
  }

  /** A row is named by the scalar of its identity; a container, null or a non-finite number names none. */
  lemma PathValueIsExact(cell: Cell)
    ensures forall text :: PathValue(cell) == Ok(text) <==> NamesRow(cell, text)
    ensures PathValue(cell).Err? ==> PathValue(cell) == Err(Configuration)
  {
    ToJsonIsExact(cell);
  }

  /** Nothing but an equality with one value is pushed down, and it carries the value's own text. */
  lemma QualValueIsExact(qual: Qual)
    ensures forall text :: QualValue(qual) == Some(text) <==>
      qual.operator == "=" && !qual.useOr && qual.operand.One? && PrintsAs(qual.operand.cell, text)
  {
  }

  /** The cell of a column is that of the first column of its name. */
  lemma {:induction false} RowCellIsFirst(row: Row, column: string, i: nat)
    requires i < |row| && row[i].0 == column && forall j | 0 <= j < i :: row[j].0 != column
    ensures RowCell(row, column) == row[i].1
  {
    if i > 0 {
      RowCellIsFirst(row[1..], column, i - 1);
    }
  }

  lemma {:induction false} RowCellIsMissing(row: Row, column: string)
    requires forall j | 0 <= j < |row| :: row[j].0 != column
    ensures RowCell(row, column) == None
  {
    if row != [] {
      RowCellIsMissing(row[1..], column);
    }
  }
}
