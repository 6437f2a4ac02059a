/**
 Turning one response body into a page of rows and the token of the next page
 (src/response.rs).
 */
module Paging {
  import opened Text
  import opened Json
  import opened TableOptions
  import opened LinkHeaders

  function EnvelopeKeys(): seq<string> {
    ["data", "results", "items", "records", "entries", "features", "@graph"]
  }

  // The well-known places, as the token paths of their pointers.

  function NextUrlPaths(): seq<seq<string>> {
    [["meta", "pagination", "next"], ["meta", "pagination", "next_url"], ["pagination", "next"],
     ["pagination", "next_url"], ["links", "next"], ["links", "next_url"], ["next"], ["next_url"],
     ["_links", "next", "href"]]
  }

  function HasMorePaths(): seq<seq<string>> {
    [["meta", "pagination", "has_more"], ["pagination", "has_more"], ["has_more"]]
  }

  function CursorPaths(): seq<seq<string>> {
    [["meta", "pagination", "next_cursor"], ["pagination", "next_cursor"], ["next_cursor"], ["cursor"]]
  }

  datatype PageToken = UrlToken(url: string) | CursorToken(cursor: string)

  datatype Page = Page(rows: seq<Json>, next: Option<PageToken>)

  predicate IsContainer(value: Json) {
    value.Arr? || value.Obj?
  }

  /** The first envelope key that holds an array or an object. */
  function Envelope(fields: map<string, Json>, keys: seq<string>): Option<string>
    decreases |fields|, |keys|
  {
    if keys == [] then None
    else if keys[0] in fields && IsContainer(fields[keys[0]]) then Some(keys[0])
    else Envelope(fields, keys[1..])
  }

  /** `auto_select`. */
  function AutoSelect(body: Json): Json {
    if body.Obj? then
      var key := Envelope(body.fields, EnvelopeKeys());
      if key.Some? && key.value in body.fields then body.fields[key.value] else body
    else body
  }

  /** `scalar_string`. */
  function ScalarString(value: Option<Json>): Option<string> {
    match value
    case Some(Str(text)) => if text == "" then None else Some(text)
    case Some(Num(text)) => Some(text)
    case _ => None
  }

  /** `classify_token`. */
  function ClassifyToken(value: string): PageToken {
    if IsAbsolute(value) || "/" <= value || "?" <= value then UrlToken(value) else CursorToken(value)
  }

  function FirstScalar(body: Json, paths: seq<seq<string>>): Option<string>
    decreases body, |paths|
  {
    if paths == [] then None
    else
      var value := ScalarString(Get(body, paths[0]));
      if value.Some? then value else FirstScalar(body, paths[1..])
  }

  function FirstPresent(body: Json, paths: seq<seq<string>>): Option<Json>
    decreases body, |paths|
  {
    if paths == [] then None
    else
      var value := Get(body, paths[0]);
      if value.Some? then value else FirstPresent(body, paths[1..])
  }

  function FirstLink(headers: seq<string>): Option<string> {
    if headers == [] then None
    else
      var url := ParseLinkNext(headers[0]);
      if url.Some? then url else FirstLink(headers[1..])
  }

  /** `find_next`. */
  function FindNext(body: Json, links: seq<string>, cursorPath: Option<string>): Option<PageToken> {
    var cursor := if cursorPath.Some? then ScalarString(ReadPointer(body, cursorPath.value)) else None;
    if cursor.Some? then Some(ClassifyToken(cursor.value))
    else
      var link := FirstLink(links);
      if link.Some? then Some(UrlToken(link.value))
      else
        var url := FirstScalar(body, NextUrlPaths());
        if url.Some? then Some(UrlToken(url.value))
        else
          var hasMore := AsBool(FirstPresent(body, HasMorePaths()));
          var next := FirstScalar(body, CursorPaths());
          if hasMore == Some(true) && next.Some? then Some(CursorToken(next.value)) else None
  }

  function RowsOf(selected: Json): seq<Json> {
    match selected
    case Null => []
    case Arr(items) => items
    case value => [value]
  }

  /** `normalize_page`: an empty page never has a successor. */
  function NormalizePage(body: Json, links: seq<string>, table: TableConfig): (r: Result<Page>)
    ensures r.Ok? && r.value.next.Some? ==> r.value.rows != []
  {
    var next := if table.pagination == AutoPages then FindNext(body, links, table.cursorPath) else None;
    var selected := if table.responsePath.Some? then ReadPointer(body, table.responsePath.value)
      else Some(AutoSelect(body));
    if selected.None? then Err(Response)
    else
      var rows := RowsOf(selected.value);
      Ok(Page(rows, if rows == [] then None else next))
  }
}
