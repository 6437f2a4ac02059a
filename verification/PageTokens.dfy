/**
 Which page comes next (src/response.rs): where a body or its headers name a successor, in which
 order these places count, and what kind of token is found there.
 */
module PageTokens {
  import opened Text
  import opened Json
  import opened TableOptions
  import opened Paging
  import LinkHeaders

  // ---------- the places ----------

  /** Texts that count as tokens: nonempty strings and numbers. */
  ghost predicate Says(value: Option<Json>, text: string) {
    (value == Some(Str(text)) && text != "") || value == Some(Num(text))
  }

  ghost predicate IsSilent(body: Json, pointer: string) {
    forall text :: !Says(ReadPointer(body, pointer), text)
  }

  /** The first of some places that says anything says this. */
  ghost predicate FirstSays(body: Json, pointers: seq<string>, text: string) {
    pointers != [] && (
      || Says(ReadPointer(body, pointers[0]), text)
      || (IsSilent(body, pointers[0]) && FirstSays(body, pointers[1..], text)))
  }

  /** The first of some flags that is there at all is true. */
  predicate FirstIsTrue(body: Json, pointers: seq<string>) {
    pointers != [] && (
      || ReadPointer(body, pointers[0]) == Some(Bool(true))
      || (ReadPointer(body, pointers[0]) == None && FirstIsTrue(body, pointers[1..])))
  }

  function NextUrlPointers(): seq<string> {
    ["/meta/pagination/" + "next", "/meta/pagination/" + "next_url",
     "/pagination/" + "next", "/pagination/" + "next_url",
     "/links/" + "next", "/links/" + "next_url", "/" + "next", "/" + "next_url", "/_links/next/" + "href"]
  }

  function MorePointers(): seq<string> {
    ["/meta/pagination/" + "has_more", "/pagination/" + "has_more", "/" + "has_more"]
  }

  function CursorPointers(): seq<string> {
    ["/meta/pagination/" + "next_cursor", "/pagination/" + "next_cursor", "/" + "next_cursor", "/" + "cursor"]
  }

  predicate HasMore(body: Json) {
    FirstIsTrue(body, MorePointers())
  }

  predicate LooksLikeUrl(text: string) {
    "http://" <= text || "https://" <= text || (text != "" && (text[0] == '/' || text[0] == '?'))
  }

  /** What the configured cursor path says. */
  ghost predicate AtCursorPath(body: Json, table: TableConfig, text: string) {
    table.cursorPath.Some? && Says(ReadPointer(body, table.cursorPath.value), text)
  }

  /** The first header with a link to the next page links to this. */
  predicate InLinks(links: seq<string>, url: string) {
    links != [] && (
      || LinkHeaders.ParseLinkNext(links[0]) == Some(url)
      || (LinkHeaders.ParseLinkNext(links[0]) == None && InLinks(links[1..], url)))
  }

  // ---------- the places, read ----------

  predicate IsPlainToken(token: string) {
    '/' !in token && '~' !in token
  }

  predicate ArePlain(tokens: seq<string>) {
    forall i | 0 <= i < |tokens| :: IsPlainToken(tokens[i])
  }

  function PointerOf(tokens: seq<string>): string {
    if tokens == [] then "" else ['/'] + (tokens[0] + PointerOf(tokens[1..]))
  }

  lemma {:induction false} PlainIsItself(token: string, pat: string, with: string)
    requires pat != "" && pat[0] !in token
    ensures Replace(token, pat, with) == token
  {
    if token != "" {
      PlainIsItself(token[1..], pat, with);
      ReplaceSkip(token[0], token[1..], pat, with);
      assert token == [token[0]] + token[1..];
    }
  }

  lemma {:induction false} SplitPointer(token: string, tokens: seq<string>)
    requires '/' !in token && ArePlain(tokens)
    ensures Split(token + PointerOf(tokens), '/') == [token] + tokens
    decreases |tokens|
  {
    if tokens == [] {
      assert token + "" == token;
      SplitNone(token, '/');
    } else {
      SplitPointer(tokens[0], tokens[1..]);
      SplitStep(token, '/', tokens[0] + PointerOf(tokens[1..]));
      assert [tokens[0]] + tokens[1..] == tokens;
    }
  }

  lemma UnescapePlain(tokens: seq<string>)
    requires ArePlain(tokens)
    ensures Map(Unescape, tokens) == tokens
  {
    forall i | 0 <= i < |tokens|
      ensures Unescape(tokens[i]) == tokens[i]
    {
      PlainIsItself(tokens[i], "~1", "/");
      PlainIsItself(tokens[i], "~0", "~");
    }
  }

  /** A pointer of plain tokens is read token by token. */
  lemma ReadPlainPointer(body: Json, tokens: seq<string>)
    requires tokens != [] && ArePlain(tokens)
    ensures ReadPointer(body, PointerOf(tokens)) == Get(body, tokens)
  {
    SplitPointer("", tokens);
    assert "" + PointerOf(tokens) == PointerOf(tokens);
    assert ([""] + tokens)[1..] == tokens;
    UnescapePlain(tokens);
  }

  predicate Spells(pointer: string, path: seq<string>) {
    path != [] && ArePlain(path) && pointer == PointerOf(path)
  }

  /** The pointers spell the paths, one by one. */
  predicate Spell(pointers: seq<string>, paths: seq<seq<string>>) {
    if pointers == [] || paths == [] then pointers == [] && paths == []
    else Spells(pointers[0], paths[0]) && Spell(pointers[1..], paths[1..])
  }

  lemma SpellMore(pointer: string, path: seq<string>, pointers: seq<string>, paths: seq<seq<string>>)
    requires Spells(pointer, path) && Spell(pointers, paths)
    ensures Spell([pointer] + pointers, [path] + paths)
  {
    assert ([pointer] + pointers)[1..] == pointers && ([path] + paths)[1..] == paths;
  }

  lemma SpelledOne(token: string)
    requires IsPlainToken(token)
    ensures Spells("/" + token, [token])
  {
    assert [token][1..] == [] && token + "" == token;
    assert PointerOf([token]) == ['/'] + (token + PointerOf([]));
  }

  lemma SpelledTwo(a: string, b: string)
    requires IsPlainToken(a) && IsPlainToken(b)
    ensures Spells("/" + a + "/" + b, [a, b])
  {
    SpelledOne(b);
    assert [a, b][1..] == [b];
  }

  lemma SpelledThree(a: string, b: string, c: string)
    requires IsPlainToken(a) && IsPlainToken(b) && IsPlainToken(c)
    ensures Spells("/" + a + "/" + b + "/" + c, [a, b, c])
  {
    SpelledTwo(b, c);
    assert [a, b, c][1..] == [b, c];
  }

  lemma InMeta(name: string)
    requires IsPlainToken(name)
    ensures Spells("/meta/pagination/" + name, ["meta", "pagination", name])
  {
    SpelledThree("meta", "pagination", name);
    assert "/" + "meta" + "/" + "pagination" + "/" == "/meta/pagination/";
  }

  lemma InPagination(name: string)
    requires IsPlainToken(name)
    ensures Spells("/pagination/" + name, ["pagination", name])
  {
    SpelledTwo("pagination", name);
    assert "/" + "pagination" + "/" == "/pagination/";
  }

  lemma InLinksObject(name: string)
    requires IsPlainToken(name)
    ensures Spells("/links/" + name, ["links", name])
  {
    SpelledTwo("links", name);
    assert "/" + "links" + "/" == "/links/";
  }

  lemma InHal(name: string)
    requires IsPlainToken(name)
    ensures Spells("/_links/next/" + name, ["_links", "next", name])
  {
    SpelledThree("_links", "next", name);
    assert "/" + "_links" + "/" + "next" + "/" == "/_links/next/";
  }

  /** Under each of the usual parents, and at the top. */
  lemma SpelledEverywhere(name: string)
    requires IsPlainToken(name)
    ensures Spell(["/meta/pagination/" + name, "/pagination/" + name, "/" + name],
                  [["meta", "pagination", name], ["pagination", name], [name]])
  {
    InMeta(name);
    InPagination(name);
    SpelledOne(name);
    SpellThree("/meta/pagination/" + name, "/pagination/" + name, "/" + name,
      ["meta", "pagination", name], ["pagination", name], [name]);
  }

  lemma SpellThree(a: string, b: string, c: string, p: seq<string>, q: seq<string>, r: seq<string>)
    requires Spells(a, p) && Spells(b, q) && Spells(c, r)
    ensures Spell([a, b, c], [p, q, r])
  {
    SpellMore(c, r, [], []);
    SpellMore(b, q, [c], [r]);
    SpellMore(a, p, [b, c], [q, r]);
    assert [b] + [c] == [b, c] && [q] + [r] == [q, r];
    assert [a] + [b, c] == [a, b, c] && [p] + [q, r] == [p, q, r];
    assert [c] + [] == [c] && [r] + [] == [r];
  }

  lemma {:induction false} SpellConcat(a: seq<string>, p: seq<seq<string>>, b: seq<string>, q: seq<seq<string>>)
    requires Spell(a, p) && Spell(b, q)
    ensures Spell(a + b, p + q)
    decreases |a|
  {
    if a == [] {
      assert a + b == b && p + q == q;
    } else {
      SpellConcat(a[1..], p[1..], b, q);
      assert (a + b)[1..] == a[1..] + b && (p + q)[1..] == p[1..] + q;
    }
  }

  lemma FlagPlacesAreSpelled()
    ensures Spell(MorePointers(), HasMorePaths())
  {
    SpelledEverywhere("has_more");
  }

  lemma CursorPlacesAreSpelled()
    ensures Spell(CursorPointers(), CursorPaths())
  {
    SpelledEverywhere("next_cursor");
    SpelledOne("cursor");
    SpellMore("/" + "cursor", ["cursor"], [], []);
    SpellConcat(["/meta/pagination/" + "next_cursor", "/pagination/" + "next_cursor", "/" + "next_cursor"],
      [["meta", "pagination", "next_cursor"], ["pagination", "next_cursor"], ["next_cursor"]],
      ["/" + "cursor"], [["cursor"]]);
  }

  lemma UrlPlacesAreSpelled()
    ensures Spell(NextUrlPointers(), NextUrlPaths())
  {
    FirstUrlPlaces();
    NextUrlPlaces();
    LastUrlPlaces();
    var b := ["/pagination/" + "next_url", "/links/" + "next", "/links/" + "next_url"];
    var c := ["/" + "next", "/" + "next_url", "/_links/next/" + "href"];
    var q := [["pagination", "next_url"], ["links", "next"], ["links", "next_url"]];
    var r := [["next"], ["next_url"], ["_links", "next", "href"]];
    SpellConcat(b, q, c, r);
    SpellConcat(["/meta/pagination/" + "next", "/meta/pagination/" + "next_url", "/pagination/" + "next"],
      [["meta", "pagination", "next"], ["meta", "pagination", "next_url"], ["pagination", "next"]], b + c, q + r);
    PointersInThree();
    PathsInThree();
  }

  lemma PointersInThree()
    ensures NextUrlPointers() ==
      ["/meta/pagination/" + "next", "/meta/pagination/" + "next_url", "/pagination/" + "next"]
      + (["/pagination/" + "next_url", "/links/" + "next", "/links/" + "next_url"]
         + ["/" + "next", "/" + "next_url", "/_links/next/" + "href"])
  {
  }

  lemma PathsInThree()
    ensures NextUrlPaths() ==
      [["meta", "pagination", "next"], ["meta", "pagination", "next_url"], ["pagination", "next"]]
      + ([["pagination", "next_url"], ["links", "next"], ["links", "next_url"]]
         + [["next"], ["next_url"], ["_links", "next", "href"]])
  {
  }

  lemma FirstUrlPlaces()
    ensures Spell(["/meta/pagination/" + "next", "/meta/pagination/" + "next_url", "/pagination/" + "next"],
                  [["meta", "pagination", "next"], ["meta", "pagination", "next_url"], ["pagination", "next"]])
  {
    InMeta("next");
    InMeta("next_url");
    InPagination("next");
    SpellThree("/meta/pagination/" + "next", "/meta/pagination/" + "next_url", "/pagination/" + "next",
      ["meta", "pagination", "next"], ["meta", "pagination", "next_url"], ["pagination", "next"]);
  }

  lemma NextUrlPlaces()
    ensures Spell(["/pagination/" + "next_url", "/links/" + "next", "/links/" + "next_url"],
                  [["pagination", "next_url"], ["links", "next"], ["links", "next_url"]])
  {
    InPagination("next_url");
    InLinksObject("next");
    InLinksObject("next_url");
    SpellThree("/pagination/" + "next_url", "/links/" + "next", "/links/" + "next_url",
      ["pagination", "next_url"], ["links", "next"], ["links", "next_url"]);
  }

  lemma LastUrlPlaces()
    ensures Spell(["/" + "next", "/" + "next_url", "/_links/next/" + "href"],
                  [["next"], ["next_url"], ["_links", "next", "href"]])
  {
    SpelledOne("next");
    SpelledOne("next_url");
    InHal("href");
    SpellThree("/" + "next", "/" + "next_url", "/_links/next/" + "href",
      ["next"], ["next_url"], ["_links", "next", "href"]);
  }

  // ---------- the searches ----------

  lemma SaysScalar(value: Option<Json>)
    ensures forall text :: Says(value, text) <==> ScalarString(value) == Some(text)
  {
  }

  lemma SpelledIsRead(body: Json, pointer: string, path: seq<string>)
    requires Spells(pointer, path)
    ensures forall text :: Says(ReadPointer(body, pointer), text) <==> ScalarString(Get(body, path)) == Some(text)
  {
    ReadPlainPointer(body, path);
    SaysScalar(Get(body, path));
  }

  lemma {:induction false} FirstScalarSays(body: Json, pointers: seq<string>, paths: seq<seq<string>>, text: string)
    requires Spell(pointers, paths)
    ensures FirstScalar(body, paths) == Some(text) <==> FirstSays(body, pointers, text)
    decreases |paths|
  {
    if paths != [] {
      SpelledIsRead(body, pointers[0], paths[0]);
      FirstScalarSays(body, pointers[1..], paths[1..], text);
    }
  }

  lemma {:induction false} FirstPresentIsTrue(body: Json, pointers: seq<string>, paths: seq<seq<string>>)
    requires Spell(pointers, paths)
    ensures FirstPresent(body, paths) == Some(Bool(true)) <==> FirstIsTrue(body, pointers)
    decreases |paths|
  {
    if paths != [] {
      ReadPlainPointer(body, paths[0]);
      FirstPresentIsTrue(body, pointers[1..], paths[1..]);
    }
  }

  lemma {:induction false} FirstLinkIsIn(links: seq<string>, url: string)
    ensures FirstLink(links) == Some(url) <==> InLinks(links, url)
  {
    if links != [] {
      FirstLinkIsIn(links[1..], url);
    }
  }

  // ---------- the successor of a page ----------

  /** The places behind the configured path: the headers, a URL, and a cursor with its flag. */
  ghost predicate OtherSuccessor(body: Json, links: seq<string>, token: PageToken) {
    if exists url :: InLinks(links, url) then token.UrlToken? && InLinks(links, token.url)
    else if exists url :: FirstSays(body, NextUrlPointers(), url) then
      token.UrlToken? && FirstSays(body, NextUrlPointers(), token.url)
    else token.CursorToken? && HasMore(body) && FirstSays(body, CursorPointers(), token.cursor)
  }

  /** What the places say, in their order. */
  ghost predicate Successor(body: Json, links: seq<string>, table: TableConfig, token: PageToken) {
    if exists text :: AtCursorPath(body, table, text) then
      exists text :: AtCursorPath(body, table, text)
        && token == if LooksLikeUrl(text) then UrlToken(text) else CursorToken(text)
    else OtherSuccessor(body, links, token)
  }

  lemma SearchesAgree(body: Json, links: seq<string>, text: string)
    ensures FirstLink(links) == Some(text) <==> InLinks(links, text)
    ensures FirstScalar(body, NextUrlPaths()) == Some(text) <==> FirstSays(body, NextUrlPointers(), text)
    ensures FirstScalar(body, CursorPaths()) == Some(text) <==> FirstSays(body, CursorPointers(), text)
  {
    FirstLinkIsIn(links, text);
    UrlPlacesAreSpelled();
    CursorPlacesAreSpelled();
    FirstScalarSays(body, NextUrlPointers(), NextUrlPaths(), text);
    FirstScalarSays(body, CursorPointers(), CursorPaths(), text);
  }

  lemma FlagAgrees(body: Json)
    ensures AsBool(FirstPresent(body, HasMorePaths())) == Some(true) <==> HasMore(body)
  {
    FlagPlacesAreSpelled();
    FirstPresentIsTrue(body, MorePointers(), HasMorePaths());
  }

  lemma ClassifiedByText(text: string)
    ensures ClassifyToken(text) == if LooksLikeUrl(text) then UrlToken(text) else CursorToken(text)
  {
  }

  lemma CursorPathAgrees(body: Json, table: TableConfig, text: string)
    ensures AtCursorPath(body, table, text) <==>
      table.cursorPath.Some? && ScalarString(ReadPointer(body, table.cursorPath.value)) == Some(text)
  {
  }

  /** `find_next` finds exactly what the places say. */
  lemma NextIsSuccessor(body: Json, links: seq<string>, table: TableConfig, token: PageToken)
    ensures FindNext(body, links, table.cursorPath) == Some(token) <==> Successor(body, links, table, token)
  {
    var cursor := if table.cursorPath.Some? then ScalarString(ReadPointer(body, table.cursorPath.value)) else None;
    forall text
      ensures AtCursorPath(body, table, text) <==> cursor == Some(text)
    {
      CursorPathAgrees(body, table, text);
    }
    if cursor.Some? {
      assert AtCursorPath(body, table, cursor.value);
      ClassifiedByText(cursor.value);
    } else {
      OtherPlaces(body, links, token);
    }
  }

  lemma FoundInTurn(body: Json, links: seq<string>)
    ensures FindNext(body, links, None) ==
      if FirstLink(links).Some? then Some(UrlToken(FirstLink(links).value))
      else if FirstScalar(body, NextUrlPaths()).Some? then Some(UrlToken(FirstScalar(body, NextUrlPaths()).value))
      else if HasMore(body) && FirstScalar(body, CursorPaths()).Some? then
        Some(CursorToken(FirstScalar(body, CursorPaths()).value))
      else None
  {
    FlagAgrees(body);
  }

  /** The same order, over what the searches find. */
  lemma OtherInTurn(body: Json, links: seq<string>, token: PageToken, link: Option<string>, url: Option<string>,
                    cursor: Option<string>)
    requires forall text :: link == Some(text) <==> InLinks(links, text)
    requires forall text :: url == Some(text) <==> FirstSays(body, NextUrlPointers(), text)
    requires forall text :: cursor == Some(text) <==> FirstSays(body, CursorPointers(), text)
    ensures OtherSuccessor(body, links, token) <==>
      if link.Some? then token == UrlToken(link.value)
      else if url.Some? then token == UrlToken(url.value)
      else HasMore(body) && cursor.Some? && token == CursorToken(cursor.value)
  {
    if link.Some? {
      assert InLinks(links, link.value);
    } else if url.Some? {
      assert FirstSays(body, NextUrlPointers(), url.value);
    }
  }

  lemma OtherPlaces(body: Json, links: seq<string>, token: PageToken)
    ensures FindNext(body, links, None) == Some(token) <==> OtherSuccessor(body, links, token)
  {
    var link, url, cursor := FirstLink(links), FirstScalar(body, NextUrlPaths()), FirstScalar(body, CursorPaths());
    forall text
      ensures link == Some(text) <==> InLinks(links, text)
      ensures url == Some(text) <==> FirstSays(body, NextUrlPointers(), text)
      ensures cursor == Some(text) <==> FirstSays(body, CursorPointers(), text)
    {
      SearchesAgree(body, links, text);
    }
    OtherInTurn(body, links, token, link, url, cursor);
    FoundInTurn(body, links);
  }

  /** What `normalize_page` selects: by the response path, or by itself. */
  function SelectedBy(body: Json, responsePath: Option<string>): Option<Json> {
    if responsePath.Some? then ReadPointer(body, responsePath.value) else Some(AutoSelect(body))
  }

  predicate HoldsMany(fields: map<string, Json>, key: string) {
    key in fields && (fields[key].Arr? || fields[key].Obj?)
  }

  /** Without a path, the rows are in the first of these properties that holds an array or an object. */
  lemma {:induction false} EnvelopeInOrder(fields: map<string, Json>, keys: seq<string>, i: nat)
    requires i <= |keys| && forall j | 0 <= j < i :: !HoldsMany(fields, keys[j])
    requires i < |keys| ==> HoldsMany(fields, keys[i])
    ensures Envelope(fields, keys) == if i < |keys| then Some(keys[i]) else None
    decreases |keys|
  {
    if i > 0 {
      EnvelopeInOrder(fields, keys[1..], i - 1);
    }
  }

  lemma EnvelopesInOrder()
    ensures EnvelopeKeys() == ["data", "results", "items", "records", "entries", "features", "@graph"]
  {
  }

  lemma AutoSelectIsExact(body: Json, i: nat)
    requires i <= |EnvelopeKeys()|
    requires body.Obj? ==> forall j | 0 <= j < i :: !HoldsMany(body.fields, EnvelopeKeys()[j])
    requires body.Obj? && i < |EnvelopeKeys()| ==> HoldsMany(body.fields, EnvelopeKeys()[i])
    ensures AutoSelect(body) ==
      if body.Obj? && i < |EnvelopeKeys()| then body.fields[EnvelopeKeys()[i]] else body
  {
    if body.Obj? {
      EnvelopeInOrder(body.fields, EnvelopeKeys(), i);
    }
  }

  /** The rows are the selected array, nothing for null, or the one value. */
  predicate AreRows(rows: seq<Json>, selected: Json) {
    && (selected.Arr? ==> rows == selected.items)
    && (selected.Null? ==> rows == [])
    && (!selected.Arr? && !selected.Null? ==> rows == [selected])
  }

  /**
   A page is refused exactly if there is nothing under the response path. It names a successor exactly
   if it has rows, pages are followed, and the places say so.
   */
  lemma PageIsExact(body: Json, links: seq<string>, table: TableConfig, token: PageToken)
    ensures var page, selected := NormalizePage(body, links, table), SelectedBy(body, table.responsePath);
      && (page.Ok? <==> selected.Some?)
      && (page.Ok? ==>
            && AreRows(page.value.rows, selected.value)
            && (page.value.next == Some(token) <==>
                page.value.rows != [] && table.pagination == AutoPages && Successor(body, links, table, token)))
  {
    NextIsSuccessor(body, links, table, token);
    PageOf(body, links, table);
    if SelectedBy(body, table.responsePath).Some? {
      RowsAreExact(SelectedBy(body, table.responsePath).value);
    }
  }

  lemma PageOf(body: Json, links: seq<string>, table: TableConfig)
    ensures var selected, next := SelectedBy(body, table.responsePath), FindNext(body, links, table.cursorPath);
      NormalizePage(body, links, table) ==
        if selected.None? then Err(Response)
        else if RowsOf(selected.value) != [] && table.pagination == AutoPages then
          Ok(Page(RowsOf(selected.value), next))
        else Ok(Page(RowsOf(selected.value), None))
  {
  }

  lemma RowsAreExact(selected: Json)
    ensures AreRows(RowsOf(selected), selected)
  {
  }

  // ---------- printed pages ----------

  /** A body with its rows in an envelope, and one value at another place. */
  function Placed(rows: seq<Json>, path: seq<string>, value: Json): Json
    requires path != []
  {
    Obj(map["data" := Arr(rows), path[0] := Nest(path[1..], value)])
  }

  lemma {:induction false} OnlyThere(path: seq<string>, text: string, other: seq<string>)
    ensures ScalarString(Get(Nest(path, Str(text)), other)).Some? ==> other == path
    decreases |path|
  {
    if path != [] && other != [] && other[0] == path[0] {
      OnlyThere(path[1..], text, other[1..]);
      assert path == [path[0]] + path[1..] && other == [other[0]] + other[1..];
    } else if path == [] && other != [] {
      assert Child(Str(text), other[0]) == None;
    }
  }

  lemma PlacedIsThere(rows: seq<Json>, path: seq<string>, text: string, other: seq<string>)
    requires path != [] && other != [] && path[0] != "data" && other[0] != "data" && text != ""
    ensures ScalarString(Get(Placed(rows, path, Str(text)), other)) == if other == path then Some(text) else None
  {
    if other[0] == path[0] {
      OnlyThere(path[1..], text, other[1..]);
      NestIsRead(path[1..], Str(text));
      assert path == [path[0]] + path[1..] && other == [other[0]] + other[1..];
    }
  }

  predicate AwayFromData(paths: seq<seq<string>>) {
    forall i | 0 <= i < |paths| :: paths[i] != [] && paths[i][0] != "data"
  }

  lemma {:induction false} PlacedIsFound(rows: seq<Json>, path: seq<string>, text: string, paths: seq<seq<string>>)
    requires path != [] && path[0] != "data" && text != "" && AwayFromData(paths)
    ensures FirstScalar(Placed(rows, path, Str(text)), paths) == if path in paths then Some(text) else None
    decreases |paths|
  {
    if paths != [] {
      PlacedIsThere(rows, path, text, paths[0]);
      PlacedIsFound(rows, path, text, paths[1..]);
      assert paths == [paths[0]] + paths[1..];
    }
  }

  lemma UrlPlacesAreAway()
    ensures AwayFromData(NextUrlPaths())
  {
    assert "meta"[0] != 'd' && "pagination"[0] != 'd' && "links"[0] != 'd' && "next"[0] != 'd' && "_links"[0] != 'd';
  }

  lemma DataIsSelected(fields: map<string, Json>, rows: seq<Json>)
    requires "data" in fields && fields["data"] == Arr(rows)
    ensures AutoSelect(Obj(fields)) == Arr(rows)
  {
    assert EnvelopeKeys()[0] == "data";
  }

  /** A table that leaves rows and pages to be found. */
  predicate IsPlainTable(table: TableConfig) {
    table.pagination == AutoPages && table.responsePath.None? && table.cursorPath.None?
  }

  /** A URL printed at any of the usual places is read back. */
  lemma PrintedUrlReadsBack(rows: seq<Json>, i: nat, url: string, table: TableConfig)
    requires rows != [] && url != "" && IsPlainTable(table) && i < |NextUrlPaths()|
    ensures NextUrlPaths()[i] != []
    ensures NormalizePage(Placed(rows, NextUrlPaths()[i], Str(url)), [], table) == Ok(Page(rows, Some(UrlToken(url))))
  {
    UrlPlacesAreAway();
    var path := NextUrlPaths()[i];
    PlacedIsFound(rows, path, url, NextUrlPaths());
    DataIsSelected(Placed(rows, path, Str(url)).fields, rows);
  }

  /** What a configured cursor path says is read back, as a URL where it looks like one. */
  lemma PrintedCursorPathReadsBack(rows: seq<Json>, path: seq<string>, text: string, links: seq<string>,
                                   table: TableConfig)
    requires rows != [] && text != "" && table.pagination == AutoPages && table.responsePath.None?
    requires path != [] && path[0] != "data" && ArePlain(path) && table.cursorPath == Some(PointerOf(path))
    ensures NormalizePage(Placed(rows, path, Str(text)), links, table)
      == Ok(Page(rows, Some(if LooksLikeUrl(text) then UrlToken(text) else CursorToken(text))))
  {
    ReadPlainPointer(Placed(rows, path, Str(text)), path);
    PlacedIsThere(rows, path, text, path);
    DataIsSelected(Placed(rows, path, Str(text)).fields, rows);
    ClassifiedByText(text);
  }

  /** A link printed into a header is read back, whatever else the body says. */
  lemma PrintedLinkReadsBack(body: Json, link: LinkHeaders.Link, table: TableConfig)
    requires LinkHeaders.Printable(link) && LinkHeaders.IsNext(link)
    requires table.pagination == AutoPages && table.cursorPath.None?
    ensures var page := NormalizePage(body, [LinkHeaders.PrintLink(link)], table);
      page.Ok? && page.value.rows != [] ==> page.value.next == Some(UrlToken(link.url))
  {
    assert LinkHeaders.PrintLinks([link]) == LinkHeaders.PrintLink(link);
    LinkHeaders.PrintedLinksReadBack([link]);
  }

  function CursorFields(rows: seq<Json>, more: Option<Json>, cursor: string): map<string, Json> {
    var fields: map<string, Json> := map["data" := Arr(rows), "next_cursor" := Str(cursor)];
    if more.Some? then fields["has_more" := more.value] else fields
  }

  lemma {:induction false} NothingThere(fields: map<string, Json>, paths: seq<seq<string>>)
    requires forall i | 0 <= i < |paths| :: paths[i] != [] && paths[i][0] !in fields
    ensures FirstScalar(Obj(fields), paths) == None && FirstPresent(Obj(fields), paths) == None
    decreases |paths|
  {
    if paths != [] {
      NothingThere(fields, paths[1..]);
    }
  }

  lemma NoUrlInFields(rows: seq<Json>, more: Option<Json>, cursor: string)
    ensures FirstScalar(Obj(CursorFields(rows, more, cursor)), NextUrlPaths()) == None
  {
    var fields := CursorFields(rows, more, cursor);
    assert "meta" !in fields && "pagination" !in fields && "links" !in fields && "_links" !in fields;
    assert "next" !in fields && "next_url" !in fields;
    NothingThere(fields, NextUrlPaths());
  }

  lemma SkipAbsent(fields: map<string, Json>, path: seq<string>, paths: seq<seq<string>>)
    requires path != [] && path[0] !in fields
    ensures FirstScalar(Obj(fields), [path] + paths) == FirstScalar(Obj(fields), paths)
    ensures FirstPresent(Obj(fields), [path] + paths) == FirstPresent(Obj(fields), paths)
  {
    assert ([path] + paths)[1..] == paths;
  }

  lemma TakePresent(fields: map<string, Json>, name: string, paths: seq<seq<string>>)
    requires name in fields
    ensures FirstPresent(Obj(fields), [[name]] + paths) == Some(fields[name])
    ensures ScalarString(Some(fields[name])).Some? ==>
      FirstScalar(Obj(fields), [[name]] + paths) == ScalarString(Some(fields[name]))
  {
    assert [name][1..] == [];
    assert Get(Obj(fields), [name]) == Some(fields[name]);
  }

  lemma FlagAtTop(rows: seq<Json>, more: Option<Json>, cursor: string)
    ensures FirstPresent(Obj(CursorFields(rows, more, cursor)), HasMorePaths()) == more
  {
    var fields := CursorFields(rows, more, cursor);
    assert "meta" !in fields && "pagination" !in fields;
    SkipAbsent(fields, ["meta", "pagination", "has_more"], [["pagination", "has_more"], ["has_more"]]);
    SkipAbsent(fields, ["pagination", "has_more"], [["has_more"]]);
    assert HasMorePaths() == [["meta", "pagination", "has_more"]] + [["pagination", "has_more"], ["has_more"]];
    assert [["pagination", "has_more"], ["has_more"]] == [["pagination", "has_more"]] + [["has_more"]];
    if more.Some? {
      TakePresent(fields, "has_more", []);
    } else {
      SkipAbsent(fields, ["has_more"], []);
    }
    assert [["has_more"]] + [] == [["has_more"]];
  }

  lemma CursorAtTop(rows: seq<Json>, more: Option<Json>, cursor: string)
    requires cursor != ""
    ensures FirstScalar(Obj(CursorFields(rows, more, cursor)), CursorPaths()) == Some(cursor)
  {
    var fields := CursorFields(rows, more, cursor);
    var rest := [["pagination", "next_cursor"], ["next_cursor"], ["cursor"]];
    assert "meta" !in fields && "pagination" !in fields;
    SkipAbsent(fields, ["meta", "pagination", "next_cursor"], rest);
    SkipAbsent(fields, ["pagination", "next_cursor"], [["next_cursor"], ["cursor"]]);
    TakePresent(fields, "next_cursor", [["cursor"]]);
    assert CursorPaths() == [["meta", "pagination", "next_cursor"]] + rest;
    assert rest == [["pagination", "next_cursor"]] + [["next_cursor"], ["cursor"]];
    assert [["next_cursor"], ["cursor"]] == [["next_cursor"]] + [["cursor"]];
  }

  /** A cursor counts exactly with a flag that is true: an absent or false one ends the collection. */
  lemma PrintedCursorReadsBack(rows: seq<Json>, more: Option<Json>, cursor: string, table: TableConfig)
    requires rows != [] && cursor != "" && IsPlainTable(table)
    ensures NormalizePage(Obj(CursorFields(rows, more, cursor)), [], table)
      == Ok(Page(rows, if more == Some(Bool(true)) then Some(CursorToken(cursor)) else None))
  {
    NoUrlInFields(rows, more, cursor);
    FlagAtTop(rows, more, cursor);
    CursorAtTop(rows, more, cursor);
    DataIsSelected(CursorFields(rows, more, cursor), rows);
  }
}
