/**
 Path templates such as `/users/{userId}`: the importer's and the validator's scanners
 (src/spec.rs, src/options.rs), and the two substitutions of the wrapper (src/fdw.rs). A template is
 understood as literals with names between them, and each scanner is proved to accept exactly the
 renderings of such a pair that it is meant to accept.
 */
module Templates {
  import opened Text

  // ---------- the grammar ----------

  /** `literals[0] {names[0]} literals[1] ... {names[n-1]} literals[n]`. */
  function Render(literals: seq<string>, names: seq<string>): string
    requires |literals| == |names| + 1
  {
    if names == [] then literals[0]
    else literals[0] + ("{" + (names[0] + ("}" + Render(literals[1..], names[1..]))))
  }

  predicate IsName(name: string) {
    name != "" && '{' !in name && '}' !in name
  }

  predicate AreNames(names: seq<string>) {
    names == [] || (IsName(names[0]) && AreNames(names[1..]))
  }

  predicate AllFree(literals: seq<string>, c: char) {
    literals == [] || (c !in literals[0] && AllFree(literals[1..], c))
  }

  predicate Shape(literals: seq<string>, names: seq<string>) {
    |literals| == |names| + 1 && AreNames(names) && AllFree(literals, '{')
  }

  /** No brace outside a placeholder. */
  predicate Strict(literals: seq<string>, names: seq<string>) {
    Shape(literals, names) && AllFree(literals, '}')
  }

  /** A stray `}` may stand between two placeholders, not before the first or after the last. */
  predicate Lenient(literals: seq<string>, names: seq<string>) {
    Shape(literals, names) && '}' !in literals[0] && '}' !in literals[|names|]
  }

  // ---------- finding the next placeholder ----------

  datatype Scan =
    | Done                                               // no `{` left
    | Open                                               // a `{` without a `}` after it
    | At(literal: string, name: string, rest: string)    // literal {name} rest

  function Next(s: string): (r: Scan)
    ensures r.At? ==> |r.rest| < |s|
  {
    var start := IndexOf(s, '{');
    if start == |s| then Done
    else
      var after := s[start + 1..];
      var end := IndexOf(after, '}');
      if end == |after| then Open else At(s[..start], after[..end], after[end + 1..])
  }

  lemma CutTwice(s: string, start: nat, end: nat)
    requires start < |s| && s[start] == '{'
    requires end < |s[start + 1..]| && s[start + 1..][end] == '}'
    ensures var after := s[start + 1..];
      s == s[..start] + ("{" + (after[..end] + ("}" + after[end + 1..])))
  {
  }

  lemma NextAt(s: string, start: nat, end: nat)
    requires start == IndexOf(s, '{') < |s| && end == IndexOf(s[start + 1..], '}') < |s[start + 1..]|
    ensures var after := s[start + 1..];
      Next(s) == At(s[..start], after[..end], after[end + 1..])
  {
  }

  lemma NextEnds(s: string)
    ensures Next(s).Done? <==> '{' !in s
  {
  }

  lemma NextParts(s: string)
    ensures Next(s).Done? <==> '{' !in s
    ensures Next(s).At? ==> (
      && '{' !in Next(s).literal && '}' !in Next(s).name
      && Next(s).literal == s[..IndexOf(s, '{')]
      && s == Next(s).literal + ("{" + (Next(s).name + ("}" + Next(s).rest))))
  {
    NextEnds(s);
    if Next(s).At? {
      var start := IndexOf(s, '{');
      var end := IndexOf(s[start + 1..], '}');
      NextAt(s, start, end);
      CutTwice(s, start, end);
    }
  }

  lemma FindPlaceholder(literal: string, name: string, rest: string)
    requires '{' !in literal && '}' !in name
    ensures Next(literal + ("{" + (name + ("}" + rest)))) == At(literal, name, rest)
  {
    var path := literal + ("{" + (name + ("}" + rest)));
    var after := name + ("}" + rest);
    assert path == literal + ['{'] + after;
    IndexOfAfter(literal, '{', after);
    assert after == name + ['}'] + rest;
    IndexOfAfter(name, '}', rest);
    assert path[|literal| + 1..] == after && after[|name| + 1..] == rest;
  }

  // ---------- template_parameters ----------

  function TemplateParameters(path: string): Option<seq<string>>
    decreases |path|
  {
    match Next(path)
    case Done => if '}' in path then None else Some([])
    case Open => None
    case At(literal, name, rest) =>
      if '}' in literal || !IsName(name) then None else Prepend([name], TemplateParameters(rest))
  }

  /** `template_parameters`. */
  method FindTemplateParameters(path: string) returns (r: Option<seq<string>>)
    ensures r == TemplateParameters(path)
  {
    var parameters: seq<string> := [];
    var remaining := path;
    var start := IndexOf(remaining, '{');
    PrependNothing(TemplateParameters(path));
    while start < |remaining|
      invariant start == IndexOf(remaining, '{')
      invariant TemplateParameters(path) == Prepend(parameters, TemplateParameters(remaining))
      decreases |remaining|
    {
      if '}' in remaining[..start] {
        return None;
      }
      var afterOpen := remaining[start + 1..];
      var end := IndexOf(afterOpen, '}');
      if end == |afterOpen| {
        return None;
      }
      var parameter := afterOpen[..end];
      if parameter == "" || '{' in parameter {
        return None;
      }
      PrependTwice(parameters, [parameter], TemplateParameters(afterOpen[end + 1..]));
      parameters := parameters + [parameter];
      remaining := afterOpen[end + 1..];
      start := IndexOf(remaining, '{');
    }
    assert parameters + [] == parameters;
    r := if '}' in remaining then None else Some(parameters);
  }

  /** The literal text around the parameters. */
  function Literals(path: string): (literals: seq<string>)
    ensures literals != []
    decreases |path|
  {
    var next := Next(path);
    if next.At? then [next.literal] + Literals(next.rest) else [path]
  }

  /** The importer accepts exactly the strict templates. */
  lemma {:induction false} TemplateParametersSound(path: string)
    requires TemplateParameters(path).Some?
    ensures Strict(Literals(path), TemplateParameters(path).value)
    ensures Render(Literals(path), TemplateParameters(path).value) == path
    decreases |path|
  {
    var next := Next(path);
    NextParts(path);
    if next.At? {
      TemplateParametersSound(next.rest);
      var names, literals := TemplateParameters(path).value, Literals(path);
      assert names[1..] == TemplateParameters(next.rest).value && literals[1..] == Literals(next.rest);
    }
  }

  lemma TemplateParametersStep(literal: string, name: string, rest: string)
    requires '{' !in literal && '}' !in literal && IsName(name)
    ensures TemplateParameters(literal + ("{" + (name + ("}" + rest)))) == Prepend([name], TemplateParameters(rest))
  {
    FindPlaceholder(literal, name, rest);
  }

  lemma {:induction false} TemplateParametersComplete(literals: seq<string>, names: seq<string>)
    requires Strict(literals, names)
    ensures TemplateParameters(Render(literals, names)) == Some(names)
  {
    if names == [] {
      NextParts(literals[0]);
    } else {
      TemplateParametersComplete(literals[1..], names[1..]);
      TemplateParametersStep(literals[0], names[0], Render(literals[1..], names[1..]));
      assert names == [names[0]] + names[1..];
    }
  }

  // ---------- path_placeholders ----------

  /** The placeholders, or nothing when one is malformed. */
  function ScanPlaceholders(path: string): Option<seq<string>>
    decreases |path|
  {
    match Next(path)
    case Done => Some([])
    case Open => None
    case At(_, name, rest) => if IsName(name) then Prepend([name], ScanPlaceholders(rest)) else None
  }

  /** What follows the last placeholder. */
  function Tail(path: string): string
    decreases |path|
  {
    var next := Next(path);
    if next.At? then Tail(next.rest) else path
  }

  function PathPlaceholders(endpoint: string): Result<seq<string>> {
    var scan := ScanPlaceholders(endpoint);
    if scan.None? || '}' in Tail(endpoint) || '}' in endpoint[..IndexOf(endpoint, '{')] then Err(Configuration)
    else Ok(scan.value)
  }

  /** One turn of the scan. */
  lemma ScanFinds(s: string)
    requires Next(s).At? && IsName(Next(s).name)
    ensures ScanPlaceholders(s) == Prepend([Next(s).name], ScanPlaceholders(Next(s).rest))
    ensures Tail(s) == Tail(Next(s).rest)
    ensures Literals(s) == [Next(s).literal] + Literals(Next(s).rest)
  {
  }

  lemma ScanFindsAt(s: string, start: nat, end: nat)
    requires start == IndexOf(s, '{') < |s| && end == IndexOf(s[start + 1..], '}') < |s[start + 1..]|
    requires IsName(s[start + 1..][..end])
    ensures var after := s[start + 1..];
      && ScanPlaceholders(s) == Prepend([after[..end]], ScanPlaceholders(after[end + 1..]))
      && Tail(s) == Tail(after[end + 1..])
  {
    NextAt(s, start, end);
    ScanFinds(s);
  }

  lemma ScanStopsAt(s: string, start: nat, end: nat)
    requires start == IndexOf(s, '{') < |s| && end == IndexOf(s[start + 1..], '}')
    requires end == |s[start + 1..]| || !IsName(s[start + 1..][..end])
    ensures ScanPlaceholders(s) == None
  {
  }

  /** `path_placeholders`. */
  method FindPathPlaceholders(endpoint: string) returns (r: Result<seq<string>>)
    ensures r == PathPlaceholders(endpoint)
  {
    var placeholders: seq<string> := [];
    var remaining := endpoint;
    var start := IndexOf(remaining, '{');
    PrependNothing(ScanPlaceholders(endpoint));
    while start < |remaining|
      invariant start == IndexOf(remaining, '{')
      invariant ScanPlaceholders(endpoint) == Prepend(placeholders, ScanPlaceholders(remaining))
      invariant Tail(endpoint) == Tail(remaining)
      decreases |remaining|
    {
      var afterOpen := remaining[start + 1..];
      var end := IndexOf(afterOpen, '}');
      if end == |afterOpen| {
        ScanStopsAt(remaining, start, end);
        return Err(Configuration);
      }
      var parameter := afterOpen[..end];
      if parameter == "" || '{' in parameter {
        ScanStopsAt(remaining, start, end);
        return Err(Configuration);
      }
      ScanFindsAt(remaining, start, end);
      PrependTwice(placeholders, [parameter], ScanPlaceholders(afterOpen[end + 1..]));
      placeholders := placeholders + [parameter];
      remaining := afterOpen[end + 1..];
      start := IndexOf(remaining, '{');
    }
    assert placeholders + [] == placeholders;
    if '}' in remaining || '}' in endpoint[..IndexOf(endpoint, '{')] {
      return Err(Configuration);
    }
    r := Ok(placeholders);
  }

  lemma {:induction false} ScanSound(path: string)
    requires ScanPlaceholders(path).Some?
    ensures Shape(Literals(path), ScanPlaceholders(path).value)
    ensures Render(Literals(path), ScanPlaceholders(path).value) == path
    decreases |path|
  {
    var next := Next(path);
    NextParts(path);
    if next.At? {
      ScanSound(next.rest);
      var names, literals := ScanPlaceholders(path).value, Literals(path);
      assert names[1..] == ScanPlaceholders(next.rest).value && literals[1..] == Literals(next.rest);
    }
  }

  lemma {:induction false} EndLiterals(path: string)
    requires ScanPlaceholders(path).Some?
    ensures Literals(path)[0] == path[..IndexOf(path, '{')]
    ensures Literals(path)[|Literals(path)| - 1] == Tail(path)
    decreases |path|
  {
    var next := Next(path);
    if next.At? {
      EndLiterals(next.rest);
      assert Literals(path) == [next.literal] + Literals(next.rest);
    } else {
      assert path[..|path|] == path;
    }
  }

  lemma ScanRendered(literal: string, name: string, rest: string)
    requires '{' !in literal && IsName(name)
    ensures var path := literal + ("{" + (name + ("}" + rest)));
      ScanPlaceholders(path) == Prepend([name], ScanPlaceholders(rest)) && Literals(path) == [literal] + Literals(rest)
  {
    FindPlaceholder(literal, name, rest);
    ScanFinds(literal + ("{" + (name + ("}" + rest))));
  }

  lemma {:induction false} ScanComplete(literals: seq<string>, names: seq<string>)
    requires Shape(literals, names)
    ensures ScanPlaceholders(Render(literals, names)) == Some(names)
    ensures Literals(Render(literals, names)) == literals
  {
    if names != [] {
      ScanComplete(literals[1..], names[1..]);
      ScanRendered(literals[0], names[0], Render(literals[1..], names[1..]));
      assert names == [names[0]] + names[1..] && literals == [literals[0]] + literals[1..];
    }
  }

  /** The validator accepts exactly the lenient templates. */
  lemma PathPlaceholdersExact(path: string, names: seq<string>)
    ensures PathPlaceholders(path) == Ok(names) <==>
      exists literals :: Lenient(literals, names) && Render(literals, names) == path
  {
    if PathPlaceholders(path) == Ok(names) {
      ScanSound(path);
      EndLiterals(path);
      assert Lenient(Literals(path), names) && Render(Literals(path), names) == path;
    }
    if literals :| Lenient(literals, names) && Render(literals, names) == path {
      ScanComplete(literals, names);
      EndLiterals(path);
    }
  }

  /** Whatever the importer reads from a template, the validator reads too. */
  lemma ImporterAgreesWithValidator(path: string)
    requires TemplateParameters(path).Some?
    ensures PathPlaceholders(path) == Ok(TemplateParameters(path).value)
  {
  }

  /** Of the templates the validator accepts, the importer refuses those with a stray brace in between. */
  lemma ImporterIsStricter(path: string)
    requires PathPlaceholders(path).Ok?
    ensures TemplateParameters(path) ==
      if AllFree(Literals(path), '}') then Some(PathPlaceholders(path).value) else None
  {
  }
}
