/**
 Filling path templates (src/fdw.rs): the row identity of a mutation, and the equality
 qualifiers of a scan.
 */
module PathSubstitution {
  import opened Text
  import opened Identifiers
  import opened Templates
  import opened PercentEncoding
  import opened Cells

  // ---------- mutation_endpoint ----------

  /** `mutation_endpoint`, given the text of the row identity. */
  function MutationEndpoint(template: string, parameter: string, identity: string): string {
    Replace(template, "{" + parameter + "}", Segment(identity))
  }

  /** The literals of a template with one value in every gap. */
  function Fill(literals: seq<string>, value: string): string
    requires literals != []
  {
    if |literals| == 1 then literals[0] else literals[0] + (value + Fill(literals[1..], value))
  }

  lemma {:induction false} ReplaceSkipsLiteral(literal: string, rest: string, pat: string, with: string)
    requires pat != "" && pat[0] !in literal
    ensures Replace(literal + rest, pat, with) == literal + Replace(rest, pat, with)
  {
    if literal == "" {
      assert "" + rest == rest && "" + Replace(rest, pat, with) == Replace(rest, pat, with);
    } else {
      ReplaceSkipsLiteral(literal[1..], rest, pat, with);
      ReplaceSkip(literal[0], literal[1..] + rest, pat, with);
      assert literal + rest == [literal[0]] + (literal[1..] + rest);
      assert literal + Replace(rest, pat, with) == [literal[0]] + (literal[1..] + Replace(rest, pat, with));
    }
  }

  ghost predicate All<T>(xs: seq<T>, x: T) {
    xs == [] || (xs[0] == x && All(xs[1..], x))
  }

  /** Replacing the placeholder text hits every placeholder and nothing else. */
  lemma {:induction false} ReplaceFillsTemplate(
    literals: seq<string>, names: seq<string>, parameter: string, with: string)
    requires Shape(literals, names) && All(names, parameter)
    ensures Replace(Render(literals, names), "{" + parameter + "}", with) == Fill(literals, with)
  {
    var pat := "{" + parameter + "}";
    if names == [] {
      ReplaceSkipsLiteral(literals[0], "", pat, with);
      assert literals[0] + "" == literals[0];
    } else {
      ReplaceFillsTemplate(literals[1..], names[1..], parameter, with);
      var rest := Render(literals[1..], names[1..]);
      assert "{" + (names[0] + ("}" + rest)) == pat + rest;
      ReplaceSkipsLiteral(literals[0], pat + rest, pat, with);
      ReplaceHit(rest, pat, with);
    }
  }

  function CountChar(s: string, c: char): nat {
    if s == "" then 0 else (if s[0] == c then 1 else 0) + CountChar(s[1..], c)
  }

  lemma {:induction false} CountCharConcat(a: string, b: string, c: char)
    ensures CountChar(a + b, c) == CountChar(a, c) + CountChar(b, c)
  {
    if a == "" {
      assert a + b == b;
    } else {
      CountCharConcat(a[1..], b, c);
      assert (a + b)[1..] == a[1..] + b;
    }
  }

  lemma {:induction false} CountCharAbsent(s: string, c: char)
    requires c !in s
    ensures CountChar(s, c) == 0
  {
    if s != "" {
      CountCharAbsent(s[1..], c);
    }
  }

  lemma {:induction false} FillKeepsSlashes(literals: seq<string>, names: seq<string>, parameter: string, value: string)
    requires Shape(literals, names) && All(names, parameter)
    requires '/' !in parameter && '/' !in value
    ensures CountChar(Fill(literals, value), '/') == CountChar(Render(literals, names), '/')
  {
    if names != [] {
      FillKeepsSlashes(literals[1..], names[1..], parameter, value);
      var filled, rest := Fill(literals[1..], value), Render(literals[1..], names[1..]);
      CountCharConcat(literals[0], value + filled, '/');
      CountCharConcat(value, filled, '/');
      CountCharAbsent(value, '/');
      CountCharConcat(literals[0], "{" + (parameter + ("}" + rest)), '/');
      CountCharConcat("{", parameter + ("}" + rest), '/');
      CountCharConcat(parameter, "}" + rest, '/');
      CountCharAbsent(parameter, '/');
      CountCharConcat("}", rest, '/');
      CountCharAbsent("{", '/');
      CountCharAbsent("}", '/');
    }
  }

  lemma {:induction false} FillIsBraceFree(literals: seq<string>, value: string)
    requires literals != [] && AllFree(literals, '{') && '{' !in value
    ensures '{' !in Fill(literals, value)
  {
    if |literals| > 1 {
      FillIsBraceFree(literals[1..], value);
    }
  }

  lemma {:induction false} FillLength(literals: seq<string>, v: string, w: string)
    requires literals != []
    ensures |literals| > 1 && |v| < |w| ==> |Fill(literals, v)| < |Fill(literals, w)|
    ensures |v| <= |w| ==> |Fill(literals, v)| <= |Fill(literals, w)|
  {
    if |literals| > 1 {
      FillLength(literals[1..], v, w);
    }
  }

  lemma FillInjective(literals: seq<string>, v: string, w: string)
    requires |literals| > 1 && Fill(literals, v) == Fill(literals, w)
    ensures v == w
  {
    FillLength(literals, v, w);
    FillLength(literals, w, v);
    var n := |literals[0]|;
    assert Fill(literals, v)[n..n + |v|] == v;
    assert Fill(literals, w)[n..n + |w|] == w;
  }

  /**
   For a validated template, the mutation URL is the template with the encoded identity in
   every gap: it opens no new placeholder and no new path level.
   */
  lemma MutationEndpointShape(template: string, parameter: string, identity: string)
    requires PathPlaceholders(template).Ok? && All(PathPlaceholders(template).value, parameter)
    requires '/' !in parameter
    ensures var endpoint := MutationEndpoint(template, parameter, identity);
      && endpoint == Fill(Literals(template), Segment(identity))
      && '{' !in endpoint
      && CountChar(endpoint, '/') == CountChar(template, '/')
  {
    var names := PathPlaceholders(template).value;
    ScanSound(template);
    ReplaceFillsTemplate(Literals(template), names, parameter, Segment(identity));
    FillIsBraceFree(Literals(template), Segment(identity));
    FillKeepsSlashes(Literals(template), names, parameter, Segment(identity));
  }

  /** Distinct identities go to distinct URLs when the template has a placeholder at all. */
  lemma MutationEndpointInjective(template: string, parameter: string, a: string, b: string)
    requires PathPlaceholders(template).Ok? && All(PathPlaceholders(template).value, parameter)
    requires PathPlaceholders(template).value != [] && '/' !in parameter
    requires MutationEndpoint(template, parameter, a) == MutationEndpoint(template, parameter, b)
    ensures a == b
  {
    MutationEndpointShape(template, parameter, a);
    MutationEndpointShape(template, parameter, b);
    ScanSound(template);
    FillInjective(Literals(template), Segment(a), Segment(b));
    SegmentInjective(a, b);
  }

  // ---------- substitute_path_parameters ----------

  /** The equality values by lower-cased column; the last qualifier on a column wins. */
  function EqualityValues(quals: seq<Qual>): map<string, string> {
    if quals == [] then map[]
    else
      var last := quals[|quals| - 1];
      var values := EqualityValues(quals[..|quals| - 1]);
      var value := QualValue(last);
      if value.Some? then values[Lowercase(last.field) := value.value] else values
  }

  /** Qualifier `i` is a plain equality on a column, compared without case. */
  predicate Pins(quals: seq<Qual>, i: nat, key: string) {
    i < |quals| && Lowercase(quals[i].field) == key && QualValue(quals[i]).Some?
  }

  /** A column has a value exactly when some equality pins it. */
  lemma {:induction false} PinnedHasValue(quals: seq<Qual>, i: nat, key: string)
    requires Pins(quals, i, key)
    ensures key in EqualityValues(quals)
  {
    var front := quals[..|quals| - 1];
    if i < |front| {
      PinnedHasValue(front, i, key);
    }
  }

  /** The value of a column is that of the last equality that pins it. */
  lemma {:induction false} LastEqualityWins(quals: seq<Qual>, key: string) returns (i: nat)
    requires key in EqualityValues(quals)
    ensures Pins(quals, i, key) && forall j: nat | i < j :: !Pins(quals, j, key)
    ensures EqualityValues(quals)[key] == QualValue(quals[i]).value
  {
    var front, last := quals[..|quals| - 1], |quals| - 1;
    if Pins(quals, last, key) {
      i := last;
    } else {
      i := LastEqualityWins(front, key);
      forall j: nat | i < j
        ensures !Pins(quals, j, key)
      {
        assert !Pins(front, j, key);
      }
    }
  }

  datatype Lookup = Lookup(endpoint: string, used: set<string>, injected: map<string, string>)

  /** The qualifier key of a placeholder: its column, compared without case. */
  function LookupKey(parameter: string): string {
    Lowercase(Sanitize(parameter))
  }

  /** One placeholder's share of a lookup. */
  function Placeholder(parameter: string, values: map<string, string>): Lookup {
    var key := LookupKey(parameter);
    if key in values then Lookup(Segment(values[key]), {key}, map[Sanitize(parameter) := values[key]])
    else Lookup("", {}, map[])
  }

  function Then(a: Lookup, b: Lookup): Lookup {
    Lookup(a.endpoint + b.endpoint, a.used + b.used, a.injected + b.injected)
  }

  lemma ThenAssociative(a: Lookup, b: Lookup, c: Lookup)
    ensures Then(Then(a, b), c) == Then(a, Then(b, c))
  {
    assert a.endpoint + b.endpoint + c.endpoint == a.endpoint + (b.endpoint + c.endpoint);
    assert a.used + b.used + c.used == a.used + (b.used + c.used);
    assert a.injected + b.injected + c.injected == a.injected + (b.injected + c.injected);
  }

  function Verbatim(s: string): Lookup {
    Lookup(s, {}, map[])
  }

  /** Some `{` has no matching `}`. */
  predicate Unmatched(template: string)
    decreases |template|
  {
    var next := Next(template);
    next.Open? || (next.At? && Unmatched(next.rest))
  }

  /** Some placeholder has no value. */
  predicate Missing(template: string, values: map<string, string>)
    decreases |template|
  {
    var next := Next(template);
    next.At? && (LookupKey(next.name) !in values || Missing(next.rest, values))
  }

  /** The template with each placeholder replaced by its value, or by nothing. */
  function Substituted(template: string, values: map<string, string>): Lookup
    decreases |template|
  {
    match Next(template)
    case Done => Verbatim(template)
    case Open => Verbatim("")
    case At(literal, name, rest) =>
      Then(Then(Verbatim(literal), Placeholder(name, values)), Substituted(rest, values))
  }

  function Lookups(template: string, values: map<string, string>): Result<Option<Lookup>> {
    if Unmatched(template) then Err(Configuration)
    else if Missing(template, values) then Ok(None)
    else Ok(Some(Substituted(template, values)))
  }

  method CollectEqualityValues(quals: seq<Qual>) returns (values: map<string, string>)
    ensures values == EqualityValues(quals)
  {
    values := map[];
    for i := 0 to |quals|
      invariant values == EqualityValues(quals[..i])
    {
      assert quals[..i + 1][..i] == quals[..i];
      var value := QualValue(quals[i]);
      if value.Some? {
        values := values[Lowercase(quals[i].field) := value.value];
      }
    }
    assert quals[..|quals|] == quals;
  }

  lemma Advance(sofar: Lookup, remaining: string, values: map<string, string>)
    requires Next(remaining).At?
    ensures var next := Next(remaining);
      && Then(sofar, Substituted(remaining, values))
         == Then(Then(sofar, Then(Verbatim(next.literal), Placeholder(next.name, values))),
                 Substituted(next.rest, values))
      && (Unmatched(remaining) <==> Unmatched(next.rest))
      && (Missing(remaining, values) <==> LookupKey(next.name) !in values || Missing(next.rest, values))
  {
    var next := Next(remaining);
    ThenAssociative(sofar, Then(Verbatim(next.literal), Placeholder(next.name, values)),
      Substituted(next.rest, values));
  }

  lemma AdvanceAt(sofar: Lookup, s: string, start: nat, end: nat, values: map<string, string>)
    requires start == IndexOf(s, '{') < |s| && end == IndexOf(s[start + 1..], '}') < |s[start + 1..]|
    ensures var name, rest := s[start + 1..][..end], s[start + 1..][end + 1..];
      && Then(sofar, Substituted(s, values))
         == Then(Then(sofar, Then(Verbatim(s[..start]), Placeholder(name, values))), Substituted(rest, values))
      && (Unmatched(s) <==> Unmatched(rest))
      && (Missing(s, values) <==> LookupKey(name) !in values || Missing(rest, values))
  {
    NextAt(s, start, end);
    Advance(sofar, s, values);
  }

  lemma UnmatchedAt(s: string, start: nat)
    requires start == IndexOf(s, '{') < |s| && IndexOf(s[start + 1..], '}') == |s[start + 1..]|
    ensures Unmatched(s)
  {
  }

  lemma NothingLeft(s: string, values: map<string, string>)
    requires IndexOf(s, '{') == |s|
    ensures Substituted(s, values) == Verbatim(s) && !Unmatched(s) && !Missing(s, values)
  {
  }

  /** `substitute_path_parameters`: `Ok(None)` when some placeholder has no value. */
  method SubstitutePathParameters(template: string, quals: seq<Qual>) returns (r: Result<Option<Lookup>>)
    ensures r == Lookups(template, EqualityValues(quals))
  {
    var values := CollectEqualityValues(quals);
    var lookup := Verbatim("");
    var remaining := template;
    var missing := false;
    var start := IndexOf(remaining, '{');
    ThenNothing(Substituted(template, values));
    while start < |remaining|
      invariant start == IndexOf(remaining, '{')
      invariant Substituted(template, values) == Then(lookup, Substituted(remaining, values))
      invariant Unmatched(template) <==> Unmatched(remaining)
      invariant Missing(template, values) <==> missing || Missing(remaining, values)
      decreases |remaining|
    {
      var afterOpen := remaining[start + 1..];
      var end := IndexOf(afterOpen, '}');
      if end == |afterOpen| {
        UnmatchedAt(remaining, start);
        return Err(Configuration);
      }
      var parameter := afterOpen[..end];
      AdvanceAt(lookup, remaining, start, end, values);
      lookup := Then(lookup, Then(Verbatim(remaining[..start]), Placeholder(parameter, values)));
      if LookupKey(parameter) !in values {
        missing := true;
      }
      remaining := afterOpen[end + 1..];
      start := IndexOf(remaining, '{');
    }
    NothingLeft(remaining, values);
    lookup := Then(lookup, Verbatim(remaining));
    r := Ok(if missing then None else Some(lookup));
  }

  lemma ThenNothing(a: Lookup)
    ensures Then(Verbatim(""), a) == a
  {
  }

  predicate AllBound(names: seq<string>, values: map<string, string>) {
    names == [] || (LookupKey(names[0]) in values && AllBound(names[1..], values))
  }

  /** Literals and values in turn. */
  function Weave(literals: seq<string>, values: seq<string>): string
    requires |literals| == |values| + 1
  {
    if values == [] then literals[0] else literals[0] + values[0] + Weave(literals[1..], values[1..])
  }

  function Segments(names: seq<string>, values: map<string, string>): (r: seq<string>)
    requires AllBound(names, values)
    ensures |r| == |names|
  {
    if names == [] then [] else [Segment(values[LookupKey(names[0])])] + Segments(names[1..], values)
  }

  /** What stands between the braces of a template, whatever it is. */
  function Gaps(template: string): seq<string>
    decreases |template|
  {
    var next := Next(template);
    if next.At? then [next.name] + Gaps(next.rest) else []
  }

  /** A template whose braces match is its literals and gaps in turn; no gap holds a `}`. */
  lemma {:induction false} TemplateParts(template: string)
    requires !Unmatched(template)
    ensures |Literals(template)| == |Gaps(template)| + 1
    ensures AllFree(Literals(template), '{') && AllFree(Gaps(template), '}')
    ensures Render(Literals(template), Gaps(template)) == template
    decreases |template|
  {
    var next := Next(template);
    NextParts(template);
    if next.At? {
      TemplateParts(next.rest);
      assert Literals(template)[1..] == Literals(next.rest) && Gaps(template)[1..] == Gaps(next.rest);
    }
  }

  /**
   A parameterized endpoint fails exactly for an unmatched brace; it is requested exactly when
   every placeholder is pinned, and then each value fills its own gap as one encoded segment.
   */
  lemma {:induction false} LookupOfTemplate(template: string, values: map<string, string>)
    ensures Lookups(template, values).Ok? <==> !Unmatched(template)
    ensures |Literals(template)| == |Gaps(template)| + 1
    ensures !Unmatched(template) ==> (
      && (Lookups(template, values).value.Some? <==> AllBound(Gaps(template), values))
      && (AllBound(Gaps(template), values) ==>
            Substituted(template, values).endpoint == Weave(Literals(template), Segments(Gaps(template), values))))
    decreases |template|
  {
    var next := Next(template);
    if next.At? {
      LookupOfTemplate(next.rest, values);
      assert Literals(template)[1..] == Literals(next.rest) && Gaps(template)[1..] == Gaps(next.rest);
      if AllBound(Gaps(template), values) {
        assert Segments(Gaps(template), values)[1..] == Segments(Gaps(next.rest), values);
      }
    }
  }

  lemma {:induction false} InjectedValues(template: string, values: map<string, string>, column: string)
    requires column in Substituted(template, values).injected
    ensures Lowercase(column) in values
    ensures Substituted(template, values).injected[column] == values[Lowercase(column)]
    decreases |template|
  {
    var next := Next(template);
    if next.At? && column in Substituted(next.rest, values).injected {
      InjectedValues(next.rest, values, column);
    }
  }

  /** Whatever is injected into a column is the value of the last qualifier that pins that column. */
  lemma InjectedIsPinned(template: string, quals: seq<Qual>, column: string) returns (i: nat)
    requires column in Substituted(template, EqualityValues(quals)).injected
    ensures Pins(quals, i, Lowercase(column)) && forall j: nat | i < j :: !Pins(quals, j, Lowercase(column))
    ensures Substituted(template, EqualityValues(quals)).injected[column] == QualValue(quals[i]).value
  {
    InjectedValues(template, EqualityValues(quals), column);
    i := LastEqualityWins(quals, Lowercase(column));
  }

  /** Every placeholder of a bound lookup is among the used and injected columns. */
  lemma {:induction false} EveryPlaceholderInjected(template: string, values: map<string, string>, name: string)
    requires AllBound(Gaps(template), values) && name in Gaps(template)
    ensures var lookup := Substituted(template, values);
      LookupKey(name) in lookup.used && Sanitize(name) in lookup.injected
    decreases |template|
  {
    var next := Next(template);
    assert Gaps(template)[1..] == Gaps(next.rest);
    if name != next.name {
      assert name in Gaps(next.rest);
      EveryPlaceholderInjected(next.rest, values, name);
    }
  }
}
