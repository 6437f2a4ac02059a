/**
 Where a request for an endpoint text goes (`endpoint_url` in src/http.rs and the URL parser
 behind it): slashes are trimmed, the fragment is not sent, single characters may be rewritten,
 and the dot segments of the path are resolved, encoded ones included (section 4.4 of the URL Standard).
 */
module Addresses {
  import opened Text
  import opened PercentEncoding
  import opened Templates
  import opened PathSubstitution
  import opened Cells
  import opened TableOptions
  import opened RowMutations

  // ---------- addresses ----------

  /** How the parser writes a character, inside the query or before it. */
  type Rewriting = (bool, char) -> string

  /** What is written in an encoded segment stays, and so does a slash. */
  ghost predicate KeepsSegments(how: Rewriting) {
    forall inQuery, c | IsSegmentChar(c) || c == '/' :: how(inQuery, c) == [c]
  }

  predicate IsSegmentChar(c: char) {
    IsAlphanumeric(c) || c == '%'
  }

  /** A text that is not rewritten. */
  predicate IsPathText(s: string) {
    forall c <- s :: IsSegmentChar(c) || c == '/'
  }

  lemma PathTextTail(s: string)
    requires s != "" && IsPathText(s)
    ensures (IsSegmentChar(s[0]) || s[0] == '/') && IsPathText(s[1..]) && s == [s[0]] + s[1..]
  {
    assert forall c <- s[1..] :: c in s;
  }

  function Rewritten(how: Rewriting, inQuery: bool, s: string): string {
    if s == "" then "" else how(inQuery, s[0]) + Rewritten(how, inQuery, s[1..])
  }

  function TrimSlashes(s: string): string {
    if s != "" && s[0] == '/' then TrimSlashes(s[1..]) else s
  }

  function BeforeHash(s: string): string {
    s[..IndexOf(s, '#')]
  }

  predicate IsDot(segment: string) {
    Lowercase(segment) in [".", "%2e"]
  }

  predicate IsDoubleDot(segment: string) {
    Lowercase(segment) in ["..", ".%2e", "%2e.", "%2e%2e"]
  }

  function Up(done: seq<string>): seq<string> {
    if done == [] then [] else done[..|done| - 1]
  }

  /** A dot segment at the end leaves an empty one. */
  function Resolve(segments: seq<string>, done: seq<string>): seq<string>
    decreases |segments|
  {
    if segments == [] then done
    else
      var end := if |segments| == 1 then [""] else [];
      if IsDoubleDot(segments[0]) then Resolve(segments[1..], Up(done) + end)
      else if IsDot(segments[0]) then Resolve(segments[1..], done + end)
      else Resolve(segments[1..], done + [segments[0]])
  }

  datatype Address = Address(path: seq<string>, query: Option<string>)

  /** The part of an endpoint text that is sent. */
  function SentText(endpoint: string): string {
    BeforeHash(TrimSlashes(endpoint))
  }

  function PathSegments(how: Rewriting, text: string): seq<string> {
    Split(Rewritten(how, false, text[..IndexOf(text, '?')]), '/')
  }

  function AddressOf(how: Rewriting, base: seq<string>, endpoint: string): Address {
    var text := SentText(endpoint);
    var mark := IndexOf(text, '?');
    Address(Resolve(PathSegments(how, text), base),
      if mark == |text| then None else Some(Rewritten(how, true, text[mark + 1..])))
  }

  predicate DotFree(segments: seq<string>) {
    forall segment <- segments :: !IsDot(segment) && !IsDoubleDot(segment)
  }

  lemma {:induction false} ResolvePlain(segments: seq<string>, done: seq<string>)
    requires DotFree(segments)
    ensures Resolve(segments, done) == done + segments
    decreases |segments|
  {
    if segments == [] {
      assert done + [] == done;
    } else {
      assert segments[0] in segments && forall segment <- segments[1..] :: segment in segments;
      ResolvePlain(segments[1..], done + [segments[0]]);
      assert done + [segments[0]] + segments[1..] == done + segments;
    }
  }

  lemma {:induction false} JoinSplit(s: string, c: char)
    ensures Join(Split(s, c), [c]) == s
    decreases |s|
  {
    if c in s {
      IsFound(s, c);
      var i := IndexOf(s, c);
      JoinSplit(s[i + 1..], c);
      CutAt(s, i);
      SplitStep(s[..i], c, s[i + 1..]);
      JoinFirst(s[..i], Split(s[i + 1..], c), [c]);
    } else {
      SplitNone(s, c);
    }
  }

  lemma JoinFirst(first: string, rest: seq<string>, sep: string)
    requires rest != []
    ensures Join([first] + rest, sep) == first + (sep + Join(rest, sep))
  {
    assert ([first] + rest)[1..] == rest;
  }

  // ---------- the whole text that is sent, rewritten ----------

  function Sweep(how: Rewriting, s: string, inQuery: bool): string {
    if s == "" then ""
    else if !inQuery && s[0] == '?' then "?" + Sweep(how, s[1..], true)
    else how(inQuery, s[0]) + Sweep(how, s[1..], inQuery)
  }

  lemma {:induction false} SweepInQuery(how: Rewriting, s: string)
    ensures Sweep(how, s, true) == Rewritten(how, true, s)
  {
    if s != "" {
      SweepInQuery(how, s[1..]);
    }
  }

  /** Path and query together are the swept text. */
  lemma {:induction false} SweepParts(how: Rewriting, s: string)
    ensures var mark := IndexOf(s, '?');
      Sweep(how, s, false) == Rewritten(how, false, s[..mark])
        + if mark == |s| then "" else "?" + Rewritten(how, true, s[mark + 1..])
  {
    if s != "" {
      var mark := IndexOf(s, '?');
      if s[0] == '?' {
        SweepInQuery(how, s[1..]);
        assert Rewritten(how, false, s[..0]) == "";
      } else {
        SweepParts(how, s[1..]);
        assert s[..mark][1..] == s[1..][..mark - 1] && s[..mark][0] == s[0];
        assert mark < |s| ==> s[mark + 1..] == s[1..][mark..];
      }
    }
  }

  lemma {:induction false} SweepConcat(how: Rewriting, a: string, b: string, inQuery: bool)
    ensures Sweep(how, a + b, inQuery) == Sweep(how, a, inQuery) + Sweep(how, b, inQuery || '?' in a)
    decreases |a|
  {
    if a == "" {
      assert a + b == b;
    } else {
      SweepConcat(how, a[1..], b, inQuery || a[0] == '?');
      assert a == [a[0]] + a[1..] && (a + b)[1..] == a[1..] + b;
    }
  }

  lemma {:induction false} SweepKeeps(how: Rewriting, v: string, inQuery: bool)
    requires KeepsSegments(how) && IsPathText(v)
    ensures Sweep(how, v, inQuery) == v
  {
    if v != "" {
      PathTextTail(v);
      SweepKeeps(how, v[1..], inQuery);
    }
  }

  function SweepAll(how: Rewriting, literals: seq<string>, inQuery: bool): (r: seq<string>)
    ensures |r| == |literals|
  {
    if literals == [] then []
    else [Sweep(how, literals[0], inQuery)] + SweepAll(how, literals[1..], inQuery || '?' in literals[0])
  }

  /** Sweeping a filled template rewrites its literals and leaves the value. */
  lemma {:induction false} SweepFill(how: Rewriting, literals: seq<string>, v: string, inQuery: bool)
    requires KeepsSegments(how) && literals != [] && forall c <- v :: IsSegmentChar(c)
    ensures Sweep(how, Fill(literals, v), inQuery) == Fill(SweepAll(how, literals, inQuery), v)
    decreases |literals|
  {
    if |literals| > 1 {
      var after := inQuery || '?' in literals[0];
      var rest := Fill(literals[1..], v);
      SweepFill(how, literals[1..], v, after);
      SweepConcat(how, literals[0], v + rest, inQuery);
      SweepConcat(how, v, rest, after);
      SweepKeeps(how, v, after);
      assert SweepAll(how, literals, inQuery)[1..] == SweepAll(how, literals[1..], after);
    }
  }

  /** The literals before the first fragment mark. */
  function CutAll(literals: seq<string>): (r: seq<string>)
    requires literals != []
    ensures r != [] && (|literals| > 1 && '#' !in literals[0] ==> |r| > 1)
  {
    if '#' in literals[0] || |literals| == 1 then [BeforeHash(literals[0])]
    else [literals[0]] + CutAll(literals[1..])
  }

  lemma HashAt(front: string, rest: string)
    requires '#' !in front
    ensures BeforeHash(front + ['#'] + rest) == front
  {
    IndexOfAfter(front, '#', rest);
  }

  lemma HashNone(s: string)
    requires '#' !in s
    ensures BeforeHash(s) == s
  {
  }

  lemma HashInFirst(a: string, b: string)
    requires '#' in a
    ensures BeforeHash(a + b) == BeforeHash(a)
  {
    var i := IndexOf(a, '#');
    assert a[..|a|] == a;
    HashAt(a[..i], a[i + 1..] + b);
    assert a + b == a[..i] + ['#'] + (a[i + 1..] + b);
  }

  lemma HashBehind(a: string, b: string)
    requires '#' !in a
    ensures BeforeHash(a + b) == a + BeforeHash(b)
  {
    var i := IndexOf(b, '#');
    if i < |b| {
      HashAt(a + b[..i], b[i + 1..]);
      assert a + b == a + b[..i] + ['#'] + b[i + 1..];
    } else {
      assert b[..i] == b;
      HashNone(a + b);
    }
  }

  /** What is sent of a filled template is a filled template. */
  lemma {:induction false} HashFill(literals: seq<string>, v: string)
    requires literals != [] && '#' !in v
    ensures BeforeHash(Fill(literals, v)) == Fill(CutAll(literals), v)
    decreases |literals|
  {
    if |literals| > 1 {
      var rest := Fill(literals[1..], v);
      if '#' in literals[0] {
        HashInFirst(literals[0], v + rest);
      } else {
        HashFill(literals[1..], v);
        HashBehind(literals[0], v + rest);
        HashBehind(v, rest);
        assert CutAll(literals)[1..] == CutAll(literals[1..]);
      }
    }
  }

  // ---------- leading slashes ----------

  /** The slashes that are trimmed. */
  function Lead(s: string): string {
    if s != "" && s[0] == '/' then "/" + Lead(s[1..]) else ""
  }

  lemma {:induction false} TrimAndHash(s: string)
    ensures BeforeHash(s) == Lead(s) + BeforeHash(TrimSlashes(s))
  {
    if s != "" && s[0] == '/' {
      TrimAndHash(s[1..]);
      HashBehind("/", s[1..]);
      assert s == "/" + s[1..];
    }
  }

  lemma {:induction false} TrimThenHash(s: string)
    ensures SentText(s) == TrimSlashes(BeforeHash(s))
  {
    if s != "" && s[0] == '/' {
      TrimThenHash(s[1..]);
      HashBehind("/", s[1..]);
      assert s == "/" + s[1..] && BeforeHash(s)[1..] == BeforeHash(s[1..]);
    } else if s != "" {
      assert BeforeHash(s) == "" || BeforeHash(s)[0] == s[0];
    }
  }

  lemma {:induction false} LeadIsSlashes(s: string)
    ensures (forall c <- Lead(s) :: c == '/') && CountChar(Lead(s), '/') == |Lead(s)|
  {
    if s != "" && s[0] == '/' {
      LeadIsSlashes(s[1..]);
    }
  }

  /** What is sent, with the trimmed slashes in front, rewritten. */
  lemma SweptText(how: Rewriting, endpoint: string)
    requires KeepsSegments(how)
    ensures Sweep(how, BeforeHash(endpoint), false) == Lead(endpoint) + Sweep(how, SentText(endpoint), false)
  {
    TrimAndHash(endpoint);
    LeadIsSlashes(endpoint);
    SweepConcat(how, Lead(endpoint), SentText(endpoint), false);
    SweepKeeps(how, Lead(endpoint), false);
  }

  lemma {:induction false} FillCountsAlike(literals: seq<string>, v: string, w: string)
    requires literals != [] && '/' !in v && '/' !in w
    ensures CountChar(Fill(literals, v), '/') == CountChar(Fill(literals, w), '/')
    decreases |literals|
  {
    if |literals| > 1 {
      FillCountsAlike(literals[1..], v, w);
      FillCount(literals, v);
      FillCount(literals, w);
    }
  }

  lemma FillCount(literals: seq<string>, v: string)
    requires |literals| > 1 && '/' !in v
    ensures CountChar(Fill(literals, v), '/') == CountChar(literals[0], '/') + CountChar(Fill(literals[1..], v), '/')
  {
    var rest := Fill(literals[1..], v);
    CountCharConcat(literals[0], v + rest, '/');
    CountCharConcat(v, rest, '/');
    CountCharAbsent(v, '/');
  }

  lemma SameLead(a: string, b: string, text: string)
    requires CountChar(Lead(a) + text, '/') == CountChar(Lead(b) + text, '/')
    ensures Lead(a) == Lead(b)
  {
    LeadIsSlashes(a);
    LeadIsSlashes(b);
    CountCharConcat(Lead(a), text, '/');
    CountCharConcat(Lead(b), text, '/');
    assert forall i | 0 <= i < |Lead(a)| :: Lead(a)[i] in Lead(a) && Lead(b)[i] in Lead(b);
  }

  // ---------- one address, one identity ----------

  predicate NoDots(how: Rewriting, endpoint: string) {
    DotFree(PathSegments(how, SentText(endpoint)))
  }

  /** The rewritten text of an address below a base. */
  function TextOf(address: Address, base: seq<string>): string
    requires |base| <= |address.path|
  {
    Join(address.path[|base|..], "/") + (match address.query case None => "" case Some(query) => "?" + query)
  }

  /** Without dot segments an address determines the rewritten text. */
  lemma AddressDeterminesText(how: Rewriting, base: seq<string>, endpoint: string)
    requires NoDots(how, endpoint)
    ensures |base| <= |AddressOf(how, base, endpoint).path|
    ensures Sweep(how, SentText(endpoint), false) == TextOf(AddressOf(how, base, endpoint), base)
  {
    var text := SentText(endpoint);
    ResolvePlain(PathSegments(how, text), base);
    assert (base + PathSegments(how, text))[|base|..] == PathSegments(how, text);
    JoinSplit(Rewritten(how, false, text[..IndexOf(text, '?')]), '/');
    SweepParts(how, text);
  }

  /** Two filled templates that go to one address, without dot segments, are filled with one value. */
  lemma AddressDeterminesValue(how: Rewriting, base: seq<string>, literals: seq<string>, v: string, w: string)
    requires KeepsSegments(how) && |literals| > 1 && '#' !in literals[0]
    requires (forall c <- v :: IsSegmentChar(c)) && forall c <- w :: IsSegmentChar(c)
    requires NoDots(how, Fill(literals, v)) && NoDots(how, Fill(literals, w))
    requires AddressOf(how, base, Fill(literals, v)) == AddressOf(how, base, Fill(literals, w))
    ensures v == w
  {
    var a, b := Fill(literals, v), Fill(literals, w);
    var swept := SweepAll(how, CutAll(literals), false);
    AddressDeterminesText(how, base, a);
    AddressDeterminesText(how, base, b);
    FilledText(how, literals, v);
    FilledText(how, literals, w);
    FillCountsAlike(swept, v, w);
    SameLead(a, b, Sweep(how, SentText(a), false));
    FillInjective(swept, v, w);
  }

  lemma FilledText(how: Rewriting, literals: seq<string>, v: string)
    requires KeepsSegments(how) && literals != [] && forall c <- v :: IsSegmentChar(c)
    ensures Fill(SweepAll(how, CutAll(literals), false), v)
      == Lead(Fill(literals, v)) + Sweep(how, SentText(Fill(literals, v)), false)
  {
    HashFill(literals, v);
    SweepFill(how, CutAll(literals), v, false);
    SweptText(how, Fill(literals, v));
  }

  /** A placeholder that only stands in the fragment has no say. */
  lemma FragmentIsNotSent(how: Rewriting, base: seq<string>, literals: seq<string>, v: string, w: string)
    requires literals != [] && '#' in literals[0] && '#' !in v && '#' !in w
    ensures AddressOf(how, base, Fill(literals, v)) == AddressOf(how, base, Fill(literals, w))
  {
    HashFill(literals, v);
    HashFill(literals, w);
    TrimThenHash(Fill(literals, v));
    TrimThenHash(Fill(literals, w));
  }

  // ---------- updates and deletes ----------

  /** What a mutation's template becomes. */
  lemma MutationIsFilled(operation: MutationOperation, table: TableConfig, rowid: Cell)
    requires table.rowidParameter.Some? && IsParameterName(table.rowidParameter.value)
    requires RowMutations.Addresses(operation, table.rowidParameter) && Addressed(operation.endpoint, table, rowid).Ok?
    ensures PathValue(rowid).Ok? && |Literals(operation.endpoint)| > 1
    ensures Addressed(operation.endpoint, table, rowid).value
      == Fill(Literals(operation.endpoint), Segment(PathValue(rowid).value))
  {
    ParameterHasNoSlash(table.rowidParameter.value);
    MutationEndpointShape(operation.endpoint, table.rowidParameter.value, PathValue(rowid).value);
    ScanSound(operation.endpoint);
  }

  lemma MutationReachesRow(how: Rewriting, base: seq<string>, operation: MutationOperation, table: TableConfig, a: Cell,
                           b: Cell)
    requires KeepsSegments(how) && '#' !in Literals(operation.endpoint)[0]
    requires table.rowidParameter.Some? && IsParameterName(table.rowidParameter.value)
    requires RowMutations.Addresses(operation, table.rowidParameter)
    requires Addressed(operation.endpoint, table, a).Ok? && Addressed(operation.endpoint, table, b).Ok?
    requires var left := Addressed(operation.endpoint, table, a).value;
      var right := Addressed(operation.endpoint, table, b).value;
      NoDots(how, left) && NoDots(how, right) && AddressOf(how, base, left) == AddressOf(how, base, right)
    ensures NameOneRow(a, b)
  {
    MutationIsFilled(operation, table, a);
    MutationIsFilled(operation, table, b);
    AddressDeterminesValue(how, base, Literals(operation.endpoint), Segment(PathValue(a).value),
      Segment(PathValue(b).value));
    SegmentInjective(PathValue(a).value, PathValue(b).value);
    SamePathValue(a, b);
  }

  /**
   Updates that are sent to one address are updates of one row, where no dot segment is in the way
   and the first placeholder is not in the fragment.
   */
  lemma UpdatesReachRows(how: Rewriting, base: seq<string>, table: TableConfig, a: Cell, b: Cell, left: Row, right: Row)
    requires KeepsSegments(how) && Validated(table)
    requires UpdateRequest(table, a, left).Ok? && UpdateRequest(table, b, right).Ok?
    requires '#' !in Literals(table.update.value.endpoint)[0]
    requires var x, y := UpdateRequest(table, a, left).value.endpoint, UpdateRequest(table, b, right).value.endpoint;
      NoDots(how, x) && NoDots(how, y) && AddressOf(how, base, x) == AddressOf(how, base, y)
    ensures NameOneRow(a, b)
  {
    MutationReachesRow(how, base, table.update.value, table, a, b);
  }

  /** So are deletes. */
  lemma DeletesReachRows(how: Rewriting, base: seq<string>, table: TableConfig, a: Cell, b: Cell)
    requires KeepsSegments(how) && Validated(table)
    requires DeleteRequest(table, a).Ok? && DeleteRequest(table, b).Ok?
    requires '#' !in Literals(table.delete.value.endpoint)[0]
    requires var x, y := DeleteRequest(table, a).value.endpoint, DeleteRequest(table, b).value.endpoint;
      NoDots(how, x) && NoDots(how, y) && AddressOf(how, base, x) == AddressOf(how, base, y)
    ensures NameOneRow(a, b)
  {
    MutationReachesRow(how, base, table.delete.value, table, a, b);
  }

  // ---------- which identities make dot segments ----------

  lemma LowersTo(s: string, lower: string)
    requires Lowercase(s) == lower
    ensures |s| == |lower|
    ensures forall i | 0 <= i < |lower| :: ToLower(s[i]) == lower[i] && (!IsLower(lower[i]) ==> s[i] == lower[i])
  {
    assert forall i | 0 <= i < |s| :: Lowercase(s)[i] == ToLower(s[i]);
  }

  /** A dot stays a dot, and nothing else lowers to one. */
  lemma DotStays(s: string)
    ensures '.' in Lowercase(s) ==> '.' in s
  {
    if '.' in Lowercase(s) {
      var i :| 0 <= i < |s| && Lowercase(s)[i] == '.';
      assert ToLower(s[i]) == '.' && s[i] in s;
    }
  }

  lemma DecodeDot(s: string)
    requires |s| >= 3 && s[0] == '%' && s[1] == '2' && ToLower(s[2]) == 'e'
    ensures Decode(s) == Prepend([0x2E], Decode(s[3..]))
  {
  }

  lemma DecodedDot(s: string)
    requires Lowercase(s) == "%2e"
    ensures Decode(s) == Some([0x2E])
  {
    LowersTo(s, "%2e");
    DecodeDot(s);
    assert s[3..] == "" && Decode("") == Some([]);
    var none: seq<Byte> := [];
    assert [0x2E] + none == [0x2E];
  }

  lemma DecodedDots(s: string)
    requires Lowercase(s) == "%2e%2e"
    ensures Decode(s) == Some([0x2E, 0x2E])
  {
    LowersTo(s, "%2e%2e");
    var tail := s[3..];
    assert Lowercase(tail) == "%2e" by {
      assert forall i | 0 <= i < 3 :: tail[i] == s[i + 3];
    }
    DecodeDot(s);
    DecodedDot(tail);
    var dot: seq<Byte> := [0x2E];
    assert dot + dot == [0x2E, 0x2E];
  }

  lemma EncodedDots(s: string)
    requires '.' !in s
    ensures IsDot(s) <==> Lowercase(s) == "%2e"
    ensures IsDoubleDot(s) <==> Lowercase(s) == "%2e%2e"
  {
    DotStays(s);
    assert '.' in "." && '.' in ".." && ".%2e"[0] == '.' && "%2e."[3] == '.';
  }

  lemma DotBytes()
    ensures Utf8(".") == [0x2E] && Utf8("..") == [0x2E, 0x2E]
  {
    assert Utf8Char('.') == [0x2E];
    assert Utf8(".") == Utf8Char('.') + Utf8("") && Utf8("..") == Utf8Char('.') + Utf8(".");
  }

  /** A placeholder that is a segment of its own becomes a dot segment for two identities alone. */
  lemma DotIdentities(identity: string)
    ensures IsDot(Segment(identity)) <==> identity == "."
    ensures IsDoubleDot(Segment(identity)) <==> identity == ".."
  {
    DotSegments(identity);
    SegmentHasNoDot(identity);
    EncodedDots(Segment(identity));
    assert Lowercase("%2E") == "%2e" && Lowercase("%2E%2E") == "%2e%2e";
    if IsDot(Segment(identity)) {
      DecodedDot(Segment(identity));
      DecodesToDots(identity);
    } else if IsDoubleDot(Segment(identity)) {
      DecodedDots(Segment(identity));
      DecodesToDots(identity);
    }
  }

  lemma SegmentHasNoDot(identity: string)
    ensures '.' !in Segment(identity)
  {
  }

  lemma DecodesToDots(identity: string)
    ensures Decode(Segment(identity)) == Some([0x2E]) ==> identity == "."
    ensures Decode(Segment(identity)) == Some([0x2E, 0x2E]) ==> identity == ".."
  {
    SegmentInjective(identity, identity);
    DotBytes();
    if Utf8(identity) == [0x2E] {
      Utf8Injective(identity, ".");
    } else if Utf8(identity) == [0x2E, 0x2E] {
      Utf8Injective(identity, "..");
    }
  }

  // ---------- a placeholder at the end of the path ----------

  lemma IsFound(s: string, c: char)
    requires c in s
    ensures IndexOf(s, c) < |s|
  {
    assert s[..|s|] == s;
  }

  lemma CutAt(s: string, i: nat)
    requires i < |s|
    ensures s == s[..i] + ([s[i]] + s[i + 1..])
  {
  }

  lemma {:induction false} SplitAppend(a: string, c: char, segment: string)
    requires c !in segment
    ensures Split(a + ([c] + segment), c) == Split(a, c) + [segment]
    decreases |a|
  {
    if c !in a {
      SplitStep(a, c, segment);
      SplitNone(segment, c);
      SplitNone(a, c);
    } else {
      IsFound(a, c);
      var i := IndexOf(a, c);
      CutAt(a, i);
      var rest := a[i + 1..];
      SplitAppend(rest, c, segment);
      MoveIn(a[..i], c, rest, [c] + segment);
      SplitBoth(a, a + ([c] + segment), a[..i], c, rest, rest + ([c] + segment), segment);
    }
  }

  lemma MoveIn(first: string, c: char, rest: string, tail: string)
    ensures first + ([c] + rest) + tail == first + ([c] + (rest + tail))
  {
  }

  lemma SplitBoth(short: string, long: string, first: string, c: char, rest: string, longer: string, segment: string)
    requires c !in first && short == first + ([c] + rest) && long == first + ([c] + longer)
    requires Split(longer, c) == Split(rest, c) + [segment]
    ensures Split(long, c) == Split(short, c) + [segment]
  {
    SplitStep(first, c, rest);
    SplitStep(first, c, longer);
    Regroup(first, Split(rest, c), segment);
  }

  lemma Regroup(first: string, parts: seq<string>, segment: string)
    ensures [first] + (parts + [segment]) == [first] + parts + [segment]
  {
  }

  /** The literal of an item path, as the importer makes them: without a query, and up to a slash. */
  predicate IsItemPrefix(prefix: string) {
    && TrimSlashes(prefix) != "" && prefix[|prefix| - 1] == '/'
    && '?' !in prefix && '#' !in prefix
  }

  /** The path before the last slash. */
  function Stem(prefix: string): string
    requires TrimSlashes(prefix) != ""
  {
    var trimmed := TrimSlashes(prefix);
    trimmed[..|trimmed| - 1]
  }

  lemma {:induction false} TrimConcat(prefix: string, v: string)
    requires TrimSlashes(prefix) != ""
    ensures TrimSlashes(prefix + v) == TrimSlashes(prefix) + v
    ensures var trimmed := TrimSlashes(prefix);
      |trimmed| <= |prefix| && trimmed == prefix[|prefix| - |trimmed|..]
  {
    if prefix[0] == '/' {
      TrimConcat(prefix[1..], v);
      assert (prefix + v)[1..] == prefix[1..] + v;
    }
  }

  lemma {:induction false} RewrittenConcat(how: Rewriting, inQuery: bool, a: string, b: string)
    ensures Rewritten(how, inQuery, a + b) == Rewritten(how, inQuery, a) + Rewritten(how, inQuery, b)
  {
    if a == "" {
      assert a + b == b;
    } else {
      RewrittenConcat(how, inQuery, a[1..], b);
      assert (a + b)[1..] == a[1..] + b;
    }
  }

  lemma {:induction false} RewrittenKeeps(how: Rewriting, inQuery: bool, v: string)
    requires KeepsSegments(how) && IsPathText(v)
    ensures Rewritten(how, inQuery, v) == v
  {
    if v != "" {
      PathTextTail(v);
      RewrittenKeeps(how, inQuery, v[1..]);
    }
  }

  lemma ItemText(prefix: string, v: string)
    requires IsItemPrefix(prefix) && forall c <- v :: IsSegmentChar(c)
    ensures var text := SentText(prefix + v);
      text == Stem(prefix) + (['/'] + v) && IndexOf(text, '?') == |text|
  {
    TrimConcat(prefix, v);
    var trimmed := TrimSlashes(prefix);
    assert trimmed == Stem(prefix) + ['/'];
    assert forall c <- trimmed :: c in prefix;
    HashNone(trimmed + v);
    assert trimmed + v == Stem(prefix) + (['/'] + v);
    assert '?' !in trimmed + v;
  }

  /** Behind such a prefix the identity is a segment of its own. */
  lemma ItemSegments(how: Rewriting, prefix: string, v: string)
    requires KeepsSegments(how) && IsItemPrefix(prefix) && forall c <- v :: IsSegmentChar(c)
    ensures var text := SentText(prefix + v);
      IndexOf(text, '?') == |text| && PathSegments(how, text) == Split(Rewritten(how, false, Stem(prefix)), '/') + [v]
  {
    var text := SentText(prefix + v);
    ItemText(prefix, v);
    assert text[..|text|] == text;
    RewrittenConcat(how, false, Stem(prefix), ['/'] + v);
    RewrittenKeeps(how, false, ['/'] + v);
    SplitAppend(Rewritten(how, false, Stem(prefix)), '/', v);
  }

  lemma {:induction false} DotAtEnd(front: seq<string>, done: seq<string>, dot: string)
    requires IsDot(dot)
    ensures Resolve(front + [dot], done) == Resolve(front + [""], done)
    decreases |front|
  {
    if front == [] {
      assert [] + [dot] == [dot] && [] + [""] == [""];
      assert Lowercase("") == "";
    } else {
      assert (front + [dot])[1..] == front[1..] + [dot] && (front + [""])[1..] == front[1..] + [""];
      var next := if IsDoubleDot(front[0]) then Up(done) else if IsDot(front[0]) then done else done + [front[0]];
      DotAtEnd(front[1..], next, dot);
      assert Up(done) + [] == Up(done) && done + [] == done;
    }
  }

  /** The identity `.` goes to the address of the empty identity: without the condition on dots, two rows meet. */
  lemma DotMeetsNothing(how: Rewriting, base: seq<string>, prefix: string)
    requires KeepsSegments(how) && IsItemPrefix(prefix)
    ensures AddressOf(how, base, prefix + Segment(".")) == AddressOf(how, base, prefix + Segment(""))
  {
    DotIdentities(".");
    ItemSegments(how, prefix, Segment("."));
    ItemSegments(how, prefix, Segment(""));
    assert Segment("") == "";
    DotAtEnd(Split(Rewritten(how, false, Stem(prefix)), '/'), base, Segment("."));
  }

  /** Behind a prefix without dot segments, the condition fails for the identities `.` and `..` alone. */
  lemma ItemIsDotFree(how: Rewriting, prefix: string, identity: string)
    requires KeepsSegments(how) && IsItemPrefix(prefix)
    requires DotFree(Split(Rewritten(how, false, Stem(prefix)), '/'))
    ensures NoDots(how, prefix + Segment(identity)) <==> identity !in [".", ".."]
  {
    DotIdentities(identity);
    ItemSegments(how, prefix, Segment(identity));
    var front := Split(Rewritten(how, false, Stem(prefix)), '/');
    assert (front + [Segment(identity)])[|front|] == Segment(identity);
    assert forall segment <- front + [Segment(identity)] :: segment in front || segment == Segment(identity);
  }
}
