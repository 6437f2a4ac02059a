/**
 `Link` headers (src/response.rs): splitting at top-level commas, and finding the target of
 the first link whose relation types include `next` (section 3 of RFC 8288). The splitter is
 proved to lose nothing of any text, and the reader to find the link in every header that is
 printed by the grammar, its parameter values quoted or not.
 */
module LinkHeaders {
  import opened Text

  // ---------- splitting ----------

  /** What the scanner remembers between characters. */
  datatype Mode = Mode(inAngle: bool, inQuotes: bool, escaped: bool)

  const NEUTRAL := Mode(false, false, false)
  const ANGLE := Mode(true, false, false)
  const QUOTED := Mode(false, true, false)

  predicate IsBreak(mode: Mode, c: char) {
    c == ',' && !mode.escaped && !mode.inAngle && !mode.inQuotes
  }

  function Step(mode: Mode, c: char): Mode {
    if mode.escaped then mode.(escaped := false)
    else if c == '\\' && mode.inQuotes then mode.(escaped := true)
    else if c == '<' && !mode.inQuotes then mode.(inAngle := true)
    else if c == '>' && !mode.inQuotes then mode.(inAngle := false)
    else if c == '"' && !mode.inAngle then mode.(inQuotes := !mode.inQuotes)
    else mode
  }

  /** Text put in front of the first of several entries. */
  function Glue(head: string, entries: seq<string>): (r: seq<string>)
    requires entries != []
    ensures |r| == |entries|
  {
    [head + entries[0]] + entries[1..]
  }

  function Entries(raw: string, mode: Mode): (entries: seq<string>)
    ensures entries != []
  {
    if raw == "" then [""]
    else if IsBreak(mode, raw[0]) then [""] + Entries(raw[1..], Step(mode, raw[0]))
    else Glue([raw[0]], Entries(raw[1..], Step(mode, raw[0])))
  }

  lemma GlueTwice(a: string, b: string, entries: seq<string>)
    requires entries != []
    ensures Glue(a, Glue(b, entries)) == Glue(a + b, entries)
    ensures Glue("", entries) == entries
  {
    assert a + (b + entries[0]) == a + b + entries[0];
    assert "" + entries[0] == entries[0];
    assert [entries[0]] + entries[1..] == entries;
  }

  /** One character of the scan, with what was scanned before it. */
  lemma EntriesStep(raw: string, index: nat, mode: Mode, text: string)
    requires index < |raw|
    ensures var rest := Entries(raw[index + 1..], Step(mode, raw[index]));
      Glue(text, Entries(raw[index..], mode)) ==
        if IsBreak(mode, raw[index]) then [text] + Glue("", rest) else Glue(text + [raw[index]], rest)
  {
    var rest := Entries(raw[index + 1..], Step(mode, raw[index]));
    assert raw[index..][1..] == raw[index + 1..];
    if IsBreak(mode, raw[index]) {
      GlueTwice("", "", rest);
      assert ([""] + rest)[1..] == rest && text + "" == text;
    } else {
      GlueTwice(text, [raw[index]], rest);
    }
  }

  /** What is scanned already: the finished entries, then the text of the open one. */
  predicate Scanned(raw: string, entries: seq<string>, start: nat, index: nat, mode: Mode) {
    && start <= index <= |raw|
    && Entries(raw, NEUTRAL) == entries + Glue(raw[start..index], Entries(raw[index..], mode))
  }

  lemma ScannedBreak(raw: string, entries: seq<string>, start: nat, index: nat, mode: Mode)
    requires index < |raw| && Scanned(raw, entries, start, index, mode) && IsBreak(mode, raw[index])
    ensures Scanned(raw, entries + [raw[start..index]], index + 1, index + 1, Step(mode, raw[index]))
  {
    EntriesStep(raw, index, mode, raw[start..index]);
    AppendFirst(entries, raw[start..index], Glue("", Entries(raw[index + 1..], Step(mode, raw[index]))));
    assert raw[index + 1..index + 1] == "";
  }

  lemma AppendFirst(entries: seq<string>, entry: string, rest: seq<string>)
    ensures entries + ([entry] + rest) == entries + [entry] + rest
  {
  }

  lemma ScannedOn(raw: string, entries: seq<string>, start: nat, index: nat, mode: Mode)
    requires index < |raw| && Scanned(raw, entries, start, index, mode) && !IsBreak(mode, raw[index])
    ensures Scanned(raw, entries, start, index + 1, Step(mode, raw[index]))
  {
    EntriesStep(raw, index, mode, raw[start..index]);
    assert raw[start..index] + [raw[index]] == raw[start..index + 1];
  }

  lemma ScannedEnds(raw: string, entries: seq<string>, start: nat, mode: Mode)
    requires Scanned(raw, entries, start, |raw|, mode)
    ensures Entries(raw, NEUTRAL) == entries + [raw[start..]]
  {
    assert raw[|raw|..] == "" && raw[start..|raw|] + "" == raw[start..];
  }

  /** `split_link_entries`. */
  method SplitLinkEntries(raw: string) returns (entries: seq<string>)
    ensures entries == Entries(raw, NEUTRAL)
  {
    entries := [];
    var mode := NEUTRAL;
    var start := 0;
    GlueTwice("", "", Entries(raw, NEUTRAL));
    assert raw[0..] == raw && raw[0..0] == "";
    for index := 0 to |raw|
      invariant Scanned(raw, entries, start, index, mode)
    {
      if IsBreak(mode, raw[index]) {
        ScannedBreak(raw, entries, start, index, mode);
        entries := entries + [raw[start..index]];
        start := index + 1;
      } else {
        ScannedOn(raw, entries, start, index, mode);
      }
      mode := Step(mode, raw[index]);
    }
    ScannedEnds(raw, entries, start, mode);
    entries := entries + [raw[start..]];
  }

  lemma JoinGlue(head: string, entries: seq<string>)
    requires entries != []
    ensures Join(Glue(head, entries), ",") == head + Join(entries, ",")
  {
  }

  /** Splitting loses nothing: the entries joined by commas are the header. */
  lemma {:induction false} EntriesConserveInput(raw: string, mode: Mode)
    ensures Join(Entries(raw, mode), ",") == raw
  {
    if raw != "" {
      var rest := Entries(raw[1..], Step(mode, raw[0]));
      EntriesConserveInput(raw[1..], Step(mode, raw[0]));
      assert raw == [raw[0]] + raw[1..];
      if IsBreak(mode, raw[0]) {
        assert ([""] + rest)[1..] == rest;
        assert "" + "," + raw[1..] == raw;
      } else {
        JoinGlue([raw[0]], rest);
      }
    }
  }

  /** The mode after a text without a top-level comma. */
  function Run(mode: Mode, s: string): Option<Mode>
    decreases |s|
  {
    if s == "" then Some(mode)
    else if IsBreak(mode, s[0]) then None
    else Run(Step(mode, s[0]), s[1..])
  }

  lemma {:induction false} RunsThrough(mode: Mode, s: string, rest: string)
    requires Run(mode, s).Some?
    ensures Entries(s + rest, mode) == Glue(s, Entries(rest, Run(mode, s).value))
    decreases |s|
  {
    if s == "" {
      assert s + rest == rest;
      GlueTwice("", "", Entries(rest, mode));
    } else {
      RunsThrough(Step(mode, s[0]), s[1..], rest);
      assert (s + rest)[1..] == s[1..] + rest && s == [s[0]] + s[1..];
      GlueTwice([s[0]], s[1..], Entries(rest, Run(mode, s).value));
    }
  }

  lemma {:induction false} RunConcat(mode: Mode, a: string, b: string)
    requires Run(mode, a).Some?
    ensures Run(mode, a + b) == Run(Run(mode, a).value, b)
    decreases |a|
  {
    if a == "" {
      assert a + b == b;
    } else {
      RunConcat(Step(mode, a[0]), a[1..], b);
      assert (a + b)[1..] == a[1..] + b;
    }
  }

  /** Texts that leave the mode alone. */
  lemma {:induction false} RunSame(mode: Mode, s: string)
    requires mode in {NEUTRAL, ANGLE, QUOTED}
    requires mode == NEUTRAL ==> forall c <- s :: c !in "<\","
    requires mode == ANGLE ==> '>' !in s
    requires mode == QUOTED ==> '"' !in s && '\\' !in s
    ensures Run(mode, s) == Some(mode)
  {
    if s != "" {
      assert s[0] in s;
      RunSame(mode, s[1..]);
    }
  }

  // ---------- reading one link ----------

  function TrimLeft(s: string): string {
    if s != "" && IsWhitespace(s[0]) then TrimLeft(s[1..]) else s
  }

  function TrimRight(s: string): string {
    if s != "" && IsWhitespace(s[|s| - 1]) then TrimRight(s[..|s| - 1]) else s
  }

  function Trim(s: string): string {
    TrimRight(TrimLeft(s))
  }

  function TrimQuotes(s: string): string {
    if s != "" && s[0] == '"' then TrimQuotes(s[1..])
    else if s != "" && s[|s| - 1] == '"' then TrimQuotes(s[..|s| - 1])
    else s
  }

  predicate IsAsciiSpace(c: char) {
    c as int in {0x09, 0x0A, 0x0C, 0x0D, 0x20}
  }

  /** `split_ascii_whitespace`, continuing a word. */
  function SplitWords(s: string, word: string): seq<string> {
    if s == "" then (if word == "" then [] else [word])
    else if IsAsciiSpace(s[0]) then (if word == "" then [] else [word]) + SplitWords(s[1..], "")
    else SplitWords(s[1..], word + [s[0]])
  }

  predicate Names(word: string, lower: string) {
    Lowercase(word) == lower
  }

  predicate IncludesNext(words: seq<string>) {
    exists word <- words :: Names(word, "next")
  }

  function ParameterIsNext(parameter: string): bool {
    var text := Trim(parameter);
    var equals := IndexOf(text, '=');
    && equals < |text|
    && Names(Trim(text[..equals]), "rel")
    && IncludesNext(SplitWords(TrimQuotes(Trim(text[equals + 1..])), ""))
  }

  predicate SomeNextText(parameters: seq<string>) {
    exists text <- parameters :: ParameterIsNext(text)
  }

  function TrimmedNext(entry: string): Option<string> {
    if entry == "" || entry[0] != '<' then None
    else
      var close := IndexOf(entry[1..], '>');
      if close == |entry| - 1 then None
      else if SomeNextText(Split(entry[close + 2..], ';')) then Some(entry[1..close + 1])
      else None
  }

  function EntryNext(raw: string): Option<string> {
    TrimmedNext(Trim(raw))
  }

  function FirstNext(entries: seq<string>): Option<string> {
    if entries == [] then None
    else if EntryNext(entries[0]).Some? then EntryNext(entries[0])
    else FirstNext(entries[1..])
  }

  /** `parse_link_next`. */
  function ParseLinkNext(raw: string): Option<string> {
    FirstNext(Entries(raw, NEUTRAL))
  }

  // ---------- printed links ----------

  /** A parameter, its value printed as a quoted string or as a token. */
  datatype Parameter = Rel(types: seq<string>, quoted: bool) | Other(name: string, value: string, quoted: bool)

  /** A link-value of section 3 of RFC 8288. */
  datatype Link = Link(url: string, parameters: seq<Parameter>)

  predicate IsTokenChar(c: char) {
    !IsWhitespace(c) && !IsAsciiSpace(c) && c !in "<>\",;=\\"
  }

  predicate IsToken(s: string) {
    s != "" && forall c <- s :: IsTokenChar(c)
  }

  /** A value that needs no escaping inside quotes, and has no `;`. */
  predicate IsPlainValue(s: string) {
    '"' !in s && '\\' !in s && ';' !in s
  }

  predicate Printable(link: Link) {
    '>' !in link.url && forall p <- link.parameters :: PrintableParameter(p)
  }

  predicate PrintableParameter(p: Parameter) {
    && (match p
        case Rel(types, _) => types != [] && forall t <- types :: IsToken(t)
        case Other(name, value, _) => IsToken(name) && !Names(name, "rel") && IsPlainValue(value))
    && (p.quoted || IsToken(PrintValue(p)))
  }

  function PrintName(p: Parameter): string {
    if p.Rel? then "rel" else p.name
  }

  function PrintValue(p: Parameter): string {
    if p.Rel? then Join(p.types, " ") else p.value
  }

  function PrintedText(p: Parameter): string {
    if p.quoted then "\"" + (PrintValue(p) + "\"") else PrintValue(p)
  }

  function PrintParameter(p: Parameter): string {
    PrintName(p) + ("=" + PrintedText(p))
  }

  function Spaced(ps: seq<Parameter>): (texts: seq<string>)
    ensures |texts| == |ps| && forall i :: 0 <= i < |ps| ==> texts[i] == " " + PrintParameter(ps[i])
  {
    seq(|ps|, i requires 0 <= i < |ps| => " " + PrintParameter(ps[i]))
  }

  function Chain(texts: seq<string>): string {
    if texts == [] then "" else ";" + (texts[0] + Chain(texts[1..]))
  }

  function PrintParameters(ps: seq<Parameter>): string {
    Chain(Spaced(ps))
  }

  function PrintLink(link: Link): string {
    "<" + (link.url + (">" + PrintParameters(link.parameters)))
  }

  function PrintLinks(links: seq<Link>): string {
    if links == [] then ""
    else if |links| == 1 then PrintLink(links[0])
    else PrintLink(links[0]) + (", " + PrintLinks(links[1..]))
  }

  predicate IsNextParameter(p: Parameter) {
    p.Rel? && IncludesNext(p.types)
  }

  predicate SomeNext(ps: seq<Parameter>) {
    exists p <- ps :: IsNextParameter(p)
  }

  predicate IsNext(link: Link) {
    SomeNext(link.parameters)
  }

  function FirstNextLink(links: seq<Link>): Option<string> {
    if links == [] then None
    else if IsNext(links[0]) then Some(links[0].url)
    else FirstNextLink(links[1..])
  }

  // ---------- words and values ----------

  lemma {:induction false} SplitWordsToken(token: string, rest: string, word: string)
    requires forall c <- token :: !IsAsciiSpace(c)
    ensures SplitWords(token + rest, word) == SplitWords(rest, word + token)
  {
    if token == "" {
      assert token + rest == rest && word + token == word;
    } else {
      assert token[0] in token;
      SplitWordsToken(token[1..], rest, word + [token[0]]);
      assert (token + rest)[1..] == token[1..] + rest;
      assert word + [token[0]] + token[1..] == word + token;
    }
  }

  /** A word followed by a space, and the last word. */
  lemma SplitWordsFirst(token: string, rest: string)
    requires IsToken(token)
    ensures SplitWords(token, "") == [token]
    ensures SplitWords(token + " " + rest, "") == [token] + SplitWords(rest, "")
  {
    TokenHasNoSpace(token);
    SplitWordsToken(token, "", "");
    SplitWordsToken(token, " " + rest, "");
    assert token + "" == token && "" + token == token;
    assert token + " " + rest == token + (" " + rest) && (" " + rest)[1..] == rest;
  }

  lemma TokenHasNoSpace(token: string)
    requires IsToken(token)
    ensures forall c <- token :: !IsAsciiSpace(c)
  {
  }

  lemma {:induction false} SplitWordsOfJoin(types: seq<string>)
    requires forall t <- types :: IsToken(t)
    ensures SplitWords(Join(types, " "), "") == types
    decreases |types|
  {
    if types == [] {
    } else if |types| == 1 {
      SplitWordsFirst(types[0], "");
    } else {
      AllOfSingle(types);
      SplitWordsOfJoin(types[1..]);
      SplitWordsFirst(types[0], Join(types[1..], " "));
      assert types == [types[0]] + types[1..];
    }
  }

  lemma AllOfSingle(types: seq<string>)
    requires types != [] && forall t <- types :: IsToken(t)
    ensures IsToken(types[0]) && forall t <- types[1..] :: IsToken(t)
  {
    assert forall t <- types[1..] :: t in types;
  }

  lemma {:induction false} JoinedTokensArePlain(types: seq<string>)
    requires forall t <- types :: IsToken(t)
    ensures IsPlainValue(Join(types, " "))
  {
    if |types| == 1 {
      TokenIsPlain(types[0]);
    } else if |types| > 1 {
      TokenIsPlain(types[0]);
      JoinedTokensArePlain(types[1..]);
    }
  }

  lemma TokenIsPlain(s: string)
    requires IsToken(s)
    ensures IsPlainValue(s)
  {
  }

  lemma QuotesTrimmed(value: string)
    requires '"' !in value
    ensures TrimQuotes("\"" + (value + "\"")) == value
  {
    var quoted := "\"" + (value + "\"");
    assert quoted[1..] == value + "\"";
    assert (value + "\"")[..|value|] == value;
    if value != "" {
      assert value[0] in value && value[|value| - 1] in value;
      assert TrimQuotes(value) == value;
      assert (value + "\"")[0] == value[0];
      assert TrimQuotes(value + "\"") == value;
    } else {
      assert value + "\"" == "\"" && "\""[1..] == "";
      assert TrimQuotes("\"") == "";
    }
  }

  lemma TokenTrimmed(token: string)
    requires IsToken(token)
    ensures TrimQuotes(token) == token
  {
    assert token[0] in token && token[|token| - 1] in token;
  }

  /** Either form of a value is solid text that its reading strips to the value. */
  lemma PrintedTextReadsBack(p: Parameter)
    requires PrintableParameter(p)
    ensures var text := PrintedText(p);
      && text != "" && !IsWhitespace(text[0]) && !IsWhitespace(text[|text| - 1])
      && TrimQuotes(text) == PrintValue(p) && ';' !in text
  {
    PrintedParameterShape(p);
    var text := PrintedText(p);
    if p.quoted {
      QuotesTrimmed(PrintValue(p));
      assert text[0] == '"' && text[|text| - 1] == '"';
    } else {
      TokenTrimmed(PrintValue(p));
      assert text[0] in text && text[|text| - 1] in text;
    }
  }

  lemma TrimSolid(s: string)
    requires s != "" && !IsWhitespace(s[0]) && !IsWhitespace(s[|s| - 1])
    ensures Trim(s) == s && Trim(" " + s) == s
  {
  }

  // ---------- entries as they come ----------

  /** An entry gives a URL: in angle brackets, with a parameter behind it that says it is the next page. */
  ghost predicate Gives(entry: string, url: string) {
    exists rest :: entry == "<" + url + ">" + rest && SomeNextText(Split(rest, ';'))
  }

  lemma PartsAfter(url: string, rest: string)
    requires '>' !in url
    ensures var entry := "<" + url + ">" + rest;
      && IndexOf(entry[1..], '>') == |url| && entry[1..|url| + 1] == url && entry[|url| + 2..] == rest
  {
    IndexOfAfter(url, '>', rest);
    assert ("<" + url + ">" + rest)[1..] == url + ['>'] + rest;
  }

  lemma EntryIsExact(entry: string, url: string)
    ensures TrimmedNext(entry) == Some(url) <==> '>' !in url && Gives(entry, url)
  {
    if TrimmedNext(entry) == Some(url) {
      PartsOf(entry, url, IndexOf(entry[1..], '>'));
    }
    if '>' !in url && Gives(entry, url) {
      var rest :| entry == "<" + url + ">" + rest && SomeNextText(Split(rest, ';'));
      PartsAreRead(entry, url, rest);
    }
  }

  lemma PartsOf(entry: string, url: string, close: nat)
    requires entry != "" && entry[0] == '<' && close == IndexOf(entry[1..], '>') < |entry| - 1
    requires entry[1..close + 1] == url
    ensures '>' !in url && entry == "<" + url + ">" + entry[close + 2..]
  {
    assert entry[1..][..close] == url;
  }

  lemma PartsAreRead(entry: string, url: string, rest: string)
    requires '>' !in url && entry == "<" + url + ">" + rest && SomeNextText(Split(rest, ';'))
    ensures TrimmedNext(entry) == Some(url)
  {
    PartsAfter(url, rest);
  }

  // ---------- parameters as they come ----------

  predicate IsSolid(s: string) {
    s != "" && !IsWhitespace(s[0]) && !IsWhitespace(s[|s| - 1])
  }

  lemma {:induction false} TrimmedLeft(blank: string, s: string)
    requires IsBlank(blank) && IsSolid(s)
    ensures TrimLeft(blank + s) == s
  {
    if blank == "" {
      assert blank + s == s;
    } else {
      TrimmedLeft(blank[1..], s);
      assert (blank + s)[1..] == blank[1..] + s;
    }
  }

  lemma {:induction false} TrimmedRight(s: string, blank: string)
    requires IsBlank(blank) && IsSolid(s)
    ensures TrimRight(s + blank) == s
  {
    if blank == "" {
      assert s + blank == s;
    } else {
      var front := blank[..|blank| - 1];
      TrimmedRight(s, front);
      assert (s + blank)[..|s + blank| - 1] == s + front;
    }
  }

  lemma TrimmedToSolid(before: string, s: string, after: string)
    requires IsBlank(before) && IsSolid(s) && IsBlank(after)
    ensures Trim(before + (s + after)) == s
  {
    if after == "" {
      assert s + after == s;
      TrimmedLeft(before, s);
      TrimmedRight(s, "");
    } else {
      TrimmedLeftOf(before, s, after);
      TrimmedRight(s, after);
    }
  }

  lemma {:induction false} TrimmedLeftOf(before: string, s: string, after: string)
    requires IsBlank(before) && IsSolid(s)
    ensures TrimLeft(before + (s + after)) == s + after
  {
    if before == "" {
      assert before + (s + after) == s + after;
    } else {
      TrimmedLeftOf(before[1..], s, after);
      assert (before + (s + after))[1..] == before[1..] + (s + after);
    }
  }

  /** A parameter is a name and a value around the first `=`, with blanks wherever they may be. */
  lemma ParameterOfParts(a: string, name: string, b: string, c: string, value: string, d: string)
    requires IsBlank(a) && IsBlank(b) && IsBlank(c) && IsBlank(d) && IsSolid(name) && IsSolid(value) && '=' !in name
    ensures ParameterIsNext(a + ((name + b + "=" + c + value) + d)) <==>
      Names(name, "rel") && IncludesNext(SplitWords(TrimQuotes(value), ""))
  {
    var text := name + b + "=" + c + value;
    assert text[0] == name[0] && text[|text| - 1] == value[|value| - 1];
    TrimmedToSolid(a, text, d);
    assert '=' !in name + b;
    assert text == (name + b) + ['='] + (c + value);
    IndexOfAfter(name + b, '=', c + value);
    assert text[..|name + b|] == "" + (name + b) && text[|name + b| + 1..] == c + (value + "");
    TrimmedToSolid("", name, b);
    TrimmedToSolid(c, value, "");
  }

  // ---------- words ----------

  predicate IsGap(s: string) {
    forall c <- s :: c == ' ' || c == '\t' || c == '\n' || c == '\r' || c == '\U{000C}'
  }

  /** Words with gaps before, between and behind them. */
  function Spread(words: seq<string>, gaps: seq<string>): string
    requires |gaps| == |words| + 1
  {
    if words == [] then gaps[0] else gaps[0] + (words[0] + Spread(words[1..], gaps[1..]))
  }

  ghost predicate AreSpread(words: seq<string>, gaps: seq<string>) {
    && |gaps| == |words| + 1
    && (forall i | 0 <= i < |gaps| :: IsGap(gaps[i]) && (0 < i < |words| ==> gaps[i] != ""))
    && (forall i | 0 <= i < |words| :: IsOneWord(words[i]))
  }

  /** Any text without a blank of ASCII, the vertical tab not being one, and without a quote. */
  predicate IsOneWord(s: string) {
    s != "" && forall c <- s :: !IsGap([c]) && c != '"'
  }

  lemma WordHasNoSpace(word: string)
    requires IsOneWord(word)
    ensures forall c <- word :: !IsAsciiSpace(c)
  {
    forall c | c in word
      ensures !IsAsciiSpace(c)
    {
      assert [c][0] == c && !IsGap([c]);
    }
  }

  lemma {:induction false} GapSplits(gap: string, rest: string)
    requires IsGap(gap)
    ensures SplitWords(gap + rest, "") == SplitWords(rest, "")
  {
    if gap == "" {
      assert gap + rest == rest;
    } else {
      assert forall c <- gap[1..] :: c in gap;
      GapSplits(gap[1..], rest);
      assert gap[0] in gap && (gap + rest)[1..] == gap[1..] + rest;
    }
  }

  lemma WordEnds(word: string, gap: string, rest: string)
    requires IsOneWord(word) && IsGap(gap) && (gap != "" || rest == "")
    ensures SplitWords(word + (gap + rest), "") == [word] + SplitWords(rest, "")
  {
    WordHasNoSpace(word);
    SplitWordsToken(word, gap + rest, "");
    assert "" + word == word;
    if gap == "" {
      assert gap + rest == "";
    } else {
      assert forall c <- gap[1..] :: c in gap;
      GapSplits(gap[1..], rest);
      assert gap[0] in gap && (gap + rest)[1..] == gap[1..] + rest;
    }
  }

  /** Words are read back whatever blanks are between them. */
  lemma {:induction false} SpreadWords(words: seq<string>, gaps: seq<string>)
    requires AreSpread(words, gaps)
    ensures SplitWords(Spread(words, gaps), "") == words
    decreases |words|
  {
    if words == [] {
      GapSplits(gaps[0], "");
      assert gaps[0] + "" == gaps[0];
    } else {
      GapSplits(gaps[0], words[0] + Spread(words[1..], gaps[1..]));
      SpreadWords(words[1..], gaps[1..]);
      SpreadTail(words[1..], gaps[1..]);
      var rest := Spread(words[1..], [""] + gaps[2..]);
      GapSplits(gaps[1], rest);
      WordEnds(words[0], gaps[1], rest);
      assert words == [words[0]] + words[1..];
    }
  }

  lemma SpreadTail(words: seq<string>, gaps: seq<string>)
    requires |gaps| == |words| + 1
    ensures Spread(words, gaps) == gaps[0] + Spread(words, [""] + gaps[1..])
    ensures words == [] ==> Spread(words, [""] + gaps[1..]) == ""
  {
    var bare := [""] + gaps[1..];
    assert bare[1..] == gaps[1..];
  }

  /**
   A parameter in any shape a header may give it, blanks anywhere, the value quoted or not, says
   that a link is the next page exactly if its name is `rel` and one of its words is `next`, in
   any case of letters.
   */
  lemma RelationReadsBack(a: string, name: string, b: string, c: string, words: seq<string>, gaps: seq<string>,
                          quoted: bool, d: string)
    requires IsBlank(a) && IsBlank(b) && IsBlank(c) && IsBlank(d) && IsToken(name) && AreSpread(words, gaps)
    requires !quoted ==> words != [] && gaps[0] == "" && gaps[|words|] == ""
    requires !quoted ==> forall word <- words :: IsToken(word)
    ensures var spread := Spread(words, gaps);
      var value := if quoted then "\"" + (spread + "\"") else spread;
      ParameterIsNext(a + ((name + b + "=" + c + value) + d)) <==>
        Lowercase(name) == "rel" && exists word <- words :: Lowercase(word) == "next"
  {
    var spread := Spread(words, gaps);
    var value := if quoted then "\"" + (spread + "\"") else spread;
    SpreadIsPlain(words, gaps);
    SpreadWords(words, gaps);
    TokenHasNoEquals(name);
    assert name[0] in name && name[|name| - 1] in name;
    if quoted {
      QuotesTrimmed(spread);
    } else {
      SpreadIsSolid(words, gaps);
    }
    ParameterOfParts(a, name, b, c, value, d);
  }

  lemma {:induction false} SpreadIsPlain(words: seq<string>, gaps: seq<string>)
    requires AreSpread(words, gaps)
    ensures '"' !in Spread(words, gaps)
    decreases |words|
  {
    assert IsGap(gaps[0]);
    if words != [] {
      SpreadIsPlain(words[1..], gaps[1..]);
      assert IsOneWord(words[0]);
    }
  }

  lemma {:induction false} SpreadIsSolid(words: seq<string>, gaps: seq<string>)
    requires AreSpread(words, gaps) && words != [] && gaps[0] == "" && gaps[|words|] == ""
    requires forall word <- words :: IsToken(word)
    ensures IsSolid(Spread(words, gaps)) && TrimQuotes(Spread(words, gaps)) == Spread(words, gaps)
  {
    LastWordEnds(words, gaps);
    var s, last := Spread(words, gaps), words[|words| - 1];
    assert words[0] in words && last in words;
    assert words[0][0] in words[0] && last[|last| - 1] in last;
    assert s[0] == words[0][0];
  }

  lemma {:induction false} LastWordEnds(words: seq<string>, gaps: seq<string>)
    requires AreSpread(words, gaps) && words != [] && gaps[|words|] == ""
    ensures var s, last := Spread(words, gaps), words[|words| - 1];
      s != "" && last != "" && s[|s| - 1] == last[|last| - 1]
    decreases |words|
  {
    assert IsOneWord(words[|words| - 1]);
    if |words| > 1 {
      LastWordEnds(words[1..], gaps[1..]);
    } else {
      assert Spread(words[1..], gaps[1..]) == "";
    }
  }

  // ---------- the round trip ----------

  lemma PrintedParameterShape(p: Parameter)
    requires PrintableParameter(p)
    ensures IsToken(PrintName(p)) && IsPlainValue(PrintValue(p))
    ensures Names(PrintName(p), "rel") <==> p.Rel?
  {
    if p.Rel? {
      JoinedTokensArePlain(p.types);
    }
  }

  lemma ParameterReadsBack(p: Parameter)
    requires PrintableParameter(p)
    ensures ParameterIsNext(" " + PrintParameter(p)) <==> IsNextParameter(p)
  {
    PrintedParameterShape(p);
    PrintedTextReadsBack(p);
    var name, printed := PrintName(p), PrintedText(p);
    var text := PrintParameter(p);
    assert text == name + ['='] + printed;
    assert name[0] in name && name[|name| - 1] in name;
    TokenHasNoEquals(name);
    TrimSolid(text);
    TrimSolid(name);
    TrimSolid(printed);
    IndexOfAfter(name, '=', printed);
    assert text[..|name|] == name && text[|name| + 1..] == printed;
    if p.Rel? {
      SplitWordsOfJoin(p.types);
    }
  }

  lemma TokenHasNoEquals(name: string)
    requires IsToken(name)
    ensures '=' !in name && ';' !in name
  {
  }

  lemma PrintedParameterHasNoSemicolon(p: Parameter)
    requires PrintableParameter(p)
    ensures ';' !in " " + PrintParameter(p)
  {
    PrintedParameterShape(p);
    PrintedTextReadsBack(p);
    TokenHasNoEquals(PrintName(p));
  }

  lemma {:induction false} SplitChain(head: string, texts: seq<string>)
    requires ';' !in head && NoSemicolons(texts)
    ensures Split(head + Chain(texts), ';') == [head] + texts
    decreases |texts|
  {
    if texts == [] {
      assert head + "" == head;
      SplitNone(head, ';');
    } else {
      SplitChain(texts[0], texts[1..]);
      ChainStep(head, texts[0], texts[1..]);
      assert texts == [texts[0]] + texts[1..];
    }
  }

  lemma ChainStep(head: string, first: string, texts: seq<string>)
    requires ';' !in head && Split(first + Chain(texts), ';') == [first] + texts
    ensures Split(head + (";" + (first + Chain(texts))), ';') == [head] + ([first] + texts)
  {
    SplitStep(head, ';', first + Chain(texts));
  }

  predicate NoSemicolons(texts: seq<string>) {
    forall i | 0 <= i < |texts| :: ';' !in texts[i]
  }

  lemma SpacedHasNoSemicolon(ps: seq<Parameter>)
    requires forall p <- ps :: PrintableParameter(p)
    ensures NoSemicolons(Spaced(ps))
  {
    forall i | 0 <= i < |ps|
      ensures ';' !in Spaced(ps)[i]
    {
      PrintedParameterHasNoSemicolon(ps[i]);
    }
  }

  lemma SomeText(first: string, texts: seq<string>)
    ensures SomeNextText([first] + texts) <==> ParameterIsNext(first) || SomeNextText(texts)
  {
    assert ([first] + texts)[0] == first;
    assert forall text <- texts :: text in [first] + texts;
  }

  lemma SomeParameterIsNext(ps: seq<Parameter>)
    requires forall p <- ps :: PrintableParameter(p)
    ensures SomeNextText(Spaced(ps)) <==> SomeNext(ps)
  {
    forall i | 0 <= i < |ps|
      ensures ParameterIsNext(Spaced(ps)[i]) <==> IsNextParameter(ps[i])
    {
      ParameterReadsBack(ps[i]);
    }
    if SomeNext(ps) {
      var i :| 0 <= i < |ps| && IsNextParameter(ps[i]);
      assert Spaced(ps)[i] in Spaced(ps);
    }
  }

  predicate EndsSolid(s: string) {
    s != "" && !IsWhitespace(s[|s| - 1])
  }

  lemma SolidEnd(head: string, rest: string)
    requires if rest == "" then EndsSolid(head) else EndsSolid(rest)
    ensures EndsSolid(head + rest)
  {
  }

  lemma PrintedParameterEnds(p: Parameter, rest: string)
    requires PrintableParameter(p) && (rest == "" || EndsSolid(rest))
    ensures EndsSolid(";" + ((" " + PrintParameter(p)) + rest))
  {
    PrintedTextReadsBack(p);
    SolidEnd("=", PrintedText(p));
    SolidEnd(PrintName(p), "=" + PrintedText(p));
    SolidEnd(" ", PrintParameter(p));
    SolidEnd(" " + PrintParameter(p), rest);
    SolidEnd(";", (" " + PrintParameter(p)) + rest);
  }

  lemma {:induction false} PrintedParametersEnd(ps: seq<Parameter>)
    requires ps != [] && forall p <- ps :: PrintableParameter(p)
    ensures EndsSolid(PrintParameters(ps))
    decreases |ps|
  {
    assert ps[0] in ps && Spaced(ps)[1..] == Spaced(ps[1..]);
    if |ps| > 1 {
      PrintedParametersEnd(ps[1..]);
    }
    PrintedParameterEnds(ps[0], PrintParameters(ps[1..]));
  }

  /** A printed link, with or without leading space, is read back as itself. */
  lemma EntryReadsBack(link: Link)
    requires Printable(link)
    ensures EntryNext(PrintLink(link)) == EntryNext(" " + PrintLink(link))
      == if IsNext(link) then Some(link.url) else None
  {
    if link.parameters != [] {
      PrintedParametersEnd(link.parameters);
    }
    TrimSolid(PrintLink(link));
    TrimmedReadsBack(link);
  }

  lemma TrimmedReadsBack(link: Link)
    requires Printable(link)
    ensures TrimmedNext(PrintLink(link)) == if IsNext(link) then Some(link.url) else None
  {
    PartsReadBack(link.url, PrintParameters(link.parameters));
    ParametersReadBack(link.parameters);
  }

  lemma PartsReadBack(url: string, parameters: string)
    requires '>' !in url
    ensures TrimmedNext("<" + (url + (">" + parameters))) ==
      if SomeNextText(Split(parameters, ';')) then Some(url) else None
  {
    var entry := "<" + (url + (">" + parameters));
    assert entry[1..] == url + ['>'] + parameters;
    IndexOfAfter(url, '>', parameters);
    assert entry[1..|url| + 1] == url && entry[|url| + 2..] == parameters;
  }

  lemma ParametersReadBack(ps: seq<Parameter>)
    requires forall p <- ps :: PrintableParameter(p)
    ensures SomeNextText(Split(PrintParameters(ps), ';')) <==> SomeNext(ps)
  {
    SpacedHasNoSemicolon(ps);
    SplitChain("", Spaced(ps));
    assert "" + PrintParameters(ps) == PrintParameters(ps);
    SomeText("", Spaced(ps));
    SomeParameterIsNext(ps);
    assert !ParameterIsNext("");
  }

  /** Texts that the scanner passes over one after the other. */
  lemma RunPair(a: string, b: string)
    requires Run(NEUTRAL, a) == Some(NEUTRAL) == Run(NEUTRAL, b)
    ensures Run(NEUTRAL, a + b) == Some(NEUTRAL)
  {
    RunConcat(NEUTRAL, a, b);
  }

  /** A quoted value is passed over whatever commas and brackets it holds. */
  lemma RunsQuoted(value: string)
    requires IsPlainValue(value)
    ensures Run(NEUTRAL, "\"" + (value + "\"")) == Some(NEUTRAL)
  {
    assert ("\"" + (value + "\""))[1..] == value + "\"";
    RunSame(QUOTED, value);
    RunConcat(QUOTED, value, "\"");
    assert "\""[1..] == "";
  }

  lemma RunsText(p: Parameter)
    requires PrintableParameter(p)
    ensures Run(NEUTRAL, PrintedText(p)) == Some(NEUTRAL)
  {
    PrintedParameterShape(p);
    if p.quoted {
      RunsQuoted(PrintValue(p));
    } else {
      TokenRunsNeutral(PrintValue(p));
    }
  }

  lemma {:induction false} RunsParameters(ps: seq<Parameter>)
    requires forall p <- ps :: PrintableParameter(p)
    ensures Run(NEUTRAL, PrintParameters(ps)) == Some(NEUTRAL)
  {
    if ps != [] {
      assert ps[0] in ps;
      RunsParameters(ps[1..]);
      assert Spaced(ps)[1..] == Spaced(ps[1..]);
      RunsOneParameter(ps[0], PrintParameters(ps[1..]));
    }
  }

  lemma RunsOneParameter(p: Parameter, rest: string)
    requires PrintableParameter(p)
    ensures Run(NEUTRAL, ";" + ((" " + PrintParameter(p)) + rest)) == Run(NEUTRAL, rest)
  {
    PrintedParameterShape(p);
    TokenRunsNeutral(PrintName(p));
    RunSame(NEUTRAL, "=");
    RunSame(NEUTRAL, "; ");
    RunsText(p);
    RunPair("=", PrintedText(p));
    RunPair(PrintName(p), "=" + PrintedText(p));
    RunPair("; ", PrintParameter(p));
    RunConcat(NEUTRAL, "; " + PrintParameter(p), rest);
    SpaceAfterSemicolon(PrintParameter(p), rest);
  }

  lemma SpaceAfterSemicolon(text: string, rest: string)
    ensures ";" + ((" " + text) + rest) == "; " + text + rest
  {
  }

  lemma TokenRunsNeutral(name: string)
    requires IsToken(name)
    ensures Run(NEUTRAL, name) == Some(NEUTRAL)
  {
    forall c | c in name
      ensures c !in "<\","
    {
    }
    RunSame(NEUTRAL, name);
  }

  lemma RunsLink(link: Link, lead: string)
    requires Printable(link) && lead in ["", " "]
    ensures Run(NEUTRAL, lead + PrintLink(link)) == Some(NEUTRAL)
  {
    var parameters := PrintParameters(link.parameters);
    RunsParameters(link.parameters);
    RunSame(ANGLE, link.url);
    RunSame(NEUTRAL, lead);
    assert Run(ANGLE, ">" + parameters) == Run(NEUTRAL, parameters) by {
      assert (">" + parameters)[1..] == parameters;
    }
    RunConcat(ANGLE, link.url, ">" + parameters);
    assert Run(NEUTRAL, PrintLink(link)) == Run(ANGLE, link.url + (">" + parameters)) by {
      assert PrintLink(link)[1..] == link.url + (">" + parameters);
    }
    RunConcat(NEUTRAL, lead, PrintLink(link));
  }

  lemma EntriesHead(head: string, rest: string)
    requires Run(NEUTRAL, head) == Some(NEUTRAL)
    ensures Entries(head, NEUTRAL) == [head]
    ensures Entries(head + ("," + rest), NEUTRAL) == [head] + Entries(rest, NEUTRAL)
  {
    RunsThrough(NEUTRAL, head, "");
    RunsThrough(NEUTRAL, head, "," + rest);
    assert head + "" == head;
    assert ("," + rest)[1..] == rest;
    assert ([""] + Entries(rest, NEUTRAL))[1..] == Entries(rest, NEUTRAL);
  }

  lemma {:induction false} EntriesReadBack(links: seq<Link>, lead: string)
    requires links != [] && (forall link <- links :: Printable(link)) && lead in ["", " "]
    ensures FirstNext(Entries(lead + PrintLinks(links), NEUTRAL)) == FirstNextLink(links)
    decreases |links|
  {
    var head := lead + PrintLink(links[0]);
    assert links[0] in links;
    RunsLink(links[0], lead);
    EntryReadsBack(links[0]);
    assert "" + PrintLink(links[0]) == PrintLink(links[0]);
    if |links| == 1 {
      EntriesHead(head, "");
    } else {
      var rest := " " + PrintLinks(links[1..]);
      EntriesReadBack(links[1..], " ");
      EntriesHead(head, rest);
      CommaThenSpace(lead, PrintLink(links[0]), PrintLinks(links[1..]));
    }
  }

  lemma CommaThenSpace(lead: string, a: string, b: string)
    ensures lead + (a + (", " + b)) == lead + a + ("," + (" " + b))
  {
  }

  /**
   Parsing a printed header returns the URL of the first link with a relation type `next`,
   and nothing when there is none.
   */
  lemma PrintedLinksReadBack(links: seq<Link>)
    requires forall link <- links :: Printable(link)
    ensures ParseLinkNext(PrintLinks(links)) == FirstNextLink(links)
  {
    if links == [] {
      assert Entries("", NEUTRAL) == [""] && Trim("") == "" && FirstNext([""]) == FirstNext([]);
    } else {
      assert "" + PrintLinks(links) == PrintLinks(links);
      EntriesReadBack(links, "");
    }
  }
}
