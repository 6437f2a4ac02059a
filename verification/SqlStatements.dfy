/**
 The statements that are printed: the importer's OPTIONS lists (src/spec.rs), CREATE SERVER and
 the sample queries (control-plane/src/sql.rs). Each is read back by PostgreSQL's rules for
 blanks, names and constants, as exactly what was printed into it, or it is not printed at all.
 */
module SqlStatements {
  import opened Text
  import opened Identifiers
  import opened SqlText

  // ---------- option lists ----------

  type Entry = (string, string)

  function OptionLine(name: string, quoted: string): string {
    "    " + name + " " + quoted
  }

  function Lines(entries: seq<Entry>, quoted: seq<string>): (r: seq<string>)
    requires |entries| == |quoted|
    ensures |r| == |entries|
  {
    if entries == [] then [] else [OptionLine(entries[0].0, quoted[0])] + Lines(entries[1..], quoted[1..])
  }

  function QuoteAll(entries: seq<Entry>): (r: Result<seq<string>>)
    ensures r.Ok? ==> |r.value| == |entries|
  {
    if entries == [] then Ok([])
    else
      var first :- QuoteLiteral(entries[0].1);
      var rest :- QuoteAll(entries[1..]);
      Ok([first] + rest)
  }

  function QuoteAllPlain(entries: seq<Entry>): (r: seq<string>)
    ensures |r| == |entries|
  {
    if entries == [] then [] else [QuotePlain(entries[0].1)] + QuoteAllPlain(entries[1..])
  }

  predicate IsOptionName(name: string) {
    name != "" && forall c <- name :: IsIdentifierChar(c)
  }

  predicate AreOptionNames(entries: seq<Entry>) {
    entries == [] || (IsOptionName(entries[0].0) && AreOptionNames(entries[1..]))
  }

  // ---------- reading option lists ----------

  function SkipBlanks(s: string): (r: string)
    ensures |r| <= |s|
  {
    if s != "" && s[0] in " \t\r\n" then SkipBlanks(s[1..]) else s
  }

  function NameLength(s: string): (n: nat)
    ensures n <= |s|
  {
    if s == "" || !IsIdentifierChar(s[0]) then 0 else 1 + NameLength(s[1..])
  }

  datatype Parsed = Parsed(entries: seq<Entry>, rest: string)

  /** One `name 'value'`, blanks before either. */
  function ParseOption(s: string): (r: Option<(Entry, string)>)
    ensures r.Some? ==> |r.value.1| < |s|
  {
    var text := SkipBlanks(s);
    var n := NameLength(text);
    if n == 0 then None
    else
      var literal := LexLiteral(SkipBlanks(text[n..]));
      if literal.None? then None else Some(((text[..n], literal.value.value), literal.value.rest))
  }

  /** Options separated by commas. */
  function ParseOptions(s: string): Option<Parsed>
    decreases |s|
  {
    var first := ParseOption(s);
    if first.None? then None
    else if !StartsWith(first.value.1, ',') then Some(Parsed([first.value.0], first.value.1))
    else
      var more := ParseOptions(first.value.1[1..]);
      if more.None? then None else Some(Parsed([first.value.0] + more.value.entries, more.value.rest))
  }

  /** A printed value that is read back as itself, or not at all if it holds a NUL, wherever no quote follows it. */
  ghost predicate ReadsAs(quoted: string, value: string) {
    && StartsLikeLiteral(quoted)
    && forall rest | !StartsWith(rest, '\'') ::
      LexLiteral(quoted + rest) == if '\0' in value then None else Some(Lexed(value, rest))
  }

  predicate NulFree(entries: seq<Entry>) {
    entries == [] || ('\0' !in entries[0].1 && NulFree(entries[1..]))
  }

  predicate StartsLikeLiteral(quoted: string) {
    quoted != "" && quoted[0] in "E'"
  }

  ghost predicate AllReadAs(quoted: seq<string>, entries: seq<Entry>)
    requires |quoted| == |entries|
  {
    quoted == [] || (ReadsAs(quoted[0], entries[0].1) && AllReadAs(quoted[1..], entries[1..]))
  }

  lemma {:induction false} NameEnds(name: string, rest: string)
    requires forall c <- name :: IsIdentifierChar(c)
    requires rest == "" || !IsIdentifierChar(rest[0])
    ensures NameLength(name + rest) == |name|
  {
    if name == "" {
      assert "" + rest == rest;
    } else {
      assert forall c <- name[1..] :: c in name;
      NameEnds(name[1..], rest);
      assert name[0] in name && (name + rest)[1..] == name[1..] + rest;
    }
  }

  lemma {:induction false} SkipAll(blanks: string, s: string)
    requires s != "" && s[0] !in " \t\r\n" && forall c <- blanks :: c == ' ' || c == '\n'
    ensures SkipBlanks(blanks + s) == s
  {
    if blanks == "" {
      assert blanks + s == s;
    } else {
      assert blanks[0] in blanks && forall c <- blanks[1..] :: c in blanks;
      SkipAll(blanks[1..], s);
      assert (blanks + s)[1..] == blanks[1..] + s;
    }
  }

  /** An option as it is parsed: not at all if its value holds a NUL. */
  function ReadEntry(name: string, value: string, rest: string): Option<(Entry, string)> {
    if '\0' in value then None else Some(((name, value), rest))
  }

  lemma OptionTextReadsBack(s: string, name: string, value: string, quoted: string, rest: string)
    requires IsOptionName(name) && ReadsAs(quoted, value) && !StartsWith(rest, '\'')
    requires SkipBlanks(s) == name + (" " + (quoted + rest))
    ensures ParseOption(s) == ReadEntry(name, value, rest)
  {
    var text := name + (" " + (quoted + rest));
    NameEnds(name, " " + (quoted + rest));
    assert text[..|name|] == name && text[|name|..] == " " + (quoted + rest);
    assert (quoted + rest)[0] == quoted[0];
    SkipAll(" ", quoted + rest);
  }

  function Break(broken: bool): string {
    if broken then "\n" else ""
  }

  lemma LineReadsBack(name: string, value: string, quoted: string, rest: string, broken: bool)
    requires IsOptionName(name) && ReadsAs(quoted, value) && !StartsWith(rest, '\'')
    ensures ParseOption(Break(broken) + (OptionLine(name, quoted) + rest)) == ReadEntry(name, value, rest)
  {
    var text, blanks := name + (" " + (quoted + rest)), Break(broken) + "    ";
    assert name[0] in name && text[0] == name[0];
    SkipAll(blanks, text);
    LineText(name, quoted, rest, broken);
    OptionTextReadsBack(blanks + text, name, value, quoted, rest);
  }

  lemma LineText(name: string, quoted: string, rest: string, broken: bool)
    ensures Break(broken) + (OptionLine(name, quoted) + rest)
      == (Break(broken) + "    ") + (name + (" " + (quoted + rest)))
  {
    assert OptionLine(name, quoted) + rest == "    " + (name + (" " + (quoted + rest)));
  }

  lemma JoinStep(first: string, rest: seq<string>, tail: string)
    requires rest != []
    ensures Join([first] + rest, ",\n") + tail == first + ("," + ("\n" + (Join(rest, ",\n") + tail)))
  {
  }

  lemma ParseLast(s: string, entry: Entry, rest: string)
    requires ParseOption(s) == Some((entry, rest)) && !StartsWith(rest, ',')
    ensures ParseOptions(s) == Some(Parsed([entry], rest))
  {
  }

  lemma ParseMore(s: string, entry: Entry, after: string)
    requires ParseOption(s) == Some((entry, "," + after))
    ensures ParseOptions(s) == match ParseOptions(after)
      case Some(more) => Some(Parsed([entry] + more.entries, more.rest))
      case None => None
  {
  }

  /** What a printed option list says: its entries, or nothing if a value holds a NUL. */
  function ReadEntries(entries: seq<Entry>, rest: string): Option<Parsed> {
    if NulFree(entries) then Some(Parsed(entries, rest)) else None
  }

  lemma ReadMore(entries: seq<Entry>, rest: string)
    requires entries != [] && '\0' !in entries[0].1
    ensures ReadEntries(entries, rest) == match ReadEntries(entries[1..], rest)
      case Some(more) => Some(Parsed([entries[0]] + more.entries, more.rest))
      case None => None
  {
    assert [entries[0]] + entries[1..] == entries;
  }

  /** A printed option list is read back entry by entry, with or without a line break before it. */
  lemma {:induction false} OptionsReadBack(entries: seq<Entry>, quoted: seq<string>, rest: string, broken: bool)
    requires |entries| == |quoted| && entries != []
    requires AreOptionNames(entries) && AllReadAs(quoted, entries)
    requires !StartsWith(rest, '\'') && !StartsWith(rest, ',')
    ensures ParseOptions(Break(broken) + (Join(Lines(entries, quoted), ",\n") + rest)) == ReadEntries(entries, rest)
    decreases |entries|
  {
    var line := OptionLine(entries[0].0, quoted[0]);
    if |entries| == 1 {
      assert Lines(entries, quoted) == [line] && Join([line], ",\n") == line && entries[1..] == [];
      LineReadsBack(entries[0].0, entries[0].1, quoted[0], rest, broken);
      assert NulFree(entries[1..]);
      if '\0' !in entries[0].1 {
        ParseLast(Break(broken) + (line + rest), entries[0], rest);
        assert [entries[0]] == entries;
      }
    } else {
      var lines := Lines(entries[1..], quoted[1..]);
      var after := Break(true) + (Join(lines, ",\n") + rest);
      JoinStep(line, lines, rest);
      LineReadsBack(entries[0].0, entries[0].1, quoted[0], "," + after, broken);
      if '\0' !in entries[0].1 {
        OptionsReadBack(entries[1..], quoted[1..], rest, true);
        ParseMore(Break(broken) + (line + ("," + after)), entries[0], after);
        ReadMore(entries, rest);
      }
    }
  }

  lemma LiteralReadsAs(value: string)
    requires QuoteLiteral(value).Ok?
    ensures ReadsAs(QuoteLiteral(value).value, value)
  {
    forall rest | !StartsWith(rest, '\'')
      ensures LexLiteral(QuoteLiteral(value).value + rest) == Some(Lexed(value, rest))
    {
      LiteralReadsBack(value, rest);
    }
  }

  lemma PlainReadsAs(value: string)
    ensures ReadsAs(QuotePlain(value), value)
  {
    forall rest | !StartsWith(rest, '\'')
      ensures LexLiteral(QuotePlain(value) + rest) == if '\0' in value then None else Some(Lexed(value, rest))
    {
      PlainReadsBack(value, rest);
    }
  }

  lemma {:induction false} QuotedAllReadAs(entries: seq<Entry>)
    requires QuoteAll(entries).Ok?
    ensures AllReadAs(QuoteAll(entries).value, entries)
  {
    if entries != [] {
      LiteralReadsAs(entries[0].1);
      QuotedAllReadAs(entries[1..]);
      assert QuoteAll(entries).value[1..] == QuoteAll(entries[1..]).value;
    }
  }

  lemma {:induction false} PlainAllReadAs(entries: seq<Entry>)
    ensures AllReadAs(QuoteAllPlain(entries), entries)
  {
    if entries != [] {
      PlainReadsAs(entries[0].1);
      PlainAllReadAs(entries[1..]);
      assert QuoteAllPlain(entries)[1..] == QuoteAllPlain(entries[1..]);
    }
  }

  lemma {:induction false} QuoteAllFails(entries: seq<Entry>)
    ensures QuoteAll(entries).Ok? <==> forall e <- entries :: '\0' !in e.1
  {
    if entries != [] {
      QuoteAllFails(entries[1..]);
      assert entries == [entries[0]] + entries[1..];
    }
  }

  lemma {:induction false} NulFreeEntries(entries: seq<Entry>)
    ensures NulFree(entries) <==> forall e <- entries :: '\0' !in e.1
  {
    if entries != [] {
      NulFreeEntries(entries[1..]);
      assert entries == [entries[0]] + entries[1..];
    }
  }

  /** The importer's option list, made of plain literals, is read back exactly, or not at all if a value holds a NUL. */
  lemma ImportedOptionsReadBack(entries: seq<Entry>, rest: string)
    requires entries != [] && AreOptionNames(entries)
    requires !StartsWith(rest, '\'') && !StartsWith(rest, ',')
    ensures ParseOptions(Join(Lines(entries, QuoteAllPlain(entries)), ",\n") + rest) == ReadEntries(entries, rest)
  {
    PlainAllReadAs(entries);
    OptionsReadBack(entries, QuoteAllPlain(entries), rest, false);
    var text := Join(Lines(entries, QuoteAllPlain(entries)), ",\n") + rest;
    assert Break(false) + text == text;
  }

  // ---------- CREATE SERVER ----------

  /** The entries of an option map, in the order of its names. */
  function Entries(names: seq<string>, options: map<string, string>): (r: seq<Entry>)
    requires forall name <- names :: name in options
    ensures |r| == |names| && forall i | 0 <= i < |r| :: r[i] == (names[i], options[names[i]])
  {
    if names == [] then []
    else
      var last := names[|names| - 1];
      Entries(names[..|names| - 1], options) + [(last, options[last])]
  }

  function EntriesOf(options: map<string, string>): seq<Entry> {
    Entries(InOrder(options.Keys), options)
  }

  function ToMap(entries: seq<Entry>): map<string, string> {
    if entries == [] then map[]
    else ToMap(entries[..|entries| - 1])[entries[|entries| - 1].0 := entries[|entries| - 1].1]
  }

  /** A quoted name and an option list between fixed texts. */
  function NamedOptions(head: string, name: string, middle: string, options: map<string, string>,
                        tail: string): Result<string> {
    var quoted :- QuoteAll(EntriesOf(options));
    Ok(head + (QuoteIdentifier(name) + (middle + (Join(Lines(EntriesOf(options), quoted), ",\n") + tail))))
  }

  function WrapperClause(): string {
    "\n" + "  FOREIGN DATA WRAPPER openapi_fdw\n  OPTIONS (\n"
  }

  /** The statement `create_server_sql` makes of a server name and its options. */
  lemma WrapperIsNamed()
    ensures WrapperClause() != "" && WrapperClause()[0] == '\n'
    ensures WrapperClause()[1..] == "  FOREIGN DATA WRAPPER openapi_fdw\n  OPTIONS (\n"
  {
  }

  function CreateServer(server: string, options: map<string, string>): Result<string> {
    NamedOptions("CREATE SERVER ", server, WrapperClause(), options, "\n  )")
  }

  /** What follows a fixed text. */
  function After(prefix: string, s: string): Option<string> {
    if prefix <= s then Some(s[|prefix|..]) else None
  }

  lemma AfterItself(prefix: string, s: string)
    ensures After(prefix, prefix + s) == Some(s)
  {
  }

  datatype ServerStatement = ServerStatement(server: string, options: map<string, string>)

  /** Reading a name and an option list back from between fixed texts. */
  function ReadNamedOptions(s: string, head: string, middle: string, tail: string): Option<ServerStatement> {
    var s0 := After(head, s);
    if s0.None? then None
    else
      var name := LexIdentifier(s0.value);
      if name.None? then None
      else
        var s1 := After(middle, name.value.rest);
        if s1.None? then None
        else
          var options := ParseOptions(s1.value);
          if options.None? || options.value.rest != tail then None
          else Some(ServerStatement(name.value.value, ToMap(options.value.entries)))
  }

  /** Reading a CREATE SERVER statement back. */
  function ReadServer(s: string): Option<ServerStatement> {
    ReadNamedOptions(s, "CREATE SERVER ", WrapperClause(), "\n  )")
  }

  lemma {:induction false} EntriesMakeTheMap(names: seq<string>, options: map<string, string>)
    requires forall name <- names :: name in options
    ensures forall name :: name in ToMap(Entries(names, options)) <==> name in names
    ensures forall name <- names :: ToMap(Entries(names, options))[name] == options[name]
  {
    if names != [] {
      var front, last := names[..|names| - 1], names[|names| - 1];
      EntriesMakeTheMap(front, options);
      assert Entries(names, options)[..|front|] == Entries(front, options);
      assert names == front + [last];
    }
  }

  lemma EntriesOfRoundTrip(options: map<string, string>)
    ensures ToMap(EntriesOf(options)) == options
  {
    EntriesMakeTheMap(InOrder(options.Keys), options);
  }

  lemma {:induction false} NamesOfEntries(entries: seq<Entry>)
    requires forall i | 0 <= i < |entries| :: IsOptionName(entries[i].0)
    ensures AreOptionNames(entries)
  {
    if entries != [] {
      NamesOfEntries(entries[1..]);
    }
  }

  lemma RenderedOptionsReadBack(options: map<string, string>, quoted: seq<string>, rest: string)
    requires options != map[] && forall name <- options :: IsOptionName(name)
    requires |quoted| == |EntriesOf(options)| && AllReadAs(quoted, EntriesOf(options))
    requires !StartsWith(rest, '\'') && !StartsWith(rest, ',')
    ensures ParseOptions(Join(Lines(EntriesOf(options), quoted), ",\n") + rest) == ReadEntries(EntriesOf(options), rest)
  {
    var names := InOrder(options.Keys);
    var name :| name in options;
    assert name in names;
    assert forall i | 0 <= i < |names| :: names[i] in names;
    NamesOfEntries(EntriesOf(options));
    var text := Join(Lines(EntriesOf(options), quoted), ",\n") + rest;
    OptionsReadBack(EntriesOf(options), quoted, rest, false);
    assert Break(false) + text == text;
  }

  lemma NamedOptionsReadBack(head: string, name: string, middle: string, options: map<string, string>, tail: string)
    requires options != map[] && forall name <- options :: IsOptionName(name)
    requires IsSqlName(name)
    requires !StartsWith(middle, '"') && middle != "" && !StartsWith(tail, '\'') && !StartsWith(tail, ',')
    ensures NamedOptions(head, name, middle, options, tail).Ok? <==> forall name <- options :: '\0' !in options[name]
    ensures NamedOptions(head, name, middle, options, tail).Ok? ==>
      ReadNamedOptions(NamedOptions(head, name, middle, options, tail).value, head, middle, tail)
        == Some(ServerStatement(name, options))
  {
    var entries := EntriesOf(options);
    QuoteAllFails(entries);
    QuotableEntries(options);
    if QuoteAll(entries).Ok? {
      var quoted := QuoteAll(entries).value;
      QuotedAllReadAs(entries);
      NulFreeEntries(entries);
      RenderedOptionsReadBack(options, quoted, tail);
      EntriesOfRoundTrip(options);
      NamedListReadsBack(head, name, middle, Join(Lines(entries, quoted), ",\n") + tail, tail, entries);
    }
  }

  lemma NamedListReadsBack(head: string, name: string, middle: string, list: string, tail: string,
                           entries: seq<Entry>)
    requires IsSqlName(name) && middle != "" && !StartsWith(middle, '"')
    requires ParseOptions(list) == Some(Parsed(entries, tail))
    ensures ReadNamedOptions(head + (QuoteIdentifier(name) + (middle + list)), head, middle, tail)
      == Some(ServerStatement(name, ToMap(entries)))
  {
    AfterItself(head, QuoteIdentifier(name) + (middle + list));
    IdentifierReadsBack(name, middle + list);
    AfterItself(middle, list);
  }

  /**
   A CREATE SERVER statement says exactly the server and the options it was made from; it is
   refused exactly when a value holds a NUL.
   */
  lemma CreateServerReadsBack(server: string, options: map<string, string>)
    requires options != map[] && forall name <- options :: IsOptionName(name)
    requires IsSqlName(server)
    ensures CreateServer(server, options).Ok? <==> forall name <- options :: '\0' !in options[name]
    ensures CreateServer(server, options).Ok? ==>
      ReadServer(CreateServer(server, options).value) == Some(ServerStatement(server, options))
  {
    assert WrapperClause()[0] == '\n' && "\n  )"[0] == '\n';
    NamedOptionsReadBack("CREATE SERVER ", server, WrapperClause(), options, "\n  )");
  }

  lemma QuotableEntries(options: map<string, string>)
    ensures (forall e <- EntriesOf(options) :: '\0' !in e.1) <==> forall name <- options :: '\0' !in options[name]
  {
  }

  // ---------- samples ----------

  datatype Sample = Sample(schema: string, table: string, filter: Option<Entry>, limit: nat)

  function Filter(filter: Option<Entry>): Result<string> {
    if filter.None? then Ok("")
    else
      var literal :- QuoteLiteral(filter.value.1);
      Ok(" WHERE " + (QuoteIdentifier(filter.value.0) + (" = " + literal)))
  }

  /** `sample_sql`. */
  function SampleSql(sample: Sample): Result<string> {
    var filter :- Filter(sample.filter);
    Ok("SELECT * FROM " + (QuoteIdentifier(sample.schema) + ("." + (QuoteIdentifier(sample.table)
       + (filter + (" LIMIT " + Decimal(sample.limit)))))))
  }

  datatype Condition = Condition(filter: Option<Entry>, rest: string)

  /** A comparison of a column with a value. */
  function ReadComparison(s: string, equals: string): Option<Condition> {
    var column := LexIdentifier(s);
    if column.None? then None
    else
      var value := After(equals, column.value.rest);
      if value.None? then None
      else
        var literal := LexLiteral(value.value);
        if literal.None? then None
        else Some(Condition(Some((column.value.value, literal.value.value)), literal.value.rest))
  }

  /** An optional ` WHERE "column" = 'value'`. */
  function ReadCondition(s: string): Option<Condition> {
    var comparison := After(" WHERE ", s);
    if comparison.None? then Some(Condition(None, s)) else ReadComparison(comparison.value, " = ")
  }

  predicate ReadsSample(s: string, sample: Sample) {
    var s0 := After("SELECT * FROM ", s);
    && s0.Some?
    && (var schema := LexIdentifier(s0.value);
    && schema.Some? && schema.value.value == sample.schema
    && (var s1 := After(".", schema.value.rest);
    && s1.Some?
    && (var table := LexIdentifier(s1.value);
    && table.Some? && table.value.value == sample.table
    && (var condition := ReadCondition(table.value.rest);
    && condition.Some? && condition.value.filter == sample.filter
    && condition.value.rest == " LIMIT " + Decimal(sample.limit)))))
  }

  lemma ComparisonReadsBack(column: string, equals: string, value: string, rest: string)
    requires IsSqlName(column) && '\0' !in value && !StartsWith(rest, '\'') && equals != "" && equals[0] != '"'
    ensures ReadComparison(QuoteIdentifier(column) + (equals + (QuoteLiteral(value).value + rest)), equals)
      == Some(Condition(Some((column, value)), rest))
  {
    var literal := QuoteLiteral(value).value;
    LiteralReadsBack(value, rest);
    AfterItself(equals, literal + rest);
    IdentifierReadsBack(column, equals + (literal + rest));
  }

  lemma FilterReadsBack(column: string, value: string, rest: string)
    requires IsSqlName(column) && '\0' !in value && !StartsWith(rest, '\'')
    ensures Filter(Some((column, value))).Ok?
    ensures ReadCondition(Filter(Some((column, value))).value + rest) == Some(Condition(Some((column, value)), rest))
  {
    var comparison := QuoteIdentifier(column) + (" = " + (QuoteLiteral(value).value + rest));
    ComparisonReadsBack(column, " = ", value, rest);
    AfterItself(" WHERE ", comparison);
    FilterText(column, value, rest);
  }

  lemma FilterText(column: string, value: string, rest: string)
    requires '\0' !in value
    ensures Filter(Some((column, value))).value + rest
      == " WHERE " + (QuoteIdentifier(column) + (" = " + (QuoteLiteral(value).value + rest)))
  {
  }

  lemma ConditionReadsBack(filter: Option<Entry>, rest: string)
    requires filter.Some? ==> IsSqlName(filter.value.0)
    requires After(" WHERE ", rest).None? && !StartsWith(rest, '\'')
    ensures Filter(filter).Ok? <==> (filter.Some? ==> '\0' !in filter.value.1)
    ensures Filter(filter).Ok? ==> ReadCondition(Filter(filter).value + rest) == Some(Condition(filter, rest))
  {
    if filter.None? {
      assert "" + rest == rest;
    } else if '\0' !in filter.value.1 {
      FilterReadsBack(filter.value.0, filter.value.1, rest);
    }
  }

  lemma LimitIsNoCondition(limit: nat)
    ensures After(" WHERE ", " LIMIT " + Decimal(limit)).None?
  {
    assert (" LIMIT " + Decimal(limit))[1] == 'L' && " WHERE "[1] == 'W';
  }

  /** A sample query selects from exactly the table asked for, with exactly the filter and limit given. */
  lemma SampleReadsBack(sample: Sample)
    requires IsSqlName(sample.schema) && IsSqlName(sample.table)
    requires sample.filter.Some? ==> IsSqlName(sample.filter.value.0)
    ensures SampleSql(sample).Ok? <==> (sample.filter.Some? ==> '\0' !in sample.filter.value.1)
    ensures SampleSql(sample).Ok? ==> ReadsSample(SampleSql(sample).value, sample)
  {
    LimitIsNoCondition(sample.limit);
    ConditionReadsBack(sample.filter, " LIMIT " + Decimal(sample.limit));
    if Filter(sample.filter).Ok? {
      var rest := Filter(sample.filter).value + (" LIMIT " + Decimal(sample.limit));
      FilterStart(sample.filter);
      assert !StartsWith(rest, '"');
      IdentifierReadsBack(sample.table, rest);
      AfterItself(".", QuoteIdentifier(sample.table) + rest);
      IdentifierReadsBack(sample.schema, "." + (QuoteIdentifier(sample.table) + rest));
      AfterItself("SELECT * FROM ", QuoteIdentifier(sample.schema) + ("." + (QuoteIdentifier(sample.table) + rest)));
    }
  }

  lemma FilterStart(filter: Option<Entry>)
    requires Filter(filter).Ok?
    ensures Filter(filter).value == "" || Filter(filter).value[0] == ' '
  {
  }
}
