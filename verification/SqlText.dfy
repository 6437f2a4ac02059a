/**
 SQL as text (control-plane/src/sql.rs, src/spec.rs): the quoting of identifiers and strings,
 the statements made with it, and PostgreSQL's lexical rules for reading them back
 (section 4.1 of the PostgreSQL manual). Constants without an `E` are read as with the setting
 standard_conforming_strings on, the default: backslashes stand for themselves.
 */
module SqlText {
  import opened Text
  import opened PercentEncoding

  // ---------- printing ----------

  /** `quote_identifier` and `quote_ident`. */
  function QuoteIdentifier(value: string): string {
    "\"" + Replace(value, "\"", "\"\"") + "\""
  }

  /** `quote_literal` of the control plane: an escape string, refused for NUL. */
  function QuoteLiteral(value: string): Result<string> {
    if '\0' in value then Err(Configuration)
    else Ok("E'" + Replace(Replace(value, "\\", "\\\\"), "'", "''") + "'")
  }

  /** `quote_literal` of the importer: a plain string. */
  function QuotePlain(value: string): string {
    "'" + Replace(value, "'", "''") + "'"
  }

  // ---------- lexing ----------

  datatype Lexed = Lexed(value: string, rest: string)

  function Push(c: char, tail: Option<Lexed>): Option<Lexed> {
    if tail.Some? then Some(Lexed([c] + tail.value.value, tail.value.rest)) else None
  }

  /** What follows an opening quote, up to the closing one; a doubled quote stands for itself. */
  function LexQuoted(s: string, quote: char): (r: Option<Lexed>)
    ensures r.Some? ==> |r.value.rest| < |s|
    decreases |s|
  {
    if s == "" then None
    else if s[0] != quote then Push(s[0], LexQuoted(s[1..], quote))
    else if |s| > 1 && s[1] == quote then Push(quote, LexQuoted(s[2..], quote))
    else Some(Lexed("", s[1..]))
  }

  /** A character behind a backslash; the numeric and Unicode escapes are not modelled. */
  function EscapedChar(c: char): Option<char> {
    if c == 'b' then Some('\U{0008}')
    else if c == 'f' then Some('\U{000C}')
    else if c == 'n' then Some('\n')
    else if c == 'r' then Some('\r')
    else if c == 't' then Some('\t')
    else if c in "01234567xuU" then None
    else Some(c)
  }

  /** The same for an escape string. */
  function LexEscaped(s: string): (r: Option<Lexed>)
    ensures r.Some? ==> |r.value.rest| < |s|
    decreases |s|
  {
    if s == "" then None
    else if s[0] == '\\' then
      if |s| == 1 || EscapedChar(s[1]).None? then None else Push(EscapedChar(s[1]).value, LexEscaped(s[2..]))
    else if s[0] != '\'' then Push(s[0], LexEscaped(s[1..]))
    else if |s| > 1 && s[1] == '\'' then Push('\'', LexEscaped(s[2..]))
    else Some(Lexed("", s[1..]))
  }

  const NAME_BYTES := 63

  /** Longer names are cut, between characters, to what PostgreSQL can store. */
  function CutName(name: string): string {
    if Bytes(name) <= NAME_BYTES || name == "" then name else CutName(name[..|name| - 1])
  }

  /** A delimited identifier: not empty, and without NUL. */
  function LexIdentifier(s: string): (r: Option<Lexed>)
    ensures r.Some? ==> |r.value.rest| < |s|
  {
    if s == "" || s[0] != '"' then None
    else
      var lexed := LexQuoted(s[1..], '"');
      if lexed.Some? && lexed.value.value != "" && '\0' !in lexed.value.value
      then Some(Lexed(CutName(lexed.value.value), lexed.value.rest)) else None
  }

  /** A string constant, plain or escape; it cannot hold a NUL. */
  function LexLiteral(s: string): (r: Option<Lexed>)
    ensures r.Some? ==> |r.value.rest| < |s|
  {
    var lexed := if "E'" <= s then LexEscaped(s[2..]) else if "'" <= s then LexQuoted(s[1..], '\'') else None;
    if lexed.Some? && '\0' !in lexed.value.value then lexed else None
  }

  // ---------- reading back ----------

  function Doubled(value: string, quote: char): string {
    if value == "" then "" else (if value[0] == quote then [quote, quote] else [value[0]]) + Doubled(value[1..], quote)
  }

  function Escaped(value: string): string {
    if value == "" then ""
    else EscapeChar(value[0]) + Escaped(value[1..])
  }

  lemma {:induction false} ReplaceDoubles(value: string, quote: char)
    ensures Replace(value, [quote], [quote, quote]) == Doubled(value, quote)
  {
    if value != "" {
      ReplaceDoubles(value[1..], quote);
      assert [quote] <= value <==> value[0] == quote;
    }
  }

  lemma {:induction false} ReplacesEscape(value: string)
    ensures Replace(Replace(value, "\\", "\\\\"), "'", "''") == Escaped(value)
  {
    if value != "" {
      var rest := value[1..];
      ReplacesEscape(rest);
      var once := Replace(rest, "\\", "\\\\");
      assert value == [value[0]] + rest;
      if value[0] == '\\' {
        ReplaceHit(rest, "\\", "\\\\");
        assert "\\\\" + once == ['\\'] + (['\\'] + once);
        ReplaceSkip('\\', once, "'", "''");
        ReplaceSkip('\\', ['\\'] + once, "'", "''");
      } else {
        ReplaceSkip(value[0], rest, "\\", "\\\\");
        if value[0] == '\'' {
          ReplaceHit(once, "'", "''");
        } else {
          ReplaceSkip(value[0], once, "'", "''");
        }
      }
    }
  }

  predicate StartsWith(s: string, c: char) {
    s != "" && s[0] == c
  }

  lemma LexDoubled(c: char, quote: char, tail: string)
    ensures LexQuoted((if c == quote then [quote, quote] else [c]) + tail, quote) == Push(c, LexQuoted(tail, quote))
  {
  }

  /** A doubled text ends at its own closing quote; a further quote makes it go on. */
  lemma {:induction false} DoubledReadsBack(value: string, quote: char, rest: string)
    ensures var lexed := LexQuoted(Doubled(value, quote) + ([quote] + rest), quote);
      if StartsWith(rest, quote) then lexed.Some? ==> |lexed.value.rest| < |rest| else lexed == Some(Lexed(value, rest))
  {
    if value == "" {
      assert "" + ([quote] + rest) == [quote] + rest && ([quote] + rest)[1..] == rest;
      assert StartsWith(rest, quote) ==> ([quote] + rest)[2..] == rest[1..];
    } else {
      DoubledReadsBack(value[1..], quote, rest);
      var tail := Doubled(value[1..], quote) + ([quote] + rest);
      var head := if value[0] == quote then [quote, quote] else [value[0]];
      assert Doubled(value, quote) + ([quote] + rest) == head + tail;
      LexDoubled(value[0], quote, tail);
      assert value == [value[0]] + value[1..];
    }
  }

  function EscapeChar(c: char): string {
    if c == '\\' then "\\\\" else if c == '\'' then "''" else [c]
  }

  lemma LexEscapedChar(c: char, tail: string)
    ensures LexEscaped(EscapeChar(c) + tail) == Push(c, LexEscaped(tail))
  {
  }

  lemma {:induction false} EscapedReadsBack(value: string, rest: string)
    requires !StartsWith(rest, '\'')
    ensures LexEscaped(Escaped(value) + (['\''] + rest)) == Some(Lexed(value, rest))
  {
    if value == "" {
      assert "" + (['\''] + rest) == ['\''] + rest && (['\''] + rest)[1..] == rest;
    } else {
      EscapedReadsBack(value[1..], rest);
      EscapedStep(value[0], value[1..], ['\''] + rest);
      assert value == [value[0]] + value[1..];
    }
  }

  lemma EscapedStep(c: char, value: string, tail: string)
    ensures LexEscaped(Escaped([c] + value) + tail) == Push(c, LexEscaped(Escaped(value) + tail))
  {
    assert ([c] + value)[1..] == value;
    assert Escaped([c] + value) + tail == EscapeChar(c) + (Escaped(value) + tail);
    LexEscapedChar(c, Escaped(value) + tail);
  }

  lemma {:induction false} CutNameShape(name: string)
    ensures CutName(name) == name <==> Bytes(name) <= NAME_BYTES
    ensures |CutName(name)| <= |name|
  {
    if Bytes(name) > NAME_BYTES && name != "" {
      CutNameShape(name[..|name| - 1]);
    }
  }

  /** A name PostgreSQL stores as it is given. */
  predicate IsSqlName(name: string) {
    name != "" && '\0' !in name && Bytes(name) <= NAME_BYTES
  }

  /**
   A quoted identifier is read back, exactly as printed, if and only if it is a legal one of at
   most 63 bytes and no quote follows.
   */
  lemma IdentifierReadsBack(value: string, rest: string)
    ensures LexIdentifier(QuoteIdentifier(value) + rest) == Some(Lexed(value, rest))
      <==> IsSqlName(value) && !StartsWith(rest, '"')
  {
    ReplaceDoubles(value, '"');
    var tail := Doubled(value, '"') + (['"'] + rest);
    assert QuoteIdentifier(value) + rest == ['"'] + tail;
    assert (['"'] + tail)[1..] == tail && (['"'] + tail)[0] == '"';
    DoubledReadsBack(value, '"', rest);
    CutNameShape(value);
  }

  /** An escape-string literal is read back unless a quote follows; text with NUL is not printed at all. */
  lemma LiteralReadsBack(value: string, rest: string)
    ensures QuoteLiteral(value).Ok? <==> '\0' !in value
    ensures QuoteLiteral(value).Ok? && !StartsWith(rest, '\'') ==>
      LexLiteral(QuoteLiteral(value).value + rest) == Some(Lexed(value, rest))
  {
    if '\0' !in value && !StartsWith(rest, '\'') {
      ReplacesEscape(value);
      var tail := Escaped(value) + (['\''] + rest);
      assert QuoteLiteral(value).value + rest == "E'" + tail;
      assert ("E'" + tail)[2..] == tail;
      EscapedReadsBack(value, rest);
    }
  }

  /**
   The importer's plain literals are read back, backslashes included, if and only if they hold
   no NUL and no quote follows; a literal with NUL is not read at all.
   */
  lemma PlainReadsBack(value: string, rest: string)
    ensures LexLiteral(QuotePlain(value) + rest) == Some(Lexed(value, rest))
      <==> '\0' !in value && !StartsWith(rest, '\'')
    ensures '\0' in value && !StartsWith(rest, '\'') ==> LexLiteral(QuotePlain(value) + rest) == None
  {
    ReplaceDoubles(value, '\'');
    var tail := Doubled(value, '\'') + (['\''] + rest);
    assert QuotePlain(value) + rest == ['\''] + tail;
    assert (['\''] + tail)[1..] == tail && (['\''] + tail)[0] == '\'';
    DoubledReadsBack(value, '\'', rest);
  }
}
