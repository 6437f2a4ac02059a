/**
 JSON documents as `serde_json` holds them in this program: numbers as the text they are printed
 with, objects in the order of their keys. JSON Pointer evaluation and the decoding of pointer
 tokens follow RFC 6901, and array indices are decimal numerals without leading zeros; the program
 evaluates pointers with the library and decodes those it writes through by itself.
 */
module Json {
  import opened Text

  datatype Json =
    | Null
    | Bool(value: bool)
    | Num(text: string)
    | Str(text: string)
    | Arr(items: seq<Json>)
    | Obj(fields: map<string, Json>)

  /** `Value::get` with a string key: only objects have one. */
  function Field(value: Json, name: string): Option<Json> {
    if value.Obj? && name in value.fields then Some(value.fields[name]) else None
  }

  function AsString(value: Option<Json>): Option<string> {
    if value.Some? && value.value.Str? then Some(value.value.text) else None
  }

  function AsBool(value: Option<Json>): Option<bool> {
    if value.Some? && value.value.Bool? then Some(value.value.value) else None
  }

  // ---------- reading through a pointer ----------

  function ParseNat(digits: string): nat
    requires forall c <- digits :: IsDigit(c)
  {
    if digits == "" then 0
    else
      var last := digits[|digits| - 1];
      assert IsDigit(last);
      10 * ParseNat(digits[..|digits| - 1]) + (last as int - '0' as int)
  }

  /** An array index in a pointer: decimal digits without a leading zero. */
  function ParseIndex(token: string): Option<nat> {
    if token == "" || (token[0] == '0' && |token| != 1) then None
    else if forall c <- token :: IsDigit(c) then Some(ParseNat(token))
    else None
  }

  // ---------- numerals ----------

  function Zeros(k: nat): (s: string)
    ensures |s| == k && forall c <- s :: c == '0'
  {
    if k == 0 then "" else Zeros(k - 1) + "0"
  }

  lemma {:induction false} DecimalIsParsed(n: nat)
    ensures ParseNat(Decimal(n)) == n
  {
    if n >= 10 {
      DecimalIsParsed(n / 10);
      var s := Decimal(n);
      assert s[..|s| - 1] == Decimal(n / 10) && s[|s| - 1] == Digit(n % 10);
    }
  }

  lemma {:induction false} ZerosAreNothing(k: nat)
    ensures ParseNat(Zeros(k)) == 0
  {
    if k > 0 {
      assert Zeros(k)[..k - 1] == Zeros(k - 1);
      ZerosAreNothing(k - 1);
    }
  }

  lemma {:induction false} PaddedIsParsed(k: nat, n: nat)
    ensures forall c <- Zeros(k) + Decimal(n) :: IsDigit(c)
    ensures ParseNat(Zeros(k) + Decimal(n)) == n
  {
    var s := Zeros(k) + Decimal(n);
    var front := Zeros(k) + if n < 10 then "" else Decimal(n / 10);
    assert s == front + [Digit(n % 10)];
    assert s[..|s| - 1] == front;
    if n < 10 {
      ZerosAreNothing(k);
      assert front == Zeros(k);
    } else {
      PaddedIsParsed(k, n / 10);
    }
  }

  lemma PaddedStep(k: nat, m: nat, d: nat)
    requires d < 10
    ensures Zeros(k) + Decimal(m) + [Digit(d)]
      == if m == 0 then Zeros(k + 1) + Decimal(d) else Zeros(k) + Decimal(10 * m + d)
  {
    if m == 0 {
      assert Decimal(0) == "0" && Decimal(d) == [Digit(d)];
      assert Zeros(k) + "0" == Zeros(k + 1);
    } else {
      assert (10 * m + d) / 10 == m && (10 * m + d) % 10 == d;
      assert Zeros(k) + Decimal(m) + [Digit(d)] == Zeros(k) + (Decimal(m) + [Digit(d)]);
    }
  }

  lemma LongerIsPadded(front: string, k: nat, m: nat, d: nat) returns (k': nat)
    requires d < 10 && front == Zeros(k) + Decimal(m)
    ensures k' <= |front| + 1 && front + [Digit(d)] == Zeros(k') + Decimal(10 * m + d)
  {
    PaddedStep(k, m, d);
    k' := if m == 0 then k + 1 else k;
  }

  lemma {:induction false} DigitsArePadded(digits: string) returns (k: nat)
    requires digits != "" && forall c <- digits :: IsDigit(c)
    ensures k <= |digits| && digits == Zeros(k) + Decimal(ParseNat(digits))
  {
    var front, last := digits[..|digits| - 1], digits[|digits| - 1];
    assert last in digits;
    var d := last as int - '0' as int;
    assert digits == front + [Digit(d)];
    assert ParseNat(digits) == 10 * ParseNat(front) + d;
    if front == "" {
      k := 0;
    } else {
      k := DigitsArePadded(front);
      k := LongerIsPadded(front, k, ParseNat(front), d);
    }
  }

  /** An index is a number in decimal, written in the one way that has no needless zeros. */
  lemma IndexIsExact(token: string, n: nat)
    ensures ParseIndex(token) == Some(n) <==> token == Decimal(n)
  {
    if ParseIndex(token) == Some(n) {
      var k := DigitsArePadded(token);
      ZerosInFront(token, k, n);
      assert k == 0 && Zeros(0) + Decimal(n) == Decimal(n);
    }
    if token == Decimal(n) {
      DecimalIsParsed(n);
      NoLeadingZero(n);
    }
  }

  lemma ZerosInFront(token: string, k: nat, n: nat)
    requires token == Zeros(k) + Decimal(n)
    ensures |token| > k && forall i | 0 <= i < k :: token[i] == '0'
  {
    forall i | 0 <= i < k
      ensures token[i] == '0'
    {
      assert Zeros(k)[i] in Zeros(k);
    }
  }

  lemma {:induction false} NoLeadingZero(n: nat)
    ensures n > 0 ==> Decimal(n)[0] != '0'
  {
    if n >= 10 {
      NoLeadingZero(n / 10);
    }
  }

  function Child(value: Json, token: string): Option<Json> {
    match value
    case Obj(fields) => if token in fields then Some(fields[token]) else None
    case Arr(items) =>
      var index := ParseIndex(token);
      if index.Some? && index.value < |items| then Some(items[index.value]) else None
    case _ => None
  }

  /** A token leads from an object to the property it names, and from an array to the element it numbers. */
  lemma ChildIsExact(value: Json, token: string, child: Json)
    ensures Child(value, token) == Some(child) <==>
      || (value.Obj? && token in value.fields && value.fields[token] == child)
      || (value.Arr? && exists i: nat :: i < |value.items| && token == Decimal(i) && value.items[i] == child)
  {
    if value.Arr? {
      var index := ParseIndex(token);
      if index.Some? {
        IndexIsExact(token, index.value);
      }
      if i: nat :| i < |value.items| && token == Decimal(i) && value.items[i] == child {
        IndexIsExact(token, i);
      }
    }
  }

  /** The value found by following `path` from `value`. */
  function Get(value: Json, path: seq<string>): Option<Json>
    decreases |path|, value
  {
    if path == [] then Some(value)
    else
      var next := Child(value, path[0]);
      if next.Some? then Get(next.value, path[1..]) else None
  }

  /** A document with a value at a path. */
  function Nest(tokens: seq<string>, value: Json): Json {
    if tokens == [] then value else Obj(map[tokens[0] := Nest(tokens[1..], value)])
  }

  lemma {:induction false} NestIsRead(tokens: seq<string>, value: Json)
    ensures Get(Nest(tokens, value), tokens) == Some(value)
  {
    if tokens != [] {
      NestIsRead(tokens[1..], value);
    }
  }

  /** Section 4 of RFC 6901: `~1` first, then `~0`. */
  function Unescape(raw: string): string {
    Replace(Replace(raw, "~1", "/"), "~0", "~")
  }

  function Map<A, B>(f: A -> B, xs: seq<A>): (ys: seq<B>)
    ensures |ys| == |xs| && forall i | 0 <= i < |xs| :: ys[i] == f(xs[i])
  {
    if xs == [] then [] else [f(xs[0])] + Map(f, xs[1..])
  }

  /** `Value::pointer`. */
  function ReadPointer(value: Json, pointer: string): Option<Json> {
    if pointer == "" then Some(value)
    else if pointer[0] != '/' then None
    else Get(value, Map(Unescape, Split(pointer, '/')[1..]))
  }

  // ---------- pointer tokens ----------

  /** Section 3 of RFC 6901: how a name is written inside a pointer. */
  function Escape(name: string): string {
    if name == "" then ""
    else (if name[0] == '~' then "~0" else if name[0] == '/' then "~1" else [name[0]]) + Escape(name[1..])
  }

  /** Every `~` introduces `~0` or `~1`. */
  predicate WellFormed(raw: string) {
    forall i | 0 <= i < |raw| && raw[i] == '~' :: i + 1 < |raw| && raw[i + 1] in "01"
  }

  function DecodeToken(raw: string): Option<string> {
    if raw == "" then Some("")
    else if raw[0] != '~' then
      Prepend([raw[0]], DecodeToken(raw[1..]))
    else if |raw| > 1 && raw[1] in "01" then
      Prepend([if raw[1] == '0' then '~' else '/'], DecodeToken(raw[2..]))
    else None
  }

  /** `decode_pointer_token`: one pass over the characters. */
  method DecodePointerToken(raw: string) returns (r: Result<string>)
    ensures r == match DecodeToken(raw) case Some(name) => Ok(name) case None => Err(Configuration)
  {
    var decoded := "";
    var i := 0;
    assert raw[i..] == raw;
    PrependNothing(DecodeToken(raw));
    while i < |raw|
      invariant i <= |raw|
      invariant DecodeToken(raw) == Prepend(decoded, DecodeToken(raw[i..]))
    {
      var character := raw[i];
      ghost var rest := raw[i..];
      assert rest[0] == character;
      i := i + 1;
      assert rest[1..] == raw[i..];
      if character != '~' {
        PrependTwice(decoded, [character], DecodeToken(raw[i..]));
        decoded := decoded + [character];
      } else {
        if i == |raw| {
          return Err(Configuration);
        }
        assert rest[2..] == raw[i + 1..];
        PrependTwice(decoded, [if raw[i] == '0' then '~' else '/'], DecodeToken(raw[i + 1..]));
        if raw[i] == '0' {
          decoded := decoded + ['~'];
        } else if raw[i] == '1' {
          decoded := decoded + ['/'];
        } else {
          return Err(Configuration);
        }
        i := i + 1;
      }
    }
    assert raw[i..] == "" && decoded + "" == decoded;
    r := Ok(decoded);
  }

  /** Exactly the malformed tokens are rejected. */
  lemma {:induction false} DecodeRejectsMalformed(raw: string)
    ensures DecodeToken(raw).Some? <==> WellFormed(raw)
  {
    if raw != "" {
      if raw[0] != '~' {
        DecodeRejectsMalformed(raw[1..]);
        assert forall i | 0 < i < |raw| :: raw[i] == raw[1..][i - 1];
        assert WellFormed(raw) ==> WellFormed(raw[1..]);
      } else if |raw| > 1 && raw[1] in "01" {
        DecodeRejectsMalformed(raw[2..]);
        assert forall i | 1 < i < |raw| :: raw[i] == raw[2..][i - 2];
        assert WellFormed(raw) ==> WellFormed(raw[2..]);
      }
    }
  }

  /** The single pass agrees with the standard's two replacements wherever it succeeds. */
  lemma {:induction false} DecodeIsUnescape(raw: string)
    requires WellFormed(raw)
    ensures DecodeToken(raw) == Some(Unescape(raw))
  {
    DecodeRejectsMalformed(raw);
    if raw != "" {
      var k := if raw[0] == '~' then 2 else 1;
      var rest := raw[k..];
      DecodeRejectsMalformed(rest);
      DecodeIsUnescape(rest);
      if k == 1 {
        assert raw == [raw[0]] + rest;
        UnescapePlain(raw[0], rest);
      } else if raw[1] == '0' {
        assert raw == "~0" + rest;
        UnescapeTilde(rest);
      } else {
        assert raw == "~1" + rest;
        UnescapeSlash(rest);
      }
    }
  }

  lemma UnescapePlain(c: char, rest: string)
    requires c != '~'
    ensures Unescape([c] + rest) == [c] + Unescape(rest)
  {
    ReplaceSkip(c, rest, "~1", "/");
    ReplaceSkip(c, Replace(rest, "~1", "/"), "~0", "~");
  }

  lemma UnescapeTilde(rest: string)
    ensures Unescape("~0" + rest) == "~" + Unescape(rest)
  {
    var once := Replace(rest, "~1", "/");
    ReplaceSkip('0', rest, "~1", "/");
    assert ("~0" + rest)[1..] == ['0'] + rest;
    assert Replace("~0" + rest, "~1", "/") == ['~'] + (['0'] + once);
    assert ['~'] + (['0'] + once) == "~0" + once;
    ReplaceHit(once, "~0", "~");
  }

  lemma UnescapeSlash(rest: string)
    ensures Unescape("~1" + rest) == "/" + Unescape(rest)
  {
    ReplaceHit(rest, "~1", "/");
    ReplaceSkip('/', Replace(rest, "~1", "/"), "~0", "~");
  }

  /** Among slash-free tokens, the one that decodes to a name is exactly its escaped form. */
  lemma {:induction false} DecodeInvertsEscape(raw: string, name: string)
    requires '/' !in raw
    ensures DecodeToken(raw) == Some(name) <==> raw == Escape(name)
  {
    if raw != "" && name != "" {
      var k := if raw[0] == '~' then 2 else 1;
      if k <= |raw| {
        DecodeInvertsEscape(raw[k..], name[1..]);
        assert raw == raw[..k] + raw[k..] && name == [name[0]] + name[1..];
        var e := if name[0] == '~' then "~0" else if name[0] == '/' then "~1" else [name[0]];
        assert Escape(name) == e + Escape(name[1..]);
        assert |e| == k && e == raw[..k] ==> (raw == Escape(name) <==> raw[k..] == Escape(name)[k..]);
      }
    }
  }

  // ---------- printed pointers ----------

  /** The pointer of a path, its names escaped. */
  function Printed(path: seq<string>): string {
    if path == [] then "" else ['/'] + (Escape(path[0]) + Printed(path[1..]))
  }

  lemma {:induction false} EscapedIsOneToken(name: string)
    ensures '/' !in Escape(name)
  {
    if name != "" {
      EscapedIsOneToken(name[1..]);
    }
  }

  lemma UnescapeInverts(name: string)
    ensures Unescape(Escape(name)) == name
  {
    EscapedIsOneToken(name);
    DecodeInvertsEscape(Escape(name), name);
    DecodeRejectsMalformed(Escape(name));
    DecodeIsUnescape(Escape(name));
  }

  lemma {:induction false} SplitPrinted(token: string, path: seq<string>)
    requires '/' !in token
    ensures Split(token + Printed(path), '/') == [token] + Map(Escape, path)
    decreases |path|
  {
    if path == [] {
      assert token + "" == token;
      SplitNone(token, '/');
    } else {
      EscapedIsOneToken(path[0]);
      SplitPrinted(Escape(path[0]), path[1..]);
      SplitStep(token, '/', Escape(path[0]) + Printed(path[1..]));
    }
  }

  /** A printed pointer leads where its path leads, and a text without a slash in front leads nowhere. */
  lemma PrintedPointerReads(value: Json, path: seq<string>, raw: string)
    ensures ReadPointer(value, Printed(path)) == Get(value, path)
    ensures raw != "" && raw[0] != '/' ==> ReadPointer(value, raw) == None
  {
    if path != [] {
      SplitPrinted("", path);
      var tokens := Map(Escape, path);
      assert "" + Printed(path) == Printed(path) && ([""] + tokens)[1..] == tokens;
      forall i | 0 <= i < |path|
        ensures Map(Unescape, tokens)[i] == path[i]
      {
        UnescapeInverts(path[i]);
      }
      assert Map(Unescape, tokens) == path;
    }
  }
}
