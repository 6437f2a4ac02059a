/**
 How a text becomes one URL path segment: its UTF-8 bytes, percent-encoded except for letters and
 digits (`NON_ALPHANUMERIC` in src/fdw.rs), and back (section 2.1 of RFC 3986). Encoding and
 decoding are written over bytes, and a character over the one to four bytes that RFC 3629 gives
 it, so that distinct texts can be told apart by their segments.
 */
module PercentEncoding {
  import opened Text

  type Byte = b: int | 0 <= b < 256

  // ---------- UTF-8 ----------

  function Utf8Char(c: char): seq<Byte> {
    var n := c as int;
    var n1 := n / 64;
    var n2 := n1 / 64;
    if n < 0x80 then [n]
    else if n < 0x800 then [0xC0 + n1, 0x80 + n % 64]
    else if n < 0x1_0000 then [0xE0 + n2, 0x80 + n1 % 64, 0x80 + n % 64]
    else [0xF0 + n2 / 64, 0x80 + n2 % 64, 0x80 + n1 % 64, 0x80 + n % 64]
  }

  function Utf8(s: string): seq<Byte> {
    if s == "" then [] else Utf8Char(s[0]) + Utf8(s[1..])
  }

  /** The length of a text in bytes. */
  function Bytes(s: string): nat {
    |Utf8(s)|
  }

  function Payload(bytes: seq<Byte>, i: nat): int {
    if i < |bytes| then bytes[i] as int - 0x80 else 0
  }

  /** The code point that a leading byte and its continuation bytes stand for. */
  function CodePoint(bytes: seq<Byte>): int {
    if bytes == [] then -1
    else
      var lead: int := bytes[0];
      if lead < 0x80 then lead
      else if lead < 0xE0 then (lead - 0xC0) * 64 + Payload(bytes, 1)
      else if lead < 0xF0 then ((lead - 0xE0) * 64 + Payload(bytes, 1)) * 64 + Payload(bytes, 2)
      else (((lead - 0xF0) * 64 + Payload(bytes, 1)) * 64 + Payload(bytes, 2)) * 64 + Payload(bytes, 3)
  }

  lemma CodePointOfChar(c: char, rest: seq<Byte>)
    ensures CodePoint(Utf8Char(c) + rest) == c as int
  {
  }

  lemma {:induction false} Utf8Injective(s: string, t: string)
    requires Utf8(s) == Utf8(t)
    ensures s == t
  {
    if s != "" && t != "" {
      CodePointOfChar(s[0], Utf8(s[1..]));
      CodePointOfChar(t[0], Utf8(t[1..]));
      var head := |Utf8Char(s[0])|;
      assert Utf8(s)[head..] == Utf8(s[1..]) && Utf8(t)[head..] == Utf8(t[1..]);
      Utf8Injective(s[1..], t[1..]);
      assert s == [s[0]] + s[1..] && t == [t[0]] + t[1..];
    }
  }

  // ---------- percent-encoding ----------

  function HexDigit(d: nat): (c: char)
    requires d < 16
    ensures IsAlphanumeric(c)
  {
    if d < 10 then Digit(d) else ('A' as int + d - 10) as char
  }

  function HexValue(c: char): Option<nat> {
    if IsDigit(c) then Some(c as int - '0' as int)
    else if 'A' <= c <= 'F' then Some(c as int - 'A' as int + 10)
    else if 'a' <= c <= 'f' then Some(c as int - 'a' as int + 10)
    else None
  }

  function EncodeByte(b: Byte): string {
    if b < 128 && IsAlphanumeric(b as char) then [b as char]
    else ['%', HexDigit(b / 16), HexDigit(b % 16)]
  }

  function Encode(bytes: seq<Byte>): (r: string)
    ensures forall c <- r :: IsAlphanumeric(c) || c == '%'
  {
    if bytes == [] then "" else EncodeByte(bytes[0]) + Encode(bytes[1..])
  }

  /** Section 2.1 of RFC 3986. */
  function Decode(s: string): Option<seq<Byte>> {
    if s == "" then Some([])
    else if s[0] == '%' then
      if |s| < 3 || HexValue(s[1]).None? || HexValue(s[2]).None? then None
      else Prepend([16 * HexValue(s[1]).value + HexValue(s[2]).value], Decode(s[3..]))
    else if s[0] as int >= 128 then None
    else Prepend([s[0] as int], Decode(s[1..]))
  }

  lemma {:induction false} DecodeEncode(bytes: seq<Byte>)
    ensures Decode(Encode(bytes)) == Some(bytes)
  {
    if bytes != [] {
      DecodeEncode(bytes[1..]);
      var head, tail := EncodeByte(bytes[0]), Encode(bytes[1..]);
      assert (head + tail)[|head|..] == tail;
      assert bytes == [bytes[0]] + bytes[1..];
    }
  }

  /** `utf8_percent_encode(text, NON_ALPHANUMERIC)`. */
  function Segment(text: string): (r: string)
    ensures forall c <- r :: IsAlphanumeric(c) || c == '%'
  {
    Encode(Utf8(text))
  }

  predicate StandsForItself(b: Byte) {
    b < 128 && IsAlphanumeric(b as char)
  }

  lemma {:induction false} EncodedIsLonger(bytes: seq<Byte>)
    ensures |Encode(bytes)| >= |bytes|
    ensures (exists b <- bytes :: !StandsForItself(b)) ==> |Encode(bytes)| > |bytes|
  {
    if bytes != [] {
      EncodedIsLonger(bytes[1..]);
      assert bytes == [bytes[0]] + bytes[1..];
    }
  }

  lemma {:induction false} BytesOfText(text: string)
    ensures |Utf8(text)| >= |text| && ('%' in text ==> '%' as int in Utf8(text))
  {
    if text != "" {
      BytesOfText(text[1..]);
      assert text == [text[0]] + text[1..];
    }
  }

  lemma {:induction false} LettersStay(text: string)
    requires forall c <- text :: IsAlphanumeric(c)
    ensures Segment(text) == text
  {
    if text != "" {
      assert text[0] in text && Utf8Char(text[0]) == [text[0] as int];
      assert forall c <- text[1..] :: c in text;
      LettersStay(text[1..]);
      assert Utf8(text)[1..] == Utf8(text[1..]);
    }
  }

  /** Texts of letters and digits stay as they are, and no others. */
  lemma PlainTextStays(text: string)
    ensures Segment(text) == text <==> forall c <- text :: IsAlphanumeric(c)
  {
    if forall c <- text :: IsAlphanumeric(c) {
      LettersStay(text);
    } else if Segment(text) == text {
      var c :| c in text && !IsAlphanumeric(c);
      assert c in Segment(text);
      BytesOfText(text);
      assert !StandsForItself('%' as int);
      EncodedIsLonger(Utf8(text));
    }
  }

  /** A segment decodes to the bytes of its text, and determines the text. */
  lemma SegmentInjective(a: string, b: string)
    ensures Decode(Segment(a)) == Some(Utf8(a))
    ensures Segment(a) == Segment(b) ==> a == b
  {
    DecodeEncode(Utf8(a));
    DecodeEncode(Utf8(b));
    if Segment(a) == Segment(b) {
      Utf8Injective(a, b);
    }
  }

  /** The segments a URL parser drops or climbs over come from the texts `.` and `..` alone. */
  lemma DotSegments(text: string)
    ensures Segment(text) == "%2E" <==> text == "."
    ensures Segment(text) == "%2E%2E" <==> text == ".."
  {
    assert Utf8(".") == Utf8Char('.') && Utf8("..") == Utf8Char('.') + Utf8(".");
    assert Encode([0x2E]) == "%2E" && Encode([0x2E, 0x2E]) == "%2E%2E";
    if Segment(text) == "%2E" {
      SegmentInjective(text, ".");
    } else if Segment(text) == "%2E%2E" {
      SegmentInjective(text, "..");
    }
  }
}
