/**
 Strings and results, as far as the wrapper's text handling needs them: searching,
 splitting, replacing, decimal numerals, and the byte-wise order that keeps `BTreeMap` and
 `BTreeSet` sorted. A string is a sequence of characters; its encoding as bytes is in
 `PercentEncoding`, where it matters.
 */
module Text {

  datatype Option<+T> = None | Some(value: T)

  /** The wrapper's error kinds; the message texts are not modelled. */
  datatype Error = Configuration | Http | Response | Spec | Conversion

  datatype Result<+T> = Ok(value: T) | Err(error: Error) {
    predicate IsFailure() {
      Err?
    }

    function PropagateFailure<U>(): Result<U>
      requires Err?
    {
      Err(error)
    }

    function Extract(): T
      requires Ok?
    {
      value
    }
  }

  function Prepend<T>(head: seq<T>, tail: Option<seq<T>>): Option<seq<T>> {
    if tail.Some? then Some(head + tail.value) else None
  }

  lemma PrependTwice<T>(a: seq<T>, b: seq<T>, tail: Option<seq<T>>)
    ensures Prepend(a, Prepend(b, tail)) == Prepend(a + b, tail)
  {
    if tail.Some? {
      assert a + (b + tail.value) == a + b + tail.value;
    }
  }

  lemma PrependNothing<T>(tail: Option<seq<T>>)
    ensures Prepend([], tail) == tail
  {
    if tail.Some? {
      assert [] + tail.value == tail.value;
    }
  }

  // ---------- searching ----------

  /** The position of the first `c`, or the length of `s` when there is none. */
  function IndexOf(s: string, c: char): (i: nat)
    ensures i <= |s|
    ensures i < |s| ==> s[i] == c
    ensures c !in s[..i]
  {
    if s == "" || s[0] == c then 0
    else
      assert s[..1 + IndexOf(s[1..], c)] == [s[0]] + s[1..][..IndexOf(s[1..], c)];
      1 + IndexOf(s[1..], c)
  }

  /** A first occurrence is found exactly behind a prefix free of the character. */
  lemma {:induction false} IndexOfAfter(a: string, c: char, b: string)
    requires c !in a
    ensures IndexOf(a + [c] + b, c) == |a|
  {
    if a != "" {
      IndexOfAfter(a[1..], c, b);
      assert (a + [c] + b)[1..] == a[1..] + [c] + b;
    }
  }

  ghost predicate OccursAt(p: string, s: string, i: nat) {
    i + |p| <= |s| && s[i..i + |p|] == p
  }

  ghost predicate Occurs(p: string, s: string) {
    exists i: nat :: OccursAt(p, s, i)
  }

  // ---------- splitting and joining ----------

  function Split(s: string, c: char): (parts: seq<string>)
    ensures |parts| >= 1
    decreases |s|
  {
    var i := IndexOf(s, c);
    if i == |s| then
      assert s[..i] == s;
      [s]
    else [s[..i]] + Split(s[i + 1..], c)
  }

  function Join(parts: seq<string>, sep: string): string {
    if |parts| == 0 then ""
    else if |parts| == 1 then parts[0]
    else parts[0] + sep + Join(parts[1..], sep)
  }

  lemma SplitStep(a: string, c: char, b: string)
    requires c !in a
    ensures Split(a + ([c] + b), c) == [a] + Split(b, c)
  {
    IndexOfAfter(a, c, b);
    var s := a + ([c] + b);
    assert s == a + [c] + b;
    assert s[..|a|] == a && s[|a| + 1..] == b;
  }

  lemma SplitNone(a: string, c: char)
    requires c !in a
    ensures Split(a, c) == [a]
  {
  }

  // ---------- replacing ----------

  /** Rust's `str::replace`: leftmost, non-overlapping. */
  function Replace(s: string, pat: string, with: string): string
    requires pat != ""
    decreases |s|
  {
    if pat <= s then with + Replace(s[|pat|..], pat, with)
    else if s == "" then ""
    else [s[0]] + Replace(s[1..], pat, with)
  }

  lemma ReplaceSkip(c: char, s: string, pat: string, with: string)
    requires pat != "" && pat[0] != c
    ensures Replace([c] + s, pat, with) == [c] + Replace(s, pat, with)
  {
  }

  lemma ReplaceHit(s: string, pat: string, with: string)
    requires pat != ""
    ensures Replace(pat + s, pat, with) == with + Replace(s, pat, with)
  {
  }

  /** At the front, or behind the first character. */
  lemma OccursSooner(pat: string, s: string)
    ensures pat <= s ==> Occurs(pat, s)
    ensures s != "" && Occurs(pat, s[1..]) ==> Occurs(pat, s)
  {
    if pat <= s {
      assert OccursAt(pat, s, 0);
    }
    if s != "" && Occurs(pat, s[1..]) {
      var i: nat :| OccursAt(pat, s[1..], i);
      assert OccursAt(pat, s, i + 1);
    }
  }

  lemma {:induction false} ReplaceAbsent(s: string, pat: string, with: string)
    requires pat != "" && !Occurs(pat, s)
    ensures Replace(s, pat, with) == s
    decreases |s|
  {
    OccursSooner(pat, s);
    if s != "" {
      ReplaceAbsent(s[1..], pat, with);
    }
  }

  // ---------- characters ----------

  predicate IsDigit(c: char) {
    '0' <= c <= '9'
  }

  predicate IsLower(c: char) {
    'a' <= c <= 'z'
  }

  predicate IsUpper(c: char) {
    'A' <= c <= 'Z'
  }

  predicate IsAlphanumeric(c: char) {
    IsDigit(c) || IsLower(c) || IsUpper(c)
  }

  function ToLower(c: char): char {
    if IsUpper(c) then (c as int + 32) as char else c
  }

  function Lowercase(s: string): (r: string)
    ensures |r| == |s|
  {
    seq(|s|, i requires 0 <= i < |s| => ToLower(s[i]))
  }

  function ToUpper(c: char): char {
    if IsLower(c) then (c as int - 32) as char else c
  }

  function Uppercase(s: string): (r: string)
    ensures |r| == |s|
  {
    seq(|s|, i requires 0 <= i < |s| => ToUpper(s[i]))
  }

  /** The letters pair up in their order, and nothing else has a case. */
  lemma CasesPairUp(k: nat)
    requires k < 26
    ensures var small, capital := "abcdefghijklmnopqrstuvwxyz"[k], "ABCDEFGHIJKLMNOPQRSTUVWXYZ"[k];
      && ToUpper(small) == capital && ToLower(capital) == small
      && ToUpper(capital) == capital && ToLower(small) == small
  {
  }

  lemma OthersHaveNoCase(c: char)
    requires c !in "abcdefghijklmnopqrstuvwxyz" && c !in "ABCDEFGHIJKLMNOPQRSTUVWXYZ"
    ensures ToUpper(c) == c && ToLower(c) == c && !IsLower(c) && !IsUpper(c)
  {
  }

  /** The Unicode `White_Space` characters that Rust's `trim` strips. */
  predicate IsWhitespace(c: char) {
    var u := c as int;
    || 0x09 <= u <= 0x0D || u == 0x20 || u == 0x85 || u == 0xA0 || u == 0x1680
    || 0x2000 <= u <= 0x200A || u == 0x2028 || u == 0x2029 || u == 0x202F || u == 0x205F || u == 0x3000
  }

  /** Twenty-five characters, counted off in order. */
  lemma WhitespaceIsExact(c: char)
    ensures IsWhitespace(c) <==>
      c in "\U{0009}\U{000A}\U{000B}\U{000C}\U{000D}\U{0020}\U{0085}\U{00A0}\U{1680}\U{2000}\U{2001}\U{2002}\U{2003}"
           + "\U{2004}\U{2005}\U{2006}\U{2007}\U{2008}\U{2009}\U{200A}\U{2028}\U{2029}\U{202F}\U{205F}\U{3000}"
  {
  }

  predicate IsBlank(s: string) {
    forall c <- s :: IsWhitespace(c)
  }

  // ---------- decimal numerals ----------

  function Digit(d: nat): (c: char)
    requires d < 10
    ensures IsDigit(c)
  {
    ('0' as int + d) as char
  }

  function Decimal(n: nat): (s: string)
    ensures s != "" && forall c <- s :: IsDigit(c)
  {
    if n < 10 then [Digit(n)] else Decimal(n / 10) + [Digit(n % 10)]
  }

  lemma {:induction false} DecimalInjective(m: nat, n: nat)
    requires Decimal(m) == Decimal(n)
    ensures m == n
  {
    var a, b := Decimal(m), Decimal(n);
    assert a[|a| - 1] == Digit(m % 10) && b[|b| - 1] == Digit(n % 10);
    if m < 10 || n < 10 {
      assert |a| == 1;
    } else {
      assert Decimal(m / 10) == a[..|a| - 1] && Decimal(n / 10) == b[..|b| - 1];
      DecimalInjective(m / 10, n / 10);
    }
  }

  function Power10(k: nat): nat {
    if k == 0 then 1 else 10 * Power10(k - 1)
  }

  lemma {:induction false} DecimalLength(n: nat, k: nat)
    requires 1 <= k && n < Power10(k)
    ensures |Decimal(n)| <= k
  {
    if n >= 10 {
      assert Power10(0) == 1;
      DecimalLength(n / 10, k - 1);
    }
  }

  // ---------- order ----------

  /** Lexicographic order; on well-formed text it agrees with the order of the UTF-8 bytes. */
  predicate Before(a: string, b: string) {
    b != "" && (a == "" || a[0] < b[0] || (a[0] == b[0] && Before(a[1..], b[1..])))
  }

  /** Texts differ first at `k`: the one ends there, or has the smaller character. */
  predicate DiffersAt(a: string, b: string, k: nat) {
    k <= |a| && k < |b| && a[..k] == b[..k] && (k == |a| || a[k] < b[k])
  }

  lemma DiffersLater(a: string, b: string, k: nat)
    requires a != "" && b != "" && DiffersAt(a, b, k)
    ensures k == 0 || a[0] == b[0]
  {
    if k > 0 {
      assert a[..k][0] == a[0] && b[..k][0] == b[0];
    }
  }

  lemma {:induction false} BeforeIsExact(a: string, b: string)
    ensures Before(a, b) <==> exists k: nat :: DiffersAt(a, b, k)
  {
    if a != "" && b != "" && a[0] == b[0] {
      BeforeIsExact(a[1..], b[1..]);
      if k: nat :| DiffersAt(a[1..], b[1..], k) {
        assert a[..k + 1] == [a[0]] + a[1..][..k] && b[..k + 1] == [b[0]] + b[1..][..k];
        assert DiffersAt(a, b, k + 1);
      }
      if k: nat :| DiffersAt(a, b, k) {
        assert k > 0 && a[1..][..k - 1] == a[..k][1..] && b[1..][..k - 1] == b[..k][1..];
        assert DiffersAt(a[1..], b[1..], k - 1);
      }
    } else if a != "" && b != "" {
      forall k: nat | DiffersAt(a, b, k)
        ensures k == 0 || a[0] == b[0]
      {
        DiffersLater(a, b, k);
      }
      assert a[0] < b[0] ==> DiffersAt(a, b, 0);
    } else {
      assert b != "" ==> DiffersAt(a, b, 0);
    }
  }

  lemma {:induction false} BeforeTotal(a: string, b: string)
    ensures a == b || Before(a, b) || Before(b, a)
    ensures !(Before(a, b) && Before(b, a))
    ensures !Before(a, a)
  {
    if a != "" {
      BeforeTotal(a[1..], a[1..]);
    }
    if a != "" && b != "" {
      BeforeTotal(a[1..], b[1..]);
      assert a == [a[0]] + a[1..] && b == [b[0]] + b[1..];
    }
  }

  lemma {:induction false} BeforeTransitive(a: string, b: string, c: string)
    requires Before(a, b) && Before(b, c)
    ensures Before(a, c)
  {
    if a != "" && a[0] == b[0] == c[0] {
      BeforeTransitive(a[1..], b[1..], c[1..]);
    }
  }

  ghost predicate Sorted(keys: seq<string>) {
    forall i, j :: 0 <= i < j < |keys| ==> Before(keys[i], keys[j])
  }

  ghost predicate Distinct<T>(xs: seq<T>) {
    forall i, j :: 0 <= i < j < |xs| ==> xs[i] != xs[j]
  }

  lemma SortedDistinct(keys: seq<string>)
    requires Sorted(keys)
    ensures Distinct(keys)
  {
    forall i, j | 0 <= i < j < |keys|
      ensures keys[i] != keys[j]
    {
      BeforeTotal(keys[i], keys[j]);
    }
  }

  predicate IsFirst(keys: set<string>, first: string) {
    first in keys && forall k <- keys :: k == first || Before(first, k)
  }

  lemma {:induction false} FirstExists(keys: set<string>)
    requires keys != {}
    ensures exists first :: first in keys && IsFirst(keys, first)
    decreases |keys|
  {
    var x :| x in keys;
    var rest := keys - {x};
    if rest == {} {
      assert forall k <- keys :: k == x || k in rest;
      assert IsFirst(keys, x);
    } else {
      FirstExists(rest);
      var y :| y in rest && IsFirst(rest, y);
      BeforeTotal(x, y);
      if Before(y, x) {
        assert forall k <- keys :: k == x || k in rest;
        assert IsFirst(keys, y);
      } else {
        forall k | k in rest
          ensures Before(x, k)
        {
          if k != y {
            BeforeTransitive(x, y, k);
          }
        }
        assert forall k <- keys :: k == x || k in rest;
        assert IsFirst(keys, x);
      }
    }
  }

  lemma FirstUnique(keys: set<string>)
    ensures forall x, y | IsFirst(keys, x) && IsFirst(keys, y) :: x == y
  {
    forall x, y | IsFirst(keys, x) && IsFirst(keys, y)
      ensures x == y
    {
      BeforeTotal(x, y);
    }
  }

  function First(keys: set<string>): (first: string)
    requires keys != {}
    ensures IsFirst(keys, first)
  {
    FirstExists(keys);
    FirstUnique(keys);
    var first :| first in keys && IsFirst(keys, first);
    first
  }

  /** A set in ascending order: how a `BTreeSet`, or the keys of a `BTreeMap`, iterate. */
  function InOrder(keys: set<string>): (r: seq<string>)
    ensures Sorted(r)
    ensures forall k :: k in r <==> k in keys
    decreases |keys|
  {
    if keys == {} then []
    else
      var first := First(keys);
      var rest := InOrder(keys - {first});
      assert forall j | 0 <= j < |rest| :: rest[j] in keys - {first};
      [first] + rest
  }
}
