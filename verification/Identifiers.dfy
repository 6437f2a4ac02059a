/**
 PostgreSQL identifiers made from API names (src/spec.rs): sanitizing, numbering repeated
 names, and searching for a free name. Names that are handed out one after the other are described
 as a sequence, so that their distinctness is a condition on the names asked for.
 Lengths count characters, which are bytes here: a sanitized name is ASCII.
 */
module Identifiers {
  import opened Text

  const MAX_LENGTH := 63

  function Cap(s: string): (r: string)
    ensures |r| <= MAX_LENGTH && r <= s
  {
    if |s| <= MAX_LENGTH then s else s[..MAX_LENGTH]
  }

  // ---------- sanitize_identifier ----------

  predicate IsIdentifierChar(c: char) {
    IsLower(c) || IsDigit(c) || c == '_'
  }

  /** Whether an upper-case letter at `i` starts a new word. */
  predicate WordStart(raw: string, i: nat)
    requires i < |raw|
  {
    && i > 0
    && (|| IsLower(raw[i - 1]) || IsDigit(raw[i - 1])
        || (IsUpper(raw[i - 1]) && i + 1 < |raw| && IsLower(raw[i + 1])))
  }

  /** What character `i` adds after the output so far. */
  function Emit(raw: string, i: nat, sofar: string): string
    requires i < |raw|
  {
    if IsUpper(raw[i]) then (if WordStart(raw, i) then "_" else "") + [ToLower(raw[i])]
    else if IsAlphanumeric(raw[i]) || raw[i] == '_' then [raw[i]]
    else if sofar != "" && sofar[|sofar| - 1] == '_' then ""
    else "_"
  }

  function Words(raw: string, n: nat): string
    requires n <= |raw|
  {
    if n == 0 then "" else Words(raw, n - 1) + Emit(raw, n - 1, Words(raw, n - 1))
  }

  function TrimStart(s: string): string {
    if s != "" && s[0] == '_' then TrimStart(s[1..]) else s
  }

  function TrimEnd(s: string): string {
    if s != "" && s[|s| - 1] == '_' then TrimEnd(s[..|s| - 1]) else s
  }

  function MarkDigit(s: string): string {
    if s != "" && IsDigit(s[0]) then "_" + s else s
  }

  function Sanitize(raw: string): string {
    Cap(MarkDigit(TrimEnd(TrimStart(Words(raw, |raw|)))))
  }

  /** `sanitize_identifier`. */
  method SanitizeIdentifier(raw: string) returns (r: string)
    ensures r == Sanitize(raw)
  {
    var result := "";
    for index := 0 to |raw|
      invariant result == Words(raw, index)
    {
      var character := raw[index];
      if IsUpper(character) {
        if WordStart(raw, index) {
          result := result + "_";
        }
        result := result + [ToLower(character)];
      } else if IsAlphanumeric(character) || character == '_' {
        result := result + [ToLower(character)];
      } else if result == "" || result[|result| - 1] != '_' {
        result := result + "_";
      }
    }
    result := TrimEnd(TrimStart(result));
    if result != "" && IsDigit(result[0]) {
      result := "_" + result;
    }
    if |result| > MAX_LENGTH {
      result := result[..MAX_LENGTH];
    }
    r := result;
  }

  ghost predicate IsIdentifier(s: string) {
    forall c <- s :: IsIdentifierChar(c)
  }

  lemma EmitShape(raw: string, i: nat, sofar: string)
    requires i < |raw|
    ensures IsIdentifier(Emit(raw, i, sofar))
  {
  }

  lemma ConcatShape(a: string, b: string)
    requires IsIdentifier(a) && IsIdentifier(b)
    ensures IsIdentifier(a + b)
  {
  }

  lemma {:induction false} WordsShape(raw: string, n: nat)
    requires n <= |raw|
    ensures IsIdentifier(Words(raw, n))
  {
    if n > 0 {
      WordsShape(raw, n - 1);
      EmitShape(raw, n - 1, Words(raw, n - 1));
      ConcatShape(Words(raw, n - 1), Emit(raw, n - 1, Words(raw, n - 1)));
    }
  }

  lemma {:induction false} TrimEndShape(s: string)
    ensures var t := TrimEnd(s);
      && t <= s
      && (t != "" ==> t[|t| - 1] != '_')
      && (t == s <==> s == "" || s[|s| - 1] != '_')
  {
    if s != "" {
      TrimEndShape(s[..|s| - 1]);
    }
  }

  lemma {:induction false} TrimStartShape(s: string)
    ensures var t := TrimStart(s);
      && |t| <= |s| && t == s[|s| - |t|..]
      && (t != "" ==> t[0] != '_')
  {
    if s != "" {
      TrimStartShape(s[1..]);
    }
  }

  /** The trimmed words: no underscore at either end. */
  lemma TrimmedShape(s: string)
    requires IsIdentifier(s)
    ensures var t := TrimEnd(TrimStart(s));
      IsIdentifier(t) && (t != "" ==> t[0] != '_' && t[|t| - 1] != '_')
  {
    TrimStartShape(s);
    TrimEndShape(TrimStart(s));
  }

  /** Names are usable as identifiers: plain characters, no leading digit, at most 63 bytes. */
  lemma SanitizeShape(raw: string)
    ensures var r := Sanitize(raw);
      IsIdentifier(r) && |r| <= MAX_LENGTH && (r != "" ==> !IsDigit(r[0]))
  {
    WordsShape(raw, |raw|);
    TrimmedShape(Words(raw, |raw|));
  }

  lemma {:induction false} WordsOfIdentifier(s: string, n: nat)
    requires n <= |s| && IsIdentifier(s)
    ensures Words(s, n) == s[..n]
  {
    if n > 0 {
      WordsOfIdentifier(s, n - 1);
      assert s[n - 1] in s;
      assert s[..n] == s[..n - 1] + [s[n - 1]];
    }
  }

  /** Sanitizing again changes nothing, except when the cut at 63 bytes left a trailing underscore. */
  lemma SanitizeIdempotent(raw: string)
    ensures var r := Sanitize(raw);
      Sanitize(r) == r <==> (r == "" || r[|r| - 1] != '_')
  {
    var r := Sanitize(raw);
    SanitizeShape(raw);
    SanitizedIdentifier(r);
    var trimmed := TrimEnd(TrimStart(Words(raw, |raw|)));
    TrimmedWords(raw);
    SanitizedAgain(r, trimmed);
  }

  lemma SanitizedIdentifier(s: string)
    requires IsIdentifier(s)
    ensures Sanitize(s) == Cap(MarkDigit(TrimEnd(TrimStart(s))))
  {
    WordsOfIdentifier(s, |s|);
    assert s[..|s|] == s;
  }

  lemma TrimmedWords(raw: string)
    ensures var trimmed := TrimEnd(TrimStart(Words(raw, |raw|)));
      trimmed != "" ==> trimmed[0] != '_' && trimmed[|trimmed| - 1] != '_'
  {
    WordsShape(raw, |raw|);
    TrimmedShape(Words(raw, |raw|));
  }

  lemma SanitizedAgain(r: string, trimmed: string)
    requires trimmed != "" ==> trimmed[0] != '_' && trimmed[|trimmed| - 1] != '_'
    requires r == Cap(MarkDigit(trimmed))
    ensures Cap(MarkDigit(TrimEnd(TrimStart(r)))) == r <==> (r == "" || r[|r| - 1] != '_')
  {
    if r != "" {
      MarkedShape(r, trimmed);
      MarkedTrims(r);
      TrimEndShape(TrimStart(r));
      MarkedAgain(r, TrimEnd(TrimStart(r)));
    }
  }

  /** A leading underscore is there exactly to mark a digit. */
  predicate IsMarked(r: string) {
    if r != "" && r[0] == '_' then |r| > 1 && IsDigit(r[1]) else r == "" || !IsDigit(r[0])
  }

  function Unmarked(r: string): string {
    if r != "" && r[0] == '_' then r[1..] else r
  }

  lemma MarkedShape(r: string, trimmed: string)
    requires trimmed != "" ==> trimmed[0] != '_'
    requires r == Cap(MarkDigit(trimmed))
    ensures IsMarked(r) && |r| <= MAX_LENGTH
  {
  }

  lemma MarkedTrims(r: string)
    requires IsMarked(r)
    ensures TrimStart(r) == Unmarked(r)
  {
    if r != "" && r[0] == '_' {
      assert TrimStart(r[1..]) == r[1..];
    }
  }

  lemma MarkedAgain(r: string, t: string)
    requires r != "" && IsMarked(r) && |r| <= MAX_LENGTH
    requires t <= Unmarked(r) && (t == Unmarked(r) <==> r[|r| - 1] != '_')
    ensures Cap(MarkDigit(t)) == r <==> r[|r| - 1] != '_'
  {
    if t == Unmarked(r) {
      assert MarkDigit(t) == r;
    } else {
      assert |MarkDigit(t)| < |r|;
    }
  }

  // ---------- numbering ----------

  function Suffix(n: nat): string {
    "_" + Decimal(n)
  }

  function Cut(key: string, n: nat): (r: string)
    ensures r <= key
  {
    var room := if |Suffix(n)| <= MAX_LENGTH then MAX_LENGTH - |Suffix(n)| else 0;
    if |key| <= room then key else key[..room]
  }

  /** The name given to the n-th occurrence of a key. */
  function Numbered(key: string, n: nat): string {
    if n == 1 then key else Cut(key, n) + Suffix(n)
  }

  lemma SuffixUnique(p: string, m: nat, q: string, n: nat)
    requires p + Suffix(m) == q + Suffix(n)
    ensures m == n && p == q
  {
    var s := p + Suffix(m);
    var a, b := |Decimal(m)|, |Decimal(n)|;
    assert s == q + Suffix(n);
    assert s[|s| - a - 1] == '_' && s[|s| - b - 1] == '_';
    assert Decimal(m) == s[|s| - a..] && Decimal(n) == s[|s| - b..];
    assert forall i | |s| - a <= i < |s| :: s[i] in Decimal(m) && IsDigit(s[i]);
    assert forall i | |s| - b <= i < |s| :: s[i] in Decimal(n) && IsDigit(s[i]);
    assert a == b;
    DecimalInjective(m, n);
    assert p == s[..|s| - a - 1] && q == s[..|s| - a - 1];
  }

  lemma NumberedUnique(a: string, m: nat, b: string, n: nat)
    requires m >= 2 && n >= 2 && Numbered(a, m) == Numbered(b, n)
    ensures m == n && Cut(a, m) == Cut(b, n)
  {
    SuffixUnique(Cut(a, m), m, Cut(b, n), n);
  }

  lemma NumberedLength(key: string, n: nat)
    requires |key| <= MAX_LENGTH && n < Power10(20)
    ensures |Numbered(key, n)| <= MAX_LENGTH
  {
    DecimalLength(n, 20);
  }

  /** The key `unique_identifier` counts: the base or its fallback, cut to 63 bytes. */
  function Key(base: string, fallback: string): string {
    Cap(if base == "" then fallback else base)
  }

  ghost function Count(keys: seq<string>, key: string): nat {
    if keys == [] then 0
    else Count(keys[..|keys| - 1], key) + if keys[|keys| - 1] == key then 1 else 0
  }

  /** How often key `i` has occurred once call `i` is made. */
  ghost function Occurrence(keys: seq<string>, i: nat): nat
    requires i < |keys|
  {
    Count(keys[..i + 1], keys[i])
  }

  /** The names that a sequence of calls hands out. */
  ghost function Names(keys: seq<string>): (names: seq<string>) {
    seq(|keys|, i requires 0 <= i < |keys| => NameAt(keys, i))
  }

  ghost function NameAt(keys: seq<string>, i: nat): string
    requires i < |keys|
  {
    Numbered(keys[i], Occurrence(keys, i))
  }

  lemma {:induction false} CountMember(keys: seq<string>, key: string)
    ensures key in keys <==> Count(keys, key) >= 1
  {
    if keys != [] {
      var last := |keys| - 1;
      CountMember(keys[..last], key);
      assert keys == keys[..last] + [keys[last]];
    }
  }

  lemma CountAppend(keys: seq<string>, last: string, key: string)
    ensures Count(keys + [last], key) == Count(keys, key) + if last == key then 1 else 0
  {
  }

  lemma {:induction false} CountPrefix(keys: seq<string>, i: nat, j: nat, key: string)
    requires i <= j <= |keys|
    ensures Count(keys[..i], key) <= Count(keys[..j], key)
  {
    if i < j {
      CountPrefix(keys, i, j - 1, key);
      assert keys[..j][..j - 1] == keys[..j - 1];
    }
  }

  lemma OccurrenceBounds(keys: seq<string>, i: nat)
    requires i < |keys|
    ensures 1 <= Occurrence(keys, i) <= Count(keys, keys[i])
  {
    CountPrefix(keys, i + 1, |keys|, keys[i]);
    assert keys[..|keys|] == keys;
    assert keys[..i + 1][..i] == keys[..i];
  }

  lemma OccurrenceAppend(keys: seq<string>, last: string, i: nat)
    requires i < |keys|
    ensures Occurrence(keys + [last], i) == Occurrence(keys, i)
  {
    assert (keys + [last])[..i + 1] == keys[..i + 1];
  }

  lemma NamesAppend(keys: seq<string>, last: string)
    ensures Names(keys + [last]) == Names(keys) + [Numbered(last, Count(keys, last) + 1)]
  {
    var all := keys + [last];
    NameAdded(keys, last);
    forall i | 0 <= i < |keys|
      ensures NameAt(all, i) == NameAt(keys, i)
    {
      NameKept(keys, last, i);
    }
    Extended(Names(keys), Names(all), NameAt(all, |keys|));
  }

  lemma Extended<T>(front: seq<T>, all: seq<T>, last: T)
    requires |all| == |front| + 1 && all[|front|] == last
    requires forall i | 0 <= i < |front| :: all[i] == front[i]
    ensures all == front + [last]
  {
  }

  lemma NameAdded(keys: seq<string>, last: string)
    ensures NameAt(keys + [last], |keys|) == Numbered(last, Count(keys, last) + 1)
  {
    assert (keys + [last])[..|keys| + 1] == keys + [last];
    CountAppend(keys, last, last);
  }

  lemma NameKept(keys: seq<string>, last: string, i: nat)
    requires i < |keys|
    ensures NameAt(keys + [last], i) == NameAt(keys, i)
  {
    OccurrenceAppend(keys, last, i);
  }

  /** The counters after a sequence of calls. */
  ghost predicate Counted(seen: map<string, nat>, keys: seq<string>) {
    forall key :: Count(keys, key) == Seen(seen, key)
  }

  function Seen(seen: map<string, nat>, key: string): nat {
    if key in seen then seen[key] else 0
  }

  lemma CountedNext(seen: map<string, nat>, keys: seq<string>, key: string)
    requires Counted(seen, keys)
    ensures Counted(seen[key := Seen(seen, key) + 1], keys + [key])
    ensures Names(keys + [key]) == Names(keys) + [Numbered(key, Seen(seen, key) + 1)]
  {
    assert Seen(seen, key) == Count(keys, key);
    NamesAppend(keys, key);
    CountedAppend(seen, keys, key);
  }

  lemma CountedAppend(seen: map<string, nat>, keys: seq<string>, key: string)
    requires Counted(seen, keys)
    ensures Counted(seen[key := Count(keys, key) + 1], keys + [key])
  {
    forall other
      ensures Count(keys + [key], other) == Seen(seen[key := Count(keys, key) + 1], other)
    {
      CountAppend(keys, key, other);
      assert Count(keys, other) == Seen(seen, other);
    }
  }

  /** `unique_identifier`: the next call in a sequence continues `Names`. */
  method UniqueIdentifier(base: string, fallback: string, seen: map<string, nat>, ghost keys: seq<string>)
    returns (name: string, seen': map<string, nat>)
    requires Counted(seen, keys)
    ensures Counted(seen', keys + [Key(base, fallback)])
    ensures Names(keys + [Key(base, fallback)]) == Names(keys) + [name]
  {
    var key := if base == "" then fallback else base;
    if |key| > MAX_LENGTH {
      key := key[..MAX_LENGTH];
    }
    var occurrence := (if key in seen then seen[key] else 0) + 1;
    seen' := seen[key := occurrence];
    if occurrence == 1 {
      name := key;
    } else {
      var suffix := "_" + Decimal(occurrence);
      var room := if |suffix| <= MAX_LENGTH then MAX_LENGTH - |suffix| else 0;
      name := key[..if |key| <= room then |key| else room] + suffix;
    }
    assert name == Numbered(key, occurrence);
    assert key == Key(base, fallback);
    CountedNext(seen, keys, key);
  }

  /**
   When the numbered names clash with nothing: no numbered name is itself a key, and no
   two keys that both occur n times are cut to the same stem.
   */
  ghost predicate CollisionFree(keys: seq<string>) {
    forall b, n: nat | b in keys && 2 <= n <= Count(keys, b) ::
      && Numbered(b, n) !in keys
      && forall d | d in keys && d != b && n <= Count(keys, d) :: Cut(d, n) != Cut(b, n)
  }

  /** Every occurrence number up to the count is reached. */
  lemma {:induction false} OccurrenceAt(keys: seq<string>, key: string, n: nat) returns (i: nat)
    requires 1 <= n <= Count(keys, key)
    ensures i < |keys| && keys[i] == key && Occurrence(keys, i) == n
  {
    var last := |keys| - 1;
    if Count(keys[..last], key) >= n {
      i := OccurrenceAt(keys[..last], key, n);
      assert keys[..last][..i + 1] == keys[..i + 1];
    } else {
      i := last;
      assert keys[..last + 1] == keys;
    }
  }

  /** The names are pairwise distinct exactly when the keys are collision-free. */
  lemma NamesDistinct(keys: seq<string>)
    ensures Distinct(Names(keys)) <==> CollisionFree(keys)
  {
    if CollisionFree(keys) {
      forall i, j | 0 <= i < j < |keys|
        ensures Names(keys)[i] != Names(keys)[j]
      {
        NoClash(keys, i, j);
      }
    } else {
      var b, n: nat :| && b in keys && 2 <= n <= Count(keys, b)
        && !(&& Numbered(b, n) !in keys
             && forall d | d in keys && d != b && n <= Count(keys, d) :: Cut(d, n) != Cut(b, n));
      var i := OccurrenceAt(keys, b, n);
      var d, m := Numbered(b, n), 1;
      if d in keys {
        CountMember(keys, d);
      } else {
        d, m :| d in keys && d != b && n <= Count(keys, d) && Cut(d, n) == Cut(b, n) && m == n;
      }
      var j := OccurrenceAt(keys, d, m);
      assert i != j && Names(keys)[i] == Names(keys)[j];
    }
  }

  lemma NoClash(keys: seq<string>, i: nat, j: nat)
    requires CollisionFree(keys) && i < j < |keys|
    ensures Names(keys)[i] != Names(keys)[j]
  {
    var m, n := Occurrence(keys, i), Occurrence(keys, j);
    OccurrenceBounds(keys, i);
    OccurrenceBounds(keys, j);
    CountPrefix(keys, i + 1, j, keys[i]);
    assert keys[..j + 1][..j] == keys[..j];
    if Names(keys)[i] == Names(keys)[j] && m >= 2 && n >= 2 {
      NumberedUnique(keys[i], m, keys[j], n);
    }
  }

  /** Nothing here ends in an underscore and a number, and no suffix forces a cut. */
  ghost predicate Plain(keys: seq<string>) {
    && (forall key, p, n | key in keys && n >= 2 :: key != p + Suffix(n))
    && (forall key, n: nat | key in keys && n <= Count(keys, key) :: Cut(key, n) == key)
  }

  lemma PlainKeysAreDistinct(keys: seq<string>)
    requires Plain(keys)
    ensures Distinct(Names(keys))
  {
    forall b, n: nat | b in keys && 2 <= n <= Count(keys, b)
      ensures Numbered(b, n) !in keys
    {
      assert Numbered(b, n) == b + Suffix(n);
    }
    NamesDistinct(keys);
  }

  lemma CountPair(x: string, y: string)
    ensures Count([x], y) == if x == y then 1 else 0
    ensures x != y ==> Count([x, x], x) == 2 && Count([x, x, y], y) == 1 && Count([x, x, y, y], y) == 2
  {
    assert [] + [x] == [x] && [x] + [x] == [x, x] && [x, x] + [y] == [x, x, y] && [x, x, y] + [y] == [x, x, y, y];
    CountAppend([], x, x);
    CountAppend([x], x, x);
    CountAppend([x], x, y);
    CountAppend([x, x], y, y);
    CountAppend([x, x, y], y, y);
  }

  /** Distinctness is not unconditional: a base may already look numbered. */
  lemma NumberedNameTaken()
    ensures Names(["a", "a", "a_2"])[1] == "a_2" == Names(["a", "a", "a_2"])[2]
  {
    var keys := ["a", "a", "a_2"];
    assert Suffix(2) == "_2";
    CountPair("a", "a_2");
    assert keys[..2] == ["a", "a"] && keys[..3] == keys;
  }

  /** Nor for two long bases that differ only in the characters the suffix replaces. */
  lemma LongNamesMerge(stem: string)
    requires |stem| == 62
    ensures var names := Names([stem + "x", stem + "x", stem + "y", stem + "y"]);
      names[1] == stem[..61] + "_2" == names[3]
  {
    var x, y := stem + "x", stem + "y";
    var keys := [x, x, y, y];
    assert x[62] != y[62] && Suffix(2) == "_2";
    CountPair(x, y);
    assert x[..61] == stem[..61] == y[..61];
    assert keys[..2] == [x, x] && keys[..4] == keys;
  }

  // ---------- searching for a free name ----------

  ghost predicate Injective(candidate: nat -> string, start: nat) {
    forall i, j | start <= i < j :: candidate(i) != candidate(j)
  }

  ghost function Taken(candidate: nat -> string, used: set<string>, start: nat): set<string> {
    set name | name in used && exists i: nat :: start <= i && candidate(i) == name
  }

  lemma TakenShrinks(candidate: nat -> string, used: set<string>, start: nat)
    requires Injective(candidate, start) && candidate(start) in used
    ensures |Taken(candidate, used, start)| == |Taken(candidate, used, start + 1)| + 1
  {
    assert Taken(candidate, used, start) == Taken(candidate, used, start + 1) + {candidate(start)};
  }

  /** The first free candidate. Only so many candidates can be taken, so there is one. */
  ghost function FirstFree(candidate: nat -> string, used: set<string>, start: nat): (k: nat)
    requires Injective(candidate, start)
    ensures start <= k <= start + |Taken(candidate, used, start)|
    ensures candidate(k) !in used
    ensures forall i | start <= i < k :: candidate(i) in used
    decreases |Taken(candidate, used, start)|
  {
    if candidate(start) !in used then start
    else
      TakenShrinks(candidate, used, start);
      assert Injective(candidate, start + 1);
      FirstFree(candidate, used, start + 1)
  }

  /** Counting up from the start, the first free candidate is the first that is not taken. */
  lemma SearchStep(candidate: nat -> string, used: set<string>, start: nat, k: nat)
    requires Injective(candidate, start) && start <= k <= FirstFree(candidate, used, start)
    ensures candidate(k) !in used <==> k == FirstFree(candidate, used, start)
  {
  }
}
