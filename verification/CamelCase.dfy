/**
 Column names of camel-case properties (`sanitize_identifier` in src/spec.rs). A name is written
 as words: the first in any case, each other one with a capital in front, and acronyms in capitals
 throughout. Every word is found again, in small letters and behind an underscore, as long as the
 start of a word behind an acronym can be told from the acronym's end by its second letter.
 */
module CamelCase {
  import opened Text
  import opened Identifiers

  /** A capitalised or plain word, or an acronym in capitals. */
  predicate IsWord(w: string) {
    && w != "" && (IsLower(w[0]) || IsUpper(w[0]))
    && ((forall i | 0 < i < |w| :: IsLower(w[i]) || IsDigit(w[i])) || forall i | 0 <= i < |w| :: IsUpper(w[i]))
  }

  predicate EndsInCapital(w: string) {
    w != "" && IsUpper(w[|w| - 1])
  }

  /** Behind capitals a word shows its start by its second letter. */
  predicate Follows(w: string, previous: string) {
    && w != "" && IsUpper(w[0])
    && (EndsInCapital(previous) ==> |w| >= 2 && IsLower(w[1]))
  }

  predicate AreCamel(words: seq<string>) {
    && (forall w <- words :: IsWord(w))
    && forall k | 0 < k < |words| :: FollowsAt(words, k)
  }

  predicate FollowsAt(words: seq<string>, k: nat)
    requires 0 < k < |words|
  {
    Follows(words[k], words[k - 1])
  }

  function Concat(words: seq<string>): string {
    if words == [] then "" else Concat(words[..|words| - 1]) + words[|words| - 1]
  }

  /** The same words in small letters with underscores between them. */
  function Snake(words: seq<string>): string {
    if words == [] then ""
    else if |words| == 1 then Lowercase(words[0])
    else Snake(words[..|words| - 1]) + "_" + Lowercase(words[|words| - 1])
  }

  /** Where a word stands. */
  lemma {:induction false} WordAt(words: seq<string>, n: nat)
    requires n < |words|
    ensures var k, w, raw := |Concat(words[..n])|, words[n], Concat(words);
      && k + |w| <= |raw| && raw[k..k + |w|] == w && raw[..k] == Concat(words[..n])
      && Concat(words[..n + 1]) == Concat(words[..n]) + w
    decreases |words|
  {
    assert words[..n + 1][..n] == words[..n];
    if n < |words| - 1 {
      var front := words[..|words| - 1];
      WordAt(front, n);
      assert front[..n] == words[..n];
    } else {
      assert words[..n + 1] == words;
    }
  }

  predicate IsInner(raw: string, i: nat)
    requires i < |raw|
  {
    IsAlphanumeric(raw[i]) && (IsUpper(raw[i]) ==> !WordStart(raw, i))
  }

  lemma OneMore(raw: string, i: nat)
    requires i < |raw| && IsInner(raw, i)
    ensures Words(raw, i + 1) == Words(raw, i) + [ToLower(raw[i])]
  {
  }

  lemma FirstLetter(sofar: string, c: char, rest: string)
    ensures sofar + [ToLower(c)] + Lowercase(rest) == sofar + Lowercase([c] + rest)
  {
    assert Lowercase([c] + rest) == [ToLower(c)] + Lowercase(rest);
  }

  ghost predicate AllInner(raw: string, k: nat, n: nat) {
    n <= |raw| && forall i | k <= i < n :: IsInner(raw, i)
  }

  lemma AllButFirst(raw: string, k: nat, n: nat)
    requires k < n && AllInner(raw, k, n)
    ensures IsInner(raw, k) && AllInner(raw, k + 1, n)
  {
  }

  /** Inside a word, every letter and digit is kept, in small. */
  lemma {:induction false} RestIsRead(raw: string, k: nat, n: nat, sofar: string, rest: string)
    requires k <= n && AllInner(raw, k, n) && raw[k..n] == rest && Words(raw, k) == sofar
    ensures Words(raw, n) == sofar + Lowercase(rest)
    decreases n - k
  {
    if k == n {
      assert sofar + Lowercase("") == sofar;
    } else {
      AllButFirst(raw, k, n);
      RestOfSlice(raw, k, n, rest);
      OneMore(raw, k);
      RestIsRead(raw, k + 1, n, sofar + [ToLower(raw[k])], rest[1..]);
      FirstLetter(sofar, raw[k], rest[1..]);
    }
  }

  lemma RestOfSlice(raw: string, k: nat, n: nat, rest: string)
    requires k < n <= |raw| && raw[k..n] == rest
    ensures rest != "" && raw[k + 1..n] == rest[1..] && rest == [raw[k]] + rest[1..]
  {
  }

  /** What stands around a word. */
  ghost predicate Placed(raw: string, k: nat, w: string) {
    && k + |w| <= |raw| && raw[k..k + |w|] == w
    && (k + |w| < |raw| ==> IsUpper(raw[k + |w|]))
  }

  lemma NoStartInside(raw: string, k: nat, w: string, i: nat)
    requires Placed(raw, k, w) && IsWord(w) && k < i < k + |w| && IsUpper(raw[i])
    ensures !WordStart(raw, i)
  {
    assert raw[i] == w[i - k] && raw[i - 1] == w[i - k - 1];
    if i + 1 < k + |w| {
      assert raw[i + 1] == w[i + 1 - k];
    }
  }

  lemma AllInside(raw: string, k: nat, w: string)
    requires Placed(raw, k, w) && IsWord(w)
    ensures AllInner(raw, k + 1, k + |w|)
  {
    forall i | k < i < k + |w|
      ensures IsInner(raw, i)
    {
      assert raw[i] == raw[k..k + |w|][i - k];
      if IsUpper(raw[i]) {
        NoStartInside(raw, k, w, i);
      }
    }
  }

  lemma WordIsRead(raw: string, k: nat, n: nat, w: string)
    requires Placed(raw, k, w) && IsWord(w) && n == k + |w|
    ensures Words(raw, n) == Words(raw, k + 1) + Lowercase(w[1..])
  {
    AllInside(raw, k, w);
    RestIsPlaced(raw, k, w);
    RestIsRead(raw, k + 1, n, Words(raw, k + 1), w[1..]);
  }

  lemma RestIsPlaced(raw: string, k: nat, w: string)
    requires Placed(raw, k, w) && w != ""
    ensures raw[k + 1..k + |w|] == w[1..]
  {
    assert raw[k + 1..k + |w|] == raw[k..k + |w|][1..];
  }

  lemma NextIsCapital(words: seq<string>, n: nat)
    requires AreCamel(words) && n < |words|
    ensures Placed(Concat(words), |Concat(words[..n])|, words[n])
  {
    WordAt(words, n);
    if n + 1 < |words| {
      WordAt(words, n + 1);
      assert FollowsAt(words, n + 1);
      var k, w, raw := |Concat(words[..n + 1])|, words[n + 1], Concat(words);
      assert raw[k] == raw[k..k + |w|][0];
    } else {
      assert words[..n + 1] == words;
    }
  }

  lemma WordStarts(raw: string, k: nat, w: string, previous: string)
    requires 0 < k && Placed(raw, k, w) && IsWord(previous) && Follows(w, previous)
    requires raw[k - 1] == previous[|previous| - 1]
    ensures Words(raw, k + 1) == Words(raw, k) + "_" + [ToLower(w[0])]
  {
    assert raw[k] == w[0];
    if EndsInCapital(previous) {
      assert raw[k + 1] == w[1];
    }
    assert WordStart(raw, k);
    assert Emit(raw, k, Words(raw, k)) == "_" + [ToLower(w[0])];
  }

  lemma FirstWord(raw: string, w: string)
    requires Placed(raw, 0, w) && IsWord(w)
    ensures Words(raw, |w|) == Lowercase(w)
  {
    FirstLetterIsRead(raw, w);
    WordIsRead(raw, 0, |w|, w);
    Joined("", w);
  }

  lemma FirstLetterIsRead(raw: string, w: string)
    requires Placed(raw, 0, w) && IsWord(w)
    ensures raw != "" && Words(raw, 1) == "" + [ToLower(w[0])]
  {
    assert raw[0] == raw[0..|w|][0];
    assert IsInner(raw, 0);
    OneMore(raw, 0);
    assert Words(raw, 0) == "";
  }

  lemma LaterWord(raw: string, k: nat, w: string, previous: string)
    requires 0 < k && Placed(raw, k, w) && IsWord(w) && IsWord(previous) && Follows(w, previous)
    requires raw[k - 1] == previous[|previous| - 1]
    ensures Words(raw, k + |w|) == Words(raw, k) + "_" + Lowercase(w)
  {
    WordIsRead(raw, k, k + |w|, w);
    WordStarts(raw, k, w, previous);
    Assembled(Words(raw, k + |w|), Words(raw, k + 1), Words(raw, k), w);
  }

  lemma Assembled(whole: string, started: string, before: string, w: string)
    requires w != "" && whole == started + Lowercase(w[1..]) && started == before + "_" + [ToLower(w[0])]
    ensures whole == before + "_" + Lowercase(w)
  {
    Joined(before + "_", w);
  }

  lemma Joined(sofar: string, w: string)
    requires w != ""
    ensures sofar + [ToLower(w[0])] + Lowercase(w[1..]) == sofar + Lowercase(w)
  {
    assert Lowercase(w) == [ToLower(w[0])] + Lowercase(w[1..]);
  }

  /** The name is read up to a word. */
  ghost predicate ReadTo(raw: string, k: nat, words: seq<string>) {
    k <= |raw| && Words(raw, k) == Snake(words)
  }

  lemma LaterIsRead(raw: string, k: nat, end: nat, front: seq<string>, w: string, previous: string,
                    longer: seq<string>)
    requires front != [] && ReadTo(raw, k, front) && end == k + |w| && longer == front + [w]
    requires 0 < k && Placed(raw, k, w) && IsWord(w) && IsWord(previous) && Follows(w, previous)
    requires raw[k - 1] == previous[|previous| - 1]
    ensures ReadTo(raw, end, longer)
  {
    LaterWord(raw, k, w, previous);
    SnakeStep(front, w);
  }

  lemma FirstIsRead(words: seq<string>)
    requires AreCamel(words) && words != []
    ensures ReadTo(Concat(words), |Concat(words[..1])|, words[..1])
  {
    WordAt(words, 0);
    NextIsCapital(words, 0);
    assert words[0] in words && words[..0] == [] && words[..1] == [words[0]];
    FirstWord(Concat(words), words[0]);
  }

  lemma NextIsRead(words: seq<string>, n: nat, raw: string, k: nat, end: nat, done: seq<string>, longer: seq<string>)
    requires AreCamel(words) && 0 < n < |words| && raw == Concat(words) && k == |Concat(words[..n])|
    requires done == words[..n] && ReadTo(raw, k, done) && end == k + |words[n]| && longer == done + [words[n]]
    ensures ReadTo(raw, end, longer)
  {
    NextIsCapital(words, n);
    PreviousEnds(words, n);
    assert words[n] in words;
    LaterIsRead(raw, k, end, done, words[n], words[n - 1], longer);
  }

  lemma OneWordLonger(words: seq<string>, n: nat)
    requires n < |words|
    ensures |Concat(words[..n + 1])| == |Concat(words[..n])| + |words[n]|
    ensures words[..n + 1] == words[..n] + [words[n]]
  {
    WordAt(words, n);
  }

  /** The name is read word by word. */
  lemma {:induction false} WordsAreRead(words: seq<string>, n: nat)
    requires AreCamel(words) && 0 < n <= |words|
    ensures ReadsUpTo(words, n)
  {
    if n == 1 {
      FirstIsRead(words);
    } else {
      WordsAreRead(words, n - 1);
      NextReads(words, n - 1);
    }
  }

  ghost predicate ReadsUpTo(words: seq<string>, n: nat)
    requires n <= |words|
  {
    ReadTo(Concat(words), |Concat(words[..n])|, words[..n])
  }

  lemma NextReads(words: seq<string>, n: nat)
    requires AreCamel(words) && 0 < n < |words| && ReadsUpTo(words, n)
    ensures ReadsUpTo(words, n + 1)
  {
    OneWordLonger(words, n);
    NextIsRead(words, n, Concat(words), |Concat(words[..n])|, |Concat(words[..n + 1])|, words[..n], words[..n + 1]);
  }

  lemma SnakeStep(front: seq<string>, w: string)
    requires front != []
    ensures Snake(front + [w]) == Snake(front) + "_" + Lowercase(w)
  {
    assert (front + [w])[..|front|] == front;
  }

  lemma PreviousEnds(words: seq<string>, n: nat)
    requires AreCamel(words) && 0 < n < |words|
    ensures var k, previous := |Concat(words[..n])|, words[n - 1];
      && 0 < k <= |Concat(words)| && IsWord(previous) && Follows(words[n], previous)
      && Concat(words)[k - 1] == previous[|previous| - 1]
  {
    WordAt(words, n - 1);
    assert words[n - 1] in words && FollowsAt(words, n);
    var j, w, raw := |Concat(words[..n - 1])|, words[n - 1], Concat(words);
    assert raw[j + |w| - 1] == raw[j..j + |w|][|w| - 1];
  }

  lemma {:induction false} SnakeEnds(words: seq<string>)
    requires words != [] && forall w <- words :: IsWord(w)
    ensures var s := Snake(words);
      s != "" && IsLower(s[0]) && s[|s| - 1] != '_'
  {
    assert words[|words| - 1] in words && words[0] in words;
    if |words| > 1 {
      SnakeEnds(words[..|words| - 1]);
    }
  }

  lemma WholeIsRead(words: seq<string>)
    requires words != [] && AreCamel(words)
    ensures Words(Concat(words), |Concat(words)|) == Snake(words)
  {
    WordsAreRead(words, |words|);
    assert words[..|words|] == words;
  }

  lemma NothingToTrim(s: string)
    requires s != "" && IsLower(s[0]) && s[|s| - 1] != '_'
    ensures Cap(MarkDigit(TrimEnd(TrimStart(s)))) == Cap(s)
  {
    assert TrimStart(s) == s;
    assert TrimEnd(s) == s;
  }

  /** The words of a camel-case name are found again, put in small letters and joined by underscores. */
  lemma CamelBecomesSnake(words: seq<string>)
    requires words != [] && AreCamel(words)
    ensures Sanitize(Concat(words)) == Cap(Snake(words))
  {
    WholeIsRead(words);
    SnakeEnds(words);
    NothingToTrim(Snake(words));
  }
}
