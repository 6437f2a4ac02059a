/**
 Secret redaction (src/options.rs): the list of a server's secrets, and what replacing them
 one after the other hides.
 */
module Redaction {
  import opened Text
  import opened PercentEncoding

  const MARK := "[REDACTED]"

  // ---------- redact ----------

  function RedactOne(text: string, secret: string): string {
    if secret == "" then text else Replace(text, secret, MARK)
  }

  /** `redact`: every secret in turn, in the text that the previous ones left. */
  function Redact(secrets: seq<string>, text: string): string {
    if secrets == [] then text
    else RedactOne(Redact(secrets[..|secrets| - 1], text), secrets[|secrets| - 1])
  }

  /** Laid side by side from their first characters, two texts agree as far as both go. */
  predicate Agree(a: string, b: string) {
    a <= b || b <= a
  }

  /** The text cannot begin before a mark and go on into it, whatever surrounds them. */
  predicate NeverRunsInto(t: string) {
    forall j | 0 <= j < |t| :: !Agree(t[j..], MARK)
  }

  /** The text cannot begin inside a mark. */
  predicate NeverLeaves(t: string) {
    forall i | 0 <= i < |MARK| :: !Agree(t, MARK[i..])
  }

  /** However the text and the mark overlap, they differ somewhere. */
  predicate Apart(t: string) {
    NeverRunsInto(t) && NeverLeaves(t)
  }

  /** A text that runs into no mark is not begun by one. */
  lemma {:induction false} PrefixComesFromText(t: string, text: string, secret: string)
    requires secret != "" && NeverRunsInto(t) && t <= Replace(text, secret, MARK)
    ensures t <= text && (t == secret ==> !(secret <= text))
    decreases |text|
  {
    if secret <= text {
      assert t[0..] == t;
    } else if text != "" && t != "" {
      assert forall j | 0 <= j < |t[1..]| :: t[1..][j..] == t[j + 1..];
      PrefixComesFromText(t[1..], text[1..], secret);
      assert t == [t[0]] + t[1..] && text == [text[0]] + text[1..];
    }
  }

  lemma NotInMark(t: string, rest: string, i: nat)
    requires NeverLeaves(t) && i < |MARK|
    ensures !OccursAt(t, MARK + rest, i)
  {
    assert (MARK + rest)[i..] == MARK[i..] + rest;
    OccursAtPrefix(t, MARK + rest, i);
    assert !Agree(t, MARK[i..]);
    PrefixAgrees(t, MARK[i..], rest);
  }

  lemma OccursAtPrefix(t: string, s: string, i: nat)
    requires i <= |s|
    ensures OccursAt(t, s, i) <==> t <= s[i..]
  {
  }

  lemma PrefixAgrees(t: string, a: string, b: string)
    ensures t <= a + b ==> Agree(t, a)
  {
  }

  lemma ShiftOccurrence(t: string, a: string, b: string, i: nat)
    requires |a| <= i
    ensures OccursAt(t, a + b, i) <==> OccursAt(t, b, i - |a|)
  {
  }

  lemma OccursBehind(t: string, a: string, b: string)
    requires Occurs(t, b)
    ensures Occurs(t, a + b)
  {
    var i: nat :| OccursAt(t, b, i);
    ShiftOccurrence(t, a, b, |a| + i);
  }

  /** Replacing one secret creates no text that stays apart from the mark, and removes its own. */
  lemma {:induction false} ReplaceCreatesNothing(t: string, text: string, secret: string, i: nat)
    requires secret != "" && Apart(t) && OccursAt(t, Replace(text, secret, MARK), i)
    ensures Occurs(t, text) && t != secret
    decreases |text|
  {
    if secret <= text {
      var rest := text[|secret|..];
      if i < |MARK| {
        NotInMark(t, Replace(rest, secret, MARK), i);
      } else {
        ShiftOccurrence(t, MARK, Replace(rest, secret, MARK), i);
        ReplaceCreatesNothing(t, rest, secret, i - |MARK|);
        OccursBehind(t, secret, rest);
        assert text == secret + rest;
      }
    } else if i == 0 {
      PrefixComesFromText(t, text, secret);
      assert OccursAt(t, text, 0);
    } else {
      ShiftOccurrence(t, [text[0]], Replace(text[1..], secret, MARK), i);
      ReplaceCreatesNothing(t, text[1..], secret, i - 1);
      OccursBehind(t, [text[0]], text[1..]);
      assert text == [text[0]] + text[1..];
    }
  }

  /** No non-empty secret is left in any redacted text. */
  ghost predicate Hides(secrets: seq<string>) {
    forall text, secret | secret in secrets && secret != "" :: !Occurs(secret, Redact(secrets, text))
  }

  ghost predicate AvoidsMark(secrets: seq<string>) {
    forall secret <- secrets :: secret != "" ==> !Occurs(secret, MARK)
  }

  /** A listed secret that stays apart from the mark is in no redacted text, whatever else is listed. */
  lemma {:induction false} ApartIsHidden(secrets: seq<string>, text: string, secret: string)
    requires Apart(secret) && secret in secrets
    ensures !Occurs(secret, Redact(secrets, text))
  {
    var front, last := secrets[..|secrets| - 1], secrets[|secrets| - 1];
    assert secrets == front + [last];
    if last == "" {
      ApartIsNotEmpty(secret);
      ApartIsHidden(front, text, secret);
    } else if i: nat :| OccursAt(secret, Replace(Redact(front, text), last, MARK), i) {
      ReplaceCreatesNothing(secret, Redact(front, text), last, i);
      ApartIsHidden(front, text, secret);
    }
  }

  lemma ApartIsNotEmpty(t: string)
    requires Apart(t)
    ensures t != "" && !Occurs(t, MARK)
  {
    assert !Agree(t, MARK[0..]) && MARK + "" == MARK;
    forall i: nat | i < |MARK|
      ensures !OccursAt(t, MARK, i)
    {
      NotInMark(t, "", i);
    }
  }

  lemma OccursWithin(a: string, b: string, c: string)
    requires Occurs(a, b) && Occurs(b, c)
    ensures Occurs(a, c)
  {
    var i: nat :| OccursAt(a, b, i);
    var j: nat :| OccursAt(b, c, j);
    OccursAtWithin(a, b, c, i, j);
  }

  lemma OccursAtWithin(a: string, b: string, c: string, i: nat, j: nat)
    requires OccursAt(a, b, i) && OccursAt(b, c, j)
    ensures OccursAt(a, c, j + i)
  {
    forall k | 0 <= k < |a|
      ensures c[j + i + k] == a[k]
    {
      assert a[k] == b[i + k] && b[i + k] == c[j + (i + k)];
    }
  }

  /** A listed secret that is in no redacted text: it stays apart from the mark, or comes last and is never rebuilt. */
  ghost predicate Certain(secrets: seq<string>, core: string) {
    core in secrets && (Apart(core) || (core == secrets[|secrets| - 1] && Unbroken(core)))
  }

  /** Such a secret is part of this one. */
  ghost predicate Guarded(secrets: seq<string>, secret: string) {
    exists core <- secrets :: Certain(secrets, core) && Occurs(core, secret)
  }

  lemma GuardedIsHidden(secrets: seq<string>, text: string, secret: string)
    requires Guarded(secrets, secret)
    ensures !Occurs(secret, Redact(secrets, text))
  {
    var core :| core in secrets && Certain(secrets, core) && Occurs(core, secret);
    if Apart(core) {
      ApartIsHidden(secrets, text, core);
    } else {
      LastIsHidden(secrets, text);
    }
    if Occurs(secret, Redact(secrets, text)) {
      OccursWithin(core, secret, Redact(secrets, text));
    }
  }

  // ---------- the secret list ----------

  /** The order of the list: longer secrets first, equally long ones by their text. */
  predicate Precedes(a: string, b: string) {
    Bytes(a) > Bytes(b) || (Bytes(a) == Bytes(b) && Before(a, b))
  }

  /** How `sort_by` leaves the list. */
  ghost predicate Ordered(secrets: seq<string>) {
    forall i, j | 0 <= i < j < |secrets| :: secrets[i] == secrets[j] || Precedes(secrets[i], secrets[j])
  }

  /** `Vec::dedup`: drops every element equal to its predecessor. */
  function Dedup(secrets: seq<string>): seq<string> {
    if |secrets| <= 1 then secrets
    else
      var front, last := Dedup(secrets[..|secrets| - 1]), secrets[|secrets| - 1];
      if secrets[|secrets| - 2] == last then front else front + [last]
  }

  lemma {:induction false} DedupKeepsElements(secrets: seq<string>)
    ensures forall s :: s in Dedup(secrets) <==> s in secrets
    ensures secrets != [] ==> Dedup(secrets) != [] && Dedup(secrets)[|Dedup(secrets)| - 1] == secrets[|secrets| - 1]
  {
    if |secrets| > 1 {
      var front, last := secrets[..|secrets| - 1], secrets[|secrets| - 1];
      DedupKeepsElements(front);
      assert secrets == front + [last];
    }
  }

  lemma PrecedesIsStrict(a: string, b: string)
    ensures Precedes(a, b) ==> a != b && !Precedes(b, a)
  {
    BeforeTotal(a, b);
  }

  /** After sorting and deduplicating, every secret comes once, in strict order. */
  lemma {:induction false} DedupIsStrict(secrets: seq<string>)
    requires Ordered(secrets)
    ensures forall i, j | 0 <= i < j < |Dedup(secrets)| :: Precedes(Dedup(secrets)[i], Dedup(secrets)[j])
  {
    if |secrets| > 1 {
      var front, last := secrets[..|secrets| - 1], secrets[|secrets| - 1];
      DedupIsStrict(front);
      DedupKeepsElements(front);
      var kept := Dedup(front);
      if front[|front| - 1] != last {
        forall i | 0 <= i < |kept|
          ensures Precedes(kept[i], last)
        {
          assert kept[i] in front;
          var k :| 0 <= k < |front| && front[k] == kept[i];
          if kept[i] == last {
            assert Precedes(secrets[k], secrets[|front| - 1]) && Precedes(secrets[|front| - 1], secrets[|front|]);
            PrecedesIsStrict(secrets[k], secrets[|front| - 1]);
          }
        }
      }
    }
  }

  ghost predicate Strict(secrets: seq<string>) {
    forall i, j | 0 <= i < j < |secrets| :: Precedes(secrets[i], secrets[j])
  }

  // ---------- why the mark must be avoided ----------

  lemma {:induction false} AsciiBytes(s: string)
    ensures Bytes(s) >= |s|
    ensures (forall c <- s :: c as int < 0x80) ==> Bytes(s) == |s|
  {
    if s != "" {
      AsciiBytes(s[1..]);
      assert forall c <- s[1..] :: c in s;
      assert |Utf8Char(s[0])| >= 1 && (s[0] as int < 0x80 ==> |Utf8Char(s[0])| == 1);
      if forall c <- s :: c as int < 0x80 {
        assert s[0] in s;
      }
    }
  }

  /** A secret before `mark` in the list does not occur in it, so redaction reaches `mark` unchanged. */
  lemma LongerDoesNotOccur(longer: string, mark: string, i: nat)
    requires Precedes(longer, mark) && forall c <- mark :: c as int < 0x80
    ensures !OccursAt(longer, mark, i)
  {
    if OccursAt(longer, mark, i) {
      assert forall j | 0 <= j < |longer| :: longer[j] == mark[i + j] && mark[i + j] in mark;
      AsciiBytes(longer);
      AsciiBytes(mark);
      assert |longer| == |mark| && i == 0 && longer == mark;
      PrecedesIsStrict(longer, mark);
    }
  }

  lemma {:induction false} UntouchedBefore(secrets: seq<string>, mark: string)
    requires forall s <- secrets :: Precedes(s, mark)
    requires forall c <- mark :: c as int < 0x80
    ensures Redact(secrets, mark) == mark
  {
    if secrets != [] {
      var front, last := secrets[..|secrets| - 1], secrets[|secrets| - 1];
      UntouchedBefore(front, mark);
      assert last in secrets;
      if last != "" {
        forall i: nat
          ensures !OccursAt(last, mark, i)
        {
          LongerDoesNotOccur(last, mark, i);
        }
        ReplaceAbsent(mark, last, MARK);
      }
    }
  }

  lemma MarkStays(secret: string)
    requires secret != "" && !Occurs(secret, MARK)
    ensures RedactOne(MARK, secret) == MARK
  {
    ReplaceAbsent(MARK, secret, MARK);
  }

  lemma {:induction false} MarkStaysAfter(secrets: seq<string>, n: nat, text: string)
    requires n <= |secrets| && AvoidsMark(secrets[n..])
    requires Redact(secrets[..n], text) == MARK
    ensures Redact(secrets, text) == MARK
    decreases |secrets|
  {
    if n == |secrets| {
      assert secrets[..n] == secrets;
    } else {
      var front, last := secrets[..|secrets| - 1], secrets[|secrets| - 1];
      assert secrets[n..] == front[n..] + [last] && front[..n] == secrets[..n];
      MarkStaysAfter(front, n, text);
      assert last in secrets[n..];
      if last != "" {
        MarkStays(last);
      }
    }
  }

  lemma {:induction false} LastInMark(secrets: seq<string>) returns (k: nat)
    requires !AvoidsMark(secrets)
    ensures k < |secrets| && secrets[k] != "" && Occurs(secrets[k], MARK) && AvoidsMark(secrets[k + 1..])
  {
    var last := |secrets| - 1;
    if secrets[last] != "" && Occurs(secrets[last], MARK) {
      k := last;
      assert secrets[k + 1..] == [];
    } else {
      assert secrets == secrets[..last] + [secrets[last]];
      k := LastInMark(secrets[..last]);
      assert secrets[k + 1..] == secrets[..last][k + 1..] + [secrets[last]];
    }
  }

  lemma OccursInMark(secret: string)
    requires Occurs(secret, MARK)
    ensures forall c <- secret :: c as int < 0x80
  {
    var i: nat :| OccursAt(secret, MARK, i);
    assert forall j | 0 <= j < |MARK| :: MARK[j] as int < 0x80;
    assert forall j | 0 <= j < |secret| :: secret[j] == MARK[i + j];
  }

  /** A secret that is part of the mark comes back out of its own replacement. */
  lemma SecretInMarkSurvives(secrets: seq<string>)
    requires Strict(secrets) && !AvoidsMark(secrets)
    ensures !Hides(secrets)
  {
    var k := LastInMark(secrets);
    var secret := secrets[k];
    OccursInMark(secret);
    UntouchedBefore(secrets[..k], secret);
    assert secrets[..k + 1][..k] == secrets[..k];
    ReplaceWhole(secret);
    assert Redact(secrets[..k + 1], secret) == MARK;
    MarkStaysAfter(secrets, k + 1, secret);
    assert secret in secrets && Occurs(secret, Redact(secrets, secret));
  }

  lemma ReplaceWhole(secret: string)
    requires secret != ""
    ensures Replace(secret, secret, MARK) == MARK
  {
    ReplaceHit("", secret, MARK);
    assert secret + "" == secret && MARK + "" == MARK;
  }

  /**
   Redaction is complete only if no secret is part of the mark; and then it is complete, for
   every text, when every secret contains a listed one that stays apart from the mark, or the
   last one if that is never rebuilt.
   */
  lemma RedactionIsComplete(sorted: seq<string>)
    requires Ordered(sorted)
    ensures Hides(Dedup(sorted)) ==> AvoidsMark(sorted)
    ensures (forall secret <- sorted :: secret != "" ==> Occurs(secret, MARK) || Guarded(sorted, secret)) ==>
      (Hides(Dedup(sorted)) <==> AvoidsMark(sorted))
  {
    var secrets := Dedup(sorted);
    DedupKeepsElements(sorted);
    DedupIsStrict(sorted);
    if !AvoidsMark(sorted) {
      SecretInMarkSurvives(secrets);
    } else if forall secret <- sorted :: secret != "" ==> Occurs(secret, MARK) || Guarded(sorted, secret) {
      forall text, secret | secret in secrets && secret != ""
        ensures !Occurs(secret, Redact(secrets, text))
      {
        assert Guarded(sorted, secret);
        DedupKeepsGuard(sorted, secret);
        GuardedIsHidden(secrets, text, secret);
      }
    }
  }

  lemma DedupKeepsGuard(sorted: seq<string>, secret: string)
    requires Guarded(sorted, secret)
    ensures Guarded(Dedup(sorted), secret)
  {
    DedupKeepsElements(sorted);
    var core :| core in sorted && Certain(sorted, core) && Occurs(core, secret);
    assert core in Dedup(sorted) && Certain(Dedup(sorted), core);
  }

  predicate BracketFree(secret: string) {
    '[' !in secret && ']' !in secret
  }

  /** Without brackets, a text stays apart from the mark unless it is part of the word in it. */
  lemma BracketFreeIsApart(t: string)
    requires t != "" && BracketFree(t)
    ensures Apart(t) <==> !Occurs(t, "REDACTED")
    ensures Occurs(t, MARK) <==> Occurs(t, "REDACTED")
  {
    forall j | 0 <= j < |t|
      ensures !Agree(t[j..], MARK)
    {
      assert t[j..][0] in t && MARK[0] == '[';
    }
    forall i: nat | i < |MARK|
      ensures Agree(t, MARK[i..]) <==> i > 0 && OccursAt(t, "REDACTED", i - 1)
      ensures OccursAt(t, MARK, i) <==> Agree(t, MARK[i..])
    {
      BracketFreeInMark(t, i);
      OccursAtPrefix(t, MARK, i);
    }
    if k: nat :| OccursAt(t, "REDACTED", k) {
      assert Agree(t, MARK[k + 1..]);
    }
  }

  lemma BracketFreeInMark(t: string, i: nat)
    requires t != "" && BracketFree(t) && i < |MARK|
    ensures !(MARK[i..] <= t)
    ensures t <= MARK[i..] <==> i > 0 && OccursAt(t, "REDACTED", i - 1)
  {
    assert MARK[i..][9 - i] == ']' && MARK[0] == '[' && t[0] in t;
    assert |t| > 9 - i ==> t[9 - i] in t;
    if i > 0 {
      assert MARK[i..] == "REDACTED"[i - 1..] + "]";
      OccursAtPrefix(t, "REDACTED", i - 1);
      PrefixOrEnd(t, "REDACTED"[i - 1..], ']');
    }
  }

  lemma PrefixOrEnd(t: string, a: string, c: char)
    requires c !in t
    ensures t <= a + [c] <==> t <= a
  {
    assert t != "" ==> t[|t| - 1] in t;
  }

  /** For secrets without brackets the condition is exact: none of them is part of `REDACTED`. */
  lemma PlainSecretsAreHidden(sorted: seq<string>)
    requires Ordered(sorted) && forall secret <- sorted :: BracketFree(secret)
    ensures Hides(Dedup(sorted)) <==> forall secret <- sorted :: secret != "" ==> !Occurs(secret, "REDACTED")
  {
    forall secret | secret in sorted && secret != ""
      ensures Occurs(secret, MARK) <==> Occurs(secret, "REDACTED")
      ensures Occurs(secret, MARK) || Guarded(sorted, secret)
    {
      BracketFreeIsApart(secret);
      if Apart(secret) {
        assert OccursAt(secret, secret, 0) && Certain(sorted, secret);
      }
    }
    RedactionIsComplete(sorted);
  }

  // ---------- one secret of any shape ----------

  /** The beginning of a secret put in front of the whole is not mistaken for its start. */
  ghost predicate FoundLast(t: string, j: nat)
    requires j <= |t|
  {
    forall p | 0 <= p < j :: !OccursAt(t, t[..j] + t, p)
  }

  /** The beginning of the secret, followed by a mark, looks like the secret. */
  ghost predicate Rebuilt(t: string, j: nat) {
    0 < j < |t| && Agree(t[j..], MARK) && FoundLast(t, j)
  }

  /** The secret cannot begin inside a mark, and no beginning of it is completed by one. */
  ghost predicate Unbroken(t: string) {
    NeverLeaves(t) && forall j: nat :: !Rebuilt(t, j)
  }

  lemma ReplaceMiss(c: char, s: string, t: string)
    requires t != "" && !(t <= [c] + s)
    ensures Replace([c] + s, t, MARK) == [c] + Replace(s, t, MARK)
  {
    assert ([c] + s)[1..] == s;
  }

  lemma NoneBefore(t: string, c: char, tail: string, k: nat)
    ensures (forall p | 0 <= p < k + 1 :: !OccursAt(t, [c] + tail, p)) <==>
      !(t <= [c] + tail) && forall p | 0 <= p < k :: !OccursAt(t, tail, p)
  {
    assert ([c] + tail)[0..] == [c] + tail;
    OccursAtPrefix(t, [c] + tail, 0);
    forall p: nat
      ensures OccursAt(t, [c] + tail, p + 1) <==> OccursAt(t, tail, p)
    {
      ShiftOccurrence(t, [c], tail, p + 1);
    }
    if !(t <= [c] + tail) && forall p | 0 <= p < k :: !OccursAt(t, tail, p) {
      forall p | 0 <= p < k + 1
        ensures !OccursAt(t, [c] + tail, p)
      {
        if p > 0 {
          ShiftOccurrence(t, [c], tail, p);
        }
      }
    }
  }

  lemma {:induction false} CopiedThenReplaced(t: string, front: string, rest: string)
    requires t != "" && forall p | 0 <= p < |front| :: !OccursAt(t, front + (t + rest), p)
    ensures Replace(front + (t + rest), t, MARK) == front + (MARK + Replace(rest, t, MARK))
    decreases |front|
  {
    if front == "" {
      ReplaceHit(rest, t, MARK);
      assert front + (t + rest) == t + rest;
    } else {
      var c, tail := front[0], front[1..] + (t + rest);
      PrependTo(c, front[1..], t + rest);
      PrependTo(c, front[1..], MARK + Replace(rest, t, MARK));
      assert front == [c] + front[1..];
      NoneBefore(t, c, tail, |front| - 1);
      ReplaceMiss(c, tail, t);
      CopiedThenReplaced(t, front[1..], rest);
    }
  }

  lemma PrependTo(c: char, a: string, b: string)
    ensures [c] + a + b == [c] + (a + b)
  {
  }

  /** The text up to the first replacement, or as far as it is looked at. */
  /** The text goes along with `u` for `j` characters, and then comes the first replacement, if not the end. */
  ghost predicate MarkAt(t: string, u: string, text: string, j: nat) {
    && j <= |u| && u[..j] <= text && (forall p | 0 <= p < j :: !OccursAt(t, text, p))
    && (j == |u| || (t <= text[j..] && Agree(u[j..], MARK)))
  }

  lemma {:induction false} FirstMark(t: string, u: string, text: string) returns (j: nat)
    requires t != "" && u <= Replace(text, t, MARK)
    ensures MarkAt(t, u, text, j)
    decreases |text|
  {
    if u == "" || t <= text {
      j := 0;
      assert text[0..] == text && u[0..] == u;
    } else {
      var c, tail, rest := text[0], text[1..], u[1..];
      assert text == [c] + tail && u == [c] + rest;
      var k := FirstMark(t, rest, tail);
      j := k + 1;
      MarkBehind(t, c, rest, tail, k);
    }
  }

  lemma MarkBehind(t: string, c: char, u: string, tail: string, k: nat)
    requires MarkAt(t, u, tail, k) && !(t <= [c] + tail)
    ensures MarkAt(t, [c] + u, [c] + tail, k + 1)
  {
    NoneBefore(t, c, tail, k);
    assert ([c] + u)[..k + 1] == [c] + u[..k] && ([c] + u)[k + 1..] == u[k..];
    assert ([c] + tail)[k + 1..] == tail[k..];
  }

  /** At the start of a text, the secret comes back only by being put together. */
  lemma NotAtStart(t: string, text: string)
    requires t != "" && !(t <= text) && forall j: nat :: !Rebuilt(t, j)
    ensures !(t <= Replace(text, t, MARK))
  {
    assert t[..|t|] == t && text[0..] == text;
    if t <= Replace(text, t, MARK) {
      var j := FirstMark(t, t, text);
      if 0 < j < |t| {
        RebuiltIn(t, text, j);
      }
    }
  }

  lemma RebuiltIn(t: string, text: string, j: nat)
    requires 0 < j < |t| && t[..j] <= text && t <= text[j..] && Agree(t[j..], MARK)
    requires forall p | 0 <= p < j :: !OccursAt(t, text, p)
    ensures Rebuilt(t, j)
  {
    assert text[..j] == t[..j] && text[j..j + |t|] == t;
    assert text[..j + |t|] == t[..j] + t;
    forall p | 0 <= p < j
      ensures !OccursAt(t, t[..j] + t, p)
    {
      assert !OccursAt(t, text, p);
      assert (t[..j] + t)[p..p + |t|] == text[p..p + |t|];
    }
  }

  lemma {:induction false} NotBroughtBack(t: string, text: string, i: nat)
    requires Unbroken(t) && t != ""
    ensures !OccursAt(t, Replace(text, t, MARK), i)
    decreases |text|
  {
    if t <= text {
      var rest := text[|t|..];
      if i < |MARK| {
        NotInMark(t, Replace(rest, t, MARK), i);
      } else {
        ShiftOccurrence(t, MARK, Replace(rest, t, MARK), i);
        NotBroughtBack(t, rest, i - |MARK|);
      }
    } else if i == 0 {
      NotAtStart(t, text);
    } else if text != "" {
      ShiftOccurrence(t, [text[0]], Replace(text[1..], t, MARK), i);
      NotBroughtBack(t, text[1..], i - 1);
    }
  }

  /** What comes last in a list cannot be put together by another secret's mark. */
  lemma LastIsHidden(secrets: seq<string>, text: string)
    requires secrets != [] && Unbroken(secrets[|secrets| - 1])
    ensures !Occurs(secrets[|secrets| - 1], Redact(secrets, text))
  {
    var t := secrets[|secrets| - 1];
    assert !Agree(t, MARK[0..]);
    forall i: nat
      ensures !OccursAt(t, Redact(secrets, text), i)
    {
      NotBroughtBack(t, Redact(secrets[..|secrets| - 1], text), i);
    }
  }

  lemma CharactersOfBoth(a: string, b: string, t: string)
    requires (forall c <- a :: c in t) && forall c <- b :: c in t
    ensures forall c <- a + b :: c in t
  {
  }

  /** A secret that begins inside a mark comes back behind one. */
  lemma LeavingComesBack(t: string, i: nat) returns (text: string)
    requires t != "" && i < |MARK| && Agree(t, MARK[i..])
    ensures Occurs(t, Replace(text, t, MARK)) && forall c <- text :: c in t
  {
    if t <= MARK[i..] {
      text := t;
      ReplaceWhole(t);
      assert OccursAt(t, MARK, i);
    } else {
      text := t + t[|MARK| - i..];
      OverhangComesBack(t, i, t[|MARK| - i..]);
    }
  }

  lemma OverhangComesBack(t: string, i: nat, rest: string)
    requires i < |MARK| && MARK[i..] <= t && rest == t[|MARK| - i..]
    ensures Occurs(t, Replace(t + rest, t, MARK)) && forall c <- t + rest :: c in t
  {
    OverhangCharacters(t, |MARK| - i);
    assert t == MARK[i..] + rest;
    OverhangStays(t, MARK, i, rest);
  }

  lemma OverhangStays(t: string, mark: string, i: nat, rest: string)
    requires i < |mark| && t == mark[i..] + rest
    ensures Occurs(t, Replace(t + rest, t, mark))
  {
    ReplaceHit(rest, t, mark);
    TooShort(t, rest);
    ReplaceAbsent(rest, t, mark);
    assert (mark + rest)[i..] == t;
    OccursAtPrefix(t, mark + rest, i);
  }

  lemma OverhangCharacters(t: string, k: nat)
    requires k <= |t|
    ensures forall c <- t + t[k..] :: c in t
  {
    assert forall c <- t[k..] :: c in t;
    CharactersOfBoth(t, t[k..], t);
  }

  lemma TooShort(t: string, s: string)
    requires |s| < |t|
    ensures !Occurs(t, s)
  {
  }

  /** A secret that looks like its own beginning and a mark comes back out of that beginning. */
  lemma RebuiltComesBack(t: string, j: nat) returns (text: string)
    requires Rebuilt(t, j)
    ensures Occurs(t, Replace(text, t, MARK)) && forall c <- text :: c in t
  {
    var front, rest := t[..j], t[if j + |MARK| <= |t| then j + |MARK| else |t|..];
    text := front + (t + rest);
    assert (forall c <- front :: c in t) && forall c <- rest :: c in t;
    CharactersOfBoth(t, rest, t);
    CharactersOfBoth(front, t + rest, t);
    forall p | 0 <= p < j
      ensures !OccursAt(t, text, p)
    {
      assert !OccursAt(t, front + t, p);
      assert text[p..p + |t|] == (front + t)[p..p + |t|];
    }
    CopiedThenReplaced(t, front, rest);
    ReplaceAbsent(rest, t, MARK);
    StartAndMark(t, j, rest);
    assert OccursAt(t, front + (MARK + rest), 0);
  }

  lemma StartAndMark(t: string, j: nat, rest: string)
    requires j < |t| && Agree(t[j..], MARK)
    requires rest == t[if j + |MARK| <= |t| then j + |MARK| else |t|..]
    ensures t <= t[..j] + (MARK + rest)
  {
    assert t == t[..j] + t[j..];
    if MARK <= t[j..] {
      assert t[j..] == MARK + rest;
    } else {
      assert t[j..] <= MARK + rest;
    }
  }

  /**
   A single secret, of any shape, is hidden from every text exactly when it cannot begin inside
   a mark, and no beginning of it is completed by a mark.
   */
  lemma OneSecretIsHidden(t: string)
    requires t != ""
    ensures Hides([t]) <==> Unbroken(t)
  {
    if Unbroken(t) {
      forall text
        ensures !Occurs(t, Redact([t], text))
      {
        LastIsHidden([t], text);
      }
    } else {
      var text := BrokenComesBack(t);
      assert [t][..0] == [] && Redact([t], text) == Replace(text, t, MARK);
      assert t in [t] && Occurs(t, Redact([t], text));
    }
  }

  /** Otherwise it comes back out of some text made of its own characters. */
  lemma BrokenComesBack(t: string) returns (text: string)
    requires t != "" && !Unbroken(t)
    ensures Occurs(t, Replace(text, t, MARK)) && forall c <- text :: c in t
  {
    if i: nat :| i < |MARK| && Agree(t, MARK[i..]) {
      text := LeavingComesBack(t, i);
    } else {
      var j: nat :| Rebuilt(t, j);
      text := RebuiltComesBack(t, j);
    }
  }

  /** Overlapping the mark is not enough: two opening brackets are never put together. */
  lemma TwoBracketsAreHidden()
    ensures !Apart("[[") && Hides(["[["])
  {
    var t := "[[";
    assert t[1..] == "[" && Agree(t[1..], MARK);
    assert t[0] == t[1] == '[';
    forall i: nat | i < |MARK|
      ensures !Agree(t, MARK[i..])
    {
      if i + 1 < |MARK| {
        assert MARK[i..][1] == MARK[i + 1] != '[';
      } else {
        assert MARK[i..][0] == ']';
      }
    }
    forall j: nat
      ensures !Rebuilt(t, j)
    {
      if j == 1 {
        assert t[..1] + t == "[[[";
        assert OccursAt(t, "[[[", 0);
      }
    }
    OneSecretIsHidden(t);
  }

  /** A mark can complete a secret: here `x[`. */
  lemma BracketedSecretSurvives()
    ensures !Hides(["x["])
  {
    var t := "x[";
    assert t[1..] == "[" && Agree(t[1..], MARK);
    assert t[..1] + t == "xx[";
    assert !OccursAt(t, "xx[", 0) by {
      assert "xx["[1] != t[1];
    }
    assert Rebuilt(t, 1);
    OneSecretIsHidden(t);
  }

  // ---------- which secrets are listed ----------

  /** The credential a request carries, as configured. */
  datatype Credential =
    | NoCredential
    | Bearer(token: string)
    | ApiKey(key: string, prefix: Option<string>)   // the prefix trimmed; none when blank

  /** The value sent in the authentication header or query pair. */
  function SentValue(credential: Credential): Option<string> {
    match credential
    case NoCredential => None
    case Bearer(token) => Some("Bearer " + token)
    case ApiKey(key, prefix) => Some(if prefix.Some? then prefix.value + " " + key else key)
  }

  function Configured(credential: Credential): seq<string> {
    match credential
    case NoCredential => []
    case Bearer(token) => [token]
    case ApiKey(key, _) => [key]
  }

  /** The list before sorting: custom header values, the configured secret, and the sent value. */
  function Collected(headers: seq<string>, credential: Credential): seq<string> {
    headers + Configured(credential) + (match SentValue(credential) case Some(value) => [value] case None => [])
  }

  /** A text that must not be shown: a custom header's value, the credential, or the header value made of it. */
  predicate IsSecret(headers: seq<string>, credential: Credential, text: string) {
    || text in headers
    || (match credential
        case NoCredential => false
        case Bearer(token) => text == token || text == "Bearer " + token
        case ApiKey(key, prefix) => text == key || (prefix.Some? && text == prefix.value + " " + key))
  }

  lemma SecretsAreCollected(headers: seq<string>, credential: Credential, text: string)
    ensures text in Collected(headers, credential) <==> IsSecret(headers, credential, text)
  {
  }

  /** Every secret of a server that stays apart from the mark is hidden, whatever else is listed. */
  lemma SecretsAreHidden(headers: seq<string>, credential: Credential, sorted: seq<string>, text: string,
                         secret: string)
    requires multiset(sorted) == multiset(Collected(headers, credential))
    requires IsSecret(headers, credential, secret) && Apart(secret)
    ensures !Occurs(secret, Redact(Dedup(sorted), text))
  {
    SecretsAreCollected(headers, credential, secret);
    assert secret in multiset(sorted);
    DedupKeepsElements(sorted);
    ApartIsHidden(Dedup(sorted), text, secret);
  }

  /** A secret of the server is hidden from every text, unless it meets the mark; the others may be anything. */
  lemma CredentialsAreHidden(headers: seq<string>, credential: Credential, sorted: seq<string>, text: string,
                             secret: string)
    requires multiset(sorted) == multiset(Collected(headers, credential))
    requires Guarded(sorted, secret)
    ensures !Occurs(secret, Redact(Dedup(sorted), text))
  {
    DedupKeepsGuard(sorted, secret);
    GuardedIsHidden(Dedup(sorted), text, secret);
  }

  /** A token that stays apart from the mark is hidden with the header value made of it. */
  lemma SentValueIsHidden(headers: seq<string>, credential: Credential, sorted: seq<string>, text: string)
    requires multiset(sorted) == multiset(Collected(headers, credential))
    requires Configured(credential) != [] && Apart(Configured(credential)[0])
    ensures !Occurs(Configured(credential)[0], Redact(Dedup(sorted), text))
    ensures !Occurs(SentValue(credential).value, Redact(Dedup(sorted), text))
  {
    var token, sent := Configured(credential)[0], SentValue(credential).value;
    var collected := Collected(headers, credential);
    assert token in collected;
    assert forall s :: s in sorted <==> s in multiset(sorted);
    assert forall s :: s in collected <==> s in multiset(collected);
    SentHoldsToken(credential);
    assert OccursAt(token, token, 0) && Certain(sorted, token);
    CredentialsAreHidden(headers, credential, sorted, text, token);
    CredentialsAreHidden(headers, credential, sorted, text, sent);
  }

  lemma SentHoldsToken(credential: Credential)
    requires Configured(credential) != []
    ensures var token, sent := Configured(credential)[0], SentValue(credential).value;
      && Occurs(token, sent)
      && (sent == token || (' ' in sent && exists lead :: lead != "" && sent == lead + token))
  {
    var token, sent := Configured(credential)[0], SentValue(credential).value;
    assert sent[|sent| - |token|..] == token;
    assert OccursAt(token, sent, |sent| - |token|);
    if sent != token {
      var lead := sent[..|sent| - |token|];
      assert sent == lead + token && lead[|lead| - 1] == ' ' && lead[|lead| - 1] in sent;
    }
  }

  lemma {:induction false} LeadAddsBytes(lead: string, t: string)
    ensures Bytes(lead + t) >= |lead| + Bytes(t)
  {
    if lead == "" {
      assert lead + t == t;
    } else {
      LeadAddsBytes(lead[1..], t);
      assert (lead + t)[1..] == lead[1..] + t;
      assert |Utf8Char(lead[0])| >= 1;
    }
  }

  lemma LongerComesFirst(sorted: seq<string>, t: string, sent: string)
    requires Ordered(sorted) && multiset(sorted) == multiset([t, sent]) && Bytes(sent) > Bytes(t)
    ensures sorted == [sent, t]
  {
    assert |sorted| == |multiset(sorted)| == |multiset([t, sent])| == 2;
    assert sorted == [sorted[0], sorted[1]];
    assert t in multiset(sorted) && sent in multiset(sorted);
    assert sorted[0] in multiset([t, sent]) && sorted[1] in multiset([t, sent]);
    assert sorted[0] == sorted[1] || Precedes(sorted[0], sorted[1]);
  }

  /** With the sent value in front, a token without blanks is hidden just as it is alone. */
  lemma BehindItsHeader(t: string, sent: string)
    requires t != "" && ' ' !in t && ' ' in sent && Occurs(t, sent)
    ensures Hides([sent, t]) <==> Unbroken(t)
  {
    var secrets := [sent, t];
    assert t in secrets && secrets[..1] == [sent] && [sent][..0] == [];
    if Unbroken(t) {
      forall text, secret | secret in secrets
        ensures !Occurs(secret, Redact(secrets, text))
      {
        LastIsHidden(secrets, text);
        if secret == sent && Occurs(sent, Redact(secrets, text)) {
          OccursWithin(t, sent, Redact(secrets, text));
        }
      }
    } else {
      var text := BrokenComesBack(t);
      BlankIsMissing(sent, text);
      ReplaceAbsent(text, sent, MARK);
      assert Redact([sent], text) == text;
      RedactLast([sent], t, text);
      assert [sent] + [t] == secrets && Occurs(t, Redact(secrets, text));
    }
  }

  lemma RedactLast(front: seq<string>, last: string, text: string)
    ensures Redact(front + [last], text) == RedactOne(Redact(front, text), last)
  {
    assert (front + [last])[..|front|] == front;
  }

  lemma BlankIsMissing(sent: string, text: string)
    requires ' ' in sent && ' ' !in text
    ensures !Occurs(sent, text)
  {
    var k :| 0 <= k < |sent| && sent[k] == ' ';
    forall i: nat
      ensures !OccursAt(sent, text, i)
    {
      assert i + |sent| <= |text| ==> text[i..i + |sent|][k] == text[i + k] && text[i + k] in text;
    }
  }

  /**
   A server whose one confidence is its token or key hides it, with the header value made of it,
   exactly when the token alone would be hidden; where a value is made of it, for tokens without blanks.
   */
  lemma CredentialIsHiddenExactly(credential: Credential, sorted: seq<string>)
    requires multiset(sorted) == multiset(Collected([], credential)) && Ordered(sorted)
    requires Configured(credential) != [] && Configured(credential)[0] != ""
    requires ' ' in Configured(credential)[0] ==> SentValue(credential) == Some(Configured(credential)[0])
    ensures Hides(Dedup(sorted)) <==> Unbroken(Configured(credential)[0])
  {
    var t, sent := Configured(credential)[0], SentValue(credential).value;
    assert Collected([], credential) == [t, sent];
    SentHoldsToken(credential);
    if sent == t {
      OnlyCopies(sorted, t);
      OneSecretIsHidden(t);
    } else {
      var lead :| lead != "" && sent == lead + t;
      TwoListed(lead, t, sorted);
      BehindItsHeader(t, sent);
    }
  }

  lemma TwoListed(lead: string, t: string, sorted: seq<string>)
    requires lead != "" && multiset(sorted) == multiset([t, lead + t]) && Ordered(sorted)
    ensures Dedup(sorted) == [lead + t, t]
  {
    LeadAddsBytes(lead, t);
    LongerComesFirst(sorted, t, lead + t);
    DedupOfTwo(lead + t, t);
  }

  lemma OnlyCopies(sorted: seq<string>, t: string)
    requires multiset(sorted) == multiset([t, t])
    ensures Dedup(sorted) == [t]
  {
    assert |sorted| == |multiset(sorted)| == |multiset([t, t])| == 2;
    assert sorted[0] in multiset(sorted) && sorted[1] in multiset(sorted);
    assert sorted[0] == t && sorted[1] == t && sorted[..1] == [t];
  }

  lemma DedupOfTwo(a: string, b: string)
    requires a != b
    ensures Dedup([a, b]) == [a, b]
  {
    assert [a, b][..1] == [a] && [a] + [b] == [a, b];
  }
}
