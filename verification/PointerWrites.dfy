/**
 Writing through a path into nested JSON objects (`insert_pointer_tokens` in src/fdw.rs). An
 owned tree has no aliases: an update returns the updated tree.
 */
module PointerWrites {
  import opened Text
  import opened Json

  /** `insert_pointer_tokens`: missing objects are created, anything else in the way is an error. */
  function Put(fields: map<string, Json>, path: seq<string>, value: Json): Option<map<string, Json>>
    requires path != []
    decreases |path|
  {
    if |path| == 1 then Some(fields[path[0] := value])
    else
      var nested := if path[0] in fields then fields[path[0]] else Obj(map[]);
      if !nested.Obj? then None
      else
        var inner := Put(nested.fields, path[1..], value);
        if inner.Some? then Some(fields[path[0] := Obj(inner.value)]) else None
  }

  ghost predicate Incomparable(p: seq<string>, q: seq<string>) {
    !(p <= q) && !(q <= p)
  }

  /** A value other than an object sits at a proper prefix of the path. */
  ghost predicate Blocked(fields: map<string, Json>, path: seq<string>) {
    exists k | 0 < k < |path| :: Get(Obj(fields), path[..k]).Some? && !Get(Obj(fields), path[..k]).value.Obj?
  }

  lemma GetStep(fields: map<string, Json>, path: seq<string>)
    requires path != []
    ensures Get(Obj(fields), path) ==
      if path[0] in fields then Get(fields[path[0]], path[1..]) else None
  {
  }

  /** A write fails exactly when it is blocked. */
  lemma {:induction false} PutFailsWhenBlocked(fields: map<string, Json>, path: seq<string>, value: Json)
    requires path != []
    ensures Put(fields, path, value).None? <==> Blocked(fields, path)
    decreases |path|
  {
    if |path| > 1 {
      var head, tail := path[0], path[1..];
      forall k | 0 < k < |path|
        ensures Get(Obj(fields), path[..k]) ==
          if head in fields then Get(fields[head], tail[..k - 1]) else None
      {
        assert path[..k][1..] == tail[..k - 1];
      }
      if head in fields {
        assert Get(Obj(fields), path[..1]) == Some(fields[head]);
        if fields[head].Obj? {
          PutFailsWhenBlocked(fields[head].fields, tail, value);
          if Blocked(fields[head].fields, tail) {
            var k :| 0 < k < |tail| && Get(fields[head], tail[..k]).Some? && !Get(fields[head], tail[..k]).value.Obj?;
            assert Get(Obj(fields), path[..k + 1]) == Get(fields[head], tail[..k]);
          }
        }
      } else {
        PutFailsWhenBlocked(map[], tail, value);
        assert forall k | 0 < k < |tail| :: Get(Obj(map[]), tail[..k]).None?;
      }
    }
  }

  /** What was written is read back. */
  lemma {:induction false} PutThenGet(fields: map<string, Json>, path: seq<string>, value: Json)
    requires path != [] && Put(fields, path, value).Some?
    ensures Get(Obj(Put(fields, path, value).value), path) == Some(value)
    decreases |path|
  {
    if |path| > 1 {
      PutThenGet(if path[0] in fields then fields[path[0]].fields else map[], path[1..], value);
    } else {
      assert path[1..] == [];
    }
  }

  /** A write leaves every path that diverges from it as it was. */
  lemma {:induction false} PutElsewhere(fields: map<string, Json>, path: seq<string>, value: Json, other: seq<string>)
    requires path != [] && Put(fields, path, value).Some? && Incomparable(path, other)
    ensures Get(Obj(Put(fields, path, value).value), other) == Get(Obj(fields), other)
    decreases |path|
  {
    var after := Put(fields, path, value).value;
    GetStep(fields, other);
    GetStep(after, other);
    if path[0] == other[0] {
      assert path == [path[0]] + path[1..] && other == [other[0]] + other[1..];
      var nested := if path[0] in fields then fields[path[0]].fields else map[];
      PutElsewhere(nested, path[1..], value, other[1..]);
      GetStep(nested, other[1..]);
    }
  }

  function Then(first: Option<map<string, Json>>, path: seq<string>, value: Json): Option<map<string, Json>>
    requires path != []
  {
    if first.Some? then Put(first.value, path, value) else None
  }

  function At(fields: map<string, Json>, name: string): Option<Json> {
    if name in fields then Some(fields[name]) else None
  }

  /** What a write leaves at the first name of its path; it depends on nothing else. */
  function NewHead(before: Option<Json>, path: seq<string>, value: Json): Option<Json>
    requires path != []
  {
    if |path| == 1 then Some(value)
    else
      var nested := if before.Some? then before.value else Obj(map[]);
      if !nested.Obj? then None
      else
        var inner := Put(nested.fields, path[1..], value);
        if inner.Some? then Some(Obj(inner.value)) else None
  }

  function Set(fields: map<string, Json>, name: string, value: Option<Json>): Option<map<string, Json>> {
    if value.Some? then Some(fields[name := value.value]) else None
  }

  lemma PutSetsHead(fields: map<string, Json>, path: seq<string>, value: Json)
    requires path != []
    ensures Put(fields, path, value) == Set(fields, path[0], NewHead(At(fields, path[0]), path, value))
  {
  }

  lemma ThenAtOtherHead(fields: map<string, Json>, p: seq<string>, v: Json, q: seq<string>, w: Json)
    requires p != [] && q != [] && p[0] != q[0]
    ensures var x, y := NewHead(At(fields, p[0]), p, v), NewHead(At(fields, q[0]), q, w);
      Then(Put(fields, p, v), q, w) == if x.Some? then Set(fields[p[0] := x.value], q[0], y) else None
  {
    var x := NewHead(At(fields, p[0]), p, v);
    PutSetsHead(fields, p, v);
    if x.Some? {
      PutSetsHead(fields[p[0] := x.value], q, w);
    }
  }

  lemma ThenAtSameHead(fields: map<string, Json>, p: seq<string>, v: Json, q: seq<string>, w: Json)
    requires |p| > 1 && |q| > 1 && p[0] == q[0]
    ensures var nested := if p[0] in fields then fields[p[0]] else Obj(map[]);
      Then(Put(fields, p, v), q, w) ==
        if nested.Obj? then SetNested(fields, p[0], Then(Put(nested.fields, p[1..], v), q[1..], w)) else None
  {
    var nested := if p[0] in fields then fields[p[0]] else Obj(map[]);
    if nested.Obj? && Put(nested.fields, p[1..], v).Some? {
      var inner := Put(nested.fields, p[1..], v).value;
      var next := fields[p[0] := Obj(inner)];
      assert Put(next, q, w) == SetNested(next, p[0], Put(inner, q[1..], w));
      if Put(inner, q[1..], w).Some? {
        var last := Obj(Put(inner, q[1..], w).value);
        assert next[p[0] := last] == fields[p[0] := last];
      }
    }
  }

  function SetNested(fields: map<string, Json>, name: string,
                     inner: Option<map<string, Json>>): Option<map<string, Json>> {
    if inner.Some? then Some(fields[name := Obj(inner.value)]) else None
  }

  lemma PutsAtOtherHeadsCommute(fields: map<string, Json>, p: seq<string>, v: Json, q: seq<string>, w: Json)
    requires p != [] && q != [] && p[0] != q[0]
    ensures Then(Put(fields, p, v), q, w) == Then(Put(fields, q, w), p, v)
  {
    ThenAtOtherHead(fields, p, v, q, w);
    ThenAtOtherHead(fields, q, w, p, v);
    var x, y := NewHead(At(fields, p[0]), p, v), NewHead(At(fields, q[0]), q, w);
    if x.Some? && y.Some? {
      assert fields[p[0] := x.value][q[0] := y.value] == fields[q[0] := y.value][p[0] := x.value];
    }
  }

  /** Writes to diverging paths commute, errors included. */
  lemma {:induction false} PutsCommute(fields: map<string, Json>, p: seq<string>, v: Json, q: seq<string>, w: Json)
    requires p != [] && q != [] && Incomparable(p, q)
    ensures Then(Put(fields, p, v), q, w) == Then(Put(fields, q, w), p, v)
    decreases |p|
  {
    if p[0] == q[0] {
      TailsDiverge(p, q);
      ThenAtSameHead(fields, p, v, q, w);
      ThenAtSameHead(fields, q, w, p, v);
      var nested := if p[0] in fields then fields[p[0]] else Obj(map[]);
      if nested.Obj? {
        PutsCommute(nested.fields, p[1..], v, q[1..], w);
      }
    } else {
      PutsAtOtherHeadsCommute(fields, p, v, q, w);
    }
  }

  lemma TailsDiverge(p: seq<string>, q: seq<string>)
    requires p != [] && q != [] && Incomparable(p, q) && p[0] == q[0]
    ensures |p| > 1 && |q| > 1 && Incomparable(p[1..], q[1..])
  {
  }

  // ---------- many writes ----------

  datatype Write = Write(path: seq<string>, value: Json)

  /** Writes applied in order. */
  function PutAll(fields: map<string, Json>, writes: seq<Write>): Option<map<string, Json>>
    requires forall w <- writes :: w.path != []
    decreases |writes|
  {
    if writes == [] then Some(fields)
    else
      var last := writes[|writes| - 1];
      Then(PutAll(fields, writes[..|writes| - 1]), last.path, last.value)
  }

  ghost predicate Apart(writes: seq<Write>) {
    && (forall w <- writes :: w.path != [])
    && (forall i, j | 0 <= i < j < |writes| :: Incomparable(writes[i].path, writes[j].path))
  }

  /** Every write is read back, and every path that diverges from all of them is unchanged. */
  lemma {:induction false} PutAllThenGet(fields: map<string, Json>, writes: seq<Write>, other: seq<string>)
    requires Apart(writes) && PutAll(fields, writes).Some?
    ensures forall w <- writes :: Get(Obj(PutAll(fields, writes).value), w.path) == Some(w.value)
    ensures (forall w <- writes :: Incomparable(w.path, other)) ==>
      Get(Obj(PutAll(fields, writes).value), other) == Get(Obj(fields), other)
    decreases |writes|
  {
    if writes != [] {
      var front, last := writes[..|writes| - 1], writes[|writes| - 1];
      PutAllThenGet(fields, front, other);
      var before := PutAll(fields, front).value;
      PutThenGet(before, last.path, last.value);
      forall w | w in front
        ensures Get(Obj(PutAll(fields, writes).value), w.path) == Some(w.value)
      {
        PutElsewhere(before, last.path, last.value, w.path);
      }
      if forall w <- writes :: Incomparable(w.path, other) {
        PutElsewhere(before, last.path, last.value, other);
      }
    }
  }

  lemma PutAllAppend(fields: map<string, Json>, writes: seq<Write>, last: Write)
    requires forall w <- writes + [last] :: w.path != []
    ensures forall w <- writes :: w.path != []
    ensures last.path != []
    ensures PutAll(fields, writes + [last]) == Then(PutAll(fields, writes), last.path, last.value)
  {
  }

  lemma ThenCommutes(first: Option<map<string, Json>>, p: Write, q: Write)
    requires p.path != [] && q.path != [] && Incomparable(p.path, q.path)
    ensures Then(Then(first, p.path, p.value), q.path, q.value) == Then(Then(first, q.path, q.value), p.path, p.value)
  {
    if first.Some? {
      PutsCommute(first.value, p.path, p.value, q.path, q.value);
    }
  }

  lemma {:induction false} LastWriteFirst(fields: map<string, Json>, writes: seq<Write>, w: Write)
    requires Apart(writes + [w])
    ensures PutAll(fields, writes + [w]) == PutAll(fields, [w] + writes)
    decreases |writes|
  {
    if writes == [] {
      assert writes + [w] == [w] + writes;
    } else {
      var front, last, all := writes[..|writes| - 1], writes[|writes| - 1], writes + [w];
      assert front + [last] == writes && [w] + writes == ([w] + front) + [last];
      assert forall i | 0 <= i < |front| :: front[i] == all[i];
      assert all[|front|] == last && all[|front| + 1] == w;
      assert Apart(front + [w]);
      LastWriteFirst(fields, front, w);
      PutAllAppend(fields, writes, w);
      PutAllAppend(fields, front, last);
      PutAllAppend(fields, front, w);
      PutAllAppend(fields, [w] + front, last);
      ThenCommutes(PutAll(fields, front), last, w);
    }
  }

  lemma {:induction false} PutAllConcat(fields: map<string, Json>, xs: seq<Write>, ys: seq<Write>)
    requires (forall w <- xs :: w.path != []) && (forall w <- ys :: w.path != [])
    ensures forall w <- xs + ys :: w.path != []
    ensures PutAll(fields, xs + ys)
      == var first := PutAll(fields, xs); if first.Some? then PutAll(first.value, ys) else None
    decreases |ys|
  {
    assert forall w <- xs + ys :: w in xs || w in ys;
    if ys == [] {
      assert xs + ys == xs;
    } else {
      var front, last := ys[..|ys| - 1], ys[|ys| - 1];
      assert (xs + ys)[..|xs + ys| - 1] == xs + front;
      PutAllConcat(fields, xs, front);
    }
  }

  /** Diverging writes may be applied in any order. */
  lemma {:induction false} PutAllInAnyOrder(fields: map<string, Json>, writes: seq<Write>, shuffled: seq<Write>)
    requires Apart(writes) && multiset(writes) == multiset(shuffled)
    ensures forall w <- shuffled :: w.path != []
    ensures PutAll(fields, shuffled) == PutAll(fields, writes)
    decreases |writes|
  {
    SameElements(writes, shuffled);
    if shuffled != [] {
      var front, w := shuffled[..|shuffled| - 1], shuffled[|shuffled| - 1];
      assert shuffled == front + [w];
      var a, b := Extract(writes, front, w);
      MovedApart(a, w, b);
      PutAllInAnyOrder(fields, a + b, front);
      MoveLast(fields, a, w, b);
    }
  }

  lemma SameElements<T>(xs: seq<T>, ys: seq<T>)
    requires multiset(xs) == multiset(ys)
    ensures forall x :: x in xs <==> x in ys
    ensures |xs| == |ys|
  {
    forall x
      ensures x in xs <==> x in ys
    {
      assert x in xs <==> x in multiset(xs);
      assert x in ys <==> x in multiset(ys);
    }
    assert |multiset(xs)| == |xs| && |multiset(ys)| == |ys|;
  }

  /** Where the last element of one arrangement stands in another. */
  lemma Extract<T>(xs: seq<T>, front: seq<T>, w: T) returns (a: seq<T>, b: seq<T>)
    requires |front| < |xs| && multiset(xs) == multiset(front + [w])
    ensures xs == a + ([w] + b) && multiset(a + b) == multiset(front)
  {
    SameElements(xs, front + [w]);
    assert (front + [w])[|front|] == w;
    assert w in xs;
    var i :| 0 <= i < |xs| && xs[i] == w;
    a, b := xs[..i], xs[i + 1..];
    assert xs == a + ([w] + b);
    assert multiset(xs) == multiset(a) + multiset{w} + multiset(b);
    assert multiset(a + b) == multiset(xs) - multiset{w};
    assert multiset(front) == multiset(front + [w]) - multiset{w};
  }

  lemma MovedApart(a: seq<Write>, w: Write, b: seq<Write>)
    requires Apart(a + ([w] + b))
    ensures Apart(a + b) && Apart(b + [w])
  {
    var all := a + ([w] + b);
    assert forall x <- a + b :: x in all;
    assert all[|a|] == w;
    assert forall i | 0 <= i < |a + b| :: (a + b)[i] == all[if i < |a| then i else i + 1];
    assert forall i | 0 <= i < |b| :: b[i] == all[|a| + 1 + i];
  }

  lemma MoveLast(fields: map<string, Json>, a: seq<Write>, w: Write, b: seq<Write>)
    requires Apart(a + ([w] + b)) && Apart(a + b) && Apart(b + [w])
    ensures PutAll(fields, a + ([w] + b)) == Then(PutAll(fields, a + b), w.path, w.value)
  {
    assert forall x <- a :: x in a + b;
    assert forall x <- b :: x in a + b;
    assert w in b + [w];
    PutAllConcat(fields, a, [w] + b);
    PutAllConcat(fields, a, b);
    if PutAll(fields, a).Some? {
      LastWriteFirst(PutAll(fields, a).value, b, w);
      assert (b + [w])[..|b|] == b;
    }
  }
}
