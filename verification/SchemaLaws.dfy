/**
 What resolving a schema guarantees (src/spec.rs): reference chains, first-wins merging, and
 how far a resolved schema is a fixed point.
 */
module SchemaLaws {
  import opened Text
  import opened Json
  import opened SchemaResolver

  // ---------- reference chains ----------

  /** `values[i]` refers to `values[i + 1]` by `refs[i]`. */
  predicate Chain(spec: Json, values: seq<Json>, refs: seq<string>) {
    |values| == |refs| + 1 &&
    (refs == [] ||
      (&& Reference(values[0]) == Some(refs[0])
       && refs[0] != "" && Target(spec, refs[0]) == Some(values[1])
       && Chain(spec, values[1..], refs[1..])))
  }

  /** The value leads nowhere: no local reference, or a dangling one. */
  predicate Terminal(spec: Json, value: Json) {
    var reference := Reference(value);
    reference.None? || Target(spec, reference.value).None?
  }

  /** Every value of a chain laid over the ones it refers to. */
  function Overlaid(values: seq<Json>, base: Json): Json {
    if values == [] then base else Overlay(Overlaid(values[1..], base), values[0])
  }

  predicate Fresh(refs: seq<string>, seen: set<string>) {
    refs == [] || (refs[0] !in seen && Fresh(refs[1..], seen + {refs[0]}))
  }

  lemma OverlaidFirst(values: seq<Json>, n: nat, base: Json)
    requires 0 < n <= |values|
    ensures Overlaid(values[..n], base) == Overlay(Overlaid(values[1..][..n - 1], base), values[0])
  {
    assert values[..n][1..] == values[1..][..n - 1];
  }

  lemma ChainTail(spec: Json, values: seq<Json>, refs: seq<string>, seen: set<string>)
    requires Chain(spec, values, refs) && Fresh(refs, seen) && refs != []
    ensures |values| == |refs| + 1 && refs[0] !in seen
    ensures Chain(spec, values[1..], refs[1..]) && Fresh(refs[1..], seen + {refs[0]})
  {
  }

  lemma FirstHop(spec: Json, values: seq<Json>, refs: seq<string>, depth: nat, seen: set<string>)
    requires Chain(spec, values, refs) && refs != [] && refs[0] !in seen && depth < MAX_DEPTH
    ensures ResolveRef(spec, values[0], depth, seen) ==
      Overlay(ResolveRef(spec, values[1], depth + 1, seen + {refs[0]}), values[0])
  {
  }

  lemma TerminalStays(spec: Json, value: Json, depth: nat, seen: set<string>)
    requires Terminal(spec, value) && depth < MAX_DEPTH
    requires Reference(value).Some? ==> Reference(value).value !in seen
    ensures ResolveRef(spec, value, depth, seen) == value
  {
  }

  /** A chain that is short enough and repeats nothing resolves as if there were no limits. */
  lemma {:induction false} ShortChainResolves(spec: Json, values: seq<Json>, refs: seq<string>, depth: nat,
                                              seen: set<string>)
    requires Chain(spec, values, refs) && Terminal(spec, values[|refs|]) && Fresh(refs, seen)
    requires depth + |refs| < MAX_DEPTH
    requires Reference(values[|refs|]).Some? ==>
      Reference(values[|refs|]).value !in seen && Reference(values[|refs|]).value !in refs
    ensures ResolveRef(spec, values[0], depth, seen) == Overlaid(values[..|refs|], values[|refs|])
    decreases |refs|
  {
    if refs != [] {
      ChainTail(spec, values, refs, seen);
      assert values[1..][|refs| - 1] == values[|refs|] && refs == [refs[0]] + refs[1..];
      ShortChainResolves(spec, values[1..], refs[1..], depth + 1, seen + {refs[0]});
      FirstHop(spec, values, refs, depth, seen);
      OverlaidFirst(values, |refs|, values[|refs|]);
    } else {
      TerminalStays(spec, values[0], depth, seen);
    }
  }

  /** A longer chain is cut off at the depth limit: only the overlaid siblings remain. */
  lemma {:induction false} LongChainIsCut(spec: Json, values: seq<Json>, refs: seq<string>, depth: nat,
                                          seen: set<string>)
    requires Chain(spec, values, refs) && Fresh(refs, seen)
    requires depth <= MAX_DEPTH <= depth + |refs|
    ensures ResolveRef(spec, values[0], depth, seen) == Overlaid(values[..MAX_DEPTH - depth], Empty())
    decreases |refs|
  {
    if depth < MAX_DEPTH {
      ChainTail(spec, values, refs, seen);
      LongChainIsCut(spec, values[1..], refs[1..], depth + 1, seen + {refs[0]});
      FirstHop(spec, values, refs, depth, seen);
      OverlaidFirst(values, MAX_DEPTH - depth, Empty());
    }
  }

  /** Thirty-one references in a row are followed to the end, and a thirty-second is not. */
  lemma ThirtyTwoReferences(spec: Json, values: seq<Json>, refs: seq<string>)
    requires Chain(spec, values, refs) && Fresh(refs, {}) && Terminal(spec, values[|refs|])
    requires Reference(values[|refs|]).Some? ==> Reference(values[|refs|]).value !in refs
    ensures ResolveRef(spec, values[0], 0, {}) ==
      if |refs| <= 31 then Overlaid(values[..|refs|], values[|refs|]) else Overlaid(values[..32], Empty())
  {
    if |refs| <= 31 {
      ShortChainResolves(spec, values, refs, 0, {});
    } else {
      LongChainIsCut(spec, values, refs, 0, {});
    }
  }

  /** A chain that comes back to a reference in progress ends there. */
  lemma {:induction false} CycleIsCut(spec: Json, values: seq<Json>, refs: seq<string>, depth: nat, seen: set<string>)
    requires Chain(spec, values, refs) && Fresh(refs, seen) && depth + |refs| < MAX_DEPTH
    requires Reference(values[|refs|]).Some?
    requires Reference(values[|refs|]).value in seen || Reference(values[|refs|]).value in refs
    ensures ResolveRef(spec, values[0], depth, seen) == Overlaid(values[..|refs|], Empty())
    decreases |refs|
  {
    if refs != [] {
      ChainTail(spec, values, refs, seen);
      CycleIsCut(spec, values[1..], refs[1..], depth + 1, seen + {refs[0]});
      FirstHop(spec, values, refs, depth, seen);
      OverlaidFirst(values, |refs|, Empty());
    }
  }

  /** The outermost sibling of a name wins over inner ones and over the target. */
  lemma {:induction false} OutermostSiblingWins(values: seq<Json>, base: Json, name: string)
    requires base.Obj? && name != "$ref" && forall v <- values :: v.Obj?
    ensures Overlaid(values, base).Obj?
    ensures Field(Overlaid(values, base), name) == FirstField(values, base, name)
    ensures Field(Overlaid(values, base), "$ref") == Field(base, "$ref")
  {
    if values != [] {
      OutermostSiblingWins(values[1..], base, name);
    }
  }

  function FirstField(values: seq<Json>, base: Json, name: string): Option<Json> {
    if values == [] then Field(base, name)
    else if Field(values[0], name).Some? then Field(values[0], name)
    else FirstField(values[1..], base, name)
  }

  /** Overlaying the siblings of a reference leaves the target's own reference alone. */
  lemma OverlayKeepsReference(spec: Json, resolved: Json, value: Json)
    ensures Field(Overlay(resolved, value), "$ref") == Field(resolved, "$ref")
    ensures Terminal(spec, Overlay(resolved, value)) <==> Terminal(spec, resolved)
  {
  }

  /** A reference that is followed. */
  predicate Followed(spec: Json, value: Json, depth: nat, seen: set<string>) {
    var reference := Reference(value);
    depth < MAX_DEPTH && reference.Some? && reference.value !in seen && Target(spec, reference.value).Some?
  }

  lemma ResolveRefStep(spec: Json, value: Json, depth: nat, seen: set<string>)
    ensures var r := ResolveRef(spec, value, depth, seen);
      if Followed(spec, value, depth, seen) then
        var reference := Reference(value).value;
        r == Overlay(ResolveRef(spec, Target(spec, reference).value, depth + 1, seen + {reference}), value)
      else Terminal(spec, r)
  {
  }

  /** However the resolution ended, what it returns leads nowhere. */
  lemma {:induction false} ResolvedIsTerminal(spec: Json, value: Json, depth: nat, seen: set<string>)
    ensures Terminal(spec, ResolveRef(spec, value, depth, seen))
    decreases MAX_DEPTH - depth
  {
    ResolveRefStep(spec, value, depth, seen);
    if Followed(spec, value, depth, seen) {
      var reference := Reference(value).value;
      var target := Target(spec, reference).value;
      ResolvedIsTerminal(spec, target, depth + 1, seen + {reference});
      OverlayKeepsReference(spec, ResolveRef(spec, target, depth + 1, seen + {reference}), value);
    }
  }

  lemma TerminalResolvesToItself(spec: Json, value: Json)
    requires Terminal(spec, value)
    ensures ResolveRef(spec, value, 0, {}) == value
  {
  }

  /** Resolving a reference twice is resolving it once. */
  lemma ResolveRefIdempotent(spec: Json, value: Json)
    ensures var r := ResolveRef(spec, value, 0, {});
      ResolveRef(spec, r, 0, {}) == r
  {
    ResolvedIsTerminal(spec, value, 0, {});
    TerminalResolvesToItself(spec, ResolveRef(spec, value, 0, {}));
  }

  // ---------- merging ----------

  /** `merge_schema_objects` folded over a member list. */
  function MergeAll(target: map<string, Json>, members: seq<Json>, union: bool): (r: map<string, Json>)
    requires Mergeable(target)
    ensures Mergeable(r)
    decreases |members|
  {
    if members == [] then target
    else MergeSchemaObjects(MergeAll(target, members[..|members| - 1], union), members[|members| - 1], union)
  }

  function Fields(member: Json): map<string, Json> {
    if member.Obj? then member.fields else map[]
  }

  lemma MergeProperties(target: map<string, Json>, source: Json, union: bool, name: string)
    requires Mergeable(target)
    ensures var merged, declared := Properties(MergeSchemaObjects(target, source, union)), Properties(Fields(source));
      && (name in merged <==> name in Properties(target) || name in declared)
      && (name in Properties(target) ==> merged[name] == Properties(target)[name])
      && (name !in Properties(target) && name in declared ==> merged[name] == Nullable(declared[name], union))
  {
  }

  /** The first member that declares a property. */
  function FirstDeclared(members: seq<Json>, name: string): Option<Json> {
    if members == [] then None
    else
      var earlier := FirstDeclared(members[..|members| - 1], name);
      var last := Properties(Fields(members[|members| - 1]));
      if earlier.Some? then earlier else if name in last then Some(last[name]) else None
  }

  /** The merged properties are the union of the members' properties, each from the first that declares it. */
  lemma {:induction false} MergedPropertiesFirstWins(members: seq<Json>, union: bool, name: string)
    ensures var merged := Properties(MergeAll(map[], members, union));
      && (name in merged <==> FirstDeclared(members, name).Some?)
      && (name in merged ==> merged[name] == Nullable(FirstDeclared(members, name).value, union))
  {
    if members != [] {
      var front := members[..|members| - 1];
      MergedPropertiesFirstWins(front, union, name);
      MergeProperties(MergeAll(map[], front, union), members[|members| - 1], union, name);
    }
  }

  /** A property of a union may be null; otherwise it says what its first declaration says. */
  lemma MergedPropertySays(members: seq<Json>, union: bool, name: string, key: string)
    requires FirstDeclared(members, name).Some? && FirstDeclared(members, name).value.Obj?
    ensures var merged := Properties(MergeAll(map[], members, union));
      && name in merged && merged[name].Obj?
      && Field(merged[name], key) ==
           if union && key == "nullable" then Some(Bool(true)) else Field(FirstDeclared(members, name).value, key)
  {
    MergedPropertiesFirstWins(members, union, name);
  }

  lemma {:induction false} DeclaredSomewhere(members: seq<Json>, name: string)
    ensures FirstDeclared(members, name).Some? <==> exists m <- members :: name in Properties(Fields(m))
  {
    if members != [] {
      var front, last := members[..|members| - 1], members[|members| - 1];
      DeclaredSomewhere(front, name);
      assert members == front + [last];
    }
  }

  /** The set of property names does not depend on the order of the members. */
  lemma PropertyNamesIgnoreOrder(members: seq<Json>, shuffled: seq<Json>, union: bool)
    requires multiset(members) == multiset(shuffled)
    ensures Properties(MergeAll(map[], members, union)).Keys == Properties(MergeAll(map[], shuffled, union)).Keys
  {
    forall name
      ensures name in Properties(MergeAll(map[], members, union)) <==>
        name in Properties(MergeAll(map[], shuffled, union))
    {
      MergedPropertiesFirstWins(members, union, name);
      MergedPropertiesFirstWins(shuffled, union, name);
      DeclaredSomewhere(members, name);
      DeclaredSomewhere(shuffled, name);
      assert forall m: Json :: m in members <==> m in multiset(members);
      assert forall m: Json :: m in shuffled <==> m in multiset(shuffled);
    }
  }

  function AllRequired(members: seq<Json>): set<string> {
    if members == [] then {}
    else AllRequired(members[..|members| - 1]) + Required(Fields(members[|members| - 1]))
  }

  lemma StringsOfNames(names: seq<string>)
    ensures Strings(Some(Arr(Map((name: string) => Str(name), names)))) == set name | name in names
  {
  }

  lemma {:induction false} RequiredOfMerge(members: seq<Json>)
    ensures Required(MergeAll(map[], members, false)) == AllRequired(members)
  {
    if members != [] {
      var front, last := members[..|members| - 1], members[|members| - 1];
      RequiredOfMerge(front);
      StringsOfNames(InOrder(AllRequired(front) + Required(Fields(last))));
      RequiredStep(MergeAll(map[], front, false), last);
      if !last.Obj? {
        assert Required(map[]) == {};
      }
    }
  }

  function SortedNames(names: set<string>): Json {
    Arr(Map((name: string) => Str(name), InOrder(names)))
  }

  lemma RequiredStep(merged: map<string, Json>, member: Json)
    requires Mergeable(merged)
    ensures member.Obj? ==> (
      var names := Required(merged) + Required(member.fields);
      Field(Obj(MergeSchemaObjects(merged, member, false)), "required") == Some(SortedNames(names)))
    ensures !member.Obj? ==> MergeSchemaObjects(merged, member, false) == merged
  {
  }

  predicate HasObject(members: seq<Json>) {
    exists m <- members :: m.Obj?
  }

  lemma HasObjectStep(front: seq<Json>, last: Json)
    ensures HasObject(front + [last]) <==> HasObject(front) || last.Obj?
  {
    assert (front + [last])[|front|] == last;
    assert forall m <- front :: m in front + [last];
  }

  predicate RequiresUnion(members: seq<Json>) {
    Field(Obj(MergeAll(map[], members, false)), "required") == Some(SortedNames(AllRequired(members)))
  }

  lemma RequiresUnionStep(front: seq<Json>, last: Json)
    requires last.Obj? || RequiresUnion(front)
    ensures RequiresUnion(front + [last])
  {
    var merged := MergeAll(map[], front, false);
    MergeAllStep(front, last);
    RequiredOfMerge(front);
    RequiredStep(merged, last);
    if last.Obj? {
      assert AllRequired(front + [last]) == Required(merged) + Required(last.fields);
    } else {
      assert AllRequired(front + [last]) == AllRequired(front);
    }
  }

  lemma MergeAllStep(front: seq<Json>, last: Json)
    ensures MergeAll(map[], front + [last], false) == MergeSchemaObjects(MergeAll(map[], front, false), last, false)
    ensures AllRequired(front + [last]) == AllRequired(front) + if last.Obj? then Required(last.fields) else {}
  {
    assert (front + [last])[..|front|] == front;
    assert Required(map[]) == {};
  }

  /** What `allOf` requires is what any member requires, in order and without repetition. */
  lemma {:induction false} MergedRequiredIsSortedUnion(members: seq<Json>)
    requires HasObject(members)
    ensures Field(Obj(MergeAll(map[], members, false)), "required") == Some(SortedNames(AllRequired(members)))
    decreases |members|
  {
    var front, last := members[..|members| - 1], members[|members| - 1];
    assert members == front + [last];
    HasObjectStep(front, last);
    if !last.Obj? {
      MergedRequiredIsSortedUnion(front);
    }
    RequiresUnionStep(front, last);
  }

  /** A schema lists a property as required. */
  predicate Requires(schema: Json, name: string) {
    var required := Field(schema, "required");
    required.Some? && required.value.Arr? && Str(name) in required.value.items
  }

  lemma RequiredIsExact(schema: Json, name: string)
    ensures name in Required(Fields(schema)) <==> Requires(schema, name)
  {
    var required := Field(schema, "required");
    if required.Some? && required.value.Arr? {
      assert Str(name) in required.value.items <==>
        exists item <- required.value.items :: item.Str? && item.text == name;
    }
  }

  lemma {:induction false} AllRequiredIsExact(members: seq<Json>, name: string)
    ensures name in AllRequired(members) <==> exists member <- members :: Requires(member, name)
  {
    if members != [] {
      var front, last := members[..|members| - 1], members[|members| - 1];
      AllRequiredIsExact(front, name);
      RequiredIsExact(last, name);
      assert members == front + [last];
    }
  }

  /** What is merged for `allOf` requires a property exactly if a member does. */
  lemma MergedRequires(members: seq<Json>, name: string)
    ensures Requires(Obj(MergeAll(map[], members, false)), name) <==> exists member <- members :: Requires(member, name)
  {
    RequiredOfMerge(members);
    AllRequiredIsExact(members, name);
    RequiredIsExact(Obj(MergeAll(map[], members, false)), name);
  }

  // ---------- composition ----------

  function Resolved(spec: Json, members: seq<Json>, depth: nat, seen: set<string>): (r: seq<Json>)
    ensures |r| == |members|
  {
    if members == [] then []
    else [ResolveSchema(spec, members[0], depth, seen)] + Resolved(spec, members[1..], depth, seen)
  }

  lemma {:induction false} MergeAllFront(target: map<string, Json>, first: Json, members: seq<Json>, union: bool)
    requires Mergeable(target)
    ensures MergeAll(target, [first] + members, union)
      == MergeAll(MergeSchemaObjects(target, first, union), members, union)
    decreases |members|
  {
    if members == [] {
      assert [first] + members == [] + [first];
      MergeAllAppend(target, [], first, union);
    } else {
      var front, last := members[..|members| - 1], members[|members| - 1];
      MergeAllFront(target, first, front, union);
      MergeAllAppend(target, [first] + front, last, union);
      assert [first] + members == [first] + front + [last];
    }
  }

  lemma MergeAllAppend(target: map<string, Json>, front: seq<Json>, last: Json, union: bool)
    requires Mergeable(target)
    ensures MergeAll(target, front + [last], union) == MergeSchemaObjects(MergeAll(target, front, union), last, union)
  {
    assert (front + [last])[..|front|] == front;
  }

  /** The member loop of `resolve_schema` is the plain fold over the resolved members. */
  lemma {:induction false} MembersAreMerged(spec: Json, members: seq<Json>, depth: nat, seen: set<string>, union: bool,
                                            merged: map<string, Json>)
    requires Mergeable(merged) && depth < MAX_DEPTH
    ensures MergeMembers(spec, members, depth, seen, union, merged)
      == MergeAll(merged, Resolved(spec, members, depth + 1, seen), union)
    decreases |members|
  {
    if members != [] {
      var member := ResolveSchema(spec, members[0], depth + 1, seen);
      MembersAreMerged(spec, members[1..], depth, seen, union, MergeSchemaObjects(merged, member, union));
      MergeAllFront(merged, member, Resolved(spec, members[1..], depth + 1, seen), union);
    }
  }

  /** A composition merges its resolved members and then, last, the rest of the schema. */
  lemma CompositionMergesMembersThenRest(spec: Json, fields: map<string, Json>, keyword: string, depth: nat,
                                         seen: set<string>, union: bool)
    requires depth < MAX_DEPTH && keyword in fields && fields[keyword].Arr?
    ensures Compose(spec, fields, keyword, depth, seen, union)
      == MergeAll(map[], Resolved(spec, fields[keyword].items, depth + 1, seen) + [Obj(fields - {keyword})], union)
  {
    var members := Resolved(spec, fields[keyword].items, depth + 1, seen);
    MembersAreMerged(spec, fields[keyword].items, depth, seen, union, map[]);
    var all := members + [Obj(fields - {keyword})];
    assert all[..|all| - 1] == members;
  }

  // ---------- resolved schemas ----------

  /** What holds of the fields of every resolved object schema. */
  predicate Flat(spec: Json, fields: map<string, Json>) {
    "allOf" !in fields && "oneOf" !in fields && Terminal(spec, Obj(fields))
  }

  predicate FlatSchema(spec: Json, schema: Json) {
    schema.Obj? ==> Flat(spec, schema.fields)
  }

  /** Apart from the keys it computes, a merge takes each key from the target or else from the source. */
  lemma MergedField(target: map<string, Json>, source: map<string, Json>, union: bool, name: string)
    requires Mergeable(target) && name !in {"properties", "type", "required"}
    ensures Field(Obj(MergeSchemaObjects(target, Obj(source), union)), name)
      == if name in target then Some(target[name]) else Field(Obj(source), name)
  {
  }

  lemma MergeTerminal(spec: Json, target: map<string, Json>, source: map<string, Json>, union: bool)
    requires Mergeable(target) && Terminal(spec, Obj(target)) && Terminal(spec, Obj(source))
    ensures Terminal(spec, Obj(MergeSchemaObjects(target, Obj(source), union)))
  {
    MergedField(target, source, union, "$ref");
  }

  lemma MergeKeepsFlat(spec: Json, target: map<string, Json>, source: Json, union: bool)
    requires Mergeable(target) && Flat(spec, target) && FlatSchema(spec, source)
    ensures Flat(spec, MergeSchemaObjects(target, source, union))
  {
    if source.Obj? {
      MergeTerminal(spec, target, source.fields, union);
      MergedField(target, source.fields, union, "allOf");
      MergedField(target, source.fields, union, "oneOf");
    }
  }

  lemma {:induction false} MembersKeepFlat(spec: Json, members: seq<Json>, depth: nat, seen: set<string>, union: bool,
                                           merged: map<string, Json>)
    requires Mergeable(merged) && Flat(spec, merged)
    ensures Flat(spec, MergeMembers(spec, members, depth, seen, union, merged))
    decreases MAX_DEPTH - depth, 0, |members|
  {
    if members != [] {
      var member := if depth < MAX_DEPTH then ResolveSchema(spec, members[0], depth + 1, seen) else Empty();
      if depth < MAX_DEPTH {
        ResolvedSchemaIsFlat(spec, members[0], depth + 1, seen);
      }
      MergeKeepsFlat(spec, merged, member, union);
      MembersKeepFlat(spec, members[1..], depth, seen, union, MergeSchemaObjects(merged, member, union));
    }
  }

  lemma {:induction false} ComposedKeys(spec: Json, fields: map<string, Json>, keyword: string, depth: nat,
                                        seen: set<string>, union: bool)
    requires keyword in {"allOf", "oneOf", "anyOf"} && Terminal(spec, Obj(fields))
    ensures var composed := Compose(spec, fields, keyword, depth, seen, union);
      && Terminal(spec, Obj(composed))
      && ("allOf" in composed ==> keyword != "allOf" && "allOf" in fields)
      && ("oneOf" in composed ==> keyword != "oneOf" && "oneOf" in fields)
    decreases MAX_DEPTH - depth, 1
  {
    var rest := fields - {keyword};
    assert Field(Obj(rest), "$ref") == Field(Obj(fields), "$ref");
    assert Terminal(spec, Obj(rest));
    if keyword in fields && fields[keyword].Arr? {
      MembersKeepFlat(spec, fields[keyword].items, depth, seen, union, map[]);
      var merged := MergeMembers(spec, fields[keyword].items, depth, seen, union, map[]);
      MergeTerminal(spec, merged, rest, union);
      MergedField(merged, rest, union, "allOf");
      MergedField(merged, rest, union, "oneOf");
    }
  }

  /** No resolved schema has a top-level `allOf` or `oneOf`, nor a reference that could still be followed. */
  lemma {:induction false} ResolvedSchemaIsFlat(spec: Json, schema: Json, depth: nat, seen: set<string>)
    ensures FlatSchema(spec, ResolveSchema(spec, schema, depth, seen))
    decreases MAX_DEPTH - depth, 2
  {
    if depth < MAX_DEPTH {
      ResolvedIsTerminal(spec, schema, depth, seen);
      var resolved := ResolveRef(spec, schema, depth, seen);
      if resolved.Obj? {
        ComposedKeys(spec, resolved.fields, "allOf", depth, seen, false);
        var all := Compose(spec, resolved.fields, "allOf", depth, seen, false);
        ComposedKeys(spec, all, "oneOf", depth, seen, true);
        var one := Compose(spec, all, "oneOf", depth, seen, true);
        ComposedKeys(spec, one, "anyOf", depth, seen, true);
      }
    }
  }

  // ---------- leftovers ----------

  function OrElse(first: Option<Json>, second: Option<Json>): Option<Json> {
    if first.Some? then first else second
  }

  /** The first `anyOf` that a member of a composition leaves behind. */
  function FirstLeft(spec: Json, members: seq<Json>, depth: nat, seen: set<string>): Option<Json>
    decreases MAX_DEPTH - depth, 0, |members|
  {
    if members == [] then None
    else OrElse(if depth < MAX_DEPTH then Leftover(spec, members[0], depth + 1, seen) else None,
                FirstLeft(spec, members[1..], depth, seen))
  }

  /** The `anyOf` of an object schema once its `allOf` is taken in. */
  function LeftByAllOf(spec: Json, fields: map<string, Json>, depth: nat, seen: set<string>): Option<Json>
    decreases MAX_DEPTH - depth, 1
  {
    var own := Field(Obj(fields), "anyOf");
    if "allOf" in fields && fields["allOf"].Arr? then OrElse(FirstLeft(spec, fields["allOf"].items, depth, seen), own)
    else own
  }

  /**
   The `anyOf` that a schema leaves behind, read off its keywords without merging anything: a
   `oneOf` list shields it, and otherwise it gives way to what its own members leave.
   */
  function Leftover(spec: Json, schema: Json, depth: nat, seen: set<string>): Option<Json>
    decreases MAX_DEPTH - depth, 2
  {
    if depth >= MAX_DEPTH || !ResolveRef(spec, schema, depth, seen).Obj? then None
    else
      var fields := ResolveRef(spec, schema, depth, seen).fields;
      var left := LeftByAllOf(spec, fields, depth, seen);
      if "oneOf" in fields && fields["oneOf"].Arr? then
        OrElse(FirstLeft(spec, fields["oneOf"].items, depth, seen), left)
      else if left.Some? && left.value.Arr? then FirstLeft(spec, left.value.items, depth, seen)
      else None
  }

  lemma {:induction false} MembersLeave(spec: Json, members: seq<Json>, depth: nat, seen: set<string>, union: bool,
                                        merged: map<string, Json>)
    requires Mergeable(merged)
    ensures Field(Obj(MergeMembers(spec, members, depth, seen, union, merged)), "anyOf")
      == OrElse(Field(Obj(merged), "anyOf"), FirstLeft(spec, members, depth, seen))
    decreases MAX_DEPTH - depth, 0, |members|
  {
    if members != [] {
      var member := if depth < MAX_DEPTH then ResolveSchema(spec, members[0], depth + 1, seen) else Empty();
      if depth < MAX_DEPTH {
        ResolvedLeaves(spec, members[0], depth + 1, seen);
      }
      if member.Obj? {
        MergedField(merged, member.fields, union, "anyOf");
      }
      MembersLeave(spec, members[1..], depth, seen, union, MergeSchemaObjects(merged, member, union));
    }
  }

  /** A key that a composition does not consume comes from the merged members or else from the schema. */
  lemma ComposedField(spec: Json, fields: map<string, Json>, keyword: string, depth: nat, seen: set<string>,
                      union: bool, name: string)
    requires name in {"oneOf", "anyOf"}
    ensures var own := if name == keyword then None else Field(Obj(fields), name);
      Field(Obj(Compose(spec, fields, keyword, depth, seen, union)), name) ==
        if keyword in fields && fields[keyword].Arr? then
          OrElse(Field(Obj(MergeMembers(spec, fields[keyword].items, depth, seen, union, map[])), name), own)
        else own
  {
    if keyword in fields && fields[keyword].Arr? {
      MergedField(MergeMembers(spec, fields[keyword].items, depth, seen, union, map[]), fields - {keyword}, union,
        name);
    }
  }

  lemma {:induction false} AllOfLeaves(spec: Json, fields: map<string, Json>, depth: nat, seen: set<string>)
    ensures var all := Compose(spec, fields, "allOf", depth, seen, false);
      && Field(Obj(all), "anyOf") == LeftByAllOf(spec, fields, depth, seen)
      && Field(Obj(all), "oneOf") == Field(Obj(fields), "oneOf")
    decreases MAX_DEPTH - depth, 1
  {
    ComposedField(spec, fields, "allOf", depth, seen, false, "anyOf");
    ComposedField(spec, fields, "allOf", depth, seen, false, "oneOf");
    if "allOf" in fields && fields["allOf"].Arr? {
      MembersLeave(spec, fields["allOf"].items, depth, seen, false, map[]);
      MembersKeepFlat(spec, fields["allOf"].items, depth, seen, false, map[]);
    }
  }

  lemma {:induction false} UnionLeaves(spec: Json, fields: map<string, Json>, keyword: string, depth: nat,
                                       seen: set<string>)
    requires keyword in {"oneOf", "anyOf"}
    ensures Field(Obj(Compose(spec, fields, keyword, depth, seen, true)), "anyOf") ==
      var own := if keyword == "anyOf" then None else Field(Obj(fields), "anyOf");
      if keyword in fields && fields[keyword].Arr? then OrElse(FirstLeft(spec, fields[keyword].items, depth, seen), own)
      else own
    decreases MAX_DEPTH - depth, 1
  {
    ComposedField(spec, fields, keyword, depth, seen, true, "anyOf");
    if keyword in fields && fields[keyword].Arr? {
      MembersLeave(spec, fields[keyword].items, depth, seen, true, map[]);
    }
  }

  /** A resolved schema has exactly the `anyOf` that its keywords leave behind. */
  lemma {:induction false} ResolvedLeaves(spec: Json, schema: Json, depth: nat, seen: set<string>)
    ensures Field(ResolveSchema(spec, schema, depth, seen), "anyOf") == Leftover(spec, schema, depth, seen)
    decreases MAX_DEPTH - depth, 2
  {
    if depth < MAX_DEPTH {
      var resolved := ResolveRef(spec, schema, depth, seen);
      if resolved.Obj? {
        AllOfLeaves(spec, resolved.fields, depth, seen);
        var all := Compose(spec, resolved.fields, "allOf", depth, seen, false);
        UnionLeaves(spec, all, "oneOf", depth, seen);
        UnionLeaves(spec, Compose(spec, all, "oneOf", depth, seen, true), "anyOf", depth, seen);
      }
    }
  }

  predicate Repeats(fields: map<string, Json>, merged: map<string, Json>, name: string) {
    name in merged ==> name in fields && fields[name] == merged[name]
  }

  /** Every property of the one is repeated by the other, whose further properties are nullable already. */
  predicate PropertiesAddNothing(own: map<string, Json>, merged: map<string, Json>) {
    && (forall name <- merged :: Repeats(own, merged, name))
    && (forall name <- own :: name in merged || Nullable(own[name], true) == own[name])
  }

  /** The merged members of an `anyOf` say nothing that the schema does not say already, the `anyOf` included. */
  predicate AddsNothing(fields: map<string, Json>, merged: map<string, Json>) {
    && "anyOf" in merged
    && (forall name <- merged ::
          Repeats(fields, merged, name) || ("properties" in fields && name in {"properties", "type"}))
    && ("properties" in fields ==>
          && fields["properties"].Obj? && Field(Obj(fields), "type") == Some(Str("object"))
          && PropertiesAddNothing(Properties(fields), Properties(merged)))
  }

  lemma PropertiesStay(own: map<string, Json>, merged: map<string, Json>)
    ensures (map name | name in own :: Nullable(own[name], true)) + merged == own <==> PropertiesAddNothing(own, merged)
  {
    var all := (map name | name in own :: Nullable(own[name], true)) + merged;
    if all == own {
      forall name | name in merged
        ensures Repeats(own, merged, name)
      {
        assert name in all && all[name] == merged[name];
      }
      forall name | name in own
        ensures name in merged || Nullable(own[name], true) == own[name]
      {
        assert all[name] == own[name];
      }
    }
    if PropertiesAddNothing(own, merged) {
      assert forall name <- merged :: Repeats(own, merged, name);
      assert all.Keys == own.Keys;
      assert forall name <- own :: all[name] == own[name];
    }
  }

  lemma MergingPlain(fields: map<string, Json>, merged: map<string, Json>)
    requires Mergeable(merged) && "anyOf" in fields
    requires "properties" in fields ==> !fields["properties"].Obj?
    ensures fields - {"anyOf"} - {"properties"} + merged == fields <==> AddsNothing(fields, merged)
  {
    var all := fields - {"anyOf"} - {"properties"} + merged;
    if all == fields {
      forall name | name in merged
        ensures Repeats(fields, merged, name)
      {
        assert all[name] == merged[name];
      }
    }
    if AddsNothing(fields, merged) {
      assert forall name <- merged :: Repeats(fields, merged, name);
      assert all.Keys == fields.Keys;
      assert forall name <- fields :: all[name] == fields[name];
    }
  }

  lemma MergingWithProperties(fields: map<string, Json>, merged: map<string, Json>)
    requires Mergeable(merged) && "anyOf" in fields
    requires "properties" in fields && fields["properties"].Obj?
    ensures fields - {"anyOf"} - {"properties"} + WithProperties(merged, fields - {"anyOf"}, true) == fields
      <==> AddsNothing(fields, merged)
  {
    var own := Properties(fields);
    var added := (map name | name in own :: Nullable(own[name], true)) + Properties(merged);
    PropertiesStay(own, Properties(merged));
    assert WithProperties(merged, fields - {"anyOf"}, true)
      == merged["properties" := Obj(added)]["type" := Str("object")];
    MergingTyped(fields, merged, added);
  }

  lemma MergingTyped(fields: map<string, Json>, merged: map<string, Json>, added: map<string, Json>)
    requires "anyOf" in fields && "properties" in fields && fields["properties"].Obj?
    requires added == Properties(fields) <==> PropertiesAddNothing(Properties(fields), Properties(merged))
    ensures var first := merged["properties" := Obj(added)]["type" := Str("object")];
      fields - {"anyOf"} - {"properties"} + first == fields <==> AddsNothing(fields, merged)
  {
    var first := merged["properties" := Obj(added)]["type" := Str("object")];
    var all := fields - {"anyOf"} - {"properties"} + first;
    if all == fields {
      assert all["type"] == Str("object") && all["properties"] == Obj(added) && "anyOf" in all;
      forall name | name in merged && name !in {"properties", "type"}
        ensures Repeats(fields, merged, name)
      {
        assert all[name] == merged[name];
      }
    }
    if AddsNothing(fields, merged) {
      assert forall name <- merged :: Repeats(fields, merged, name) || name in {"properties", "type"};
      assert all.Keys == fields.Keys;
      assert forall name <- fields :: all[name] == fields[name];
    }
  }

  lemma MergingAddsNothing(fields: map<string, Json>, merged: map<string, Json>)
    requires Mergeable(merged) && "anyOf" in fields
    ensures MergeSchemaObjects(merged, Obj(fields - {"anyOf"}), true) == fields <==> AddsNothing(fields, merged)
  {
    var rest := fields - {"anyOf"};
    var all := MergeSchemaObjects(merged, Obj(rest), true);
    PropertiesStay(Properties(fields), Properties(merged));
    if "properties" in fields && fields["properties"].Obj? {
      assert all == rest - {"properties"} + WithProperties(merged, rest, true);
      MergingWithProperties(fields, merged);
    } else {
      assert all == rest - {"properties"} + merged;
      MergingPlain(fields, merged);
    }
  }

  /** Where the keywords of a schema leave no `anyOf` behind, resolving it again changes nothing. */
  lemma NothingLeftIsIdempotent(spec: Json, schema: Json)
    requires Leftover(spec, schema, 0, {}).None?
    ensures var r := ResolveSchema(spec, schema, 0, {});
      ResolveSchema(spec, r, 0, {}) == r
  {
    var r := ResolveSchema(spec, schema, 0, {});
    ResolvedSchemaIsFlat(spec, schema, 0, {});
    ResolvedLeaves(spec, schema, 0, {});
    if r.Obj? {
      FlatResolvesToItself(spec, r.fields);
    } else {
      ResolvedNonObjectIsTerminal(spec, schema);
    }
  }

  /** Resolving again changes nothing if and only if no `anyOf` is left, or its merged members add nothing. */
  lemma ResolveSchemaIdempotent(spec: Json, schema: Json)
    ensures var r, left := ResolveSchema(spec, schema, 0, {}), Leftover(spec, schema, 0, {});
      ResolveSchema(spec, r, 0, {}) == r <==> (left.None? || (
        && r.Obj? && left.value.Arr?
        && AddsNothing(r.fields, MergeMembers(spec, left.value.items, 0, {}, true, map[]))))
  {
    var r := ResolveSchema(spec, schema, 0, {});
    ResolvedSchemaIsFlat(spec, schema, 0, {});
    ResolvedLeaves(spec, schema, 0, {});
    if Leftover(spec, schema, 0, {}).None? {
      NothingLeftIsIdempotent(spec, schema);
    } else if r.Obj? && "anyOf" in r.fields {
      FlatResolvesItsAnyOf(spec, r.fields);
      if r.fields["anyOf"].Arr? {
        MergingAddsNothing(r.fields, MergeMembers(spec, r.fields["anyOf"].items, 0, {}, true, map[]));
      }
    }
  }

  lemma FlatResolvesItsAnyOf(spec: Json, fields: map<string, Json>)
    requires Flat(spec, fields) && "anyOf" in fields
    ensures var rest := fields - {"anyOf"};
      ResolveSchema(spec, Obj(fields), 0, {}) ==
        if fields["anyOf"].Arr? then
          Obj(MergeSchemaObjects(MergeMembers(spec, fields["anyOf"].items, 0, {}, true, map[]), Obj(rest), true))
        else Obj(rest)
  {
    TerminalResolvesToItself(spec, Obj(fields));
  }

  lemma FlatResolvesToItself(spec: Json, fields: map<string, Json>)
    requires Flat(spec, fields) && "anyOf" !in fields
    ensures ResolveSchema(spec, Obj(fields), 0, {}) == Obj(fields)
  {
  }

  lemma ResolvedNonObjectIsTerminal(spec: Json, schema: Json)
    ensures var r := ResolveSchema(spec, schema, 0, {});
      !r.Obj? ==> Reference(r).None?
  {
  }

  lemma ComposeAbsent(spec: Json, fields: map<string, Json>, keyword: string, depth: nat, union: bool)
    requires keyword !in fields
    ensures Compose(spec, fields, keyword, depth, {}, union) == fields
  {
  }

  lemma ComposeNothing(spec: Json, fields: map<string, Json>, keyword: string, depth: nat)
    requires keyword in fields && fields[keyword] == Arr([]) && "properties" !in fields
    ensures Compose(spec, fields, keyword, depth, {}, true) == fields - {keyword}
  {
  }

  /** A `oneOf` of nothing beside an `anyOf` keeps the `anyOf`, at any depth. */
  lemma ShieldedAnyOf(spec: Json, members: Json, depth: nat)
    requires depth < MAX_DEPTH
    ensures ResolveSchema(spec, Obj(map["oneOf" := Arr([]), "anyOf" := members]), depth, {})
      == Obj(map["anyOf" := members])
  {
    var both: map<string, Json> := map["oneOf" := Arr([]), "anyOf" := members];
    ComposeAbsent(spec, both, "allOf", depth, false);
    ComposeNothing(spec, both, "oneOf", depth);
    assert both - {"oneOf"} == map["anyOf" := members];
  }

  /** An `anyOf` beside a `oneOf` stays, and resolving once more drops it. */
  lemma LeftoverAnyOf()
    ensures ResolveSchema(Null, Obj(map["oneOf" := Arr([]), "anyOf" := Arr([])]), 0, {}) == Obj(map["anyOf" := Arr([])])
    ensures ResolveSchema(Null, Obj(map["anyOf" := Arr([])]), 0, {}) == Empty()
  {
    var left: map<string, Json> := map["anyOf" := Arr([])];
    ShieldedAnyOf(Null, Arr([]), 0);
    ComposeAbsent(Null, left, "allOf", 0, false);
    ComposeAbsent(Null, left, "oneOf", 0, true);
    ComposeNothing(Null, left, "anyOf", 0);
    assert left - {"anyOf"} == map[];
    TerminalResolvesToItself(Null, Obj(left));
  }

  /** An `anyOf` left behind can also stay for good: here its one member is the document it stands in. */
  lemma AnyOfOfItself(spec: Json, members: Json)
    requires members == Arr([Obj(map["$ref" := Str("#")])])
    requires spec == Obj(map["oneOf" := Arr([]), "anyOf" := members])
    ensures ResolveSchema(spec, spec, 0, {}) == Obj(map["anyOf" := members])
    ensures ResolveSchema(spec, Obj(map["anyOf" := members]), 0, {}) == Obj(map["anyOf" := members])
  {
    var left: map<string, Json> := map["anyOf" := members];
    ShieldedAnyOf(spec, members, 0);
    SelfReference(spec, members.items[0], map["anyOf" := members]);
    OnlyMember(spec, members.items[0], left);
    FlatResolvesItsAnyOf(spec, left);
    assert left - {"anyOf"} == map[];
    assert [members.items[0]] == members.items;
  }

  lemma OnlyMember(spec: Json, member: Json, left: map<string, Json>)
    requires ResolveSchema(spec, member, 1, {}) == Obj(left) && "properties" !in left
    ensures MergeMembers(spec, [member], 0, {}, true, map[]) == left
    ensures MergeSchemaObjects(left, Obj(map[]), true) == left
  {
    assert [member][1..] == [];
    MergeIntoNothing(left);
    assert MergeMembers(spec, [], 0, {}, true, left) == left;
  }

  lemma MergeIntoNothing(fields: map<string, Json>)
    requires "properties" !in fields
    ensures MergeSchemaObjects(map[], Obj(fields), true) == fields
    ensures MergeSchemaObjects(fields, Obj(map[]), true) == fields
  {
    assert fields - {"properties"} - {} + map[] == fields;
  }

  lemma SelfReference(spec: Json, member: Json, left: map<string, Json>)
    requires member == Obj(map["$ref" := Str("#")]) && left == map["anyOf" := Arr([member])]
    requires spec == Obj(map["oneOf" := Arr([]), "anyOf" := Arr([member])])
    ensures ResolveSchema(spec, member, 1, {}) == Obj(left)
  {
    assert Reference(member) == Some("#") && Target(spec, "#") == Some(spec);
    assert Reference(spec).None?;
    assert spec.fields + (member.fields - {"$ref"}) == spec.fields;
    assert ResolveRef(spec, member, 1, {}) == spec;
    ShieldedAnyOf(spec, Arr([member]), 1);
    assert ResolveRef(spec, spec, 1, {}) == spec;
  }
}
