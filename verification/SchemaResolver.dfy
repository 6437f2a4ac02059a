/**
 Resolving OpenAPI schemas (src/spec.rs): local `$ref` chains under a cycle set and a depth
 limit, and the merging of `allOf`, `oneOf` and `anyOf`.
 */
module SchemaResolver {
  import opened Text
  import opened Json

  const MAX_DEPTH := 32

  function Empty(): Json {
    Obj(map[])
  }

  // ---------- resolve_ref ----------

  /** The local reference of a value, with its leading `#`. */
  function Reference(value: Json): Option<string> {
    var reference := AsString(Field(value, "$ref"));
    if reference.Some? && reference.value != "" && reference.value[0] == '#' then reference else None
  }

  function Target(spec: Json, reference: string): Option<Json>
    requires reference != ""
  {
    ReadPointer(spec, reference[1..])
  }

  /** The keys written next to a `$ref` override those of its target. */
  function Overlay(resolved: Json, value: Json): Json {
    if resolved.Obj? && value.Obj? then Obj(resolved.fields + (value.fields - {"$ref"})) else resolved
  }

  function ResolveRef(spec: Json, value: Json, depth: nat, seen: set<string>): Json
    decreases MAX_DEPTH - depth
  {
    if depth >= MAX_DEPTH then Empty()
    else
      var reference := Reference(value);
      if reference.None? then value
      else if reference.value in seen then Empty()
      else
        var target := Target(spec, reference.value);
        if target.None? then value
        else Overlay(ResolveRef(spec, target.value, depth + 1, seen + {reference.value}), value)
  }

  // ---------- merge_schema_objects ----------

  /** Properties that came out of a union are nullable. */
  function Nullable(schema: Json, union: bool): Json {
    if union && schema.Obj? then Obj(schema.fields["nullable" := Bool(true)]) else schema
  }

  /** The properties an object schema declares. */
  function Properties(fields: map<string, Json>): map<string, Json> {
    if "properties" in fields && fields["properties"].Obj? then fields["properties"].fields else map[]
  }

  function Strings(value: Option<Json>): set<string> {
    if value.Some? && value.value.Arr? then set item | item in value.value.items && item.Str? :: item.text else {}
  }

  function Required(fields: map<string, Json>): set<string> {
    Strings(Field(Obj(fields), "required"))
  }

  /** Merging never finds a `properties` entry that is not an object. */
  predicate Mergeable(target: map<string, Json>) {
    "properties" in target ==> target["properties"].Obj?
  }

  function WithProperties(target: map<string, Json>, source: map<string, Json>, union: bool): map<string, Json>
    requires Mergeable(target)
  {
    if "properties" in source && source["properties"].Obj? then
      var added := map name | name in source["properties"].fields :: Nullable(source["properties"].fields[name], union);
      target["properties" := Obj(added + Properties(target))]["type" := Str("object")]
    else target
  }

  function WithRequired(target: map<string, Json>, required: set<string>): map<string, Json> {
    target["required" := Arr(Map((name: string) => Str(name), InOrder(required)))]
  }

  function MergeSchemaObjects(target: map<string, Json>, source: Json, union: bool): (merged: map<string, Json>)
    requires Mergeable(target)
    ensures Mergeable(merged)
  {
    if !source.Obj? then target
    else
      var first := WithProperties(target, source.fields, union);
      var second := if union then first else WithRequired(first, Required(target) + Required(source.fields));
      source.fields - {"properties"} - (if union then {} else {"required"}) + second
  }

  function Restrict(source: map<string, Json>, names: seq<string>): map<string, Json> {
    map name | name in source && name in names :: source[name]
  }

  lemma RestrictStep(target: map<string, Json>, source: map<string, Json>, names: seq<string>, i: nat)
    requires i < |names| && names[i] in source
    ensures var before, after := Restrict(source, names[..i]) + target, Restrict(source, names[..i + 1]) + target;
      after == if names[i] in before then before else before[names[i] := source[names[i]]]
  {
  }

  lemma RestrictEnds(source: map<string, Json>, names: seq<string>)
    requires forall name :: name in names <==> name in source
    ensures Restrict(source, names[..0]) == map[] && Restrict(source, names[..|names|]) == source
  {
  }

  /** `entry(name).or_insert(value)` for every pair of a map. */
  method OrInsertAll(target: map<string, Json>, source: map<string, Json>) returns (merged: map<string, Json>)
    ensures merged == source + target
  {
    var names := InOrder(source.Keys);
    merged := target;
    RestrictEnds(source, names);
    for i := 0 to |names|
      invariant merged == Restrict(source, names[..i]) + target
    {
      assert names[i] in names;
      RestrictStep(target, source, names, i);
      if names[i] !in merged {
        merged := merged[names[i] := source[names[i]]];
      }
    }
  }

  /** The part of `merge_schema_objects` about `properties`. */
  method AddProperties(target: map<string, Json>, source: map<string, Json>,
                       union: bool) returns (merged: map<string, Json>)
    requires Mergeable(target)
    ensures merged == WithProperties(target, source, union)
  {
    merged := target;
    if "properties" in source && source["properties"].Obj? {
      var properties := source["properties"].fields;
      var added := map name | name in properties :: Nullable(properties[name], union);
      var all := OrInsertAll(Properties(target), added);
      merged := merged["properties" := Obj(all)];
      merged := merged["type" := Str("object")];
    }
  }

  lemma RequiredStays(target: map<string, Json>, source: map<string, Json>, union: bool)
    requires Mergeable(target)
    ensures Required(WithProperties(target, source, union)) == Required(target)
  {
    assert Field(Obj(WithProperties(target, source, union)), "required") == Field(Obj(target), "required");
  }

  /** `merge_schema_objects`: the target is edited entry by entry; its `expect` cannot fail. */
  method MergeInto(target: map<string, Json>, source: Json, union: bool) returns (merged: map<string, Json>)
    requires Mergeable(target)
    ensures merged == MergeSchemaObjects(target, source, union)
  {
    if !source.Obj? {
      return target;
    }
    var rest := source.fields - {"properties"};
    merged := AddProperties(target, source.fields, union);
    if !union {
      RequiredStays(target, source.fields, union);
      var required := Required(merged) + Required(source.fields);
      rest := rest - {"required"};
      merged := WithRequired(merged, required);
    }
    merged := OrInsertAll(merged, rest);
  }

  // ---------- resolve_schema ----------

  function MergeMembers(spec: Json, members: seq<Json>, depth: nat, seen: set<string>, union: bool,
                        merged: map<string, Json>)
    : (r: map<string, Json>)
    requires Mergeable(merged)
    ensures Mergeable(r)
    decreases MAX_DEPTH - depth, 0, |members|
  {
    if members == [] then merged
    else
      var member := if depth < MAX_DEPTH then ResolveSchema(spec, members[0], depth + 1, seen) else Empty();
      MergeMembers(spec, members[1..], depth, seen, union, MergeSchemaObjects(merged, member, union))
  }

  /** Replaces one composition keyword by the merge of its members and the rest of the object. */
  function Compose(spec: Json, fields: map<string, Json>, keyword: string, depth: nat, seen: set<string>, union: bool)
    : map<string, Json>
    decreases MAX_DEPTH - depth, 1
  {
    var rest := fields - {keyword};
    if keyword in fields && fields[keyword].Arr? then
      MergeSchemaObjects(MergeMembers(spec, fields[keyword].items, depth, seen, union, map[]), Obj(rest), union)
    else rest
  }

  function ResolveSchema(spec: Json, schema: Json, depth: nat, seen: set<string>): Json
    decreases MAX_DEPTH - depth, 2
  {
    if depth >= MAX_DEPTH then Empty()
    else
      var resolved := ResolveRef(spec, schema, depth, seen);
      if !resolved.Obj? then resolved
      else
        var all := Compose(spec, resolved.fields, "allOf", depth, seen, false);
        var one := Compose(spec, all, "oneOf", depth, seen, true);
        if "oneOf" in all && all["oneOf"].Arr? then Obj(one)
        else Obj(Compose(spec, one, "anyOf", depth, seen, true))
  }

  // ---------- the code: a shared, mutable cycle set ----------

  /** A document together with the references being resolved. */
  class Resolver {
    const spec: Json
    var seen: set<string>

    constructor (spec: Json)
      ensures this.spec == spec && seen == {}
    {
      this.spec := spec;
      seen := {};
    }

    /** `resolve_ref`: leaves the cycle set as it was, on every path. */
    method ResolveRefInPlace(value: Json, depth: nat) returns (r: Json)
      modifies this`seen
      ensures seen == old(seen)
      ensures r == ResolveRef(spec, value, depth, seen)
      decreases MAX_DEPTH - depth
    {
      if depth >= MAX_DEPTH {
        return Empty();
      }
      var reference := Reference(value);
      if reference.None? {
        return value;
      }
      if reference.value in seen {
        return Empty();
      }
      seen := seen + {reference.value};
      var target := Target(spec, reference.value);
      if target.None? {
        seen := seen - {reference.value};
        return value;
      }
      var resolved := ResolveRefInPlace(target.value, depth + 1);
      seen := seen - {reference.value};
      r := Overlay(resolved, value);
    }

    method MergeMembersInPlace(members: seq<Json>, depth: nat, union: bool) returns (merged: map<string, Json>)
      requires depth < MAX_DEPTH
      modifies this`seen
      ensures seen == old(seen) && Mergeable(merged)
      ensures merged == MergeMembers(spec, members, depth, seen, union, map[])
      decreases MAX_DEPTH - depth, 0
    {
      merged := map[];
      for i := 0 to |members|
        invariant seen == old(seen) && Mergeable(merged)
        invariant MergeMembers(spec, members, depth, seen, union, map[])
          == MergeMembers(spec, members[i..], depth, seen, union, merged)
      {
        var member := ResolveSchemaInPlace(members[i], depth + 1);
        assert members[i..][1..] == members[i + 1..];
        merged := MergeInto(merged, member, union);
      }
    }

    /** `resolve_schema`: the function above, whatever is being resolved around it. */
    method ResolveSchemaInPlace(schema: Json, depth: nat) returns (r: Json)
      modifies this`seen
      ensures seen == old(seen)
      ensures r == ResolveSchema(spec, schema, depth, seen)
      decreases MAX_DEPTH - depth, 1
    {
      if depth >= MAX_DEPTH {
        return Empty();
      }
      var resolved := ResolveRefInPlace(schema, depth);
      if !resolved.Obj? {
        return resolved;
      }
      var fields := resolved.fields - {"allOf"};
      if "allOf" in resolved.fields && resolved.fields["allOf"].Arr? {
        var merged := MergeMembersInPlace(resolved.fields["allOf"].items, depth, false);
        fields := MergeInto(merged, Obj(fields), false);
      }
      if "oneOf" in fields && fields["oneOf"].Arr? {
        var merged := MergeMembersInPlace(fields["oneOf"].items, depth, true);
        merged := MergeInto(merged, Obj(fields - {"oneOf"}), true);
        return Obj(merged);
      }
      fields := fields - {"oneOf"};
      if "anyOf" in fields && fields["anyOf"].Arr? {
        var merged := MergeMembersInPlace(fields["anyOf"].items, depth, true);
        merged := MergeInto(merged, Obj(fields - {"anyOf"}), true);
        return Obj(merged);
      }
      r := Obj(fields - {"anyOf"});
    }
  }
}
