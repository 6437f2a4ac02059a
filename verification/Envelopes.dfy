/**
 Where the rows are: the importer's choice from the response schema (src/spec.rs) and the
 wrapper's choice from the response itself (src/response.rs).
 */
module Envelopes {
  import opened Text
  import opened Json
  import opened SchemaResolver
  import opened SchemaLaws
  import opened ImportedColumns
  import opened TableOptions
  import opened Paging
  import opened PageTokens

  function FirstNonNull(values: seq<Json>): Option<string> {
    if values == [] then None
    else if values[0].Str? && values[0].text != "null" then Some(values[0].text)
    else FirstNonNull(values[1..])
  }

  /** `schema_type`. */
  function SchemaType(schema: Json): Option<string> {
    var explicit := match Field(schema, "type")
      case Some(Str(text)) => Some(text)
      case Some(Arr(items)) => FirstNonNull(items)
      case _ => None;
    if explicit.Some? then explicit
    else
      var properties := Field(schema, "properties");
      if properties.Some? && properties.value.Obj? then Some("object") else None
  }

  function ItemSchema(spec: Json, schema: Json): Json {
    var items := Field(schema, "items");
    if items.Some? then ResolveSchema(spec, items.value, 0, {}) else Empty()
  }

  predicate IsContainerType(spec: Json, wrapper: Json) {
    SchemaType(ResolveSchema(spec, wrapper, 0, {})) in [Some("array"), Some("object")]
  }

  /** The first envelope key declared as an array or an object. */
  function DeclaredEnvelope(spec: Json, properties: map<string, Json>, keys: seq<string>): Option<string>
    decreases |keys|
  {
    if keys == [] then None
    else if keys[0] in properties && IsContainerType(spec, properties[keys[0]]) then Some(keys[0])
    else DeclaredEnvelope(spec, properties, keys[1..])
  }

  datatype RowSource = RowSource(schema: Json, responsePath: Option<string>, objectPath: Option<string>)

  /** The rows inside a declared envelope; GeoJSON features are unwrapped once more. */
  function WrappedRows(spec: Json, wrapper: Json, key: string): RowSource {
    var resolved := ResolveSchema(spec, wrapper, 0, {});
    var row := if SchemaType(resolved) == Some("array") then ItemSchema(spec, resolved) else resolved;
    var inner := PropertiesOf(row);
    if key == "features" && "properties" in inner
       && SchemaType(ResolveSchema(spec, inner["properties"], 0, {})) == Some("object") then
      RowSource(ResolveSchema(spec, inner["properties"], 0, {}), Some("/features"), Some("/properties"))
    else RowSource(row, Some("/" + key), None)
  }

  /** `row_schema`. */
  function RowSchema(spec: Json, rawSchema: Json, keys: seq<string>): RowSource {
    var schema := ResolveSchema(spec, rawSchema, 0, {});
    if SchemaType(schema) == Some("array") then RowSource(ItemSchema(spec, schema), None, None)
    else
      var properties := PropertiesOf(schema);
      var key := DeclaredEnvelope(spec, properties, keys);
      if key.Some? && key.value in properties then WrappedRows(spec, properties[key.value], key.value)
      else RowSource(schema, None, None)
  }

  /** The envelope-named keys of a body are the declared ones, and containers exactly where declared so. */
  predicate KeysAsDeclared(spec: Json, properties: map<string, Json>, fields: map<string, Json>, keys: seq<string>)
    decreases |keys|
  {
    keys == [] || (
      && (keys[0] in fields <==> keys[0] in properties)
      && (keys[0] in fields ==> (IsContainer(fields[keys[0]]) <==> IsContainerType(spec, properties[keys[0]])))
      && KeysAsDeclared(spec, properties, fields, keys[1..]))
  }

  predicate AsDeclared(spec: Json, rawSchema: Json, body: Json, keys: seq<string>) {
    var schema := ResolveSchema(spec, rawSchema, 0, {});
    if SchemaType(schema) == Some("array") then body.Arr?
    else body.Obj? && KeysAsDeclared(spec, PropertiesOf(schema), body.fields, keys)
  }

  lemma {:induction false} EnvelopeIsDeclared(spec: Json, properties: map<string, Json>, fields: map<string, Json>,
                                              keys: seq<string>)
    requires KeysAsDeclared(spec, properties, fields, keys)
    ensures Envelope(fields, keys) == DeclaredEnvelope(spec, properties, keys)
    decreases |keys|
  {
    if keys != [] {
      EnvelopeIsDeclared(spec, properties, fields, keys[1..]);
    }
  }

  lemma {:induction false} EnvelopeIsPresent(fields: map<string, Json>, keys: seq<string>)
    ensures Envelope(fields, keys).Some? ==>
      Envelope(fields, keys).value in fields && Envelope(fields, keys).value in keys
    decreases |keys|
  {
    if keys != [] {
      EnvelopeIsPresent(fields, keys[1..]);
    }
  }

  lemma {:induction false} DeclaredIsPresent(spec: Json, properties: map<string, Json>, keys: seq<string>)
    ensures DeclaredEnvelope(spec, properties, keys).Some? ==>
      var key := DeclaredEnvelope(spec, properties, keys).value;
      key in properties && key in keys
    decreases |keys|
  {
    if keys != [] {
      DeclaredIsPresent(spec, properties, keys[1..]);
    }
  }

  /** A pointer of one plain token reads that property. */
  lemma ReadPlainKey(body: Json, key: string)
    requires IsPlainToken(key)
    ensures ReadPointer(body, "/" + key) == Child(body, key)
  {
    SpelledOne(key);
    ReadPlainPointer(body, [key]);
    assert Get(body, [key]) == Child(body, key);
  }

  /** The imported paths, if any, are pointers, as the validator requires. */
  lemma RowSchemaPaths(spec: Json, rawSchema: Json, keys: seq<string>)
    ensures var source := RowSchema(spec, rawSchema, keys);
      forall path | path in [source.responsePath, source.objectPath] && path.Some? :: "/" <= path.value
  {
    var properties := PropertiesOf(ResolveSchema(spec, rawSchema, 0, {}));
    var key := DeclaredEnvelope(spec, properties, keys);
    if key.Some? && key.value in properties {
      var rows := WrappedRows(spec, properties[key.value], key.value);
      assert "/" <= "/features" && "/" <= "/properties" && "/" <= "/" + key.value;
    }
  }

  /** What a table with the imported response path selects from a body. */
  function Selected(body: Json, responsePath: Option<string>): Option<Json> {
    if responsePath.Some? then ReadPointer(body, responsePath.value) else Some(body)
  }

  /** A selection by envelope, as `auto_select` makes it for the given keys. */
  function SelectBy(body: Json, keys: seq<string>): Json {
    if body.Obj? && Envelope(body.fields, keys).Some? && Envelope(body.fields, keys).value in body.fields
    then body.fields[Envelope(body.fields, keys).value] else body
  }

  lemma AutoSelectIsByEnvelope(body: Json)
    ensures AutoSelect(body) == SelectBy(body, EnvelopeKeys())
  {
  }

  lemma WrappedPath(spec: Json, property: Json, key: string)
    ensures WrappedRows(spec, property, key).responsePath == Some("/" + key)
  {
    assert "/features" == "/" + "features";
  }

  lemma ImportAgreesWithSelection(spec: Json, rawSchema: Json, body: Json, keys: seq<string>)
    requires forall key <- keys :: IsPlainToken(key)
    requires AsDeclared(spec, rawSchema, body, keys)
    ensures Selected(body, RowSchema(spec, rawSchema, keys).responsePath) == Some(SelectBy(body, keys))
  {
    var schema := ResolveSchema(spec, rawSchema, 0, {});
    if SchemaType(schema) != Some("array") {
      var properties := PropertiesOf(schema);
      EnvelopeIsDeclared(spec, properties, body.fields, keys);
      EnvelopeIsPresent(body.fields, keys);
      DeclaredIsPresent(spec, properties, keys);
      var key := DeclaredEnvelope(spec, properties, keys);
      if key.Some? {
        ReadPlainKey(body, key.value);
        WrappedPath(spec, properties[key.value], key.value);
      }
    }
  }

  lemma EnvelopeKeysArePlain()
    ensures forall key <- EnvelopeKeys() :: IsPlainToken(key)
  {
  }

  /**
   Import and run time agree on the envelope: for a body whose envelope-named keys are as
   declared, the imported response path selects what the wrapper would find by itself.
   */
  lemma ImportAgreesWithAutoSelect(spec: Json, rawSchema: Json, body: Json)
    requires AsDeclared(spec, rawSchema, body, EnvelopeKeys())
    ensures Selected(body, RowSchema(spec, rawSchema, EnvelopeKeys()).responsePath) == Some(AutoSelect(body))
  {
    EnvelopeKeysArePlain();
    AutoSelectIsByEnvelope(body);
    ImportAgreesWithSelection(spec, rawSchema, body, EnvelopeKeys());
  }

  // ---------- the rows of a schema ----------

  /** The type of a schema: given, the first that is not null, or an object for its properties. */
  lemma SchemaTypeIsExact(schema: Json, name: string)
    ensures SaysType(Field(schema, "type"), name) ==> SchemaType(schema) == Some(name)
    ensures (forall given :: !SaysType(Field(schema, "type"), given)) ==>
      SchemaType(schema) ==
        if exists fields :: Field(schema, "properties") == Some(Obj(fields)) then Some("object") else None
  {
    var given := Field(schema, "type");
    if given.Some? && given.value.Arr? {
      FirstTypeIsExact(given.value.items, name);
      var first := FirstNonNull(given.value.items);
      if first.Some? {
        FirstTypeIsExact(given.value.items, first.value);
        assert SaysType(given, first.value);
      }
    }
    if given.Some? && given.value.Str? {
      assert SaysType(given, given.value.text);
    }
    var properties := Field(schema, "properties");
    if properties.Some? && properties.value.Obj? {
      assert properties == Some(Obj(properties.value.fields));
    }
  }

  /** The keyword `type` is the name, or its first entry that names a type other than null. */
  ghost predicate SaysType(given: Option<Json>, name: string) {
    given == Some(Str(name)) || (given.Some? && given.value.Arr? && FirstType(given.value.items, name))
  }

  ghost predicate FirstType(items: seq<Json>, name: string) {
    name != "null"
    && exists k | 0 <= k < |items| :: items[k] == Str(name) && forall j | 0 <= j < k :: NamesNoType(items[j])
  }

  predicate NamesNoType(item: Json) {
    !item.Str? || item.text == "null"
  }

  lemma {:induction false} FirstTypeIsExact(items: seq<Json>, name: string)
    ensures FirstType(items, name) <==> FirstNonNull(items) == Some(name)
  {
    if items != [] {
      var rest := items[1..];
      FirstTypeIsExact(rest, name);
      if items[0] == Str(name) && name != "null" {
        assert FirstType(items, name);
      }
      if NamesNoType(items[0]) {
        if FirstType(rest, name) {
          var k :| 0 <= k < |rest| && rest[k] == Str(name) && forall j | 0 <= j < k :: NamesNoType(rest[j]);
          assert items[k + 1] == Str(name);
          assert forall j | 0 <= j < k + 1 :: j > 0 ==> items[j] == rest[j - 1];
        }
        if FirstType(items, name) {
          var k :| 0 <= k < |items| && items[k] == Str(name) && forall j | 0 <= j < k :: NamesNoType(items[j]);
          assert rest[k - 1] == Str(name);
          assert forall j | 0 <= j < k - 1 :: rest[j] == items[j + 1];
        }
      }
    }
  }

  /** The rows that a schema describes: the items of an array, and otherwise itself. */
  predicate DescribesRows(spec: Json, schema: Json, row: Json) {
    if SchemaType(schema) == Some("array") then
      var items := Field(schema, "items");
      if items.Some? then row == ResolveSchema(spec, items.value, 0, {}) else row == Obj(map[])
    else row == schema
  }

  /** The schema below a GeoJSON feature's own properties. */
  ghost predicate IsFeature(spec: Json, row: Json, inner: Json) {
    exists property :: Declares(row, "properties", property)
      && inner == ResolveSchema(spec, property, 0, {}) && SchemaType(inner) == Some("object")
  }

  /** What an envelope holds gives the columns: the rows, or of GeoJSON features their own properties. */
  ghost predicate GivesColumns(spec: Json, row: Json, key: string, r: RowSource) {
    if key == "features" && exists inner :: IsFeature(spec, row, inner)
    then IsFeature(spec, row, r.schema) && r.objectPath == Some("/properties")
    else r.schema == row && r.objectPath == None
  }

  ghost predicate GivesWrapped(spec: Json, held: Json, key: string, r: RowSource) {
    exists row :: DescribesRows(spec, held, row) && GivesColumns(spec, row, key, r)
  }

  /** A declared property gives the columns. */
  ghost predicate GivesEnvelope(spec: Json, schema: Json, key: string, r: RowSource) {
    exists wrapper :: (
      Declares(schema, key, wrapper) && GivesWrapped(spec, ResolveSchema(spec, wrapper, 0, {}), key, r))
  }

  lemma DeclaredGives(spec: Json, schema: Json, key: string)
    requires key in PropertiesOf(schema)
    ensures GivesEnvelope(spec, schema, key, WrappedRows(spec, PropertiesOf(schema)[key], key))
  {
    var wrapper := PropertiesOf(schema)[key];
    PropertiesAreDeclared(schema, key);
    assert Declares(schema, key, wrapper);
    WrappedIsExact(spec, wrapper, key);
  }

  /** Columns come from the items of an array, from the declared envelope, or from the schema itself. */
  lemma RowSchemaIsExact(spec: Json, rawSchema: Json, keys: seq<string>)
    ensures var schema, r := ResolveSchema(spec, rawSchema, 0, {}), RowSchema(spec, rawSchema, keys);
      var key := ImportedEnvelope(spec, rawSchema, keys);
      if key.None? then DescribesRows(spec, schema, r.schema) && r.objectPath == None
      else GivesEnvelope(spec, schema, key.value, r)
  {
    var schema := ResolveSchema(spec, rawSchema, 0, {});
    var key := ImportedEnvelope(spec, rawSchema, keys);
    DeclaredIsPresent(spec, PropertiesOf(schema), keys);
    if key.Some? {
      DeclaredGives(spec, schema, key.value);
    }
  }

  lemma WrappedIsExact(spec: Json, wrapper: Json, key: string)
    ensures GivesWrapped(spec, ResolveSchema(spec, wrapper, 0, {}), key, WrappedRows(spec, wrapper, key))
  {
    var resolved := ResolveSchema(spec, wrapper, 0, {});
    var row := if SchemaType(resolved) == Some("array") then ItemSchema(spec, resolved) else resolved;
    assert DescribesRows(spec, resolved, row);
    FeatureIsExact(spec, row);
    assert GivesColumns(spec, row, key, WrappedRows(spec, wrapper, key));
  }

  lemma FeatureIsExact(spec: Json, row: Json)
    ensures forall inner :: IsFeature(spec, row, inner) <==>
      && "properties" in PropertiesOf(row) && inner == ResolveSchema(spec, PropertiesOf(row)["properties"], 0, {})
      && SchemaType(inner) == Some("object")
  {
    PropertiesAreDeclared(row, "properties");
    if "properties" in PropertiesOf(row) {
      assert Declares(row, "properties", PropertiesOf(row)["properties"]);
    }
  }

  /** The envelope of a schema is the first of the usual properties that is declared as an array or an object. */
  lemma {:induction false} DeclaredInOrder(spec: Json, properties: map<string, Json>, keys: seq<string>, k: nat)
    requires k <= |keys| && forall j | 0 <= j < k :: !IsEnvelopeOf(spec, properties, keys[j])
    requires k < |keys| ==> IsEnvelopeOf(spec, properties, keys[k])
    ensures DeclaredEnvelope(spec, properties, keys) == if k < |keys| then Some(keys[k]) else None
    decreases |keys|
  {
    if k > 0 {
      DeclaredInOrder(spec, properties, keys[1..], k - 1);
    }
  }

  predicate IsEnvelopeOf(spec: Json, properties: map<string, Json>, key: string) {
    && key in properties
    && var declared := SchemaType(ResolveSchema(spec, properties[key], 0, {}));
       declared == Some("array") || declared == Some("object")
  }

  // ---------- exactly when the two agree ----------

  /** The envelope key that an import writes down, if any. */
  function ImportedEnvelope(spec: Json, rawSchema: Json, keys: seq<string>): Option<string> {
    var schema := ResolveSchema(spec, rawSchema, 0, {});
    if SchemaType(schema) == Some("array") then None else DeclaredEnvelope(spec, PropertiesOf(schema), keys)
  }

  lemma ImportedEnvelopeIsPath(spec: Json, rawSchema: Json, keys: seq<string>)
    ensures var key := ImportedEnvelope(spec, rawSchema, keys);
      && RowSchema(spec, rawSchema, keys).responsePath == (if key.Some? then Some("/" + key.value) else None)
      && (key.Some? ==> key.value in keys)
  {
    var properties := PropertiesOf(ResolveSchema(spec, rawSchema, 0, {}));
    DeclaredIsPresent(spec, properties, keys);
    var key := ImportedEnvelope(spec, rawSchema, keys);
    if key.Some? {
      WrappedPath(spec, properties[key.value], key.value);
    }
  }

  /** The body has the imported key, and what it holds there is what its first container key holds. */
  predicate HoldsEnvelope(body: Json, key: string) {
    && body.Obj? && key in body.fields
    && var first := Envelope(body.fields, EnvelopeKeys());
       first.Some? && first.value in body.fields && body.fields[first.value] == body.fields[key]
  }

  /** No document is one of its own properties. */
  lemma PropertyIsSmaller(body: Json, key: string)
    requires body.Obj? && key in body.fields
    ensures body.fields[key] != body
    decreases body
  {
    if body.fields[key] == body {
      PropertyIsSmaller(body.fields[key], key);
    }
  }

  lemma PathAgrees(body: Json, key: string)
    requires IsPlainToken(key)
    ensures ReadPointer(body, "/" + key) == Some(AutoSelect(body)) && body.Obj? <==> HoldsEnvelope(body, key)
  {
    ReadPlainKey(body, key);
    if body.Obj? {
      EnvelopeIsPresent(body.fields, EnvelopeKeys());
      if key in body.fields {
        PropertyIsSmaller(body, key);
      }
    }
  }

  /** An envelope key is no index, so an array has nothing under it. */
  lemma EnvelopeIsNoIndex(body: Json, key: string)
    requires key in EnvelopeKeys() && !body.Obj?
    ensures Child(body, key) == None
  {
    assert key != "" && !IsDigit(key[0]) && key[0] in key;
  }

  /**
   An imported table selects what the wrapper would find by itself if and only if no envelope was
   declared, or the body holds under the declared key what it holds under its first container key.
   */
  lemma AgreementIsExact(spec: Json, rawSchema: Json, body: Json)
    ensures var key := ImportedEnvelope(spec, rawSchema, EnvelopeKeys());
      SelectedBy(body, RowSchema(spec, rawSchema, EnvelopeKeys()).responsePath) == Some(AutoSelect(body)) <==>
      key.None? || HoldsEnvelope(body, key.value)
  {
    ImportedEnvelopeIsPath(spec, rawSchema, EnvelopeKeys());
    EnvelopeKeysArePlain();
    var key := ImportedEnvelope(spec, rawSchema, EnvelopeKeys());
    if key.Some? {
      PathAgrees(body, key.value);
      if !body.Obj? {
        ReadPlainKey(body, key.value);
        EnvelopeIsNoIndex(body, key.value);
      }
    }
  }

  /** A body whose envelope-named keys are as declared is one of these. */
  lemma DeclaredBodiesAgree(spec: Json, rawSchema: Json, body: Json)
    requires AsDeclared(spec, rawSchema, body, EnvelopeKeys())
    ensures var key := ImportedEnvelope(spec, rawSchema, EnvelopeKeys());
      key.None? || HoldsEnvelope(body, key.value)
  {
    ImportedEnvelopeIsPath(spec, rawSchema, EnvelopeKeys());
    ImportAgreesWithAutoSelect(spec, rawSchema, body);
    AgreementIsExact(spec, rawSchema, body);
  }

  lemma FirstIsImported(spec: Json, schema: Json, keys: seq<string>)
    requires ResolveSchema(spec, schema, 0, {}) == schema && SchemaType(schema) != Some("array")
    requires keys != [] && keys[0] in PropertiesOf(schema) && IsContainerType(spec, PropertiesOf(schema)[keys[0]])
    ensures RowSchema(spec, schema, keys).responsePath == Some("/" + keys[0])
  {
    ImportedEnvelopeIsPath(spec, schema, keys);
  }

  lemma DataComesFirst()
    ensures EnvelopeKeys() != [] && EnvelopeKeys()[0] == "data" && "/" + "data" == "/data"
  {
  }

  lemma EmptyBodySelects()
    ensures SelectedBy(Obj(map[]), Some("/data")) == None && AutoSelect(Obj(map[])) == Obj(map[])
  {
    ReadPlainKey(Obj(map[]), "data");
    EnvelopeIsPresent(map[], EnvelopeKeys());
  }

  lemma ArrayIsContainer(spec: Json, item: map<string, Json>)
    requires item == map["type" := Str("array")]
    ensures IsContainerType(spec, Obj(item))
  {
    FlatResolvesToItself(spec, item);
    ArrayType(item);
    ResolvedArray(spec, Obj(item));
  }

  lemma ArrayType(item: map<string, Json>)
    requires item == map["type" := Str("array")]
    ensures SchemaType(Obj(item)) == Some("array")
  {
  }

  lemma ResolvedArray(spec: Json, schema: Json)
    requires ResolveSchema(spec, schema, 0, {}) == schema && SchemaType(schema) == Some("array")
    ensures IsContainerType(spec, schema)
  {
  }

  lemma PropertiesResolve(spec: Json, schema: map<string, Json>, properties: map<string, Json>)
    requires schema == map["properties" := Obj(properties)]
    ensures ResolveSchema(spec, Obj(schema), 0, {}) == Obj(schema)
    ensures SchemaType(Obj(schema)) == Some("object") && PropertiesOf(Obj(schema)) == properties
  {
    FlatResolvesToItself(spec, schema);
  }

  /** A declared envelope that a body leaves out is an error, where the wrapper alone would take the body. */
  lemma MissingEnvelopeFails(spec: Json, schema: map<string, Json>, properties: map<string, Json>)
    requires properties == map["data" := Obj(map["type" := Str("array")])]
    requires schema == map["properties" := Obj(properties)]
    ensures RowSchema(spec, Obj(schema), EnvelopeKeys()).responsePath == Some("/data")
    ensures SelectedBy(Obj(map[]), Some("/data")) == None && AutoSelect(Obj(map[])) == Obj(map[])
  {
    ArrayIsContainer(spec, map["type" := Str("array")]);
    PropertiesResolve(spec, schema, properties);
    DataComesFirst();
    FirstIsImported(spec, Obj(schema), EnvelopeKeys());
    EmptyBodySelects();
  }

  /** Where they agree, the response path that an import writes down changes no page. */
  lemma ImportedPathChangesNoPage(spec: Json, rawSchema: Json, body: Json, links: seq<string>, table: TableConfig)
    requires ImportedEnvelope(spec, rawSchema, EnvelopeKeys()).Some? ==>
      HoldsEnvelope(body, ImportedEnvelope(spec, rawSchema, EnvelopeKeys()).value)
    requires table.responsePath == RowSchema(spec, rawSchema, EnvelopeKeys()).responsePath
    ensures NormalizePage(body, links, table) == NormalizePage(body, links, table.(responsePath := None))
  {
    AgreementIsExact(spec, rawSchema, body);
  }
}
