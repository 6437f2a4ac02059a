/**
 Inferring write operations from an OpenAPI document (src/spec.rs): the item path of a
 collection, the row identity, and the columns that requests may write.
 */
module Importer {
  import opened Text
  import opened Json
  import opened Identifiers
  import opened Templates
  import opened SchemaResolver
  import opened TableOptions
  import opened ImportedColumns

  // ---------- find_item_path ----------

  /** A path with one parameter, and the operations on it. */
  datatype Item = Item(path: string, parameter: string, operations: map<string, Json>)

  function TrimSlashes(path: string): string {
    if path != "" && path[|path| - 1] == '/' then TrimSlashes(path[..|path| - 1]) else path
  }

  function CollectionPrefix(path: string): string {
    if path == "/" then "/" else TrimSlashes(path) + "/"
  }

  datatype Candidacy = Skipped | Stopped | Accepted(parameter: string)

  /** A candidate is `prefix{parameter}`; a malformed template below the prefix ends the search. */
  function Consider(prefix: string, candidate: string): Candidacy {
    if !(prefix <= candidate) || '/' in candidate[|prefix|..] then Skipped
    else
      var parameters := TemplateParameters(candidate);
      if parameters.None? then Stopped
      else if |parameters.value| == 1 && candidate[|prefix|..] == "{" + parameters.value[0] + "}" then
        Accepted(parameters.value[0])
      else Skipped
  }

  function ItemAt(spec: Json, paths: map<string, Json>, path: string, parameter: string): Option<Item>
    requires path in paths
  {
    var resolved := ResolveRef(spec, paths[path], 0, {});
    if resolved.Obj? then Some(Item(path, parameter, resolved.fields)) else None
  }

  function FirstItem(spec: Json, paths: map<string, Json>, prefix: string, candidates: seq<string>): Option<Item>
    requires forall c <- candidates :: c in paths
  {
    if candidates == [] then None
    else match Consider(prefix, candidates[0])
      case Skipped =>
        assert forall c <- candidates[1..] :: c in candidates;
        FirstItem(spec, paths, prefix, candidates[1..])
      case Stopped => None
      case Accepted(parameter) => ItemAt(spec, paths, candidates[0], parameter)
  }

  function ItemPath(spec: Json, collection: string, paths: map<string, Json>): Option<Item> {
    FirstItem(spec, paths, CollectionPrefix(collection), InOrder(paths.Keys))
  }

  /** `find_item_path`. */
  method FindItemPath(spec: Json, collection: string, paths: map<string, Json>) returns (r: Option<Item>)
    ensures r == ItemPath(spec, collection, paths)
  {
    var prefix := CollectionPrefix(collection);
    var candidates := InOrder(paths.Keys);
    for i := 0 to |candidates|
      invariant FirstItem(spec, paths, prefix, candidates) == FirstItem(spec, paths, prefix, candidates[i..])
    {
      assert candidates[i] in candidates && candidates[i..][1..] == candidates[i + 1..];
      match Consider(prefix, candidates[i])
      case Skipped =>
      case Stopped =>
        return None;
      case Accepted(parameter) =>
        return ItemAt(spec, paths, candidates[i], parameter);
    }
    r := None;
  }

  lemma {:induction false} ItemIsAccepted(spec: Json, paths: map<string, Json>, prefix: string, candidates: seq<string>)
    requires forall c <- candidates :: c in paths
    ensures var item := FirstItem(spec, paths, prefix, candidates);
      item.Some? ==>
        item.value.path in candidates && Consider(prefix, item.value.path) == Accepted(item.value.parameter)
  {
    if candidates != [] && Consider(prefix, candidates[0]).Skipped? {
      ItemIsAccepted(spec, paths, prefix, candidates[1..]);
    }
  }

  /** A path below the prefix, on its own level, that is no template. */
  predicate IsMalformedSibling(prefix: string, path: string) {
    prefix <= path && '/' !in path[|prefix|..] && TemplateParameters(path).None?
  }

  /** The prefix and one placeholder. */
  predicate IsItemPath(prefix: string, path: string, parameter: string) {
    && prefix <= path && path[|prefix|..] == "{" + parameter + "}" && '/' !in path[|prefix|..]
    && TemplateParameters(path) == Some([parameter])
  }

  ghost predicate Decides(prefix: string, path: string) {
    IsMalformedSibling(prefix, path) || exists parameter :: IsItemPath(prefix, path, parameter)
  }

  lemma ConsiderIsExact(prefix: string, path: string)
    ensures Consider(prefix, path).Stopped? <==> IsMalformedSibling(prefix, path)
    ensures forall parameter :: Consider(prefix, path) == Accepted(parameter) <==> IsItemPath(prefix, path, parameter)
    ensures Consider(prefix, path).Skipped? <==> !Decides(prefix, path)
  {
    var parameters := TemplateParameters(path);
    if parameters.Some? && |parameters.value| == 1 {
      assert parameters.value == [parameters.value[0]];
    }
    if Consider(prefix, path).Accepted? {
      assert IsItemPath(prefix, path, Consider(prefix, path).parameter);
    }
  }

  /** The first path, in order, that decides the search. */
  lemma {:induction false} FirstItemInOrder(spec: Json, paths: map<string, Json>, prefix: string,
                                            candidates: seq<string>, k: nat)
    requires forall c <- candidates :: c in paths
    requires k <= |candidates| && forall j | 0 <= j < k :: !Decides(prefix, candidates[j])
    requires k < |candidates| ==> Decides(prefix, candidates[k])
    ensures var item := FirstItem(spec, paths, prefix, candidates);
      if k == |candidates| || IsMalformedSibling(prefix, candidates[k]) then item == None
      else exists parameter ::
        IsItemPath(prefix, candidates[k], parameter) && item == ItemAt(spec, paths, candidates[k], parameter)
    decreases |candidates|
  {
    if candidates != [] {
      ConsiderIsExact(prefix, candidates[0]);
      if k > 0 {
        assert forall c <- candidates[1..] :: c in candidates;
        FirstItemInOrder(spec, paths, prefix, candidates[1..], k - 1);
      }
    }
  }

  /**
   The item of a collection is at the first path, in order, that is its prefix and one placeholder, unless a
   malformed path on that level comes before; and if that path is an object.
   */
  lemma ItemPathIsExact(spec: Json, collection: string, paths: map<string, Json>, k: nat)
    requires var sorted, prefix := InOrder(paths.Keys), CollectionPrefix(collection);
      && k <= |sorted| && (forall j | 0 <= j < k :: !Decides(prefix, sorted[j]))
      && (k < |sorted| ==> Decides(prefix, sorted[k]))
    ensures var sorted, prefix := InOrder(paths.Keys), CollectionPrefix(collection);
      var item := ItemPath(spec, collection, paths);
      if k == |sorted| || IsMalformedSibling(prefix, sorted[k]) then item == None
      else
        && sorted[k] in paths
        && var resolved := ResolveRef(spec, paths[sorted[k]], 0, {});
           if !resolved.Obj? then item == None
           else (
             && item.Some? && IsItemPath(prefix, sorted[k], item.value.parameter)
             && item.value.path == sorted[k] && item.value.operations == resolved.fields)
  {
    FirstItemInOrder(spec, paths, CollectionPrefix(collection), InOrder(paths.Keys), k);
  }

  predicate HasParameter(template: string, parameter: string) {
    TemplateParameters(template) == Some([parameter])
  }

  lemma ParameterIsName(template: string, parameter: string)
    requires HasParameter(template, parameter)
    ensures IsName(parameter) && !IsBlank(template)
  {
    TemplateParametersSound(template);
    assert AreNames([parameter]);
    NextParts(template);
    assert '{' in template;
  }

  lemma SlashFree(parameter: string)
    requires '/' !in "{" + parameter + "}"
    ensures '/' !in parameter
  {
  }

  lemma AcceptedShape(prefix: string, candidate: string, parameter: string)
    requires Consider(prefix, candidate) == Accepted(parameter)
    ensures candidate == prefix + "{" + parameter + "}"
    ensures HasParameter(candidate, parameter) && '/' !in parameter
  {
    assert candidate == prefix + candidate[|prefix|..];
    SlashFree(parameter);
    assert TemplateParameters(candidate).value == [parameter];
  }

  /** The item path is the collection path, one slash, and one placeholder. */
  lemma ItemPathShape(spec: Json, collection: string, paths: map<string, Json>)
    ensures var item := ItemPath(spec, collection, paths);
      item.Some? ==> (
        && item.value.path == CollectionPrefix(collection) + "{" + item.value.parameter + "}"
        && HasParameter(item.value.path, item.value.parameter)
        && '/' !in item.value.parameter)
  {
    var item := ItemPath(spec, collection, paths);
    var prefix := CollectionPrefix(collection);
    ItemIsAccepted(spec, paths, prefix, InOrder(paths.Keys));
    if item.Some? {
      AcceptedShape(prefix, item.value.path, item.value.parameter);
    }
  }

  lemma {:induction false} TrimmedSlashes(path: string)
    ensures var t := TrimSlashes(path);
      t <= path && (t != "" ==> t[|t| - 1] != '/')
  {
    if path != "" && path[|path| - 1] == '/' {
      TrimmedSlashes(path[..|path| - 1]);
    }
  }

  /** An item path is relative when its collection is. */
  lemma ItemPathIsRelative(collection: string, parameter: string)
    requires !IsAbsolute(collection) && '/' !in parameter
    ensures !IsAbsolute(CollectionPrefix(collection) + "{" + parameter + "}")
  {
    if collection != "/" {
      TrimmedSlashes(collection);
      var t, rest := TrimSlashes(collection), "{" + parameter + "}";
      SchemeStaysShort(t, rest, "http:");
      SchemeStaysShort(t, rest, "https:");
      assert CollectionPrefix(collection) + "{" + parameter + "}" == t + "/" + rest;
      assert "http:" + "//" == "http://" && "https:" + "//" == "https://";
    } else {
      assert (CollectionPrefix(collection) + "{" + parameter + "}")[0] == '/';
    }
  }

  lemma SchemeStaysShort(trimmed: string, rest: string, scheme: string)
    requires trimmed != "" ==> trimmed[|trimmed| - 1] != '/'
    requires !(scheme + "//" <= trimmed) && '/' !in rest
    ensures !(scheme + "//" <= trimmed + "/" + rest)
  {
    var path, n := trimmed + "/" + rest, |scheme|;
    if n + 1 < |trimmed| {
      assert path[..n + 2] == trimmed[..n + 2];
    } else if n + 1 == |trimmed| {
      assert path[n] == trimmed[n] && (scheme + "//")[n] == '/';
    } else if n + 1 < |path| {
      assert path[n + 1] == rest[n - |trimmed|] && (scheme + "//")[n + 1] == '/';
    }
  }

  // ---------- infer_mutations ----------

  /** The inferred operations; each pairs the endpoint with the method the source keeps beside it. */
  datatype ImportedMutations = ImportedMutations(
    rowidColumn: string,
    rowidParameter: string,
    insert: Option<MutationOperation>,
    update: Option<MutationOperation>,
    delete: Option<string>,
    writeColumns: set<string>)

  function OperationObject(spec: Json, operations: map<string, Json>, method': string): Option<map<string, Json>> {
    if method' !in operations then None
    else
      var resolved := ResolveRef(spec, operations[method'], 0, {});
      if resolved.Obj? then Some(resolved.fields) else None
  }

  predicate Identifies(column: ImportedColumn, parameter: string, name: string) {
    column.jsonName == parameter || column.name == name
  }

  function FirstIdentifying(columns: seq<ImportedColumn>, parameter: string, name: string): Option<string> {
    if columns == [] then None
    else if Identifies(columns[0], parameter, name) then Some(columns[0].name)
    else FirstIdentifying(columns[1..], parameter, name)
  }

  /** The column of the path parameter, or else the column `id`. */
  function RowidColumn(columns: seq<ImportedColumn>, parameter: string): Option<string> {
    var column := FirstIdentifying(columns, parameter, Sanitize(parameter));
    if column.Some? then column else FirstIdentifying(columns, "id", "id")
  }

  /** The effect of offering the request bodies of some methods, in turn, until one writes a column. */
  datatype Offer = Offer(columns: seq<ImportedColumn>, accepted: Option<string>, written: set<string>)

  ghost function OfferProperties(names: seq<string>, columns: seq<ImportedColumn>, rowid: string,
                                 method': string): Offer {
    var extended := WithColumns(columns, names);
    var written := ColumnsOf(extended, names, rowid);
    if written == [] then Offer(extended, None, {}) else Offer(extended, Some(method'), set name | name in written)
  }

  ghost function OfferBody(spec: Json, operation: map<string, Json>, columns: seq<ImportedColumn>, rowid: string,
                           method': string): Offer {
    OfferProperties(WritableProperties(spec, operation), columns, rowid, method')
  }

  ghost function OfferMethods(spec: Json, operations: map<string, Json>, methods: seq<string>,
                              columns: seq<ImportedColumn>, rowid: string): (offer: Offer)
    decreases |methods|
  {
    if methods == [] then Offer(columns, None, {})
    else
      var operation := OperationObject(spec, operations, methods[0]);
      if operation.None? then OfferMethods(spec, operations, methods[1..], columns, rowid)
      else
        var offer := OfferBody(spec, operation.value, columns, rowid, methods[0]);
        if offer.accepted.Some? then offer
        else OfferMethods(spec, operations, methods[1..], offer.columns, rowid)
  }

  method TryMethods(spec: Json, operations: map<string, Json>, methods: seq<string>, columns: seq<ImportedColumn>,
                    rowid: string)
    returns (extended: seq<ImportedColumn>, accepted: Option<string>, written: set<string>)
    ensures Offer(extended, accepted, written) == OfferMethods(spec, operations, methods, columns, rowid)
  {
    extended := columns;
    for i := 0 to |methods|
      invariant OfferMethods(spec, operations, methods, columns, rowid)
        == OfferMethods(spec, operations, methods[i..], extended, rowid)
    {
      assert methods[i..][1..] == methods[i + 1..];
      var operation := OperationObject(spec, operations, methods[i]);
      if operation.Some? {
        var names;
        extended, names := EnsureRequestColumns(spec, operation.value, extended, rowid);
        if names != [] {
          return extended, Some(methods[i]), set name | name in names;
        }
      }
    }
    accepted, written := None, {};
  }

  /** The item a table's rows are addressed by, once its path has at most one parameter. */
  function ItemOf(spec: Json, readPath: string, readOperations: map<string, Json>, paths: map<string, Json>,
                  parameters: seq<string>): Option<Item> {
    if |parameters| == 1 then Some(Item(readPath, parameters[0], readOperations)) else ItemPath(spec, readPath, paths)
  }

  function ParameterOf(item: Option<Item>): string {
    if item.Some? then item.value.parameter else "id"
  }

  datatype Inference = Inference(columns: seq<ImportedColumn>, mutations: Option<ImportedMutations>)

  ghost function InferFor(spec: Json, readPath: string, readOperations: map<string, Json>, collection: bool,
                          item: Option<Item>, columns: seq<ImportedColumn>, rowid: string): Inference {
    var insert := if collection then OfferMethods(spec, readOperations, ["post"], columns, rowid)
      else Offer(columns, None, {});
    var update := if item.Some? then OfferMethods(spec, item.value.operations, ["patch", "put"], insert.columns, rowid)
      else Offer(insert.columns, None, {});
    Inference(update.columns,
      Assemble(readPath, item, rowid, insert, update,
        item.Some? && OperationObject(spec, item.value.operations, "delete").Some?))
  }

  function Assemble(readPath: string, item: Option<Item>, rowid: string, insert: Offer, update: Offer, delete: bool)
    : Option<ImportedMutations>
    requires delete ==> item.Some?
  {
    if insert.accepted.None? && update.accepted.None? && !delete then None
    else Some(ImportedMutations(
      rowid, ParameterOf(item),
      if insert.accepted.Some? then Some(MutationOperation(readPath, "POST")) else None,
      if update.accepted.Some? && item.Some? then
        Some(MutationOperation(item.value.path, Uppercase(update.accepted.value))) else None,
      if delete then Some(item.value.path) else None,
      insert.written + update.written))
  }

  ghost function Infer(spec: Json, readPath: string, readOperations: map<string, Json>, paths: map<string, Json>,
                       columns: seq<ImportedColumn>): Inference {
    var parameters := TemplateParameters(readPath);
    if parameters.None? || |parameters.value| > 1 then Inference(columns, None)
    else
      var item := ItemOf(spec, readPath, readOperations, paths, parameters.value);
      var rowid := RowidColumn(columns, ParameterOf(item));
      if rowid.None? then Inference(columns, None)
      else InferFor(spec, readPath, readOperations, parameters.value == [], item, columns, rowid.value)
  }

  /** The second half of `infer_mutations`: the operations, once the row identity is known. */
  method InferOperations(spec: Json, readPath: string, readOperations: map<string, Json>, collection: bool,
                         item: Option<Item>, columns: seq<ImportedColumn>, rowid: string)
    returns (extended: seq<ImportedColumn>, mutations: Option<ImportedMutations>)
    ensures Inference(extended, mutations) == InferFor(spec, readPath, readOperations, collection, item, columns, rowid)
  {
    extended, mutations := columns, None;
    var insert, inserted := None, {};
    if collection {
      extended, insert, inserted := TryMethods(spec, readOperations, ["post"], extended, rowid);
    }
    var update, updated := None, {};
    var delete: Option<string> := None;
    if item.Some? {
      extended, update, updated := TryMethods(spec, item.value.operations, ["patch", "put"], extended, rowid);
      delete := if OperationObject(spec, item.value.operations, "delete").Some? then Some(item.value.path) else None;
    }
    if insert.None? && update.None? && delete.None? {
      return;
    }
    mutations := Some(ImportedMutations(
      rowid, ParameterOf(item),
      if insert.Some? then Some(MutationOperation(readPath, "POST")) else None,
      if update.Some? && item.Some? then Some(MutationOperation(item.value.path, Uppercase(update.value))) else None,
      delete,
      inserted + updated));
  }

  /** `infer_mutations`. */
  method InferMutations(spec: Json, readPath: string, readOperations: map<string, Json>, paths: map<string, Json>,
                        columns: seq<ImportedColumn>)
    returns (extended: seq<ImportedColumn>, mutations: Option<ImportedMutations>)
    ensures Inference(extended, mutations) == Infer(spec, readPath, readOperations, paths, columns)
  {
    extended, mutations := columns, None;
    var parameters := FindTemplateParameters(readPath);
    if parameters.None? || |parameters.value| > 1 {
      return;
    }
    var item: Option<Item>;
    if |parameters.value| == 1 {
      item := Some(Item(readPath, parameters.value[0], readOperations));
    } else {
      item := FindItemPath(spec, readPath, paths);
    }
    var rowid := RowidColumn(columns, ParameterOf(item));
    if rowid.None? {
      return;
    }
    extended, mutations :=
      InferOperations(spec, readPath, readOperations, parameters.value == [], item, columns, rowid.value);
  }

  // ---------- what every inference guarantees ----------

  /** Columns are only added; what is written is among them, without the row identity. */
  predicate Sound(offer: Offer, columns: seq<ImportedColumn>, rowid: string) {
    && columns <= offer.columns
    && (offer.accepted.Some? <==> offer.written != {})
    && rowid !in offer.written && offer.written <= Used(offer.columns)
  }

  lemma OfferedPropertiesAreSound(names: seq<string>, columns: seq<ImportedColumn>, rowid: string, method': string)
    ensures Sound(OfferProperties(names, columns, rowid, method'), columns, rowid)
  {
    var extended := WithColumns(columns, names);
    var written := ColumnsOf(extended, names, rowid);
    WrittenAreColumns(extended, names, rowid);
    if written != [] {
      assert written[0] in OfferProperties(names, columns, rowid, method').written;
    }
  }

  lemma UsedGrows(columns: seq<ImportedColumn>, extended: seq<ImportedColumn>)
    requires columns <= extended
    ensures Used(columns) <= Used(extended)
  {
  }

  lemma {:induction false} OfferIsSound(spec: Json, operations: map<string, Json>, methods: seq<string>,
                                        columns: seq<ImportedColumn>, rowid: string)
    ensures var offer := OfferMethods(spec, operations, methods, columns, rowid);
      Sound(offer, columns, rowid) && (offer.accepted.Some? ==> offer.accepted.value in methods)
    decreases |methods|
  {
    if methods != [] {
      var operation := OperationObject(spec, operations, methods[0]);
      if operation.None? {
        OfferIsSound(spec, operations, methods[1..], columns, rowid);
      } else {
        OfferedPropertiesAreSound(WritableProperties(spec, operation.value), columns, rowid, methods[0]);
        var offer := OfferBody(spec, operation.value, columns, rowid, methods[0]);
        if offer.accepted.None? {
          OfferIsSound(spec, operations, methods[1..], offer.columns, rowid);
        }
      }
    }
  }

  lemma {:induction false} IdentifyingIsUsed(columns: seq<ImportedColumn>, parameter: string, name: string)
    ensures var column := FirstIdentifying(columns, parameter, name);
      column.Some? ==> column.value in Used(columns)
  {
    if columns != [] {
      IdentifyingIsUsed(columns[1..], parameter, name);
      UsedTail(columns);
      assert columns[0] in columns;
    }
  }

  lemma UsedTail(columns: seq<ImportedColumn>)
    requires columns != []
    ensures Used(columns[1..]) <= Used(columns)
  {
  }

  /** What the importer promises of inferred operations, for columns the table has. */
  predicate Consistent(m: ImportedMutations, readPath: string, used: set<string>) {
    && (m.insert.Some? || m.update.Some? || m.delete.Some?)
    && IsName(m.rowidParameter)
    && m.rowidColumn in used && m.rowidColumn !in m.writeColumns && m.writeColumns <= used
    && (m.writeColumns != {} <==> m.insert.Some? || m.update.Some?)
    && (m.insert.Some? ==>
          m.insert.value == MutationOperation(readPath, "POST") && TemplateParameters(readPath) == Some([]))
    && (m.update.Some? ==>
          HasParameter(m.update.value.endpoint, m.rowidParameter) && m.update.value.verb in ["PATCH", "PUT"])
    && (m.delete.Some? ==> HasParameter(m.delete.value, m.rowidParameter))
    && (!IsAbsolute(readPath) ==>
        && (m.update.Some? ==> !IsAbsolute(m.update.value.endpoint))
        && (m.delete.Some? ==> !IsAbsolute(m.delete.value)))
  }

  /** Every inference is consistent and only adds columns. */
  lemma InferredIsConsistent(spec: Json, readPath: string, readOperations: map<string, Json>, paths: map<string, Json>,
                             columns: seq<ImportedColumn>)
    ensures var r := Infer(spec, readPath, readOperations, paths, columns);
      columns <= r.columns && (r.mutations.Some? ==> Consistent(r.mutations.value, readPath, Used(r.columns)))
  {
    var parameters := TemplateParameters(readPath);
    if parameters.Some? && |parameters.value| <= 1 {
      var item := ItemOf(spec, readPath, readOperations, paths, parameters.value);
      var rowid := RowidColumn(columns, ParameterOf(item));
      IdentifyingIsUsed(columns, ParameterOf(item), Sanitize(ParameterOf(item)));
      IdentifyingIsUsed(columns, "id", "id");
      if rowid.Some? {
        ItemIsAddressed(spec, readPath, readOperations, paths, parameters.value);
        InferForIsConsistent(spec, readPath, readOperations, parameters.value == [], item, columns, rowid.value);
      }
    }
  }

  /** The item has its parameter as its only one, and is relative when the collection is. */
  predicate Addressed(item: Option<Item>, readPath: string) {
    item.Some? ==> (
      && HasParameter(item.value.path, item.value.parameter)
      && (!IsAbsolute(readPath) ==> !IsAbsolute(item.value.path)))
  }

  lemma ItemIsAddressed(spec: Json, readPath: string, readOperations: map<string, Json>, paths: map<string, Json>,
                        parameters: seq<string>)
    requires TemplateParameters(readPath) == Some(parameters) && |parameters| <= 1
    ensures Addressed(ItemOf(spec, readPath, readOperations, paths, parameters), readPath)
  {
    var item := ItemOf(spec, readPath, readOperations, paths, parameters);
    if |parameters| == 1 {
      assert parameters == [parameters[0]];
    } else {
      ItemPathShape(spec, readPath, paths);
      if item.Some? && !IsAbsolute(readPath) {
        ItemPathIsRelative(readPath, item.value.parameter);
      }
    }
  }

  lemma AssembledIsConsistent(readPath: string, item: Option<Item>, rowid: string, insert: Offer, update: Offer,
                              delete: bool,
                              columns: seq<ImportedColumn>)
    requires delete || update.accepted.Some? ==> item.Some?
    requires Addressed(item, readPath) && rowid in Used(columns)
    requires Sound(insert, columns, rowid) && Sound(update, insert.columns, rowid)
    requires insert.accepted.Some? ==> TemplateParameters(readPath) == Some([])
    requires update.accepted.Some? ==> update.accepted.value in ["patch", "put"]
    ensures var m := Assemble(readPath, item, rowid, insert, update, delete);
      m.Some? ==> Consistent(m.value, readPath, Used(update.columns))
  {
    UsedGrows(columns, insert.columns);
    UsedGrows(insert.columns, update.columns);
    if item.Some? {
      ParameterIsName(item.value.path, item.value.parameter);
    }
    assert Uppercase("patch") == "PATCH" && Uppercase("put") == "PUT";
  }

  lemma InferForIsConsistent(spec: Json, readPath: string, readOperations: map<string, Json>, collection: bool,
                             item: Option<Item>, columns: seq<ImportedColumn>, rowid: string)
    requires collection ==> TemplateParameters(readPath) == Some([])
    requires Addressed(item, readPath) && rowid in Used(columns)
    ensures var r := InferFor(spec, readPath, readOperations, collection, item, columns, rowid);
      columns <= r.columns && (r.mutations.Some? ==> Consistent(r.mutations.value, readPath, Used(r.columns)))
  {
    OfferIsSound(spec, readOperations, ["post"], columns, rowid);
    var insert := if collection then OfferMethods(spec, readOperations, ["post"], columns, rowid)
      else Offer(columns, None, {});
    var update := Offer(insert.columns, None, {});
    if item.Some? {
      OfferIsSound(spec, item.value.operations, ["patch", "put"], insert.columns, rowid);
      update := OfferMethods(spec, item.value.operations, ["patch", "put"], insert.columns, rowid);
    }
    AssembledIsConsistent(readPath, item, rowid, insert, update,
      item.Some? && OperationObject(spec, item.value.operations, "delete").Some?, columns);
  }

  // ---------- what is inferred ----------

  /** The first column that stands for a parameter, by its property or by its name. */
  predicate IsFirstFor(columns: seq<ImportedColumn>, i: nat, parameter: string, name: string) {
    && i < |columns| && (columns[i].jsonName == parameter || columns[i].name == name)
    && forall j | 0 <= j < i :: columns[j].jsonName != parameter && columns[j].name != name
  }

  predicate HasNoneFor(columns: seq<ImportedColumn>, parameter: string, name: string) {
    forall j | 0 <= j < |columns| :: columns[j].jsonName != parameter && columns[j].name != name
  }

  lemma {:induction false} FirstIdentifyingIsFirst(columns: seq<ImportedColumn>, parameter: string, name: string)
    returns (i: nat)
    ensures FirstIdentifying(columns, parameter, name).None? <==> HasNoneFor(columns, parameter, name)
    ensures FirstIdentifying(columns, parameter, name).Some? ==>
      IsFirstFor(columns, i, parameter, name) && FirstIdentifying(columns, parameter, name) == Some(columns[i].name)
  {
    i := 0;
    if columns != [] && !Identifies(columns[0], parameter, name) {
      var k := FirstIdentifyingIsFirst(columns[1..], parameter, name);
      i := k + 1;
      assert forall j | 1 <= j < |columns| :: columns[j] == columns[1..][j - 1];
    }
  }

  /**
   The identity of a table is the first column of its path parameter, and only where there is none the
   first column `id`.
   */
  predicate IsIdentity(columns: seq<ImportedColumn>, parameter: string, i: nat) {
    if HasNoneFor(columns, parameter, Sanitize(parameter)) then IsFirstFor(columns, i, "id", "id")
    else IsFirstFor(columns, i, parameter, Sanitize(parameter))
  }

  lemma IdentityIsChosen(columns: seq<ImportedColumn>, parameter: string) returns (i: nat)
    ensures RowidColumn(columns, parameter).None? <==>
      HasNoneFor(columns, parameter, Sanitize(parameter)) && HasNoneFor(columns, "id", "id")
    ensures RowidColumn(columns, parameter).Some? ==>
      IsIdentity(columns, parameter, i) && RowidColumn(columns, parameter) == Some(columns[i].name)
  {
    i := FirstIdentifyingIsFirst(columns, parameter, Sanitize(parameter));
    if FirstIdentifying(columns, parameter, Sanitize(parameter)).None? {
      i := FirstIdentifyingIsFirst(columns, "id", "id");
    }
  }

  /** A path has an operation: an object under the method, its reference followed. */
  predicate HasOperation(spec: Json, operations: map<string, Json>, method': string) {
    method' in operations && ResolveRef(spec, operations[method'], 0, {}).Obj?
  }

  /** The properties that the request body of an operation may set. */
  function BodyProperties(spec: Json, operations: map<string, Json>, method': string): seq<string> {
    if HasOperation(spec, operations, method') then
      WritableProperties(spec, ResolveRef(spec, operations[method'], 0, {}).fields)
    else []
  }

  function SetOf(names: seq<string>): set<string> {
    set name | name in names
  }

  ghost function OfferOf(columns: seq<ImportedColumn>, names: seq<string>, rowid: string, method': string): Offer {
    var written := SetOf(ColumnsOf(WithColumns(columns, names), names, rowid));
    if written == {} then Offer(WithColumns(columns, names), None, {})
    else Offer(WithColumns(columns, names), Some(method'), written)
  }

  lemma OfferPropertiesIs(names: seq<string>, columns: seq<ImportedColumn>, rowid: string, method': string)
    ensures OfferProperties(names, columns, rowid, method') == OfferOf(columns, names, rowid, method')
  {
    var written := ColumnsOf(WithColumns(columns, names), names, rowid);
    if written != [] {
      assert written[0] in SetOf(written);
    }
    assert SetOf(written) == set name | name in written;
  }

  /** One method is taken exactly if its body writes a column, and otherwise the rest are tried. */
  lemma OfferOne(spec: Json, operations: map<string, Json>, methods: seq<string>, columns: seq<ImportedColumn>,
                 rowid: string)
    requires methods != []
    ensures var offer := OfferOf(columns, BodyProperties(spec, operations, methods[0]), rowid, methods[0]);
      OfferMethods(spec, operations, methods, columns, rowid) ==
        if offer.accepted.Some? then offer else OfferMethods(spec, operations, methods[1..], offer.columns, rowid)
  {
    if HasOperation(spec, operations, methods[0]) {
      OfferPropertiesIs(BodyProperties(spec, operations, methods[0]), columns, rowid, methods[0]);
    } else {
      OfferNothing(columns, rowid, methods[0]);
    }
  }

  lemma OfferNothing(columns: seq<ImportedColumn>, rowid: string, method': string)
    ensures OfferOf(columns, [], rowid, method') == Offer(columns, None, {})
  {
  }

  /** What is assembled from the columns that each body writes. */
  ghost predicate IsAssembled(readPath: string, item: Option<Item>, rowid: string, inserted: set<string>,
                              patched: set<string>, put: set<string>, delete: bool, m: Option<ImportedMutations>) {
    var updated := if patched != {} then patched else put;
    && (m.None? <==> inserted == {} && updated == {} && !delete)
    && (m.Some? ==> (
          && m.value.rowidColumn == rowid
          && m.value.rowidParameter == (if item.Some? then item.value.parameter else "id")
          && m.value.writeColumns == inserted + updated
          && m.value.insert == (if inserted == {} then None else Some(MutationOperation(readPath, "POST")))
          && (updated == {} <==> m.value.update.None?) && (updated != {} ==> item.Some?)
          && (updated != {} && item.Some? ==>
                m.value.update == Some(MutationOperation(item.value.path, if patched != {} then "PATCH" else "PUT")))
          && (delete <==> m.value.delete.Some?)
          && (delete && item.Some? ==> m.value.delete == Some(item.value.path))))
  }

  lemma AssembleIs(readPath: string, item: Option<Item>, rowid: string, insert: Offer, patch: Offer, put: Offer,
                   delete: bool)
    requires delete ==> item.Some?
    requires insert.accepted.Some? <==> insert.written != {}
    requires patch.accepted == if patch.written != {} then Some("patch") else None
    requires put.accepted == if put.written != {} then Some("put") else None
    requires patch.accepted.Some? || put.accepted.Some? ==> item.Some?
    ensures var update := if patch.accepted.Some? then patch else put;
      IsAssembled(readPath, item, rowid, insert.written, patch.written, put.written, delete,
        Assemble(readPath, item, rowid, insert, update, delete))
  {
    assert Uppercase("patch") == "PATCH" && Uppercase("put") == "PUT";
  }

  /** What the request bodies of a table write, in the order in which they are offered. */
  ghost function Inserted(spec: Json, operations: map<string, Json>, collection: bool, columns: seq<ImportedColumn>,
                          rowid: string): Offer {
    if collection then OfferOf(columns, BodyProperties(spec, operations, "post"), rowid, "post")
    else Offer(columns, None, {})
  }

  ghost function Patched(spec: Json, item: Option<Item>, columns: seq<ImportedColumn>, rowid: string, method': string)
    : Offer {
    if item.Some? then OfferOf(columns, BodyProperties(spec, item.value.operations, method'), rowid, method')
    else Offer(columns, None, {})
  }

  lemma InferForParts(spec: Json, readPath: string, readOperations: map<string, Json>, collection: bool,
                      item: Option<Item>, columns: seq<ImportedColumn>, rowid: string, insert: Offer, update: Offer)
    requires insert == if collection then OfferMethods(spec, readOperations, ["post"], columns, rowid)
      else Offer(columns, None, {})
    requires update == if item.Some? then
        OfferMethods(spec, item.value.operations, ["patch", "put"], insert.columns, rowid)
      else Offer(insert.columns, None, {})
    ensures var delete := item.Some? && HasOperation(spec, item.value.operations, "delete");
      InferFor(spec, readPath, readOperations, collection, item, columns, rowid)
        == Inference(update.columns, Assemble(readPath, item, rowid, insert, update, delete))
  {
  }

  /** The offers of a table: of its POST, then of its item's PATCH, and of the PUT behind that. */
  ghost predicate AreOffers(spec: Json, readOperations: map<string, Json>, collection: bool, item: Option<Item>,
                            columns: seq<ImportedColumn>, rowid: string, insert: Offer, patch: Offer, put: Offer) {
    && insert == Inserted(spec, readOperations, collection, columns, rowid)
    && patch == Patched(spec, item, insert.columns, rowid, "patch")
    && put == Patched(spec, item, patch.columns, rowid, "put")
  }

  /** The operations of a table follow from what its bodies write: a PUT counts only if the PATCH writes nothing. */
  lemma InferForIsExact(spec: Json, readPath: string, readOperations: map<string, Json>, collection: bool,
                        item: Option<Item>, columns: seq<ImportedColumn>, rowid: string,
                        insert: Offer, patch: Offer, put: Offer)
    requires AreOffers(spec, readOperations, collection, item, columns, rowid, insert, patch, put)
    ensures var r := InferFor(spec, readPath, readOperations, collection, item, columns, rowid);
      && r.columns == (if patch.written != {} then patch.columns else put.columns)
      && IsAssembled(readPath, item, rowid, insert.written, patch.written, put.written,
           item.Some? && HasOperation(spec, item.value.operations, "delete"), r.mutations)
  {
    var delete := item.Some? && HasOperation(spec, item.value.operations, "delete");
    OffersAccept(spec, readOperations, collection, item, columns, rowid);
    InsertIs(spec, readOperations, collection, columns, rowid);
    UpdateIs(spec, item, insert.columns, rowid);
    InferForParts(spec, readPath, readOperations, collection, item, columns, rowid, insert,
      if patch.accepted.Some? then patch else put);
    AssembleIs(readPath, item, rowid, insert, patch, put, delete);
  }

  /** Whether anything can be inferred for a path with these columns: at most one parameter, and an identity. */
  predicate HasIdentity(columns: seq<ImportedColumn>, parameter: string) {
    !HasNoneFor(columns, parameter, Sanitize(parameter)) || !HasNoneFor(columns, "id", "id")
  }

  /**
   The inference for a path, exactly: nothing without an identity column; and otherwise the identity of its
   item's parameter, and the operations that its bodies write columns for.
   */
  lemma InferenceIsExact(spec: Json, readPath: string, readOperations: map<string, Json>, paths: map<string, Json>,
                         columns: seq<ImportedColumn>, parameters: seq<string>, item: Option<Item>)
    returns (i: nat)
    requires TemplateParameters(readPath) == Some(parameters)
    requires item == if |parameters| == 1 then Some(Item(readPath, parameters[0], readOperations))
      else ItemPath(spec, readPath, paths)
    ensures var r := Infer(spec, readPath, readOperations, paths, columns);
      var parameter := if item.Some? then item.value.parameter else "id";
      if |parameters| > 1 || !HasIdentity(columns, parameter) then r == Inference(columns, None)
      else
        && IsIdentity(columns, parameter, i)
        && var insert := Inserted(spec, readOperations, parameters == [], columns, columns[i].name);
           var patch := Patched(spec, item, insert.columns, columns[i].name, "patch");
           var put := Patched(spec, item, patch.columns, columns[i].name, "put");
           && r.columns == (if patch.written != {} then patch.columns else put.columns)
           && IsAssembled(readPath, item, columns[i].name, insert.written, patch.written, put.written,
                item.Some? && HasOperation(spec, item.value.operations, "delete"), r.mutations)
  {
    i := IdentityIsChosen(columns, ParameterOf(item));
    if |parameters| <= 1 && HasIdentity(columns, ParameterOf(item)) {
      var rowid := columns[i].name;
      var insert := Inserted(spec, readOperations, parameters == [], columns, rowid);
      var patch := Patched(spec, item, insert.columns, rowid, "patch");
      InferForIsExact(spec, readPath, readOperations, parameters == [], item, columns, rowid,
        insert, patch, Patched(spec, item, patch.columns, rowid, "put"));
    }
  }

  /** For a malformed path nothing is inferred. */
  lemma MalformedInfersNothing(spec: Json, readPath: string, readOperations: map<string, Json>,
                               paths: map<string, Json>, columns: seq<ImportedColumn>)
    requires TemplateParameters(readPath).None?
    ensures Infer(spec, readPath, readOperations, paths, columns) == Inference(columns, None)
  {
  }

  lemma OffersAccept(spec: Json, readOperations: map<string, Json>, collection: bool, item: Option<Item>,
                     columns: seq<ImportedColumn>, rowid: string)
    ensures var insert := Inserted(spec, readOperations, collection, columns, rowid);
      insert.accepted.Some? <==> insert.written != {}
    ensures forall before, method' :: var offer := Patched(spec, item, before, rowid, method');
      && (offer.accepted == if offer.written != {} then Some(method') else None)
      && (offer.accepted.Some? ==> item.Some?)
  {
  }

  lemma InsertIs(spec: Json, operations: map<string, Json>, collection: bool, columns: seq<ImportedColumn>,
                 rowid: string)
    ensures Inserted(spec, operations, collection, columns, rowid) ==
      if collection then OfferMethods(spec, operations, ["post"], columns, rowid) else Offer(columns, None, {})
  {
    OfferOne(spec, operations, ["post"], columns, rowid);
    assert ["post"][1..] == [];
  }

  lemma UpdateIs(spec: Json, item: Option<Item>, columns: seq<ImportedColumn>, rowid: string)
    ensures var patch := Patched(spec, item, columns, rowid, "patch");
      var put := Patched(spec, item, patch.columns, rowid, "put");
      (if item.Some? then OfferMethods(spec, item.value.operations, ["patch", "put"], columns, rowid)
       else Offer(columns, None, {})) == if patch.accepted.Some? then patch else put
  {
    if item.Some? {
      var operations := item.value.operations;
      OfferOne(spec, operations, ["patch", "put"], columns, rowid);
      assert ["patch", "put"][1..] == ["put"] && ["put"][1..] == [];
      OfferOne(spec, operations, ["put"], Patched(spec, item, columns, rowid, "patch").columns, rowid);
    }
  }

  // ---------- names ----------

  /** How many columns an inference may add. */
  function Added(spec: Json, operations: map<string, Json>, methods: seq<string>): nat {
    if methods == [] then 0
    else
      var operation := OperationObject(spec, operations, methods[0]);
      (if operation.Some? then |WritableProperties(spec, operation.value)| else 0)
      + Added(spec, operations, methods[1..])
  }

  lemma AddedFirst(spec: Json, operations: map<string, Json>, methods: seq<string>, operation: map<string, Json>)
    requires methods != [] && OperationObject(spec, operations, methods[0]) == Some(operation)
    ensures Added(spec, operations, methods) ==
      |WritableProperties(spec, operation)| + Added(spec, operations, methods[1..])
  {
  }

  lemma {:induction false} OfferKeepsNames(spec: Json, operations: map<string, Json>, methods: seq<string>,
                                           columns: seq<ImportedColumn>, rowid: string)
    requires WellNamed(columns) && |columns| + Added(spec, operations, methods) <= USIZE_MAX
    ensures var offer := OfferMethods(spec, operations, methods, columns, rowid);
      WellNamed(offer.columns) && |offer.columns| <= |columns| + Added(spec, operations, methods)
    decreases |methods|
  {
    if methods != [] {
      var operation := OperationObject(spec, operations, methods[0]);
      if operation.None? {
        OfferKeepsNames(spec, operations, methods[1..], columns, rowid);
      } else {
        var names := WritableProperties(spec, operation.value);
        AddedFirst(spec, operations, methods, operation.value);
        RequestColumnsKeepNames(columns, names);
        WithColumnsBound(columns, names);
        OfferKeepsNames(spec, operations, methods[1..], WithColumns(columns, names), rowid);
      }
    }
  }

  /** The vector of columns never outgrows what the machine can index. */
  predicate Fits(spec: Json, readPath: string, readOperations: map<string, Json>, paths: map<string, Json>,
                 columns: seq<ImportedColumn>) {
    var parameters := TemplateParameters(readPath);
    var item := ItemOf(spec, readPath, readOperations, paths, if parameters.Some? then parameters.value else []);
    |columns| + Added(spec, readOperations, ["post"])
      + (if item.Some? then Added(spec, item.value.operations, ["patch", "put"]) else 0) <= USIZE_MAX
  }

  lemma InferForKeepsNames(spec: Json, readPath: string, readOperations: map<string, Json>, collection: bool,
                           item: Option<Item>, columns: seq<ImportedColumn>, rowid: string)
    requires WellNamed(columns)
    requires |columns| + Added(spec, readOperations, ["post"])
      + (if item.Some? then Added(spec, item.value.operations, ["patch", "put"]) else 0) <= USIZE_MAX
    ensures var r := InferFor(spec, readPath, readOperations, collection, item, columns, rowid).columns;
      WellNamed(r) && |r| <= USIZE_MAX
  {
    OfferKeepsNames(spec, readOperations, ["post"], columns, rowid);
    var insert := if collection then OfferMethods(spec, readOperations, ["post"], columns, rowid)
      else Offer(columns, None, {});
    if item.Some? {
      OfferKeepsNames(spec, item.value.operations, ["patch", "put"], insert.columns, rowid);
    }
  }

  /** Inference keeps the columns well named. */
  lemma InferenceKeepsNames(spec: Json, readPath: string, readOperations: map<string, Json>, paths: map<string, Json>,
                            columns: seq<ImportedColumn>)
    requires WellNamed(columns) && Fits(spec, readPath, readOperations, paths, columns)
    ensures var r := Infer(spec, readPath, readOperations, paths, columns).columns;
      WellNamed(r) && |r| <= USIZE_MAX
  {
    var parameters := TemplateParameters(readPath);
    if parameters.Some? && |parameters.value| <= 1 {
      var item := ItemOf(spec, readPath, readOperations, paths, parameters.value);
      var rowid := RowidColumn(columns, ParameterOf(item));
      if rowid.Some? {
        InferForKeepsNames(spec, readPath, readOperations, parameters.value == [], item, columns, rowid.value);
      }
    }
  }

  /** The columns of a table: from its rows, then its path, then its request bodies. */
  ghost function TableColumns(spec: Json, rowSchema: Json, parameters: seq<Json>, readPath: string,
                              readOperations: map<string, Json>, paths: map<string, Json>): seq<ImportedColumn> {
    Infer(spec, readPath, readOperations, paths, ReadColumns(spec, rowSchema, parameters)).columns
  }

  ghost function ReadColumns(spec: Json, rowSchema: Json, parameters: seq<Json>): seq<ImportedColumn> {
    var columns := SchemaColumns(ReadableProperties(spec, rowSchema));
    columns + ParameterColumns(spec, parameters, Used(columns))
  }

  lemma ClashStays(rows: seq<ImportedColumn>, read: seq<ImportedColumn>, columns: seq<ImportedColumn>,
                   attrs: ImportedColumn)
    requires rows <= read <= columns && !DistinctNames(rows)
    ensures !DistinctNames(columns + [attrs])
  {
    var i, j :| 0 <= i < j < |rows| && rows[i].name == rows[j].name;
    var all := columns + [attrs];
    assert all[i] == rows[i] && all[j] == rows[j];
  }

  /**
   A table, its attrs column included, has pairwise distinct names of at most 63 bytes exactly
   when the names made from its row properties do not collide: nothing added later can clash.
   */
  lemma TableIsWellNamed(spec: Json, rowSchema: Json, parameters: seq<Json>, readPath: string,
                         readOperations: map<string, Json>, paths: map<string, Json>, attrsJson: string)
    requires Fits(spec, readPath, readOperations, paths, ReadColumns(spec, rowSchema, parameters))
    ensures var columns := TableColumns(spec, rowSchema, parameters, readPath, readOperations, paths);
      CollisionFree(ColumnKeys(ReadableProperties(spec, rowSchema))) <==>
      WellNamed(columns + [ImportedColumn(AttrsName(Used(columns)), attrsJson)])
  {
    var names := ReadableProperties(spec, rowSchema);
    var rows, read := SchemaColumns(names), ReadColumns(spec, rowSchema, parameters);
    var columns := TableColumns(spec, rowSchema, parameters, readPath, readOperations, paths);
    SchemaColumnsDistinct(names);
    InferredIsConsistent(spec, readPath, readOperations, paths, read);
    if CollisionFree(ColumnKeys(names)) {
      SchemaColumnsAreNames(names);
      PathParametersKeepNames(spec, parameters, rows);
      InferenceKeepsNames(spec, readPath, readOperations, paths, read);
      AttrsNameFits(columns, attrsJson);
    } else {
      assert !DistinctNames(rows);
      ClashStays(rows, read, columns, ImportedColumn(AttrsName(Used(columns)), attrsJson));
    }
  }
}
