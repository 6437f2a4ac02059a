/**
 The options of a server (control-plane/src/sql.rs), in full and as a preview that shows no
 credentials: which names are listed, with which values, and that a server never carries two
 credentials. How the statement that is made from them is read by PostgreSQL is shown in
 `SqlStatements`.
 */
module ServerSource {
  import opened Text
  import opened PercentEncoding
  import opened SqlText
  import opened SqlStatements

  datatype SecretValue = SecretValue(value: Option<string>, env: Option<string>)

  datatype Auth =
    | NoAuth
    | BearerAuth(secret: SecretValue)
    | ApiKeyAuth(secret: SecretValue, name: string, location: string, prefix: Option<string>)  // prefix trimmed or none

  /** The settings, as the texts that are printed. */
  datatype Settings = Settings(
    allowHttp: bool,
    specWithAuth: bool,
    userAgent: Option<string>,   // none when blank
    connectTimeout: nat,
    requestTimeout: nat,
    maxResponseBytes: nat,
    maxPages: nat,
    maxRetries: nat)

  datatype Source = Source(
    specUrl: Option<string>,
    specJson: Option<string>,
    baseUrl: Option<string>,
    headers: map<string, string>,
    headersEnv: map<string, string>,
    auth: Auth,
    settings: Settings)

  const HIDDEN := "[REDACTED]"

  function Put(o: map<string, string>, name: string, value: Option<string>): map<string, string> {
    if value.Some? then o[name := value.value] else o
  }

  function Flag(set': bool): Option<string> {
    if set' then Some("true") else None
  }

  function Shown(value: string, redact: bool): string {
    if redact then HIDDEN else value
  }

  /** An inline document is previewed by its length. */
  function ShownDocument(document: string, redact: bool): string {
    if redact then "[inline OpenAPI document: " + Decimal(|Utf8(document)|) + " bytes]" else document
  }

  /** The preview of a document says its length in bytes, and nothing else of it. */
  lemma PreviewSaysLength(a: string, b: string)
    ensures ShownDocument(a, true) == ShownDocument(b, true) <==> |Utf8(a)| == |Utf8(b)|
  {
    var head, tail := "[inline OpenAPI document: ", " bytes]";
    var m, n := Decimal(|Utf8(a)|), Decimal(|Utf8(b)|);
    if head + m + tail == head + n + tail {
      assert (head + m + tail)[|head|..|head + m|] == m;
      assert (head + n + tail)[|head|..|head + n|] == n;
      DecimalInjective(|Utf8(a)|, |Utf8(b)|);
    }
  }

  function ShownHeaders(headers: map<string, string>, redact: bool): map<string, string> {
    map name | name in headers :: Shown(headers[name], redact)
  }

  function ShownSecret(secret: SecretValue, redact: bool): Option<string> {
    if secret.env.Some? || secret.value.None? then None else Some(Shown(secret.value.value, redact))
  }

  // ---------- the option list ----------

  function Described(source: Source, redact: bool, json: map<string, string> -> string): map<string, string> {
    Put(Put(Put(Put(Put(map[],
      "spec_url", source.specUrl),
      "spec_json", if source.specJson.Some? then Some(ShownDocument(source.specJson.value, redact)) else None),
      "base_url", source.baseUrl),
      "headers", if source.headers == map[] then None else Some(json(ShownHeaders(source.headers, redact)))),
      "headers_env", if source.headersEnv == map[] then None else Some(json(source.headersEnv)))
  }

  function WithAuth(options: map<string, string>, auth: Auth, redact: bool): map<string, string> {
    match auth
    case NoAuth => options
    case BearerAuth(secret) =>
      Put(Put(options, "bearer_token_env", secret.env), "bearer_token", ShownSecret(secret, redact))
    case ApiKeyAuth(secret, name, location, prefix) =>
      Put(Put(Put(options, "api_key_env", secret.env), "api_key", ShownSecret(secret, redact))
        ["api_key_name" := name]["api_key_location" := location], "api_key_prefix", prefix)
  }

  function WithSettings(options: map<string, string>, settings: Settings): map<string, string> {
    Put(Put(Put(options,
      "allow_http", Flag(settings.allowHttp)),
      "spec_with_auth", Flag(settings.specWithAuth)),
      "user_agent", settings.userAgent)
      ["connect_timeout_ms" := Decimal(settings.connectTimeout)]
      ["request_timeout_ms" := Decimal(settings.requestTimeout)]
      ["max_response_bytes" := Decimal(settings.maxResponseBytes)]
      ["max_pages" := Decimal(settings.maxPages)]
      ["max_retries" := Decimal(settings.maxRetries)]
  }

  function OptionsOf(source: Source, redact: bool, json: map<string, string> -> string): map<string, string> {
    WithSettings(WithAuth(Described(source, redact, json), source.auth, redact), source.settings)
  }

  method Describe(source: Source, redact: bool, json: map<string, string> -> string) returns (options: map<string,
                  string>)
    ensures options == Described(source, redact, json)
  {
    options := map[];
    if source.specUrl.Some? {
      options := options["spec_url" := source.specUrl.value];
    }
    if source.specJson.Some? {
      options := options["spec_json" := ShownDocument(source.specJson.value, redact)];
    }
    if source.baseUrl.Some? {
      options := options["base_url" := source.baseUrl.value];
    }
    if source.headers != map[] {
      options := options["headers" := json(ShownHeaders(source.headers, redact))];
    }
    if source.headersEnv != map[] {
      options := options["headers_env" := json(source.headersEnv)];
    }
  }

  method InsertAuth(options: map<string, string>, auth: Auth, redact: bool) returns (r: map<string, string>)
    ensures r == WithAuth(options, auth, redact)
  {
    r := options;
    match auth {
      case NoAuth =>
      case BearerAuth(secret) =>
        if secret.env.Some? {
          r := r["bearer_token_env" := secret.env.value];
        } else if secret.value.Some? {
          r := r["bearer_token" := Shown(secret.value.value, redact)];
        }
      case ApiKeyAuth(secret, name, location, prefix) =>
        if secret.env.Some? {
          r := r["api_key_env" := secret.env.value];
        } else if secret.value.Some? {
          r := r["api_key" := Shown(secret.value.value, redact)];
        }
        r := r["api_key_name" := name];
        r := r["api_key_location" := location];
        if prefix.Some? {
          r := r["api_key_prefix" := prefix.value];
        }
    }
  }

  /** `create_server_sql` up to the rendering: one insertion after another. */
  method ServerOptions(source: Source, redact: bool, json: map<string, string> -> string) returns (options: map<string,
                       string>)
    ensures options == OptionsOf(source, redact, json)
  {
    options := Describe(source, redact, json);
    options := InsertAuth(options, source.auth, redact);
    ghost var start := options;
    var settings := source.settings;
    if settings.allowHttp {
      options := options["allow_http" := "true"];
    }
    if settings.specWithAuth {
      options := options["spec_with_auth" := "true"];
    }
    if settings.userAgent.Some? {
      options := options["user_agent" := settings.userAgent.value];
    }
    assert options == Put(Put(Put(start,
      "allow_http", Flag(settings.allowHttp)), "spec_with_auth", Flag(settings.specWithAuth)),
      "user_agent", settings.userAgent);
    options := options["connect_timeout_ms" := Decimal(settings.connectTimeout)];
    options := options["request_timeout_ms" := Decimal(settings.requestTimeout)];
    options := options["max_response_bytes" := Decimal(settings.maxResponseBytes)];
    options := options["max_pages" := Decimal(settings.maxPages)];
    options := options["max_retries" := Decimal(settings.maxRetries)];
  }

  // ---------- what the options say ----------

  function Lookup(options: map<string, string>, name: string): Option<string> {
    if name in options then Some(options[name]) else None
  }

  /** The credential option of a name: the secret itself, or the variable that holds it. */
  function CredentialValue(auth: Auth, redact: bool, name: string): Option<string> {
    match auth
    case NoAuth => None
    case BearerAuth(secret) =>
      if name == "bearer_token_env" then secret.env
      else if name == "bearer_token" then ShownSecret(secret, redact) else None
    case ApiKeyAuth(secret, keyName, location, prefix) =>
      if name == "api_key_env" then secret.env
      else if name == "api_key" then ShownSecret(secret, redact)
      else if name == "api_key_name" then Some(keyName)
      else if name == "api_key_location" then Some(location)
      else if name == "api_key_prefix" then prefix else None
  }

  function DescriptionValue(source: Source, redact: bool,
                            json: map<string, string> -> string, name: string): Option<string> {
    if name == "spec_url" then source.specUrl
    else if name == "spec_json" then
      if source.specJson.Some? then Some(ShownDocument(source.specJson.value, redact)) else None
    else if name == "base_url" then source.baseUrl
    else if name == "headers" then
      if source.headers == map[] then None else Some(json(ShownHeaders(source.headers, redact)))
    else if name == "headers_env" then if source.headersEnv == map[] then None else Some(json(source.headersEnv))
    else None
  }

  function SettingValue(settings: Settings, name: string): Option<string> {
    if name == "allow_http" then Flag(settings.allowHttp)
    else if name == "spec_with_auth" then Flag(settings.specWithAuth)
    else if name == "user_agent" then settings.userAgent
    else if name == "connect_timeout_ms" then Some(Decimal(settings.connectTimeout))
    else if name == "request_timeout_ms" then Some(Decimal(settings.requestTimeout))
    else if name == "max_response_bytes" then Some(Decimal(settings.maxResponseBytes))
    else if name == "max_pages" then Some(Decimal(settings.maxPages))
    else if name == "max_retries" then Some(Decimal(settings.maxRetries))
    else None
  }

  function Over(first: Option<string>, second: Option<string>): Option<string> {
    if first.Some? then first else second
  }

  lemma AuthSays(options: map<string, string>, auth: Auth, redact: bool, name: string)
    ensures Lookup(WithAuth(options, auth, redact), name)
      == Over(CredentialValue(auth, redact, name), Lookup(options, name))
  {
  }

  lemma SettingsSay(options: map<string, string>, settings: Settings, name: string)
    ensures Lookup(WithSettings(options, settings), name) == Over(SettingValue(settings, name), Lookup(options, name))
  {
  }

  lemma DescriptionSays(source: Source, redact: bool, json: map<string, string> -> string, name: string)
    ensures Lookup(Described(source, redact, json), name) == DescriptionValue(source, redact, json, name)
  {
  }

  /** Which option is present, and with what value: no insertion hides another. */
  lemma OptionsSay(source: Source, redact: bool, json: map<string, string> -> string, name: string)
    ensures Lookup(OptionsOf(source, redact, json), name) ==
      Over(SettingValue(source.settings, name),
        Over(CredentialValue(source.auth, redact, name), DescriptionValue(source, redact, json, name)))
  {
    DescriptionSays(source, redact, json, name);
    AuthSays(Described(source, redact, json), source.auth, redact, name);
    SettingsSay(WithAuth(Described(source, redact, json), source.auth, redact), source.settings, name);
  }

  predicate IsSecretName(name: string) {
    name == "api_key" || name == "bearer_token"
  }

  lemma SecretsAreCredentials(settings: Settings, source: Source, redact: bool,
                              json: map<string, string> -> string, name: string)
    requires IsSecretName(name) || name == "api_key_env" || name == "bearer_token_env"
    ensures SettingValue(settings, name) == None && DescriptionValue(source, redact, json, name) == None
  {
  }

  /** A server has at most one credential: never a secret beside a variable, nor a key beside a token. */
  lemma OneCredential(source: Source, redact: bool, json: map<string, string> -> string, a: string, b: string)
    requires a in {"api_key", "api_key_env", "bearer_token", "bearer_token_env"} && a != b
    requires b in {"api_key", "api_key_env", "bearer_token", "bearer_token_env"}
    ensures !(a in OptionsOf(source, redact, json) && b in OptionsOf(source, redact, json))
  {
    OptionsSay(source, redact, json, a);
    OptionsSay(source, redact, json, b);
    SecretsAreCredentials(source.settings, source, redact, json, a);
    SecretsAreCredentials(source.settings, source, redact, json, b);
    CredentialsExclude(source.auth, redact, a, b);
  }

  lemma CredentialsExclude(auth: Auth, redact: bool, a: string, b: string)
    requires a in {"api_key", "api_key_env", "bearer_token", "bearer_token_env"} && a != b
    requires b in {"api_key", "api_key_env", "bearer_token", "bearer_token_env"}
    ensures CredentialValue(auth, redact, a).None? || CredentialValue(auth, redact, b).None?
  {
  }

  predicate IsConfidential(name: string) {
    name == "spec_json" || name == "headers" || IsSecretName(name)
  }

  /** A preview lists the same options, and differs only in the confidential ones. */
  lemma PreviewDiffersInSecretsOnly(source: Source, json: map<string, string> -> string, name: string)
    ensures var shown := Lookup(OptionsOf(source, true, json), name);
      var full := Lookup(OptionsOf(source, false, json), name);
      && (shown.Some? <==> full.Some?)
      && (IsConfidential(name) || shown == full)
  {
    OptionsSay(source, true, json, name);
    OptionsSay(source, false, json, name);
    PreviewOfCredential(source.auth, name);
    PreviewOfDescription(source, json, name);
  }

  lemma PreviewOfCredential(auth: Auth, name: string)
    ensures CredentialValue(auth, true, name).Some? <==> CredentialValue(auth, false, name).Some?
    ensures IsConfidential(name) || CredentialValue(auth, true, name) == CredentialValue(auth, false, name)
  {
  }

  lemma PreviewOfDescription(source: Source, json: map<string, string> -> string, name: string)
    ensures DescriptionValue(source, true, json, name).Some? <==> DescriptionValue(source, false, json, name).Some?
    ensures IsConfidential(name) || DescriptionValue(source, true, json, name)
      == DescriptionValue(source, false, json, name)
  {
  }

  // ---------- previews ----------

  /** The preview shows a mark for every header and every credential; the full list shows what they are. */
  lemma PreviewMasks(headers: map<string, string>, secret: SecretValue)
    ensures ShownHeaders(headers, true) == map name | name in headers :: "[REDACTED]"
    ensures ShownHeaders(headers, false) == headers
    ensures secret.env.None? && secret.value.Some? ==>
      ShownSecret(secret, true) == Some("[REDACTED]") && ShownSecret(secret, false) == secret.value
  {
  }

  predicate AlikeSecrets(a: SecretValue, b: SecretValue) {
    a.env == b.env && (a.value.Some? <==> b.value.Some?)
  }

  predicate AlikeAuth(a: Auth, b: Auth) {
    match a
    case NoAuth => b == a
    case BearerAuth(secret) => b.BearerAuth? && AlikeSecrets(secret, b.secret)
    case ApiKeyAuth(secret, name, location, prefix) =>
      b.ApiKeyAuth? && AlikeSecrets(secret, b.secret) && b == ApiKeyAuth(b.secret, name, location, prefix)
  }

  /** Two sources that differ in header values, credentials, and documents of one length, at most. */
  predicate Alike(a: Source, b: Source) {
    && a.specUrl == b.specUrl && a.baseUrl == b.baseUrl && a.headersEnv == b.headersEnv && a.settings == b.settings
    && a.headers.Keys == b.headers.Keys && AlikeAuth(a.auth, b.auth)
    && (if a.specJson.Some? then b.specJson.Some? && |Utf8(a.specJson.value)| == |Utf8(b.specJson.value)|
        else b.specJson.None?)
  }

  lemma AuthIsShownAlike(options: map<string, string>, a: Auth, b: Auth)
    requires AlikeAuth(a, b)
    ensures WithAuth(options, a, true) == WithAuth(options, b, true)
  {
  }

  lemma AlikeAreShownAlike(a: Source, b: Source, json: map<string, string> -> string)
    requires Alike(a, b)
    ensures Described(a, true, json) == Described(b, true, json)
  {
    assert ShownHeaders(a.headers, true) == ShownHeaders(b.headers, true);
    assert a.headers == map[] <==> a.headers.Keys == {};
    assert b.headers == map[] <==> b.headers.Keys == {};
  }

  /** A preview reveals nothing of header values and credentials, and of a document its length alone. */
  lemma PreviewRevealsNothing(a: Source, b: Source, json: map<string, string> -> string)
    requires Alike(a, b)
    ensures OptionsOf(a, true, json) == OptionsOf(b, true, json)
  {
    AlikeAreShownAlike(a, b, json);
    AuthIsShownAlike(Described(a, true, json), a.auth, b.auth);
  }

  function ScrubSecret(secret: SecretValue): SecretValue {
    if secret.value.Some? then secret.(value := Some(HIDDEN)) else secret
  }

  function ScrubAuth(auth: Auth): Auth {
    match auth
    case NoAuth => auth
    case BearerAuth(secret) => BearerAuth(ScrubSecret(secret))
    case ApiKeyAuth(secret, name, location, prefix) => ApiKeyAuth(ScrubSecret(secret), name, location, prefix)
  }

  /** A source in which every confidential value is replaced by a fixed text. */
  function Scrub(source: Source): Source {
    source.(
      specJson := if source.specJson.Some? then Some(ShownDocument(source.specJson.value, true)) else None,
      headers := ShownHeaders(source.headers, true),
      auth := ScrubAuth(source.auth))
  }

  lemma ScrubbedHeaders(headers: map<string, string>)
    ensures ShownHeaders(ShownHeaders(headers, true), false) == ShownHeaders(headers, true)
    ensures ShownHeaders(headers, true) == map[] <==> headers == map[]
  {
  }

  lemma ScrubbedAuth(options: map<string, string>, auth: Auth)
    ensures WithAuth(options, auth, true) == WithAuth(options, ScrubAuth(auth), false)
  {
  }

  /** A preview is the full option list of the scrubbed source: no confidential value reaches it. */
  lemma PreviewIsScrubbed(source: Source, json: map<string, string> -> string)
    ensures OptionsOf(source, true, json) == OptionsOf(Scrub(source), false, json)
  {
    ScrubbedHeaders(source.headers);
    assert Described(source, true, json) == Described(Scrub(source), false, json);
    ScrubbedAuth(Described(source, true, json), source.auth);
  }

  // ---------- the statement ----------

  predicate Named(options: map<string, string>) {
    forall name <- options :: IsOptionName(name)
  }

  lemma DescribedIsNamed(source: Source, redact: bool, json: map<string, string> -> string)
    ensures Named(Described(source, redact, json))
  {
    assert IsOptionName("spec_url");
    assert IsOptionName("spec_json");
    assert IsOptionName("base_url");
    assert IsOptionName("headers");
    assert IsOptionName("headers_env");
  }

  lemma AuthIsNamed(options: map<string, string>, auth: Auth, redact: bool)
    requires Named(options)
    ensures Named(WithAuth(options, auth, redact))
  {
    assert IsOptionName("bearer_token_env");
    assert IsOptionName("bearer_token");
    assert IsOptionName("api_key_env");
    assert IsOptionName("api_key");
    assert IsOptionName("api_key_name");
    assert IsOptionName("api_key_location");
    assert IsOptionName("api_key_prefix");
  }

  lemma FlagNames()
    ensures IsOptionName("allow_http") && IsOptionName("spec_with_auth") && IsOptionName("user_agent")
  {
  }

  lemma TimeoutNames()
    ensures IsOptionName("connect_timeout_ms") && IsOptionName("request_timeout_ms")
  {
  }

  lemma LimitNames()
    ensures IsOptionName("max_response_bytes") && IsOptionName("max_pages") && IsOptionName("max_retries")
  {
  }

  lemma SettingsAreNamed(options: map<string, string>, settings: Settings)
    requires Named(options)
    ensures Named(WithSettings(options, settings)) && "max_retries" in WithSettings(options, settings)
  {
    FlagNames();
    TimeoutNames();
    LimitNames();
  }

  /** The statement made for a source is read back as its server name and exactly its options. */
  lemma SourceStatementReadsBack(source: Source, server: string, redact: bool, json: map<string, string> -> string)
    requires IsSqlName(server)
    ensures var options := OptionsOf(source, redact, json);
      && (CreateServer(server, options).Ok? <==> forall name <- options :: '\0' !in options[name])
      && (CreateServer(server, options).Ok? ==>
          ReadServer(CreateServer(server, options).value) == Some(ServerStatement(server, options)))
  {
    DescribedIsNamed(source, redact, json);
    AuthIsNamed(Described(source, redact, json), source.auth, redact);
    SettingsAreNamed(WithAuth(Described(source, redact, json), source.auth, redact), source.settings);
    CreateServerReadsBack(server, OptionsOf(source, redact, json));
  }
}
