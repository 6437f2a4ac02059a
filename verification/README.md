# Verification of the OpenAPI foreign data wrapper

A Dafny model of the wrapper that turns OpenAPI services into PostgreSQL tables: the scan
and its paging, the mapping between rows and JSON documents, the importer that compiles an
OpenAPI document into table definitions, the validator of those definitions, the path and
header scanners, secret redaction, the retry loop, and the SQL that the control plane prints.
`dafny verify dfyconfig.toml` checks everything.

## How it is organised

- `Text`, `Json`, `Cells`, `PercentEncoding`: strings, documents, SQL values, URL segments.
- `PointerWrites`, `RowMapping`, `RowMutations`, `Addresses`: writing and reading properties of a
  document; the requests of INSERT, UPDATE and DELETE, and the addresses they go to.
- `TableOptions`, `OptionTexts`, `Configurations`, `Templates`, `PathSubstitution`: table options, what they
  say and which tables they can configure, and path templates.
- `LinkHeaders`, `Paging`, `PageTokens`, `Requests`, `PageWalk`, `ScanPlan`, `Scan`, `Pushdown`: from a
  response to a page, from pages to a scan, and what pushing LIMIT and equalities to the service preserves;
  `QueryMeaning` joins them into what a whole query answers, `FollowUps` says what the requests
  after the first one send.
- `SchemaResolver`, `SchemaLaws`, `Identifiers`, `CamelCase`, `ImportedColumns`, `Importer`,
  `ImportAccepted`, `ImportedSql`, `ImportedRows`, `Envelopes`: the importer, and that its output
  is accepted, survives being printed as SQL, is named without clashes, and is faithful at run time.
- `Redaction`, `Retry`: what error texts may show, and how often a request is sent.
- `SqlText`, `SqlStatements`, `ServerSource`: printed SQL and PostgreSQL's reading of it.

Code that changes state is a class or a method with loops, each proved equal to a function;
the theorems are about those functions. The scan is the class `Scan.OpenApiFdw` with the
source's fields; a ghost history ties them, after every callback, to the abstract walk of
`PageWalk`, and the remote service answers arbitrarily. The schema resolver is the class
`SchemaResolver.Resolver` with its shared cycle set. Other libraries (JSON and URL parsing,
transport, type conversion) are parameters.

## What turned out to be false, and when it is true

- After a failed fetch a scan can answer its end too early, because the token is taken before
  the fetch (`PageWalk.SecondPageFails` is an instance, `EndOfScan` the exact condition; a run
  without errors is never truncated).
- A pushed qualifier, the row limit or the page size can replace a configured query parameter
  (`Pushdown.StaticParameterOverridden`, `StaticLimitOverridden`, `OverriddenLimitChangesTheAnswer`;
  `StaticPairsSurvive` is the exact condition for the first request). Follow-up requests replace
  or drop more: `FollowUps.ConfiguredCursorIsLost` is an instance, `RunSendsAll` the exact condition
  for a run, and `AlwaysSentExactly` that for all services.
- Names handed out by `unique_identifier` can repeat (`Identifiers.NumberedNameTaken`,
  `LongNamesMerge`; `NamesDistinct` is the exact condition).
- An unmapped column whose name begins with `/` is written through a pointer but read as a plain
  name (`RowMapping.SingleColumnReadsBackExactly`). An imported property of such a name is mapped,
  and so read and written through a pointer, not as the property it is; and a property `attrs`,
  imported without the attrs column, answers the whole row
  (`ImportedRows.AttrsPropertyAnswersTheRow`; `ImportedColumnAnswersItsProperty` is the exact
  condition for both).
- With `include_attrs 'false'` the importer can print a definition that the validator refuses
  (`ImportAccepted.AttrsPropertyIsRefused`; `ImportedTablesAreAccepted` is the exact condition).
- An imported response path can be an error for a body that the wrapper alone would read
  (`Envelopes.MissingEnvelopeFails`; `AgreementIsExact` is the exact condition).
- Two rows can share an address: the identity `.` goes where the empty one goes
  (`Addresses.DotMeetsNothing`), and a placeholder in the fragment has no say
  (`FragmentIsNotSent`); otherwise an address determines its row (`UpdatesReachRows`).
- The importer and the validator disagree on a stray `}` between placeholders
  (`Templates.ImporterIsStricter`).
- An acceptable table whose path holds a NUL is printed as a statement that cannot be read
  (`ImportedSql.NulPathIsLost`; `ImportSurvivesSql` is the exact condition).
- `resolve_schema` can leave an `anyOf` behind and change its result when applied again
  (`SchemaLaws.LeftoverAnyOf`; `ResolvedLeaves` says exactly what is left, and
  `ResolveSchemaIdempotent` is the exact condition).
- Redaction cannot hide a secret that is part of the mark `[REDACTED]`, and can put one that
  overlaps the mark together again (`Redaction.BracketedSecretSurvives`). `OneSecretIsHidden` is
  the exact condition for one secret of any shape, `CredentialIsHiddenExactly` for a token and the
  header value made of it, and `RedactionIsComplete` for lists in which every secret outside the
  mark contains one that differs from it however they overlap, which covers all secrets without
  brackets.

## Model

| member | source | states |
|---|---|---|
| `Scan.OpenApiFdw.BeginScan` | src/fdw.rs:80-179 | a failing plan gives its own error and changes neither a field nor the service's log; an unbound path parameter gives an empty relation and no request; otherwise the scan restarts from an empty buffer with one fetch, and the invariant tying all fields to the calls made so far holds |
| `ScanPlan.PlanOutcome` | src/fdw.rs:88-164 | what a scan starts with: the error of a refused configuration or an unmatched brace, an empty relation for an unpinned placeholder whatever the base, then the error of the base or of an endpoint that forms no URL with it, and otherwise a request |
| `ScanPlan.PlannedRequestSays` | src/fdw.rs:106-164 | the first request goes to the template filled with the pinned values; it holds exactly the pairs that override a configured one and the configured pairs not overridden |
| `ScanPlan.PlanIsBounded` | src/fdw.rs:136-146 | a scan is bounded exactly if the query has no qualifier, no sort and a limit, and then by the saturated sum of count and offset |
| `Scan.PinnedColumnAnswers` | src/fdw.rs:481-509 | in a lookup, a row without the property of a path column answers the value of the last equality on that column |
| `Scan.OpenApiFdw.IterScan` | src/fdw.rs:181-199 | one step of the abstract walk: same answer, same new state, at most one request in the service's log |
| `Scan.OpenApiFdw.NextRow` | src/fdw.rs:181-199 | the loop ends after at most one fetch and equals a single step of the walk, whatever the service answers |
| `Scan.OpenApiFdw.ReScan` | src/fdw.rs:201-204 | only the read position goes back: buffer, tokens, counters and the service's log are untouched |
| `Scan.OpenApiFdw.EndScan` | src/fdw.rs:206-215 | the scan is over and its buffer and token are gone |
| `Scan.OpenApiFdw.FetchNextPage` | src/fdw.rs:396-442 | on every success and error path the fields end where one abstract fetch leads, the token taken before anything can fail except at the page limit |
| `Scan.OpenApiFdw.SendAndAbsorb` | src/fdw.rs:426-442 | exactly one request reaches the service, and the state after each error is the one the abstract send describes |
| `Scan.OpenApiFdw.AbsorbPage` | src/fdw.rs:430-442 | a repeated token is an error that counts the page but keeps its rows out of the buffer |
| `Scan.ProjectRow` | src/fdw.rs:444-479 | a row is the cells of all columns in order, or the error of the first column that fails |
| `Scan.TheRulesAreSound` | src/response.rs:69-74 | the wrapper's own rules satisfy what the walk theorems need: a page with a successor has rows, and follow-ups stay with the service's origin unless cross-origin paging is allowed |
| `PageWalk.RunIsGood` | src/fdw.rs:181-204 | invariant of every state reachable by any sequence of iterate and rewind calls, against any service: the buffer is the rows of a pagination of the collection, the answers are a prefix of it, tokens are distinct, requests bounded |
| `PageWalk.AnswersArePrefix` | src/fdw.rs:181-204 | after any calls, the answers since the scan began or was rewound are a prefix of the projected rows of the collection |
| `PageWalk.EndOfScan` | src/fdw.rs:181-199 | below the cap, the end is answered with every buffered row delivered, and the collection is incomplete exactly when an earlier fetch below the page limit returned an error |
| `PageWalk.CleanEndIsComplete` | src/fdw.rs:396-442 | no silent truncation: if no call failed, the end of the scan means the whole collection was answered, or exactly as many rows as the cap |
| `PageWalk.LostMeansFetchFailed` | src/fdw.rs:396-442 | a page is lost if and only if some fetch below the page limit returned an error to its call |
| `PageWalk.FailedFetchEndsTheScan` | src/fdw.rs:396-442 | after a failed fetch the call returns the error and the next one answers the end, although the collection goes on |
| `PageWalk.SecondPageFails` | src/fdw.rs:396-442 | an instance: one row and a token, then a page that cannot be had |
| `PageWalk.CleanRunLosesNothing` | src/fdw.rs:396-442 | in a run without errors no fetch failed and no page was lost |
| `PageWalk.RequestsAreBounded` | src/fdw.rs:396-442 | over all calls and rewinds: at most page-limit requests, at most max(1, cap) under a cap, only to permitted origins, no token followed twice |
| `PageWalk.OneRequestPerCall` | src/fdw.rs:181-199 | a call sends at most one request, and none while buffered rows remain or the cap is reached |
| `PageWalk.AnsweringTerminates` | src/fdw.rs:181-199 | each answered row decreases (page limit minus pages, rows left in the buffer) lexicographically |
| `PageWalk.IterateAfterFetch` | src/fdw.rs:181-199 | looping after a successful fetch is one step, because a page with a successor is never empty |
| `Paging.NormalizePage` | src/response.rs:43-75 | a page that names a successor holds at least one row |
| `PageTokens.PageIsExact` | src/response.rs:43-120 | a page is an error exactly if the response path leads nowhere; its rows are the selected array, nothing for null, or the one value; it names a token as successor if and only if it has rows, pages are followed, and the places of the page say so in their order: the cursor path, a link header, a URL field, and a cursor field where `has_more` is true |
| `PageTokens.ClassifiedByText` | src/response.rs:130-140 | a text under the cursor path is a URL if and only if it begins with a scheme, a slash or a question mark |
| `PageTokens.AutoSelectIsExact` | src/response.rs:77-88 | without a response path the rows are under the first of the seven envelope names that holds an array or an object, and else the body itself |
| `PageTokens.PrintedUrlReadsBack` | src/response.rs:90-110 | a page printed with rows and a URL at any one of the nine places is followed by that URL |
| `PageTokens.PrintedCursorPathReadsBack` | src/response.rs:91-99 | a page printed with a text under the configured cursor path is followed by it, whatever links it has |
| `PageTokens.PrintedLinkReadsBack` | src/response.rs:100-104 | a page with rows and one printed link that is related as `next` is followed by that link, whatever else the body says |
| `PageTokens.PrintedCursorReadsBack` | src/response.rs:111-119 | a page printed with a cursor and a flag `has_more` is followed by the cursor if and only if the flag is true |
| `FollowUps.CompleteSaysNoMore` | src/response.rs:90-120 | the last page of a collection has no rows or names no successor at any place |
| `FollowUps.PagesFollowSuccessors` | src/fdw.rs:396-442 | every other page of a collection is asked for by the successor that the page before it names |
| `Requests.ResolvePageUrl` | src/http.rs:65-96 | unless cross-origin paging is allowed, an accepted page URL has the origin of the base URL |
| `Requests.PageUrlIsExact` | src/http.rs:65-96 | a page URL is followed exactly where it leads, by itself, as a query of the current page, below the base or relative to the current page, if that is a web address and of the base's origin, unless origins do not matter |
| `Requests.OriginIsExact` | src/http.rs:431-438 | two web addresses have one origin if and only if scheme, host and port agree, the port given or that of the scheme |
| `FollowUps.SentUrlSays` | src/fdw.rs:404-425 | every follow-up of a run goes where its token leads from the page before it: a URL as resolved there, a cursor to the first address |
| `FollowUps.RequestsStayAtOrigin` | src/fdw.rs:396-442 | unless cross-origin paging is allowed, every request of a run goes to the planned address or to the base's origin |
| `Requests.PlanQuery` | src/fdw.rs:115-157 | the loop over qualifiers and the page bound give the specified query |
| `Requests.StaticQueryIsExact` | src/fdw.rs:115-121 | the configured query holds a pair exactly if the parameter sends it: a scalar as its text, each scalar of a list, and anything else as JSON |
| `Requests.ScalarsInOrder` | src/fdw.rs:848-859 | the scalars of a list are sent one after the other |
| `Pushdown.LastPushedIsExact` | src/fdw.rs:122-135 | the value pushed for a remote name is that of the last equality with one plain value on a column outside the path that is mapped to the name, and there is none where no such qualifier is |
| `Pushdown.LimitPushdown` | src/fdw.rs:140-146 | LIMIT/OFFSET over the bounded rows equals LIMIT/OFFSET over the full relation, for any service returning at least the first count+offset rows in order |
| `Pushdown.PushedPairs` | src/fdw.rs:120-134 | which pairs a query holds after pushing: the last pushed qualifier of a name replaces every pair of that name, all others stay |
| `Pushdown.PlannedPairs` | src/fdw.rs:115-157 | a pair is in the query of the first request if and only if it is the one that overrides its name, by qualifier, row limit or page size, or is configured under a name nothing overrides |
| `Pushdown.StaticPairsSurvive` | src/fdw.rs:115-157 | the first request sends all configured parameters if and only if neither a pushed qualifier nor the row limit or page size gives one of their names another value |
| `PageWalk.RequestsFollowPages` | src/fdw.rs:396-425 | over all calls and rewinds: the first request is the planned one, and each other is the follow-up of the page before it |
| `FollowUps.SentRequestSays` | src/fdw.rs:404-425 | which pairs every request of a run holds: the first all planned ones, one behind a cursor the cursor and the planned pairs of other names, one behind a page URL none; verb and body never change |
| `FollowUps.RunSendsAll` | src/fdw.rs:404-425 | every request of a run sends all that is configured or pushed if and only if no page URL was followed, unless nothing was planned, and no cursor that differs from a planned value of its name |
| `FollowUps.AlwaysSentExactly` | src/fdw.rs:396-425 | a pair is sent in every request, whatever the service answers, if and only if no request can be made, or the pair is planned and the paging mode, page limit or row cap allow no second request |
| `FollowUps.ConfiguredCursorIsLost` | src/fdw.rs:404-425 | a configured `cursor` is sent once and then replaced by the service's cursor, or gone behind a page URL, although nothing overrides it in the first request |
| `Pushdown.StaticLimitOverridden` | src/fdw.rs:140-153 | a configured `limit` is replaced by the row limit of the query, even by a larger one |
| `Pushdown.LimitedQueryKeepsFirstRows` | src/fdw.rs:140-153 | a query that pushes nothing but its bound returns the first rows of the configured collection, when the bound's name is not a configured one and the service honours it |
| `Pushdown.OverriddenLimitChangesTheAnswer` | src/fdw.rs:140-153 | with a configured limit even a service that honours limits answers another query than the one configured |
| `Pushdown.EqualityPushdown` | src/fdw.rs:115-157 | pushing any equality qualifiers, then rechecking locally, selects the same rows in the same order as filtering the configured collection, when names are disjoint |
| `Pushdown.FilterNarrowed` | src/fdw.rs:120-134 | rechecking a relation from which the service dropped only non-matching rows gives the rows of the full relation |
| `Pushdown.StaticParameterOverridden` | src/fdw.rs:871-874 | without disjoint names a qualifier silently replaces a configured filter |
| `QueryMeaning.EndedScanAnswersTheCollection` | src/fdw.rs:181-204 | an error-free scan, called and rewound in any way, that answers its end has answered exactly the projected rows of the collection up to the cap |
| `QueryMeaning.FilteredQueryIsExact` | src/fdw.rs:115-157 | end to end: what PostgreSQL keeps of a scan with pushed qualifiers is what it would keep of the whole configured collection |
| `QueryMeaning.LimitedQueryIsExact` | src/fdw.rs:140-146 | end to end: LIMIT and OFFSET over the scan that was planned for them are LIMIT and OFFSET over the whole configured collection, when the bound's parameter is not a configured one and the service honours it |
| `QueryMeaning.FilterProjects` | src/fdw.rs:444-479 | filtering projected rows is projecting filtered documents |
| `QueryMeaning.ScanFilters` | src/fdw.rs:80-199 | the filtered-query theorem for the wrapper's own fields: a scan that was begun with a qualifier, a sort or no limit and has answered its end |
| `QueryMeaning.ScanAnswersAll` | src/fdw.rs:80-199 | a scan without qualifiers that is sorted, or has no limit, has answered the whole configured collection when it answers its end |
| `QueryMeaning.ScanSorts` | src/fdw.rs:80-199 | sorting and then limiting the answers of a sorted scan is sorting and limiting the whole configured collection, for every sort |
| `QueryMeaning.ScanLimits` | src/fdw.rs:80-199 | the limited-query theorem for the wrapper's own fields |
| `PointerWrites.PutFailsWhenBlocked` | src/fdw.rs:623-643 | a pointer write fails if and only if a proper prefix of its path already holds something other than an object |
| `PointerWrites.PutThenGet` | src/fdw.rs:623-643 | what was written is read back |
| `PointerWrites.PutElsewhere` | src/fdw.rs:623-643 | every path that diverges from the written one reads as before |
| `PointerWrites.PutsCommute` | src/fdw.rs:623-643 | writes to diverging paths commute, failures included |
| `PointerWrites.PutAllThenGet` | src/fdw.rs:561-582 | after a list of diverging writes each is read back and every path diverging from all is unchanged |
| `PointerWrites.PutAllInAnyOrder` | src/fdw.rs:561-582 | diverging writes give the same document in every order |
| `RowMapping.WriteBody` | src/fdw.rs:528-591 | the loop over the row builds the body of all selected writes, or fails with the first of them |
| `RowMapping.WrittenColumnsReadBack` | src/fdw.rs:528-591 | lens law: every column of an accepted body reads back its own cell through the read side, when targets diverge |
| `RowMapping.MergeKeepsTheRest` | src/fdw.rs:528-591 | in merge mode everything in the object of the attrs cell that diverges from the written targets is sent as it is there; without that cell, and in columns mode, nothing but the targets is |
| `RowMapping.AttrsBodyIsTheObject` | src/fdw.rs:536-560 | in attrs mode a body is sent exactly if the attrs cell holds a non-empty object, and is that object |
| `RowMapping.AttrsCellDecides` | src/fdw.rs:531-560 | the attrs cell makes a write an error exactly if it is missing or no object in attrs mode, or present and no object in merge mode |
| `RowMapping.WriteComesFromColumn` | src/fdw.rs:562-583 | every write stands for a column of the row that may be written, at its target and with its cell |
| `RowMapping.BodyIsRefused` | src/fdw.rs:528-591 | a body is refused exactly if the attrs cell is, a written cell has no JSON or its pointer is malformed, a write meets something that is no object, or nothing would be sent |
| `RowMapping.ColumnValueIsExact` | src/fdw.rs:481-509 | what a column answers: the value at its mapped place, else its own property, else the first property whose column name it is, and a row that is no object under `value` |
| `Cells.ToJsonIsExact` | src/fdw.rs:679-767 | which JSON a cell becomes: booleans, numbers and texts themselves, documents as they are, and no JSON for what is not finite |
| `Cells.QualValueIsExact` | src/fdw.rs:822-846 | a qualifier is pushed exactly if it is an equality with one plain value, and then with that value's text |
| `RowMapping.SingleColumnReadsBackExactly` | src/fdw.rs:481-509 | a column reads back what it wrote if and only if it is mapped or its name does not begin with a slash |
| `RowMapping.ReadPointerFollowsTarget` | src/fdw.rs:601-621 | the writer's pointer decoding and the reader's pointer evaluation name the same path |
| `RowMapping.TargetPathNonempty` | src/fdw.rs:606-621 | a decoded pointer always has a token, so the document root is never written |
| `Json.DecodePointerToken` | src/fdw.rs:645-664 | the single pass computes the decoded name, or the configuration error |
| `Json.DecodeRejectsMalformed` | src/fdw.rs:645-664 | exactly the tokens with a `~` not followed by 0 or 1 are rejected |
| `Json.DecodeIsUnescape` | src/fdw.rs:645-664 | on well-formed tokens the pass equals the two replacements of section 4 of RFC 6901 |
| `Json.DecodeInvertsEscape` | src/fdw.rs:645-664 | a slash-free token decodes to a name if and only if it is the escaped form of section 3 of RFC 6901 |
| `Json.IndexIsExact` | src/fdw.rs:481-509 | an array index in a pointer is a number in decimal without needless zeros |
| `Json.ChildIsExact` | src/fdw.rs:481-509 | a pointer token leads from an object to the property it names, from an array to the element it numbers, and nowhere else |
| `Json.PrintedPointerReads` | src/fdw.rs:481-509 | a pointer printed from a path leads where the path leads, and a text without a slash in front leads nowhere |
| `Templates.FindTemplateParameters` | src/spec.rs:397-414 | the scanning loop computes the parameters, or nothing for a malformed template |
| `Templates.TemplateParametersSound` | src/spec.rs:397-414 | an accepted template is its literals and parameters interleaved, with no other brace |
| `Templates.TemplateParametersComplete` | src/spec.rs:397-414 | every such interleaving is accepted with exactly those parameters |
| `Templates.FindPathPlaceholders` | src/options.rs:596-621 | the validator's loop computes the placeholders, or the configuration error |
| `Templates.PathPlaceholdersExact` | src/options.rs:596-621 | the validator returns given names if and only if the template renders them between literals with no `}` at either end |
| `Templates.ImporterAgreesWithValidator` | src/spec.rs:397-414 | whatever the importer reads from a template the validator reads too |
| `Templates.ImporterIsStricter` | src/options.rs:596-621 | of the templates the validator accepts, the importer refuses exactly those with a stray `}` between placeholders |
| `PercentEncoding.DecodeEncode` | src/fdw.rs:518-526 | an encoded segment percent-decodes to the bytes it was made from |
| `PercentEncoding.SegmentInjective` | src/fdw.rs:518-526 | distinct texts have distinct encoded segments |
| `PercentEncoding.PlainTextStays` | src/fdw.rs:518-526 | a text stays as it is in a segment if and only if it has letters and digits alone |
| `PercentEncoding.DotSegments` | src/fdw.rs:518-526 | the encoded segments that a URL parser takes for dot segments come from the texts `.` and `..` alone |
| `PathSubstitution.MutationEndpointShape` | src/fdw.rs:518-526 | the identity fills every placeholder, leaves no `{`, and keeps the number of slashes |
| `PathSubstitution.MutationEndpointInjective` | src/fdw.rs:518-526 | one endpoint text means one row identity |
| `PathSubstitution.PinnedHasValue` | src/fdw.rs:789-794 | a column has a value if some pushable equality pins it, columns compared without case |
| `PathSubstitution.LastEqualityWins` | src/fdw.rs:789-794 | the value of a column is that of the last pushable equality on it |
| `PathSubstitution.SubstitutePathParameters` | src/fdw.rs:785-820 | the loop computes the lookup, nothing for a missing value, an error for an unmatched brace |
| `PathSubstitution.TemplateParts` | src/fdw.rs:785-820 | a template whose braces match is its literals and gaps in turn |
| `PathSubstitution.LookupOfTemplate` | src/fdw.rs:785-820 | for every template: an error exactly for an unmatched brace, a request exactly if every gap is pinned, and then each value fills its own gap as one segment |
| `PathSubstitution.InjectedIsPinned` | src/fdw.rs:807-815 | an injected column carries the value of the last qualifier that pins it |
| `PathSubstitution.EveryPlaceholderInjected` | src/fdw.rs:807-815 | every placeholder of a bound lookup, of any template, is among the used and injected columns |
| `RowMutations.AcceptedTablesAreValidated` | src/options.rs:390-486 | every accepted table has an identity and templates holding only its placeholder, so the wrapper's expectations on it cannot fail |
| `OptionTexts.TableIsExact` | src/options.rs:332-531 | options are accepted and give a configuration if and only if each of them says its part of it: relative endpoint, method in any case of letters, rooted pointers, names that are switched off by a blank, numbers in their range, the modes by their names, and operations that fit the identity |
| `OptionTexts.WriteSideIsExact` | src/options.rs:390-485 | the write side alone, by the same relation |
| `OptionTexts.OperationIsExact` | src/options.rs:534-594 | an operation is accepted if and only if its endpoint is relative with the identity's placeholder and no other, and its method is allowed; a method without an endpoint is refused |
| `Configurations.PrintedTableReadsBack` | src/options.rs:332-531 | every valid configuration is given by the options printed from it |
| `Configurations.ConfigurableIsValid` | src/options.rs:332-531 | a configuration can be given by options if and only if it is valid |
| `Configurations.DefaultsAreTaken` | src/options.rs:332-531 | a table that says nothing but its endpoint has the documented defaults |
| `RowMutations.InsertsFollowTheTemplate` | src/fdw.rs:229-253 | an INSERT goes to a finished address of its template |
| `RowMutations.UpdatesFollowTheTemplate` | src/fdw.rs:255-269 | an UPDATE goes to a finished address of its template |
| `RowMutations.DeletesFollowTheTemplate` | src/fdw.rs:271-281 | a DELETE goes to a finished address of its template |
| `RowMutations.UpdatesDetermineRows` | src/fdw.rs:255-269 | two updates to one endpoint text name one row by their cells: the same number, the same text, or the same truth value |
| `RowMutations.DeletesDetermineRows` | src/fdw.rs:271-281 | two deletes of one endpoint text name one row by their cells |
| `RowMutations.UpdateIsExact` | src/fdw.rs:255-269 | an update is sent exactly if the table has one, the row identity is a number, text or truth value, and a body can be made: to the template with that identity, encoded, in its gaps |
| `RowMutations.DeleteIsExact` | src/fdw.rs:271-281 | a delete is sent exactly if the table has one and the row identity is a number, text or truth value, to the template with that identity in its gaps and without a body |
| `RowMutations.InsertIsExact` | src/fdw.rs:229-253 | an insert is sent exactly if the table has one and a body can be made: to the template itself, or, where it has the placeholder, to the address of the identity that the row gives |
| `Addresses.UpdatesReachRows` | src/http.rs:52-63 | two updates that are sent to one address, below one base and whatever single characters the URL parser rewrites, have the same row identity, where the path has no dot segment and the first placeholder is not in the fragment |
| `Addresses.DeletesReachRows` | src/http.rs:52-63 | two deletes that are sent to one address have the same row identity, under the same conditions |
| `Addresses.ItemIsDotFree` | src/fdw.rs:518-526 | with the placeholder as last segment of a path without dot segments, the condition fails for the identities `.` and `..` alone |
| `Addresses.DotMeetsNothing` | src/http.rs:52-63 | the identity `.` goes to the address of the empty identity |
| `Addresses.FragmentIsNotSent` | src/http.rs:52-63 | a placeholder that only stands in the fragment has no say in the address |
| `RowMutations.IdentityIsNotWritten` | src/fdw.rs:563-573 | removing the identity or attrs column from a row changes nothing that is written |
| `LinkHeaders.SplitLinkEntries` | src/response.rs:170-195 | the scanner with its quote, angle and escape flags computes the entries |
| `LinkHeaders.EntriesConserveInput` | src/response.rs:170-195 | for every text, the entries joined by commas are the text |
| `LinkHeaders.PrintedLinksReadBack` | src/response.rs:142-168 | parsing a printed list of links (section 3 of RFC 8288), each parameter value quoted or a token, returns the URL of the first one related as `next`, or nothing |
| `LinkHeaders.RelationReadsBack` | src/response.rs:142-168 | a parameter with blanks anywhere, its value quoted or not, makes a link the next page if and only if its name is `rel` and one of its words is `next`, in any case of letters |
| `LinkHeaders.EntryIsExact` | src/response.rs:142-168 | an entry gives a URL if and only if it stands in angle brackets in front and some parameter behind it makes it the next page |
| `Identifiers.SanitizeIdentifier` | src/spec.rs:844-872 | the character loop computes the sanitized name |
| `Identifiers.SanitizeShape` | src/spec.rs:844-872 | a sanitized name has only lower-case letters, digits and underscores, no leading digit, at most 63 bytes |
| `Identifiers.SanitizeIdempotent` | src/spec.rs:844-872 | sanitizing again changes nothing if and only if the name does not end in an underscore |
| `CamelCase.CamelBecomesSnake` | src/spec.rs:844-872 | the words of a camel-case name, acronyms in capitals included, are found again in small letters with underscores between them |
| `Identifiers.UniqueIdentifier` | src/spec.rs:826-842 | each call continues the numbering of all previous calls |
| `Identifiers.NamesDistinct` | src/spec.rs:826-842 | the names handed out are pairwise distinct if and only if no numbered name is a key and no two stems are cut alike |
| `Identifiers.PlainKeysAreDistinct` | src/spec.rs:826-842 | no base ending in underscore and number, and no cut, is enough for distinct names |
| `Identifiers.NumberedNameTaken` | src/spec.rs:826-842 | the bases a, a, a_2 give a_2 twice |
| `Identifiers.LongNamesMerge` | src/spec.rs:826-842 | two long bases that differ only at the end give one numbered name |
| `Identifiers.FirstFree` | src/spec.rs:470-492 | a search over pairwise distinct candidates ends at the first free one, after at most as many steps as names are taken |
| `SchemaResolver.Resolver.ResolveRefInPlace` | src/spec.rs:743-770 | on every path the shared cycle set is left as it was found and the result is that of the pure function |
| `SchemaResolver.Resolver.MergeMembersInPlace` | src/spec.rs:703-717 | the member loop restores the cycle set and computes the fold |
| `SchemaResolver.Resolver.ResolveSchemaInPlace` | src/spec.rs:694-741 | the recursive resolution with a mutable cycle set equals a pure function and restores the set |
| `SchemaResolver.MergeInto` | src/spec.rs:772-813 | editing the target entry by entry computes the merge; a `properties` entry is always an object |
| `SchemaLaws.ShortChainResolves` | src/spec.rs:743-770 | a chain of at most 31 hops without repetition resolves as if unbounded |
| `SchemaLaws.LongChainIsCut` | src/spec.rs:743-770 | a longer chain is cut at the depth limit, keeping only the overlaid siblings |
| `SchemaLaws.ThirtyTwoReferences` | src/spec.rs:743-770 | thirty-one references in a row are followed to the end, and of a longer chain the siblings of the first thirty-two remain |
| `SchemaLaws.CycleIsCut` | src/spec.rs:743-770 | a chain that returns to a reference in progress ends there |
| `SchemaLaws.OutermostSiblingWins` | src/spec.rs:761-768 | of the siblings along a chain the outermost wins per key, then the target |
| `SchemaLaws.ResolvedIsTerminal` | src/spec.rs:743-770 | a resolved value never has a local reference that could still be followed |
| `SchemaLaws.ResolveRefIdempotent` | src/spec.rs:743-770 | resolving a reference twice is resolving it once |
| `SchemaLaws.MergedPropertiesFirstWins` | src/spec.rs:772-813 | merged properties are the union of the members' properties, each from the first member declaring it, nullable in unions |
| `SchemaLaws.MergedPropertySays` | src/spec.rs:776-790 | a property of oneOf or anyOf may be null, and otherwise a merged property says what its first declaration says |
| `SchemaLaws.PropertyNamesIgnoreOrder` | src/spec.rs:772-813 | permuting the members does not change the set of property names |
| `SchemaLaws.MergedRequiredIsSortedUnion` | src/spec.rs:791-809 | allOf requires the sorted union of what its members require |
| `SchemaLaws.MergedRequires` | src/spec.rs:791-812 | what is merged for allOf requires a property exactly if a member does |
| `SchemaLaws.MembersAreMerged` | src/spec.rs:703-717 | the member loop equals the fold over the resolved members |
| `SchemaLaws.CompositionMergesMembersThenRest` | src/spec.rs:703-740 | a composition merges its resolved members first and the rest of the schema last |
| `SchemaLaws.ResolvedSchemaIsFlat` | src/spec.rs:694-741 | no resolved schema has a top-level allOf or oneOf or a reference that could be followed |
| `SchemaLaws.ResolvedLeaves` | src/spec.rs:694-741 | which anyOf a resolved schema has is what its keywords and members leave behind, by a recursion over the schema before it is merged |
| `SchemaLaws.NothingLeftIsIdempotent` | src/spec.rs:694-741 | where the keywords of a schema leave no anyOf behind, resolving it again changes nothing |
| `SchemaLaws.ResolveSchemaIdempotent` | src/spec.rs:694-741 | resolving again changes nothing if and only if no anyOf is left behind, or its merged members repeat what the schema says already |
| `SchemaLaws.AnyOfOfItself` | src/spec.rs:694-741 | such an anyOf exists: one whose member is the document it stands in |
| `SchemaLaws.LeftoverAnyOf` | src/spec.rs:723-739 | an anyOf beside a oneOf is left behind, and resolving again drops it |
| `ImportedSql.PrintedOptionsReadBack` | src/spec.rs:76-131 | PostgreSQL reads from the printed OPTIONS list exactly the options printed into it, or nothing if one of them holds a NUL |
| `ImportedSql.SameConfiguration` | src/options.rs:332-531 | a configuration depends only on the options the validator looks up |
| `ImportedSql.ImportSurvivesSql` | src/spec.rs:42-131 | the whole way: an imported table printed as SQL, lexed and validated again is accepted exactly when it is acceptable and prints no NUL, and is then the table that was imported |
| `ImportedSql.NulPathIsLost` | src/spec.rs:76-131 | an acceptable table whose path holds a NUL has a statement that cannot be read |
| `ImportedColumns.FindUniqueColumnName` | src/spec.rs:470-492 | the search loop ends at the base or at the least free number |
| `ImportedColumns.UniqueColumnNameIsName` | src/spec.rs:470-492 | the name found is a nonempty identifier of at most 63 bytes |
| `ImportedColumns.ColumnsFromSchema` | src/spec.rs:575-600 | the loop gives every readable property, in key order, the next name of its key |
| `ImportedColumns.SchemaColumnsDistinct` | src/spec.rs:575-600 | schema columns have distinct names if and only if their keys are collision-free |
| `ImportedColumns.SchemaColumnsAreNames` | src/spec.rs:575-600 | every schema column name is a nonempty identifier of at most 63 bytes |
| `ImportedColumns.ReadableIsExact` | src/spec.rs:575-600 | the columns of a row schema are its declared properties in key order, without those marked writeOnly and no others |
| `ImportedColumns.ParameterColumnsAreExact` | src/spec.rs:602-644 | the parameter columns are, for each name that no column has, the last entry that describes a path parameter of that name |
| `ImportedColumns.PathParameterColumns` | src/spec.rs:602-644 | the loop collects path parameters by name, a later one replacing an earlier, none clashing with an existing column |
| `ImportedColumns.PathParametersKeepNames` | src/spec.rs:602-644 | path parameters extend a well-named list to a well-named list |
| `ImportedColumns.EnsureRequestColumns` | src/spec.rs:426-468 | columns are only appended, one for each writable property without one, and the names returned are the columns of those properties without the row identity |
| `ImportedColumns.WritableIsExact` | src/spec.rs:426-503 | the properties a request may write are those its schema declares, in key order, without those that stand for a readOnly one |
| `ImportedColumns.MediaIsExact` | src/spec.rs:494-525 | the schema of a message is that of its first JSON media type, and else of its first media type |
| `ImportedColumns.RequestColumnsKeepNames` | src/spec.rs:426-468 | request bodies extend a well-named list to a well-named list |
| `ImportedColumns.WrittenAreColumns` | src/spec.rs:463-467 | what is written is a column of the table and never the row identity |
| `ImportedColumns.FindAttrsName` | src/spec.rs:49-60 | the search for the attrs column ends at the first free candidate |
| `ImportedColumns.AttrsNameFits` | src/spec.rs:49-60 | the attrs column joins the table without a clash, and is called attrs if and only if that name is free |
| `Importer.FindItemPath` | src/spec.rs:367-395 | the loop finds the first candidate `prefix{parameter}`, stopping at a malformed template |
| `Importer.ItemPathShape` | src/spec.rs:367-395 | the item path is the collection path, one slash and one placeholder free of slashes |
| `Importer.ItemPathIsRelative` | src/spec.rs:372-376 | the item path of a relative collection path is relative |
| `Importer.TryMethods` | src/spec.rs:337-347 | methods are offered in turn until one writes a column; columns added for the refused ones stay |
| `Importer.InferMutations` | src/spec.rs:283-365 | the inference loop computes the specified operations and extended columns |
| `Importer.InferenceIsExact` | src/spec.rs:283-365 | the inference for a path, exactly: nothing where the path has two parameters or there is no identity column; otherwise the first column that stands for the item's parameter, or only where there is none the first for `id`, a POST of the collection, a PATCH wherever its body writes a column and else a PUT, and a DELETE exactly where the item has that operation |
| `Importer.IdentityIsChosen` | src/spec.rs:308-319 | the identity column is the first whose property is the parameter or whose name is its sanitized form, and only where there is none the first such column for `id` |
| `Importer.MalformedInfersNothing` | src/spec.rs:290-293 | for a malformed path nothing is inferred |
| `Importer.ItemPathIsExact` | src/spec.rs:367-395 | the item path is the first path below the collection, in order, that is one placeholder, with no malformed sibling before it |
| `Importer.InferredIsConsistent` | src/spec.rs:283-365 | what is inferred is consistent: the identity is a column and not written, something is written exactly where an insert or update is, and templates hold the identity's placeholder |
| `Importer.InferenceKeepsNames` | src/spec.rs:283-365 | inference keeps the columns well named |
| `Importer.TableIsWellNamed` | src/spec.rs:232-246 | a whole table with its attrs column has distinct names of at most 63 bytes if and only if the names of its row properties do not collide |
| `ImportAccepted.ImportedTablesAreAccepted` | src/spec.rs:42-131 | an imported table is accepted by the validator if and only if its path is relative and not blank, its parameter usable, and the default attrs column not written; the accepted configuration is what was inferred |
| `ImportAccepted.MutationsParse` | src/options.rs:390-486 | the write options of an import are accepted exactly when they are acceptable, and mean what was inferred |
| `ImportAccepted.WriteColumnsParse` | src/options.rs:738-762 | the printed list of write columns is read back as the same set |
| `ImportAccepted.OrdinaryTablesAreAccepted` | src/spec.rs:283-365 | rooted paths, usable parameter names and the attrs column included are enough for acceptance |
| `ImportAccepted.InferredTablesAreImported` | src/spec.rs:232-246 | every inferred table, its columns sorted in any way, is covered by the acceptance theorem |
| `ImportAccepted.WrittenAttrsAreRefused` | src/options.rs:475-485 | without the attrs column, an otherwise acceptable table that may write a column attrs is refused |
| `ImportAccepted.AttrsPropertyIsRefused` | src/spec.rs:93-95 | there is an imported table that is accepted with the attrs column and refused without it |
| `ImportedRows.ImportedColumnAnswersItsProperty` | src/fdw.rs:444-479 | a column of an accepted import answers its own property in every projected row that has it, if and only if the property name does not begin with a slash and the column is not the attrs of a table imported without its attrs column |
| `ImportedRows.AttrsPropertyAnswersTheRow` | src/fdw.rs:457-460 | such a table is accepted, and its attrs column answers the whole source document |
| `ImportedRows.ImportedColumnWritesItsProperty` | src/fdw.rs:575-580 | exactly the inferred write columns are sent, and a column is sent to its own property if and only if the property name does not begin with a slash |
| `Envelopes.ImportAgreesWithAutoSelect` | src/spec.rs:527-573 | for a body whose envelope-named keys are as declared, the imported response path selects what the wrapper finds by itself |
| `Envelopes.AgreementIsExact` | src/response.rs:54-61 | an imported table selects what the wrapper would find by itself if and only if no envelope was declared, or the body holds under the declared key what it holds under its first container key |
| `Envelopes.MissingEnvelopeFails` | src/response.rs:54-61 | a declared `data` that a body leaves out is an error, where the wrapper alone would take the body |
| `Envelopes.ImportedPathChangesNoPage` | src/response.rs:43-75 | where the two agree, writing the response path down changes no page |
| `Envelopes.RowSchemaPaths` | src/spec.rs:527-573 | imported response and object paths are pointers, as the validator demands |
| `Envelopes.RowSchemaIsExact` | src/spec.rs:527-573 | the columns of a response come from the items of an array, from what the declared envelope holds, of GeoJSON features from their own properties, and else from the schema itself |
| `Envelopes.DeclaredInOrder` | src/spec.rs:540-552 | the envelope is the first of the usual properties that is declared as an array or an object |
| `Envelopes.SchemaTypeIsExact` | src/spec.rs:677-692 | the type of a schema is the one given or the first given that is not null, and without one an object exactly if properties are declared |
| `Redaction.RedactionIsComplete` | src/options.rs:267-275 | for every list: redaction is complete only if no non-empty secret is part of the mark `[REDACTED]`, and exactly then if every secret is part of the mark or contains a listed secret that differs from the mark however they overlap, or the last one, if that would be hidden alone |
| `Redaction.PlainSecretsAreHidden` | src/options.rs:267-275 | for secrets without brackets: redaction is complete if and only if none is part of the word REDACTED |
| `Redaction.OneSecretIsHidden` | src/options.rs:267-275 | a single secret of any shape is hidden from every text if and only if it cannot begin inside a mark, and no beginning of it, left standing before a replaced secret, is completed by the mark |
| `Redaction.ApartIsHidden` | src/options.rs:267-275 | a secret that differs from the mark however they overlap is hidden from every text, whatever else is listed |
| `Redaction.TwoBracketsAreHidden` | src/options.rs:267-275 | overlapping the mark is not enough to survive: `[[` is hidden |
| `Redaction.ReplaceCreatesNothing` | src/options.rs:267-275 | one replacement removes its secret and brings no text that differs from the mark however they overlap into existence, across boundaries included |
| `Redaction.SecretInMarkSurvives` | src/options.rs:197-204 | with the list sorted by length, a secret that is part of the mark comes back out of its own replacement, whatever else is listed |
| `Redaction.DedupIsStrict` | src/options.rs:203-204 | after sorting and deduplication every secret comes once, longer ones first |
| `Redaction.CredentialsAreHidden` | src/options.rs:197-204 | a secret of the server is hidden from every text if it contains a listed one apart from the mark, or the last one where that would be hidden alone, whatever the others are |
| `Redaction.SecretsAreHidden` | src/options.rs:163-204 | the value of every custom header, the token or key, and the header value made of it are hidden wherever they are apart from the mark |
| `Redaction.SentValueIsHidden` | src/options.rs:163-204 | a token or key apart from the mark is hidden, and so is the header value made of it, whatever headers are configured |
| `Redaction.CredentialIsHiddenExactly` | src/options.rs:163-204 | without custom headers, a token or key without blanks, or sent as it is, is hidden with the value made of it if and only if it would be hidden alone |
| `Redaction.BracketedSecretSurvives` | src/options.rs:267-275 | the secret `x[` is put together from text and a mark |
| `Retry.Execute` | src/http.rs:164-237 | for any outcomes: the result of the deciding attempt, the same query pairs on every attempt, and the pauses of the retried outcomes |
| `Retry.RepeatedQueries` | src/http.rs:181-192 | the log of an execution holds the same query once per attempt |
| `Retry.AppendPairs` | src/http.rs:182-192 | every attempt sends the pairs of the URL, the request and the credential, once each |
| `Retry.DecidingIsExact` | src/http.rs:183-236 | an attempt decides if and only if all before it were retryable and it is not, or is the last |
| `Retry.ExecutionIsBounded` | src/http.rs:175-236 | at most retries+1 sends and retries times the maximum delay; methods outside section 9.2.2 of RFC 9110 are sent once, without pause |
| `Retry.SuccessIsReached` | src/http.rs:183-236 | a success behind nothing but retryable outcomes is delivered |
| `Retry.BackOffGrows` | src/http.rs:427-429 | the back-off never overflows, never shrinks, and stays under the maximum |
| `Retry.PauseIsExact` | src/http.rs:405-429 | a pause is what the service asks for, or else the back-off, and never longer than configured |
| `Retry.RepeatedOutcomes` | src/http.rs:393-403 | what is repeated: a transient failure, and the statuses 408, 429, 500 and 502 to 504 |
| `Retry.SentOnce` | src/http.rs:239-246 | a POST or PATCH is sent once, whatever comes of it; GET, HEAD, PUT, DELETE, OPTIONS and TRACE are repeated as often as configured |
| `Retry.SuccessDelivers` | src/http.rs:201-204 | a body is delivered exactly from a status in the two hundreds |
| `Retry.ErrorsAreSafe` | src/http.rs:204-237 | the fallback message is unreachable, and where redaction is complete no secret is in the excerpt of a refused response or in a transport error |
| `SqlText.IdentifierReadsBack` | control-plane/src/sql.rs:256-258 | a quoted identifier is lexed back, exactly as printed, if and only if it is a legal name of at most 63 bytes and no quote follows (section 4.1 of the PostgreSQL manual) |
| `SqlText.LiteralReadsBack` | control-plane/src/sql.rs:260-268 | an escape-string literal is lexed back unless a quote follows; exactly text with NUL is refused |
| `SqlText.PlainReadsBack` | src/spec.rs:878-880 | the importer's literals are lexed back, with standard_conforming_strings on, if and only if they hold no NUL and no quote follows |
| `SqlStatements.ImportedOptionsReadBack` | src/spec.rs:76-131 | an option list of plain literals is read back entry by entry, or not at all if one holds a NUL |
| `SqlStatements.CreateServerReadsBack` | control-plane/src/sql.rs:209-217 | the statement is read back as exactly its server name and option map, and refused exactly for a NUL |
| `SqlStatements.SampleReadsBack` | control-plane/src/sql.rs:58-79 | a sample query selects from exactly the table asked for, with exactly the filter and limit given |
| `ServerSource.OptionsSay` | control-plane/src/sql.rs:81-207 | for each option name, whether it is listed and with what value: a setting, else a credential, else a part of the description |
| `ServerSource.OneCredential` | control-plane/src/sql.rs:81-207 | never two of key, key variable, token and token variable together |
| `ServerSource.PreviewDiffersInSecretsOnly` | control-plane/src/sql.rs:81-207 | a preview lists the same option names and differs only in the confidential values |
| `ServerSource.PreviewIsScrubbed` | control-plane/src/sql.rs:81-207 | a redacted preview is the full option list of a source whose confidential values were replaced beforehand |
| `ServerSource.PreviewRevealsNothing` | control-plane/src/sql.rs:81-207 | two sources that differ in header values, credentials and documents of one length alone have one preview |
| `ServerSource.PreviewMasks` | control-plane/src/sql.rs:81-207 | the preview shows a mark for every header and credential, the full list what they are |
| `ServerSource.PreviewSaysLength` | control-plane/src/sql.rs:81-207 | the preview of an inline document says its length in bytes and nothing else of it |
| `ServerSource.SourceStatementReadsBack` | control-plane/src/sql.rs:81-217 | the statement made for any source is read back as its server and exactly its options |

## Left out

- HTTP transport, TLS, connection pooling, redirects, body size limits and content types: foreign libraries; a request has an arbitrary outcome.
- Parsing of JSON, YAML, URLs, numbers and environment variables: parsed values are the inputs; JSON-valued options are documents, and that a printed map or list of strings parses to itself is taken from the JSON library.
- Conversion of JSON to SQL values (dates, numerics, arrays) and the column types chosen by the importer: the conversion is an arbitrary function, and imported columns carry only their names.
- Planner estimates, the server options and their single-branch checks, the base URL of a document, and the order in which `endpoints` sorts columns and names tables (its name numbering is `Identifiers.UniqueIdentifier`).
- Error message texts: an error is its kind, except where a text from outside is redacted.
- PostgreSQL's joining of adjacent string constants across a line break, and its numeric and Unicode escapes, which the printed SQL never contains.
- PointerWrites.PutThenGet: nested objects are updated on values, not on a heap; an owned JSON tree has no aliases, so nothing can observe the difference.
- Redaction.RedactionIsComplete: for several secrets that overlap the mark, and contain no listed secret that does not, only the necessary condition is proved; one of them can be put together by the mark of another and destroyed by a third.
- LinkHeaders.PrintedLinksReadBack: links whose quoted values hold a semicolon or an escaped character, or whose URL holds `>`, are outside its domain, because the source splits parameters at every semicolon and does not unescape.
- Pushdown.EqualityPushdown: what the service does with a parameter (drop only non-matching rows, page neutrally) is a hypothesis.
- Addresses.UpdatesReachRows: the parser's rewriting is one of single characters, which stands for percent-encoding, removed tabs and backslashes; the conditions on dot segments are sufficient, not necessary, where a template brings dot segments of its own.
- PathSubstitution.LookupOfTemplate: it gives the endpoint text; a pinned `.` or `..` that is a segment of its own makes a dot segment (`Addresses.DotIdentities`), and the lookup then reads another address.
- SqlText.PlainReadsBack: plain constants are read with standard_conforming_strings on, the default; with the setting off a backslash in an imported path or name would be read as an escape.
- Retry.ErrorsAreSafe: errors of reading a successful body or its content type carry texts of their own, which are not part of an outcome here.
- RowMutations.AcceptedTablesAreValidated: of the callbacks around a modification only the requests are modelled, not the fields that hold the configuration between them.
- Web handlers, database plumbing, user interface and deployment of the control plane: nothing in them to state beyond field checks.
