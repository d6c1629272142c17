# dataspan: a verified model of its core

dataspan is a gateway driven by metadata. A document of servers, tables, columns and functions is compiled into a
snapshot; a request names a table, which is resolved through a cache to its server; the server is turned into a pooled
driver behind a circuit breaker; and the request's filters are translated for that driver. The modules here model that
path and prove what it keeps. `dafny verify dfyconfig.toml` checks all of it.

How the model is laid out:

- **Metadata.** `Documents` (the two document shapes and the bridge between them), `Declarative` (compilation),
  `CompileMeaning` (what a compiled snapshot says once identifiers are forgotten), `Expansion` (variables and
  defaults), `Decompile`, `RoundTrip` and `CompiledForm` (compiling a decompiled snapshot), `Merge`, `ImportMeaning`
  (the merged document), `ImportResult` (when an import succeeds), `ImportKept` (what is in the data afterwards),
  `Answers` and `ImportResolves` (what names resolve to), `Import` (the methods, and restart), `Restarts` and
  `RestartLosses` (states that store operations reach), `CompiledIds`.
- **The file store.** `StoreSpec` (each operation as a function on the snapshot), `FileStore` (the object, whose
  methods change the snapshot in place), `Seqs` (compaction over one backing array), `StoreInvariant`, `StoreEffects`
  (each operation as a caller sees it), `ImportedRuns` and `References` (runs of operations and imports).
- **The resolve cache.** `Revision` (the bytes that are hashed), `MetaCache` (the object), `CacheRuns` (staleness over
  all runs), `CacheTransparency`.
- **Drivers.** `DriverPool` (the object, and the interleaved state machine of any number of calls), `CircuitBreaker`,
  `Engine` (both together).
- **Queries.** `Filters` (the in-memory matcher), `SqlTokens` (quoting and a lexer), `Where` (the WHERE compiler,
  which writes text), `WhereTokens` (the tokens of that text), `WhereMeaning` (a parser and an evaluator for them),
  `RawTests` (`is` values, which go into the text as they are), `WhereParams` (placeholder numbers), `UpdateText` and
  `RemoteUpdate` (UPDATE statements), `SqlAtoms` (SQL's own conditions on a row), `FilterMeanings` (each operator row
  by row) and `Agreement` (matcher against SQL), `Columns` and `FileDriver` (renaming and the row pipeline), `Query`
  and `OrGroups` (filters as URL parameters), `Pages` and `Range` (windows and the Content-Range header).
- **The DDL importer.** `SqlScan` (the scanner), `SqlImport` (the parser), `SqlPrint` (a printer of CREATE TABLE
  statements), `SqlRoundTrip`, `SqlColumns` and `SqlStatements` (types, quoted names, dialects and whole statements).

Code that loops and updates is a method proved equal to a recursive function of its input; the theorems are about those
functions. Maps are iterated in an arbitrary order: a method picks any remaining key, and its contract says only what
holds for every order. Failures are values.

Assumed throughout: identifiers are drawn from a supply that never repeats; the vault opens what it sealed; the hash of
the revision bytes is injective; encoding a document and decoding it gives it back; clock readings are arguments.

Where the code and what it says about itself differ, the model follows the code and states the difference exactly:

- The in-memory matcher does not look at plain filters once there are OR groups, so it can return more than the SQL
  does (`Agreement.AgreeExactlyWhenRepeated`). On a single filter it differs from SQL for every `neq`, for every `like`
  pattern that is not a plain text between percent signs, for every `is` other than `null`, `true` and `false`, and for
  every value that `<nil>`, the text it prints a NULL cell as, would meet (`SqlAtoms.MatcherAgreesExactlyWhen`).
- The value of an `is` filter goes into the SQL as it is. With `null OR "d" IS null` the clause selects rows that the
  filters do not admit, and with `$7` it has a placeholder without an argument (`RawTests.OpenValueSelectsMore`,
  `RawTests.StrayPlaceholder`, `RawTests.OwnTestExactlyWhenSingle`). Column names are quoted with %q, which is not SQL's
  quoting for a name with a quote, a backslash or a control character (`SqlTokens.NameIsReadExactlyWhenPlain`).
- A select list is applied to remote rows under local names (`FileDriver.ProjectionCommutesExactlyWhen`).
- A listed credential with a server's name captures that server's inline secret (`CompiledForm.ListedCredentialCaptures`,
  `RoundTrip.RoundTripExactlyWhen`).
- Merge-import and restart drop references to shared credentials (`Documents.BridgeRoundTripExactlyWhen`,
  `ImportKept.SharedSecretIsLost`), and a shared credential captures a server of its name
  (`RestartLosses.ThirdServerIsCaptured`).
- A table that an import brings on another server, under a schema and name the store has, stands beside the one that was
  there. Which of the two the name resolves to is up to the order in which a map is iterated, at that import and at every
  restart (`ImportResolves.StayingTableResolvesExactlyWhen`, `RestartLosses.EitherTableCanAnswer`).
- `CreateServer` and `UpdateServer` do not look up the credential they are given, so a server can refer to none, and its
  driver cannot be had (`References.RefsStayKnownExactlyWhen`).
- `CreateColumn` leaves position 0 as it is, and reading the document back does not: the columns of a table change their
  order over a restart (`RestartLosses.SecondColumnMoves`). `CreateServer` takes a name of blanks, and `UpdateFunction` a
  blank operation; then the written document cannot be read back (`RestartLosses.BlankNameBlocks`,
  `RestartLosses.BlankOperationBlocks`).
- `CreateServer` rejects every inline credential, after storing it (`StoreInvariant.InlineCredentialIsAlwaysRejected`,
  `StoreInvariant.FailureChangesNothingExactlyUnless`).
- A table changed in place is served from the cache until its entry expires
  (`CacheTransparency.InPlaceChangeIsServedLate`); with a NUL in a name two tables share a cache key, and the one is
  served for the other (`CacheRuns.KeysCollideOnNul`).
- UPDATE compares the names of key columns with a row under remote names, so a renamed key column is set
  (`RemoteUpdate.KeysAreLeftAloneExactlyWhen`).
- A column whose name starts like a constraint, such as `check_in` or `unique_id`, is left out of an imported table
  (`SqlRoundTrip.RoundTripExactlyWhen`).
- A value that carries an operator tried earlier changes an expression of an OR list (`OrGroups.StrayOperatorCaptures`).
- The integer formatter returns "-" for the smallest 64-bit integer (`Range.FormattedIsCanonicalDecimal`).

## Model

| member | source | states |
|---|---|---|
| Declarative.ExpandEnvMap | internal/store/file/declarative.go:453-472 | expanding a map value by value gives `ExpandMap`: only a text `${KEY}` whose variable is set and not empty changes |
| Declarative.Registrar.RegisterCredential | internal/store/file/declarative.go:148-169 | the closure with its captured state: a blank name is an error, a known name gives its identifier back, a new one is sealed once |
| Declarative.CompileOneServer | internal/store/file/declarative.go:181-222 | one round of the server loop: inline secret registered under the server's name, named one looked up, all error branches |
| Declarative.CompileServerList | internal/store/file/declarative.go:180-222 | the loop computes `CompileServers`; the first bad server fails the whole |
| Declarative.CompileColumnList | internal/store/file/declarative.go:257-280 | blank columns skipped, type and nullability defaulted, position 0 replaced by the place in the document |
| Declarative.CompileTableList | internal/store/file/declarative.go:224-281 | the loop computes `CompileTables`; an unknown server fails the whole |
| Declarative.CompileFunctionList | internal/store/file/declarative.go:283-312 | the loop computes `CompileFunctions` |
| Declarative.CompileDeclarative | internal/store/file/declarative.go:143-314 | compileDeclarative computes `Compile`, of which the theorems below speak |
| CompileMeaning.CompiledSays | internal/store/file/declarative.go:143-314 | entry by entry the snapshot has exactly the declared content, found through its own links, each server the first secret given for its credential name; and two servers share a record exactly when their credential names agree |
| CompileMeaning.CompilesExactlyWhen | internal/store/file/declarative.go:181-209 | compilation succeeds if and only if no name, protocol or operation is blank, every credential name is known when its server is reached, and every table and function names a server of the document |
| Expansion.ValueIsExpanded | internal/store/file/declarative.go:453-472 | the text `${KEY}` of a variable that is set and not empty becomes its value, and every other value is unchanged |
| Expansion.InlineSecretIsExpanded | internal/store/file/declarative.go:148-193 | the secret of a server that gives it inline, under a name no listed credential and no other server has, has the given fields, each expanded like that |
| Expansion.ListedSecretIsExpanded | internal/store/file/declarative.go:148-203 | so has the secret of a server that names a credential of the list, from the first of that name |
| Expansion.ServerDefaults | internal/store/file/declarative.go:181-222 | a compiled server is enabled unless the entry says false, and has a credential exactly if the entry gives or names one |
| Expansion.SchemaDefaults | internal/store/file/declarative.go:235-238 | a table or function with a blank schema is in `public`, any other in its trimmed schema |
| Decompile.DecompileDeclarative | internal/store/file/declarative.go:316-431 | decompilation gives the document of the snapshot: secrets of one owner inline, shared ones by name and listed once, in any order |
| Decompile.DecompileServers | internal/store/file/declarative.go:338-362 | each server's entry, with the reference count deciding between an inline secret and a name |
| Decompile.DecompileTables | internal/store/file/declarative.go:376-413 | each table's entry with the columns of the last table of the same schema, name and server |
| Decompile.FindCredentialName | internal/store/file/declarative.go:433-440 | the name of the first credential with the identifier, or else the identifier's text |
| RoundTrip.RoundTripExactlyWhen | internal/store/file/declarative.go:143-431 | for every snapshot in normal form with distinct server names and table keys, compiling the decompiled document succeeds, and servers, tables, functions and sharing come back the same if and only if no owned secret's server is named like a shared credential, no owned secret is empty, and no secret in use changes under expansion |
| RoundTrip.TableComesBack | internal/store/file/declarative.go:376-413 | a table's entry declares the table's own content: columns in order with their positions, also through the replacement of position 0 |
| RoundTrip.NamesShareAsRefs | internal/store/file/declarative.go:351-374 | two entries go by the same credential name exactly when their servers share the credential |
| CompiledForm.CompiledIsNormal | internal/store/file/declarative.go:143-314 | every compiled snapshot is in that normal form, whatever the document |
| CompiledForm.CompiledRoundTrip | internal/store/file/declarative.go:143-431 | the round trip for every compile output with distinct server names and table keys |
| CompiledForm.ListedCredentialCaptures | internal/store/file/declarative.go:153-155 | the first listed credential with a server's name is the secret that server gets, whatever it gives inline |
| Documents.DeclarativeFromImporter | internal/store/file/bridge.go:8-65 | conversion entry by entry |
| Documents.DeclarativeToImporter | internal/store/file/bridge.go:67-119 | conversion entry by entry; a credential's name is not carried over |
| Documents.BridgeRoundTripExactlyWhen | internal/store/file/bridge.go:8-119 | crossing the bridge and back gives the document back if and only if no server refers to a credential by name |
| Merge.MergeDeclarativeDocs | internal/importer/merge.go:10-61 | fails exactly when some server has no name; otherwise lists the override of all documents' keyed entries, each key once |
| Merge.MergedMaps | internal/importer/merge.go:10-61 | seen as keyed maps, the result is the right-biased fold of the inputs |
| Merge.MergeAssociative | internal/importer/merge.go:10-61 | merging some documents first and the rest afterwards gives what one merge of all can give, and nothing else |
| Merge.MergeIdempotent | internal/importer/merge.go:10-61 | giving a document twice changes nothing |
| Merge.LastDocumentWins | internal/importer/merge.go:8-9 | under every key of the last document the result has that document's entry |
| Merge.LastServersWin | internal/importer/merge.go:8-9 | a server of the last document that no later one there replaces is in the result, and so is every earlier one whose name the last document lacks |
| Merge.EntryKeyInjective | internal/importer/merge.go:63-87 | table and function keys of NUL-free names are equal exactly for the same server, schema and name after trimming and defaulting |
| ImportMeaning.MergedServer | internal/store/file/import.go:23-31 | whatever the data: the merged document's servers are the newcomers and, under names the newcomers lack, the store's last server of each trimmed name, no others |
| ImportMeaning.MergedTable | internal/store/file/import.go:23-31 | the same for tables by schema, name and server; those without a server or a name are left out |
| ImportMeaning.MergedFunction | internal/store/file/import.go:23-31 | the same for functions |
| ImportResult.MergedCompiles | internal/store/file/import.go:36-39 | whatever the data: the merged document compiles if and only if no staying or incoming server lacks a protocol, no such function an operation, and every incoming table and function names a server around |
| ImportResult.ListedIs | internal/store/file/declarative.go:364-374 | the secrets listed by name in a merged document: those the incoming one lists, and under other names those the store's servers share |
| ImportKept.ServersAfterImport | internal/store/file/import.go:11-46 | the servers afterwards are exactly those that stay and those that come, secrets spelled out |
| ImportKept.TablesAfterImport | internal/store/file/import.go:11-46 | the tables afterwards are exactly those that stay, as their entries declare them, and those that come |
| ImportKept.StayingTableIsKeptExactlyWhen | internal/store/file/import.go:11-46 | a table whose key, trimmed or not, no other has and the incoming document lacks is among the records with the same content and columns afterwards if and only if its server's name, its schema and its name are free of outer blanks, its columns are named and typed, and position 0 is only the first one's |
| ImportKept.FunctionsAfterImport | internal/store/file/import.go:11-46 | the same for functions |
| ImportKept.StayingFunctionIsKeptExactlyWhen | internal/store/file/import.go:11-46 | such a function is among the records if and only if its names are free of outer blanks |
| ImportResolves.StayingTableResolvesExactlyWhen | internal/store/file/import.go:11-46 | for all data, all importable documents and each table that stays: its schema and name resolve to its content, columns in order, in every outcome if and only if its names and columns are clean, the server that stands under its server's name is enabled, and no other table that stays or comes has its schema and name after trimming and defaulting |
| ImportResolves.StayingFunctionResolvesExactlyWhen | internal/store/file/import.go:11-46 | the same for functions, which have no columns |
| ImportResolves.AnyStandingTableCanAnswer | internal/importer/merge.go:53-58 | for each table that stays or comes there is an outcome in which its schema and name resolve to it, or fail as disabled if its server is |
| ImportResolves.AnyStandingFunctionCanAnswer | internal/importer/merge.go:53-58 | the same for functions |
| Answers.SameColumnsMeanNormal | internal/store/file/declarative.go:268-271 | a table's entry declares the table's own columns, in whatever order, only if they are named, typed and at position 0 only in the first place |
| ImportKept.StayingServerIsKeptExactlyWhen | internal/store/file/import.go:11-46 | a server whose name is not in the incoming document is found unchanged if and only if its name and protocol are free of outer blanks and it has no secret, or owns one that is not empty and equals what is listed under its name, or, when nothing is, its own expansion |
| ImportKept.SharedNameCaptures | internal/store/file/declarative.go:153-155 | so a server with the name of a shared credential is kept if and only if it has no secret or the same one |
| ImportKept.ImportLeavesKeyableData | internal/store/file/import.go:36-45 | after a merge-import, whatever the data before, it is in normal form with distinct keys and nothing shared |
| ImportKept.ImportedEntriesAreAlone | internal/store/file/import.go:11-46 | then no entry shares its key with another and all names are clean, so the next import keeps every table and function it does not replace |
| ImportKept.SharedSecretIsLost | internal/store/file/bridge.go:86-88 | a server that stays but shared its secret has none afterwards |
| Import.ImportDeclarative | internal/store/file/import.go:11-46 | all modes, on all data: an import that is not accepted leaves the store as it was; replace accepts exactly compilable documents, merge exactly importable ones, and leaves an outcome the theorems above describe; if the document cannot be written afterwards the error comes with the new data in place; the counts are those of the new data |
| Import.Load | internal/store/file/store.go:99-138 | loading merges and compiles the documents found; it fails only for a nameless server or a merge that does not compile, and then, as with no documents, changes nothing |
| Import.Restart | internal/store/file/store.go:99-221 | writing the store's document and loading it succeeds if and only if every server has a name, and what stands under each key has a protocol or an operation |
| Import.RestartConserves | internal/store/file/store.go:99-138 | for all data with distinct identifiers: after a restart each table, function and server whose key no other has is among the records exactly when its names are clean, its columns in normal form and its secret kept, and nothing is that was not there |
| Restarts.PlainStoreComesBack | internal/store/file/store.go:99-138 | in every state reachable by operations with clean names without NUL, every function is among the records after a restart, and every table if and only if its columns are in normal form |
| Restarts.PlainStoreAnswersExactlyWhen | internal/store/file/store.go:99-138 | in every such state that loads, a schema and name resolve to the same table, or fail with the same error, after every restart if and only if they are not those of a table on an enabled server whose columns are not in normal form |
| Restarts.PlainFunctionsAnswerAlike | internal/store/file/store.go:99-138 | and every schema and name to the same function or error |
| Restarts.RestartedTableResolvesExactlyWhen | internal/store/file/store.go:99-138 | on all data that loads, the exact condition for a table that stays, with nothing incoming |
| RestartLosses.SecondColumnMoves | internal/store/file/crud.go:110-124 | a reached state, by creating a server, a table with column z and a column a: a comes first in the resolved table before a restart and last after it |
| RestartLosses.BlankNameBlocks | internal/store/file/store.go:296-299 | a server with a blank name is accepted on any store, and then neither load nor any merge succeeds |
| RestartLosses.BlankOperationBlocks | internal/store/file/crud.go:200-234 | a reached state with a blank operation that cannot be loaded |
| RestartLosses.ThirdServerIsCaptured | internal/store/file/declarative.go:351-374 | a reached state, with a third server named like the credential two others share: after a restart it has their secret |
| RestartLosses.EitherTableCanAnswer | internal/importer/merge.go:53-74 | a reached state with public.t on server a, and a document with public.t on b: the table on a stays, clean and alone under its key, and the name resolves to a's table in one outcome and to b's in another |
| FileStore.Store.CreateCredential | internal/store/file/store.go:224-256 | refused for a blank or a taken name, otherwise appended |
| FileStore.Store.DeleteCredential | internal/store/file/store.go:258-278 | refused if unknown or in use, otherwise spliced out |
| FileStore.Store.CreateServer | internal/store/file/store.go:296-353 | the whole new state, including the credential stored before the request is rejected |
| FileStore.Store.UpdateServer | internal/store/file/store.go:390-422 | the given fields replaced in place and the timestamp set |
| FileStore.Store.DeleteServer | internal/store/file/store.go:424-448 | the record spliced out, tables, functions and columns compacted in place |
| FileStore.Store.CreateTable | internal/store/file/store.go:450-552 | a table and its columns appended, or the first failing check |
| FileStore.Store.UpdateTable | internal/store/file/crud.go:27-52 | the given fields replaced in place |
| FileStore.Store.DeleteTable | internal/store/file/crud.go:54-64 | the record spliced out, its columns compacted away |
| FileStore.Store.CreateColumn | internal/store/file/crud.go:87-133 | a column appended, or the first failing check |
| FileStore.Store.UpdateColumn | internal/store/file/crud.go:135-168 | the given fields replaced in place |
| FileStore.Store.DeleteColumn | internal/store/file/crud.go:170-185 | the record spliced out |
| FileStore.Store.CreateFunction | internal/store/file/store.go:655-714 | a function appended, or the first failing check |
| FileStore.Store.UpdateFunction | internal/store/file/crud.go:200-234 | the given fields replaced in place |
| FileStore.Store.DeleteFunction | internal/store/file/crud.go:236-251 | the record spliced out |
| FileStore.Store.ResolveTable | internal/store/file/store.go:607-653 | the first table of the name with its enabled server and its columns sorted, or the error |
| FileStore.Store.ResolveFunction | internal/store/file/store.go:738-770 | the first function of the name with its enabled server, or the error |
| StoreEffects.CreateCredentialEffect | internal/store/file/store.go:224-256 | which error comes when, and the credential that is added |
| StoreEffects.DeleteCredentialEffect | internal/store/file/store.go:258-278 | which error comes when, and that exactly the credential of the identifier goes |
| StoreEffects.CreateServerEffect | internal/store/file/store.go:296-353 | without an inline credential: which error comes when, and the server that is added, enabled unless asked otherwise |
| StoreEffects.UpdateServerEffect | internal/store/file/store.go:390-422 | only the server of the identifier changes: the given fields and the timestamp, and no other |
| StoreEffects.UpdatedServerResolves | internal/store/file/store.go:390-422 | what resolves on other servers resolves as before, and what does on this one keeps its table and columns, or is disabled |
| StoreEffects.CreateTableFails | internal/store/file/store.go:450-512 | which error comes when, and that nothing changes then |
| StoreEffects.CreatedTableResolves | internal/store/file/store.go:450-552 | afterwards the requested schema, or `public`, and name resolve to the requested remote name, keys, options and columns, sorted, on the server that was named, or to an error if that is disabled |
| StoreEffects.CreateTableKeepsOthers | internal/store/file/store.go:450-552 | every other schema and name resolve to the table or function they did |
| StoreEffects.UpdateTableEffect | internal/store/file/crud.go:27-52 | only the table of the identifier changes, in the given fields |
| StoreEffects.DeleteTableEffect | internal/store/file/crud.go:54-64 | exactly the table of the identifier and its columns go |
| StoreEffects.CreateColumnFails | internal/store/file/crud.go:87-109 | which error comes when, and that nothing changes then |
| StoreEffects.CreateColumnEffect | internal/store/file/crud.go:87-133 | the new column is the last of its table, with the position as given; the columns of other tables stay |
| StoreEffects.UpdateColumnEffect | internal/store/file/crud.go:135-168 | only the column of the identifier changes, in the given fields |
| StoreEffects.DeleteColumnEffect | internal/store/file/crud.go:170-185 | exactly the column of the identifier goes |
| StoreEffects.CreateFunctionFails | internal/store/file/store.go:655-690 | which error comes when, and that nothing changes then |
| StoreEffects.CreatedFunctionResolves | internal/store/file/store.go:655-714 | afterwards the requested schema, or `public`, and name resolve to what was asked for on the server that was named, or to an error if that is disabled |
| StoreEffects.CreateFunctionKeepsOthers | internal/store/file/store.go:655-714 | every other schema and name resolve to the table or function they did |
| StoreEffects.UpdateFunctionEffect | internal/store/file/crud.go:200-234 | only the function of the identifier changes, in the given fields |
| StoreEffects.DeleteFunctionEffect | internal/store/file/crud.go:236-251 | exactly the function of the identifier goes |
| Seqs.CompactInPlace | internal/store/file/store.go:828-856 | writing the kept elements over the front of the array being read leaves exactly the kept elements, in order |
| Seqs.ShiftOut | internal/store/file/crud.go:170-185 | splicing one element out by shifting the tail of its array |
| Seqs.RemoveIsKeep | internal/store/file/store.go:424-448 | splicing out the element with a unique key is filtering that key out |
| Seqs.SortSorted | internal/store/file/store.go:646-651 | sorting under an order like that of the code sorts |
| StoreInvariant.OpKeepsValid | internal/store/file/store.go:224-714 | every operation keeps names and identifiers unique, links valid and identifiers below the supply |
| StoreInvariant.EveryReachableStateIsValid | internal/store/file/store.go:224-714 | so every state reachable from the empty store is valid, over every run of creations, updates and deletions |
| ImportedRuns.CompiledIsValidExactlyWhen | internal/store/file/declarative.go:143-314 | a document compiles to data with unique identifiers and valid links always, and with unique names if and only if its trimmed server names and its schemas and names of tables and of functions are distinct |
| ImportedRuns.RunsAreValidExactlyWhen | internal/store/file/import.go:11-46 | over every run of operations, imports and reloads, all states are valid if and only if every document that was imported has such names |
| References.OpKeepsRefsExactlyWhen | internal/store/file/store.go:224-448 | an operation keeps every server's credential reference valid if and only if it fails or gives no unknown one |
| References.RefsStayKnownExactlyWhen | internal/store/file/store.go:224-448 | over every run of operations and imports, all states have only valid references if and only if no successful CreateServer or UpdateServer gives an unknown one |
| References.CredentialsLoadExactlyWhenKnown | internal/store/file/store.go:772-777 | every server's credential can be loaded if and only if every reference is valid |
| FileStore.Store.ServerCredential | internal/store/file/store.go:280-294 | no reference, no secret; otherwise the first credential of the identifier, or an error |
| References.LoadedCredentialIs | internal/store/file/store.go:280-294 | what is loaded for a reference is the secret of the credential that has the identifier |
| StoreInvariant.ResolvesExactlyWhenRegisteredAndEnabled | internal/store/file/store.go:607-653 | a table resolves if and only if it is registered and its server enabled; the error says which is missing |
| StoreInvariant.ResolvedTableIsTheTable | internal/store/file/store.go:607-653 | what resolves is the only table of that name, its only server, and exactly its columns by position and name |
| StoreInvariant.DeleteServerKeepsTheRest | internal/store/file/store.go:424-448 | DeleteServer leaves, in order, exactly the records outside the server's subtree |
| StoreInvariant.InlineCredentialIsAlwaysRejected | internal/store/file/store.go:300-313 | no request with an inline credential creates a server |
| StoreInvariant.FailureChangesNothingExactlyUnless | internal/store/file/store.go:296-353 | an operation refused for its arguments or the data changes nothing, except a CreateServer that leaves its inline credential behind, and exactly when |
| Revision.StoreRevision | internal/engine/meta_cache.go:115-143 | the bytes written are the fingerprint of the listed records |
| Revision.StampInjective | internal/engine/meta_cache.go:132-132 | the RFC 3339 form with nanoseconds determines the instant, in whatever year |
| Revision.FingerprintInjective | internal/engine/meta_cache.go:128-141 | the bytes determine the server identifiers with their timestamps, the table identifiers and the function identifiers |
| MetaCache.MetaCache.SyncRevision | internal/engine/meta_cache.go:58-71 | a changed revision empties both sections, an unchanged one changes nothing |
| MetaCache.MetaCache.GetTable | internal/engine/meta_cache.go:73-82 | an entry is served up to and including its expiry |
| MetaCache.MetaCache.PutTable | internal/engine/meta_cache.go:84-92 | the entry is stored to expire one TTL after the clock reading |
| MetaCache.ResolveTableCached | internal/engine/meta_cache.go:145-162 | synchronise, look up, ask the store, and store successes only |
| MetaCache.ResolveFunctionCached | internal/engine/meta_cache.go:164-181 | the same for functions |
| CacheRuns.TableStalenessIsBounded | internal/engine/meta_cache.go:145-162 | over every run with any store changes and imports, the answer to a request whose key no other request of the run has is the store's own or one the store gave in that run and stored at most one TTL ago; errors are always the store's own |
| CacheRuns.FunctionStalenessIsBounded | internal/engine/meta_cache.go:164-181 | the same for functions |
| CacheRuns.KeyInjective | internal/engine/meta_cache.go:54-56 | cache keys of NUL-free schemas are injective |
| CacheRuns.KeyDecidesExactlyWhenNulFree | internal/engine/meta_cache.go:54-56 | no other schema and name have the key of a request if and only if neither its schema nor its name contains NUL |
| CacheRuns.CollidingRequestGetsTheOther | internal/engine/meta_cache.go:145-162 | once one of two requests with the same key is cached, the other gets its table |
| CacheRuns.KeysCollideOnNul | internal/engine/meta_cache.go:145-162 | a run of operations and resolves after which a cached resolve of one table returns the other for a whole TTL |
| CacheTransparency.SameRevisionSameAnswers | internal/engine/meta_cache.go:115-143 | two states of one allowed run with the same revision answer every request alike |
| CacheTransparency.CachedTableIsStoreTable | internal/engine/meta_cache.go:145-162 | over every run whose store changes are imports of any documents, creations, deletions and server updates, a cached resolve returns what the store returns, names being unique or not |
| CompiledIds.CompiledIdsAreNew | internal/store/file/declarative.go:143-314 | compilation gives every record an identifier of its own, in the order of the lists |
| CacheTransparency.CachedFunctionIsStoreFunction | internal/engine/meta_cache.go:164-181 | the same for functions |
| CacheTransparency.InPlaceChangesAreInvisible | internal/engine/meta_cache.go:115-143 | a change to a table, column or function in place never changes the revision |
| CacheTransparency.InPlaceChangeIsServedLate | internal/engine/meta_cache.go:73-92 | so a freshly cached table is served unchanged after such a change until it expires |
| DriverPool.Pool.Lookup | internal/engine/driver_pool.go:40-46 | the first critical section |
| DriverPool.Pool.Install | internal/engine/driver_pool.go:53-63 | the second critical section: what it stores, closes and returns |
| DriverPool.Pool.Get | internal/engine/driver_pool.go:32-64 | one undisturbed call |
| DriverPool.Pool.Close | internal/engine/driver_pool.go:66-73 | every pooled driver closed once, in the order of iteration, and the pool emptied |
| DriverPool.StepKeepsAccounts | internal/engine/driver_pool.go:32-73 | every atomic step keeps every driver in one place |
| DriverPool.EveryRunIsAccounted | internal/engine/driver_pool.go:32-73 | in every interleaving the created drivers are the disjoint union of in-flight, pooled and closed ones, each held once, pooled once and closed at most once |
| DriverPool.ReturnedDriverIsPooledAndOpen | internal/engine/driver_pool.go:40-63 | whenever Get returns, its driver is at that step pooled under the requested server with the requested version, and not closed |
| DriverPool.ReturnedDriverIsOpenUntilDisplaced | internal/engine/driver_pool.go:53-73 | it stays pooled and open through every continuation without a Close and without an Install of another version for its server, and the next step closes it if and only if it is one of those |
| DriverPool.FinalCloseReleasesEverything | internal/engine/driver_pool.go:66-73 | a Close with no Get holding a driver leaves every created driver closed exactly once |
| CircuitBreaker.Breaker.constructor | internal/observability/middleware.go:61-69 | defaults for non-positive settings, initially closed |
| CircuitBreaker.Breaker.Allow | internal/observability/middleware.go:71-83 | admits as the state says and makes the state's step |
| CircuitBreaker.Breaker.Success | internal/observability/middleware.go:85-90 | makes the state's step |
| CircuitBreaker.Breaker.Fail | internal/observability/middleware.go:92-100 | makes the state's step |
| CircuitBreaker.RunMatchesHistory | internal/observability/middleware.go:71-100 | after every trace the three fields are functions of the failures since the latest success or cooldown reset |
| CircuitBreaker.RejectsExactlyWhenTripped | internal/observability/middleware.go:71-83 | Allow rejects if and only if at least maxFails failures came since then and the time is not past the latest failure plus the cooldown |
| CircuitBreaker.ClosedForTheWholeCooldown | internal/observability/middleware.go:71-100 | once tripped, no continuation without a success admits a call before the cooldown is over |
| Engine.Engine.DriverFor | internal/engine/engine.go:40-67 | one undisturbed call: a credential that cannot be loaded stops it before pool and breaker; otherwise which of the two change, and how, on each outcome |
| Engine.EngineRefinesPool | internal/engine/engine.go:47-65 | every run of the engine projects to a run of the pool |
| Engine.BreakerFollowsEvents | internal/engine/engine.go:48-63 | the breaker inside has exactly the history recorded for it |
| Engine.EveryEngineRunIsAccounted | internal/engine/engine.go:40-67 | so every driver is accounted for in every interleaving of the engine |
| Engine.TurnedAwayExactlyWhenTripped | internal/engine/engine.go:48-52 | a call that missed the pool is turned away if and only if the history has tripped the breaker |
| Engine.BuiltOnlyAfterAdmission | internal/engine/engine.go:47-64 | no driver is built without an admitted Allow of the same call since its last attempt |
| Engine.ReportTellsTheOutcome | internal/engine/engine.go:53-63 | the breaker is told of a failure if the call's latest attempt built nothing and of a success if it built a driver, which is the one the call goes on with |
| SqlAtoms.MatcherAgreesExactlyWhen | internal/postgrest/filter_match.go:31-64 | with SQL's LIKE patterns, comparisons that are never true of NULL, and IS: the matcher answers like SQL on every row if and only if the filter is not `neq`, its `like` value is a non-empty plain text, not within `<nil>`, between percent signs, its `is` value is null, true or false, and no other value is met by `<nil>` |
| SqlAtoms.FourDifferences | internal/postgrest/filter_match.go:31-64 | four rows, for two patterns, `neq` and `<nil>`, on which they differ |
| SqlAtoms.LiteralBetween | internal/postgrest/filter_match.go:47-48 | a plain text between percent signs matches where it is contained |
| SqlAtoms.InMatchesOneOf | internal/postgrest/filter_match.go:49-55 | splitting and trimming an `in` value is membership in its list |
| FilterMeanings.SqlComparisonSelects | internal/driver/postgres/postgres.go:314-330 | for every row: the SQL of `eq`, `neq`, `gt`, `gte`, `lt`, `lte` and `like` is true of it exactly if the column has a text that is the same, another, greater and so on, or matches the pattern |
| FilterMeanings.SqlMembershipSelects | internal/driver/postgres/postgres.go:289-298 | that of `in` exactly if the text is one of the pieces between commas, trimmed |
| FilterMeanings.SqlTestSelects | internal/driver/postgres/postgres.go:299-304 | that of `is` with `null`, `not null`, `true` and `false` |
| FilterMeanings.ClauseSelects | internal/driver/postgres/postgres.go:155-182 | the emitted clause of a well-formed query, parsed and evaluated on a row with its arguments, is true exactly of the rows that every filter asks for, operator by operator, and all filters of some non-empty group |
| FilterMeanings.ComparisonTexts | internal/driver/postgres/postgres.go:284-330 | the text of a single comparison, for each operator |
| FilterMeanings.MatcherOnText | internal/postgrest/filter_match.go:31-64 | what the matcher answers on a text cell, for each operator |
| FilterMeanings.MatcherOnNothing | internal/postgrest/filter_match.go:31-64 | what it answers on a NULL cell and without the column |
| FilterMeanings.MatcherLaws | internal/postgrest/filter_match.go:31-64 | on every row `neq` is the opposite of `eq`, exactly one of `lt`, `eq` and `gt` holds of a column that is there, and `lte` and `gte` are the opposites of `gt` and `lt` |
| FilterMeanings.AgreeOnComparison | internal/postgrest/filter_match.go:31-64 | the rows on which matcher and SQL agree on a comparison or `in`: those with a text, with a NULL whose printed form the filter does not meet, and, but for `neq`, without the column |
| FilterMeanings.AgreeOnNeq | internal/postgrest/filter_match.go:37-38 | for `neq`: those that have the column, with a text or with NULL if the value is `<nil>` |
| FilterMeanings.AgreeOnLike | internal/postgrest/filter_match.go:47-48 | the rows on which they agree on a pattern |
| FilterMeanings.AgreeOnTest | internal/postgrest/filter_match.go:56-62 | and on a test |
| Agreement.MatchQueryIsMatches | internal/postgrest/filter_match.go:9-29 | for filters on which the two agree, the concrete matcher is the abstract one over SQL's conditions on the row |
| Agreement.MatchQueryIsSql | internal/postgrest/filter_match.go:9-29 | so on a query without groups, or whose groups repeat the plain filters, it selects the rows the SQL selects |
| Agreement.SqlSelectsNoMore | internal/postgrest/filter_match.go:9-19 | every row the SQL selects, the matcher selects |
| Agreement.AgreeExactlyWhenRepeated | internal/postgrest/filter_match.go:8-19 | the two agree under every atom predicate if and only if there are no groups, or nothing is asked, or no group is empty and every plain filter is repeated in every group |
| Where.BuildFilter | internal/driver/postgres/postgres.go:283-310 | the text and arguments of one filter |
| SqlTokens.NameIsReadExactlyWhenPlain | internal/driver/postgres/postgres.go:284-284 | a quoted column is lexed as its name before every following text if and only if the name has no quote, backslash or control character |
| SqlTokens.EscapeIsUndone | internal/driver/postgres/postgres.go:284-284 | the quoted form, read by Go's own rules of escapes, is the name, for every name |
| RawTests.OwnTestExactlyWhenSingle | internal/driver/postgres/postgres.go:299-304 | an `is` filter is read as its own test before every following text if and only if its value is one word, or NOT and one word |
| RawTests.OpenValueSelectsMore | internal/driver/postgres/postgres.go:299-304 | beside `a=1`, the value `null OR "d" IS null` gives a clause that parses, and holds of a row the filters do not admit |
| RawTests.StrayPlaceholder | internal/driver/postgres/postgres.go:299-304 | the value `$7` brings a placeholder without an argument |
| Where.BuildWhere | internal/driver/postgres/postgres.go:276-312 | the loop over filters |
| Where.BuildOr | internal/driver/postgres/postgres.go:167-180 | the loop over OR groups; groups without filters leave nothing |
| Where.WhereClause | internal/driver/postgres/postgres.go:155-182 | the clause and its arguments, numbered on |
| WhereTokens.ClauseIsLexed | internal/driver/postgres/postgres.go:155-182 | the text of a clause of plain columns and single tests falls into the tokens of its filters |
| WhereMeaning.FilterIsRead | internal/driver/postgres/postgres.go:283-310 | the tokens of such a filter are read back as the condition it stands for |
| WhereMeaning.ConjunctionIsRead | internal/driver/postgres/postgres.go:311-311 | factors joined by AND are read as their conjunction |
| WhereMeaning.DisjunctionIsRead | internal/driver/postgres/postgres.go:178-178 | factors joined by OR are read as their disjunction |
| WhereMeaning.ClauseMeansFilters | internal/driver/postgres/postgres.go:155-182 | for every query of plain columns whose `is` values are single tests, and every atom predicate: the text of the clause has no tokens exactly when nothing is asked, and otherwise parses to its end with AND tighter than OR and, with `$k` bound to the k-th argument, holds exactly when all filters and some non-empty group do |
| WhereParams.ClausePlaceholdersInOrder | internal/driver/postgres/postgres.go:155-182 | for such a query the placeholders in the text are the start index and on, in order, one for each argument |
| WhereParams.RowToColumnsNonKeys | internal/driver/postgres/postgres.go:343-354 | every cell outside the key columns once, with its value, in any order |
| WhereParams.BuildUpdate | internal/driver/postgres/postgres.go:209-230 | refused exactly when no column is left; otherwise each cell's value is the argument of its column's number, and for such a query the clause keeps its meaning |
| UpdateText.StatementIsRead | internal/driver/postgres/postgres.go:218-226 | the text of an UPDATE of plain names is lexed and parsed as an update of that table setting each column to its own placeholder, then the clause; its placeholders are those of the assignments and those of the clause, in that order |
| RemoteUpdate.UpdateStatement | internal/driver/postgres/postgres.go:209-230 | the statement for a row and filters under local names: both renamed, keys compared with the remote names; for plain names and single tests its text is read as that update, with placeholders 1, 2 and so on, one for each argument |
| RemoteUpdate.KeysAreLeftAloneExactlyWhen | internal/driver/postgres/postgres.go:211-213 | no key column of the row is set if and only if the remote name of each is a key too, and every other cell is set if and only if none takes the name of a key |
| WhereParams.UpdateClause | internal/driver/postgres/postgres.go:213-230 | numbering the clause after the SET arguments keeps meaning and order |
| Columns.MapFilters | internal/postgrest/query.go:248-265 | every filter's column renamed by the last column of that name |
| Columns.MapOrGroups | internal/driver/postgres/postgres.go:144-153 | the same for every group |
| Columns.MapRowToRemote | internal/postgrest/query.go:232-246 | a row under remote names, in every order of iteration |
| Columns.MapRowsFromRemote | internal/postgrest/query.go:267-285 | rows under local names, in every order of iteration |
| Columns.RenamingDetermined | internal/postgrest/query.go:232-246 | without a collision the order does not matter, and every value is found under its new name |
| Columns.NamesInverse | internal/postgrest/query.go:232-285 | for collision-free columns the two renamings undo each other |
| Columns.NamesAtTheOtherEnd | internal/postgrest/query.go:232-285 | for collision-free columns a column goes by its remote name at the other end if it has one, and by its own otherwise |
| Columns.FromRemoteUndoesToRemote | internal/postgrest/query.go:232-285 | for collision-free columns MapRowsFromRemote undoes MapRowToRemote if and only if no key of the row is only a remote name |
| FileDriver.ApplyFilters | internal/driver/file/file.go:259-270 | the matching rows, in order |
| FilterMeanings.FilteredRows | internal/driver/file/file.go:259-270 | each row is kept or dropped by itself, and the order stays |
| FilterMeanings.QueryMatches | internal/postgrest/filter_match.go:8-29 | with OR groups a row has to match all filters of one of them, without them all plain filters |
| FileDriver.ApplySelect | internal/driver/file/file.go:283-298 | the selected cells each row has |
| FileDriver.Select | internal/driver/file/file.go:96-106 | filter, project, window, rename back |
| FileDriver.FilterCommutesExactlyWhen | internal/driver/file/file.go:96-96 | for collision-free columns a filter answers on every remote row as it does on the row under local names if and only if its column is not only a remote name, or it is `lt` with the empty text |
| FileDriver.RowIsFilteredAlikeExactlyWhen | internal/driver/file/file.go:96-106 | a row answers all filters in local names as its renamed form does if and only if a cell under a name that is only local is repeated under the remote name |
| FileDriver.FilteringCommutes | internal/driver/file/file.go:96-96 | for rows without keys that are only local names, and such filters, filtering with renamed filters and renaming is renaming and filtering locally |
| FileDriver.ProjectionCommutesExactlyWhen | internal/driver/file/file.go:97-106 | projecting before renaming gives the local projection on every row if and only if nothing is selected or the list names every column by both names or by neither |
| FileDriver.SelectIsLocal | internal/driver/file/file.go:96-106 | under the conditions of the three rows above the driver's result is filtering, projecting and windowing the rows under local names |
| Pages.PagesTileTheResult | internal/driver/file/file.go:98-105 | the windows at offsets 0, L, 2L and so on concatenate to the whole result |
| Pages.PageIs | internal/driver/file/file.go:98-105 | every window: from the offset, or from the first row if that is negative, to the end, or at most `limit` rows if that is positive |
| Pages.WriteSelectResult | internal/api/rest/body.go:33-80 | the error, header and body of each mode, with 64-bit wrap-around |
| Pages.RangeEndIs | internal/api/rest/body.go:58-63 | the last index sent is the last row's, and the offset itself for a page without rows or where the addition wraps around |
| Pages.RangeDescribesPage | internal/api/rest/body.go:53-65 | for a page with rows the range covers exactly its rows and lies below the fallback count |
| Pages.HeaderDeterminesPage | internal/api/rest/body.go:53-65 | the header determines offset, number of rows and total |
| Range.FillDigits | internal/postgrest/range.go:16-22 | filling the 20-byte buffer backwards leaves the digits in its tail; the index never goes below 1 |
| Range.Itoa | internal/postgrest/range.go:8-28 | the decimal form, sign included; the index never goes below 0 |
| Range.FormattedIsCanonicalDecimal | internal/postgrest/range.go:8-28 | the result is the canonical decimal, and parses back, for every 64-bit integer except the smallest |
| Range.FormattedInjective | internal/postgrest/range.go:8-28 | no two 64-bit integers are written alike |
| Range.FormatContentRange | internal/postgrest/range.go:4-6 | the three parts of the header |
| Range.ContentRangeExample | internal/postgrest/range.go:4-6 | `0-24/100` |
| Range.ContentRangeInjective | internal/postgrest/range.go:4-28 | the header determines all three numbers, on all 64-bit triples |
| Query.FiltersToQueryValues | internal/postgrest/query.go:224-230 | the last filter of a column is printed |
| Query.ParseFilters | internal/postgrest/query.go:104-111 | one filter for each parameter that is not reserved, in any order |
| Query.PrintedParses | internal/postgrest/query.go:128-141 | a printed filter with a known operator parses back, dots in its value or not |
| Query.ValueWithoutOperator | internal/postgrest/query.go:128-141 | a value that begins with no known operator and a dot, such as `a@b.com`, is compared for equality as a whole |
| Query.ParsedFiltersAre | internal/postgrest/query.go:104-111 | there is a filter exactly for each parameter that has a value and is not one of the six reserved ones, of its first value |
| Query.FiltersSurviveExactlyWhenPrintable | internal/postgrest/query.go:104-141 | printing and parsing returns the same filters if and only if no two share a column, no column is reserved and every operator is known |
| OrGroups.SplitTopLevel | internal/postgrest/query.go:201-222 | splitting at separators outside parentheses |
| OrGroups.PiecesRestoreText | internal/postgrest/query.go:201-222 | joining the pieces restores every text |
| OrGroups.JoinedPiecesComeBack | internal/postgrest/query.go:201-222 | splitting a join of closed pieces returns them |
| OrGroups.ParseFilterExpr | internal/postgrest/query.go:186-199 | the operators tried in order, each at its first marker |
| OrGroups.ParsedIsPrinted | internal/postgrest/query.go:186-199 | what is read of any expression, written again, is that expression |
| OrGroups.NothingParsedExactlyWhen | internal/postgrest/query.go:186-199 | an expression is unreadable if and only if every known operator between dots is missing or first found where it begins |
| OrGroups.ExpressionSurvivesExactlyWhen | internal/postgrest/query.go:186-199 | for every filter, its column with dots or not: the printed expression parses back if and only if the operator is known, the column is not empty, the operator is not found earlier in the column, and every operator tried before is found at the start or neither in column and operator nor in the value |
| OrGroups.ParseOrGroups | internal/postgrest/query.go:163-184 | outer parentheses stripped, blank parts skipped, one bad part fails the whole |
| OrGroups.GroupsAreOfPieces | internal/postgrest/query.go:163-184 | the list is readable if and only if each piece that is not blank is, and its groups are those pieces' filters, one each |
| OrGroups.OrListSurvivesExactlyWhen | internal/postgrest/query.go:163-184 | a list of closed, trimmed expressions parses back to one group each, in order, if and only if each expression does |
| OrGroups.StrayOperatorCaptures | internal/postgrest/query.go:186-199 | `c.neq.a.eq.b` is read as a column `c.neq.a` compared by eq with `b` |
| SqlScan.ExtractStatement | internal/importer/sql.go:167-195 | the text is cut at the first semicolon outside quotes at depth 0; without one the rest is a statement exactly when its parentheses balance |
| SqlScan.SplitColumnChunks | internal/importer/sql.go:283-323 | the text between commas outside quotes at depth 0, the tail trimmed or dropped |
| SqlScan.PiecesRestoreBody | internal/importer/sql.go:283-323 | joining the pieces with commas restores every text |
| SqlScan.PiecesComeBackExactlyWhen | internal/importer/sql.go:283-323 | splitting joined pieces returns them if and only if none has a top-level comma and all but the last close their quotes and parentheses |
| SqlScan.EnclosedStays | internal/importer/sql.go:167-323 | text between quotes of any of the three kinds, or between parentheses, is closed and whole, whatever commas and semicolons it has |
| SqlScan.StatementIsCutOff | internal/importer/sql.go:167-190 | a closed statement without an end of its own is cut off exactly where the next begins |
| SqlStatements.LastStatement | internal/importer/sql.go:191-195 | plain text without an end is a statement to its last character, and with an open parenthesis none |
| SqlScan.RemainderShrinks | internal/importer/sql.go:145-163 | what is left is no longer than before, so the statement loop ends |
| SqlImport.ParseColumnDefinitions | internal/importer/sql.go:251-281 | the loop over definitions: key clauses, skipped clauses, columns |
| SqlStatements.ConstraintsArePassedOver | internal/importer/sql.go:259-271 | constraints of the six kinds, in any case, add nothing |
| SqlStatements.KeyClauseSetsKeys | internal/importer/sql.go:259-263 | a PRIMARY KEY clause sets the keys and adds no column |
| SqlStatements.BlankTailIsDropped | internal/importer/sql.go:316-323 | a comma too many at the end of the list adds nothing |
| SqlImport.ExtractKeyColumns | internal/importer/sql.go:410-425 | the names between the first and last parenthesis, trimmed and unquoted |
| SqlStatements.KeysAreTheNames | internal/importer/sql.go:410-425 | the keys are the names written in the list, between blanks and in quotes or not, in order |
| SqlImport.ParseOneCreateTable | internal/importer/sql.go:197-233 | one statement, with its dropped and its failing forms |
| SqlColumns.QualifiedNames | internal/importer/sql.go:235-249 | a name alone is in the default schema, and of several dots MySQL takes the last and the other dialects the first |
| SqlColumns.QuotedQualifiedName | internal/importer/sql.go:235-249 | quoted parts lose their quotes |
| SqlStatements.NoListIsDropped | internal/importer/sql.go:203-206 | a statement without a column list is dropped |
| SqlStatements.TwoWords | internal/importer/sql.go:198-201 | and `t (id)` is, though it has one |
| SqlStatements.UnclosedListFails | internal/importer/sql.go:209-212 | an unclosed list is an error |
| SqlImport.ParseCreateTables | internal/importer/sql.go:142-165 | the statement loop over the leftmost matches of the opening words |
| SqlStatements.GuardIsPassed | internal/importer/sql.go:142-150 | IF NOT EXISTS, in any case of letters, belongs to the opening words |
| SqlStatements.StatementsInOrder | internal/importer/sql.go:142-165 | the tables come in order, a statement that names none is passed over, and one that fails makes all fail |
| SqlImport.SQLToDeclarative | internal/importer/sql.go:39-96 | the document: template server, tables in order, positions, key columns defaulted to the first column |
| SqlColumns.ImportedServerIs | internal/importer/sql.go:39-126 | the one server: its name or `imported_db`, enabled, the schema among its options, and for each dialect its protocol and the placeholder of each credential field |
| SqlColumns.ImportFailsExactlyWhen | internal/importer/sql.go:39-70 | it fails if and only if no dialect is given, a statement is in error or there is no table |
| SqlPrint.ColumnIsRead | internal/importer/sql.go:325-351 | a printed column is read as that column, its type, nullability and key mark |
| SqlPrint.TypeIsCanonical | internal/importer/sql.go:388-408 | normalisation leaves the eight canonical types alone |
| SqlColumns.TypeIsItsKind | internal/importer/sql.go:388-408 | each of the 31 known type names is normalised to its kind and every other to text |
| SqlColumns.TypeInAnyCase | internal/importer/sql.go:388-390 | in any case of letters |
| SqlColumns.WrittenColumnIsRead | internal/importer/sql.go:325-386 | a column of any name, in either kind of quotes or none, and any type, with parameters or not, is read as that name without quotes, that type's kind, a key if marked or serial, and nullable if neither a key nor marked |
| SqlStatements.VaryingIsText | internal/importer/sql.go:374-387 | CHARACTER VARYING is text |
| SqlRoundTrip.ColumnIsSkippedExactlyWhen | internal/importer/sql.go:259-271 | a printed column is never taken for a key clause, and is skipped if and only if its name starts with UNIQUE, CONSTRAINT, CHECK or INDEX or is KEY, in any case |
| SqlRoundTrip.StatementIsRead | internal/importer/sql.go:197-249 | a printed statement is read as its table, in every dialect |
| SqlRoundTrip.PrintedIsRead | internal/importer/sql.go:142-281 | every list of printed tables is read back statement by statement |
| SqlRoundTrip.RoundTripExactlyWhen | internal/importer/sql.go:71-94 | importing printed tables succeeds, and returns schemas, names, column order, types, nullability and keys if and only if no column's name is mistaken as above |

## Left out

- Import.ImportDeclarative: does not model imports that run at the same time.
- Import.RestartConserves: says nothing of an entry that shares its key with another, of which the last is read back.
- Import.Restart: takes every written document for a declarative one; the code reads one of servers with blank protocols only, without secrets, tables or functions, as a raw snapshot.
- Import.Load: does not model raw snapshot files, blank files, or reading the directory.
- FileStore.Store.CreateServer: like every operation of the store, does not model writing the file after the change, whose failure the code reports after the data has changed.
- StoreInvariant.FailureChangesNothingExactlyUnless: does not cover failures of that write.
- Where.BuildFilter: takes every character above 127 for printable; %q escapes those that are not.
- WhereMeaning.ClauseMeansFilters: does not model whether the database knows the word of a test.
- SqlAtoms.MatcherAgreesExactlyWhen: a cell is NULL or a text, compared by its characters; collations and columns of other types are not modelled.
- Query.ParseFilters: does not model the select, order, limit and offset parameters, or the percent-encoding of URLs.
- Pages.WriteSelectResult: does not model JSON bodies or status headers beyond which rows are sent.
- MetaCache.MetaCache.SyncRevision: does not model the hash; the bytes stand for their digest, and readers that fill the cache at the same time are not modelled.
- Seqs.SortSorted: does not model the order of elements that compare equal, which the library leaves open; the model keeps their order.
- SqlImport.SQLToDeclarative: does not model invalid UTF-8; texts are sequences of characters, and case mapping is exact only for comparison with ASCII words.
- SqlRoundTrip.RoundTripExactlyWhen: does not cover printed defaults, references or quoted names; the parser is modelled on all texts, the printer writes simple names, canonical types, NOT NULL and key clauses.
- DriverPool.Pool.Get: does not model how the version is computed from the server and its credential; it is an opaque value.
- RoundTrip.RoundTripExactlyWhen: does not cover snapshots with repeated server names or table keys, whose entries name no one record.
- HTTP handlers, routing, metrics, logging, command line and environment reading: plumbing.
- The database-backed store: its guarantees rest on the database.
- Choosing the SQL dialect from its name, and the other drivers (HTTP, MySQL, MongoDB, Redis, S3) and the readers of CSV, XLSX, JSON and YAML files: libraries outside the repository.
- Vault cryptography, tokens and API keys; YAML and JSON encoding; telling declarative files from snapshot files.
- OpenAPI import and generation, TypeScript generation: mostly literals.
