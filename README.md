# goprojectstarter source-mutation engine in Dafny

This project models the part of goprojectstarter that edits a generated Go
project in place, together with the pure helpers around it:

- the naming helpers (snake case, plural snake case, lower camel case) and
  the two supported project layouts (`internal/common/utils.go`, with the
  identical copies in `cmd/generate.go`);
- the anchor splicer `appendToFile` with its three insertion modes, in both
  generations of the command (`internal/command/gen_api.go` and the older
  `cmd/gen_api.go`), plus `ensureRouteGroupExists` and the task run of
  `injectGeneratedCode`;
- the guarded inserters of `modifier.go`: providers for the DI container,
  the handler field, parameter and return key of the router, and the CRUD
  route block;
- the declaration-level merger of `gen-logic` (`smartReplaceOrAddMethods`),
  the method lookups `findMethodContent` and `findPublicMethods`, and
  `applyGeneratedCode`;
- the `sync-routes` command: route collection in `parseRoutes`, the
  generated Swagger block, and the line rewrite of `updateHandlerFile`;
- `parseEntityFile` and the skip/force rule of `generateCode`;
- the commit-message and markdown-prompt parsers, and the cleaning of an
  LLM reply out of its code fence;
- the HTTP status and flat-merge rules of `pkg/response/response.go`;
- the level gates and the `Trace` branch choice of the GORM logger adapter.

The working tree is a `Disk` value (a map from path to text, plus the paths
that exist but cannot be read). Operations that change files are methods on
the `Workspace.Tree` class, and each is proved equal to a specification
function over `Disk`. The properties are lemmas about those functions. Go
syntax trees are small datatypes (`Merger.Decl`, `Modifier.RouterDecl`,
`Routes.Node`, `Entity.EntityNode`). The Go parser, printer and formatter,
`astutil.AddImport` and template rendering are function-valued parameters.
The fixed regular expressions are written out as matchers over the text.

`injectGeneratedCode` guards only the route-group step. The six tasks
append or insert again on every run; `Injector.SpliceAppendRepeats` states
this for appending.

## Model

| member | source | states |
|---|---|---|
| Common.GetProjectPaths | internal/common/utils.go:11-31 | The DDD preset whenever `internal/application` exists, even if `internal/usecase` also exists. The clean preset when only `internal/usecase` exists. An error exactly when neither exists. |
| Common.GetProjectPathsPlain | internal/common/utils.go:13-28 | No path of either preset holds a `%`, so a task path built from one has only the `%s` the task itself adds. |
| Common.ServiceDirUnderProbe | internal/common/utils.go:12-28 | The service directory of the chosen preset lies under the probe directory that selected it. |
| Common.ToSnakeCase | internal/common/utils.go:47-60 | The rune loop yields `SnakeCase(s)`: an underscore before an upper-case letter that is not first and has a lower-case neighbour, then the letter lowered. The copy in cmd/generate.go:278-291 is the same code. |
| Common.SnakeCaseNoUpper | internal/common/utils.go:50-54 | The output holds no ASCII upper-case letter. |
| Common.SnakeCaseIdentity | internal/common/utils.go:47-60 | An input without upper-case letters is returned unchanged. |
| Common.SnakeCaseIdempotent | internal/common/utils.go:47-60 | Converting twice gives what converting once gives. |
| Common.SnakeCaseLength | internal/common/utils.go:48-59 | The output length is the input length plus the number of inserted underscores. |
| Common.SnakeCaseStart | internal/common/utils.go:50-54 | There is never a leading underscore: the output starts with the lowered first character. |
| Common.SnakeCaseLetters | internal/common/utils.go:48-59 | With the inserted underscores removed, the output is the input lowered character by character, in order. |
| Common.SnakeCaseExamples | internal/common/utils.go:50-55 | "UserID" gives "user_id" and "user" stays "user". |
| Common.SnakeCaseAcronym | internal/common/utils.go:50-55 | "HTTPServer" gives "http_server". |
| Common.PluralSnakeCase | internal/common/utils.go:62-71 | The table name always ends in `s`. |
| Common.PluralSnakeCaseStem | internal/common/utils.go:62-71 | A trailing `y` of the snake-case name becomes `ies`; otherwise the name gets `es` exactly when it ends in `s`, and `s` otherwise. |
| Common.PluralSnakeCaseNoUpper | internal/common/utils.go:62-71 | The table name holds no upper-case letter. |
| Common.PluralSnakeCaseCategory | internal/common/utils.go:64-65 | "Category" gives "categories". |
| Common.PluralSnakeCaseBus | internal/common/utils.go:67-68 | "Bus" gives "buses". |
| Common.PluralSnakeCaseUser | internal/common/utils.go:70 | "User" gives "users". |
| Common.PluralSnakeCaseWord | internal/common/utils.go:62-71 | The table name of a word is a word, so it holds no `/`. |
| Common.LowerCamel | internal/common/utils.go:73-80 | The length is kept; only the first character is lowered and the tail is unchanged; "" stays "". |
| Common.ToLowerCamel | internal/common/utils.go:73-80 | Overwriting the first rune of a copy yields `LowerCamel(s)`. The copy in cmd/generate.go:269-276 is the same code. |
| Common.LowerCamelExamples | internal/common/utils.go:73-80 | "UserHandler" gives "userHandler" and "" gives "". |
| Injector.RenderPlain | internal/command/gen_api.go:453-461 | An anchor template without template actions renders to itself. |
| Injector.RenderEntity | internal/command/gen_api.go:453-461 | The `{{.EntityName}}` placeholder renders to the entity name, with the text around it kept. |
| Injector.BuildContent | internal/command/gen_api.go:445-485 | The buffer writes compute `SpliceInto`: append, or splice after the anchor line or after the brace. |
| Injector.AppendToFile | internal/command/gen_api.go:436-487 | The new tree is the old one with the `Splice` result written to the path. On an error nothing is written. The legacy variant is cmd/gen_api.go:352-399. |
| Injector.SpliceAppend | internal/command/gen_api.go:437-448 | Appending yields `old + "\n" + snippet`. The current generation treats a missing or unreadable file as empty and creates it. The legacy generation returns the read error (cmd/gen_api.go:353-360). |
| Injector.SpliceInsertGuards | internal/command/gen_api.go:438-452 | In the insertion modes a read error other than not-exist is returned, and an empty anchor is an error before anything is searched. |
| Injector.SpliceAnchorMissing | internal/command/gen_api.go:462-465 | A rendered anchor that does not occur is an error, and nothing is written. |
| Injector.SpliceAfterLine | internal/command/gen_api.go:462-484 | After-line insertion yields `c[..e] + "\n" + snippet + c[e..]`, where `e` is the end of the first occurrence of the anchor. |
| Injector.SpliceAfterBrace | internal/command/gen_api.go:467-484 | After-brace insertion splices right after the first `{` at or after the anchor's start, with no newline added. |
| Injector.SpliceBraceMissing | internal/command/gen_api.go:469-472 | No `{` after the anchor is an error. |
| Injector.SpliceAppendRepeats | internal/command/gen_api.go:447-448 | Appending carries no guard: a second run appends the snippet a second time. |
| Injector.EnsureRouteGroupExists | internal/command/gen_api.go:421-434 | The new tree and error are those of `EnsureGroupSpec`. The legacy variant is cmd/gen_api.go:337-350. |
| Injector.ApiV1AnchorPlain | internal/command/gen_api.go:432-433 | The `apiV1` anchor renders to itself. |
| Injector.EnsureGroupInserts | internal/command/gen_api.go:426-433 | Without the group definition, a newline, the marker comment and the definition are spliced after the first `apiV1` anchor. |
| Injector.GroupCreationDefines | internal/command/gen_api.go:426-431 | Any text holding the creation code holds the group definition. |
| Injector.EnsureGroupIdempotent | internal/command/gen_api.go:421-434 | After the group step has succeeded, running it again writes nothing. |
| Injector.ResolveTaskPath | internal/command/gen_api.go:407-412 | A path template with `%s` gets the snake-case entity; any other template is the path itself. |
| Injector.RunTaskList | internal/command/gen_api.go:406-417 | The loop gives the tree and error of `RunTasks`: the tasks in order, stopping at the first failure. |
| Injector.InjectGeneratedCode | internal/command/gen_api.go:368-419 | The layout check, then the mapper overwrite, then the route group, then the six tasks, as `InjectSpec` states. The legacy variant is cmd/gen_api.go:284-335. |
| Injector.RunTasksAppend | internal/command/gen_api.go:406-417 | Running `a` then `b` is running `a + b`, unless `a` already failed. |
| Injector.RunTasksStopsAtFailure | internal/command/gen_api.go:414-416 | A failing task writes nothing, ends the run, and keeps what the earlier tasks wrote. |
| Injector.InjectUnknownLayout | internal/command/gen_api.go:369-372 | An unrecognised layout is an error before anything is written. |
| Injector.InjectGroupFailure | internal/command/gen_api.go:375-390 | A failing route-group step stops the run once the mapper is written; no task runs. |
| Injector.TaskPathFilled | internal/command/gen_api.go:408-409 | Filling `dir/%s<suffix>` names the file after the snake-case entity. |
| Injector.TaskPaths | internal/command/gen_api.go:398-412 | The six tasks edit the repository interface, repository impl, service (twice), handler and router files, named after the snake-case entity. |
| Injector.TaskPathsRepository | internal/command/gen_api.go:398-399 | The two repository tasks edit `<snake>_repository.go` and `<snake>_repository_impl.go`. |
| Injector.TaskPathsService | internal/command/gen_api.go:400-402 | The service and handler tasks edit `<snake>_service.go` and `<snake>_handler.go`. |
| Parsers.RoutePath | internal/command/gen_api.go:639-643 | A derived route path starts with `/`. |
| Parsers.BuildApiInfo | internal/command/gen_api.go:611-624 | Entity, method and route path are kept. The table name is the plural snake case of the entity, so it ends in `s` (see the `PluralSnakeCase` lemmas). The verb is upper-cased. The full path is `/api/v1/`, then that table name, then the route path. The legacy copy is cmd/gen_api.go:523-535. |
| Parsers.ParseCommitMessage | internal/command/gen_api.go:626-645 | The message is unparsable exactly when neither form matches. A long-form match succeeds exactly when its path has a route path; it keeps the captured method and entity and takes that route path. A short-form match has the placeholder path. Parsed names are words. |
| Parsers.RoutePathOfFullPath | internal/command/gen_api.go:611-643 | The full path `buildApiInfo` derives (`/api/v1/<table><path>`) gives back the route path it was built from. |
| Parsers.RoutePathOfTableOnly | internal/command/gen_api.go:639-642 | A full path that stops at the table segment has no route path. The legacy check is cmd/gen_api.go:550-554. |
| Parsers.WordThen | internal/command/gen_api.go:627 | A `(\w+)` capture followed by a separator is a word, and the text is the word, the separator and the rest. |
| Parsers.WordThenOf | internal/command/gen_api.go:627 | A word followed by a non-word separator is captured whole. |
| Parsers.MatchApiCommit | internal/command/gen_api.go:627-628 | A long-form match is the message rebuilt from its four captures. |
| Parsers.MatchShortApiCommit | internal/command/gen_api.go:630-631 | A short-form match is the message gen-api writes, rebuilt from its two words. |
| Parsers.ApiCommitRoundTrip | internal/command/gen_api.go:139 | The commit message gen-api writes parses, through the old-format branch (626-637), to the same entity and method, with POST and `/<unknown>`. The legacy message is cmd/gen_api.go:133. |
| Parsers.ShortFormNotLong | internal/command/gen_api.go:627-628 | The long pattern never matches the short message: nothing follows the entity. |
| Parsers.ShortFormMatches | internal/command/gen_api.go:630-631 | The short pattern matches the short message, capturing the method name and the entity. |
| Parsers.MatchLongApiCommit | internal/command/gen_api.go:627-628 | The long form is matched back into its four captures. |
| Parsers.ApiCommitWithRouteRoundTrip | internal/command/gen_api.go:626-645 | A long-form message built from an `ApiInfo` parses back to that `ApiInfo`. |
| Parsers.ApiCommitWithoutRoute | internal/command/gen_api.go:638-642 | A long-form message whose path stops at the table segment is an error. The legacy parser does the same (cmd/gen_api.go:550-554). |
| Parsers.ParseLogicCommitMessage | internal/command/gen_logic.go:647-657 | A parsed message is exactly the gen-logic message of its method and entity. |
| Parsers.LogicCommitRoundTrip | internal/command/gen_logic.go:155 | The message gen-logic writes parses back to its entity and method (647-657). |
| Parsers.WordCaptureAt | internal/command/gen_api.go:177-185 | A `lead(\w+)trail` match at an offset has its lead there and captures a word. |
| Parsers.PathCaptureAt | internal/command/gen_api.go:189 | A `lead(/\S*)` capture starts with `/` and holds no white space. |
| Parsers.LineEnd | internal/command/gen_logic.go:593 | `.*` stops at the next line break or at the end. |
| Parsers.QuotedWordAt | internal/command/gen_logic.go:593 | ` '(\w+)'` captures a word after a space. |
| Parsers.LastQuoted | internal/command/gen_logic.go:593 | The greedy `.*` picks the last stop on the line after which ` '(\w+)'` matches. |
| Parsers.QuotedCaptureAt | internal/command/gen_logic.go:593 | A `lead.* '(\w+)'` match at an offset has its lead there and captures a word. |
| Parsers.CaptureAt | internal/command/gen_api.go:168-175 | A match at an offset has the pattern's lead there and a non-empty capture. |
| Parsers.FindFrom | internal/command/gen_api.go:169-170 | `FindStringSubmatch` reports the leftmost match: no match starts before the reported offset. |
| Parsers.FindFromLeftmost | internal/command/gen_api.go:169-170 | Wherever the search starts before the first match, that match is the one reported. |
| Parsers.WordBetweenAt | internal/command/gen_api.go:177-181 | A word pattern matches where its lead, a word and its trail are laid out. |
| Parsers.WordAfterAt | internal/command/gen_api.go:185 | `lead(\w+)` captures the whole run of word characters after the lead. |
| Parsers.Extract | internal/command/gen_api.go:168-175 | A field is missing exactly when the pattern matches nowhere. |
| Parsers.AllWordsFrom | internal/command/gen_logic.go:610-614 | `FindAllStringSubmatch` yields words: none exactly when there is no match, the leftmost match first. |
| Parsers.Section | internal/command/gen_api.go:195-209 | A section found is never blank. |
| Parsers.SectionOf | internal/command/gen_api.go:197-206 | The section is the trimmed text between the first start marker and the first end marker after it. |
| Parsers.MarkdownRoutePath | internal/command/gen_api.go:211-221 | The route path always starts with `/`; a path naming only the table gives `/`. |
| Parsers.ParseMarkdownPrompt | internal/command/gen_api.go:166-225 | A parsed prompt has a non-blank description and a route path starting with `/`. |
| Parsers.MarkdownRoutePathOfFullPath | internal/command/gen_api.go:211-223 | A prompt asking for the full path `buildApiInfo` derives gives back the same route path. |
| Parsers.MarkdownPromptNeedsEntity | internal/command/gen_api.go:177-180 | A prompt without an entity line is refused first. |
| Parsers.ParseLogicMarkdownPrompt | internal/command/gen_logic.go:590-633 | Entity and method are words, the goal is not blank, and the example method ("" when absent) and the additional entities are words. |
| Parsers.ExampleIsLastQuoted | internal/command/gen_logic.go:593-609 | The example method is the quoted word that closes the first example line. |
| Parsers.ExampleAt | internal/command/gen_logic.go:593 | The example pattern matches at its line and captures the line's last quoted word. |
| Parsers.LastQuoteOnLine | internal/command/gen_logic.go:593 | The greedy `.*` stops before the quoted word that closes the line. |
| Parsers.QuoteEndsLine | internal/command/gen_logic.go:593 | No quoted word starts after the one that closes the line. |
| Parsers.CleanResponse | internal/command/gen_logic.go:184-186 | The result is no longer than the trimmed reply. An unfenced reply is only trimmed. A reply that starts with the JSON fence loses at least the fence's length. |
| Parsers.CleanFencedResponse | internal/command/gen_logic.go:184-186 | A fenced JSON reply, padded with space, cleans to the JSON inside the fence. The same cleaning is at internal/command/gen_api.go:358-360. |
| Parsers.FencedTrimmed | internal/command/gen_logic.go:184 | Trimming a fenced reply removes only the padding. |
| Parsers.CleanBareResponse | internal/command/gen_logic.go:184-186 | A trimmed reply without fences passes unchanged. |
| Merger.ReceiverTypeName | internal/command/gen_logic.go:522-535 | `*T` and `T` yield `T`; no receiver and any other receiver shape yield "". |
| Merger.ChooseDoc | internal/command/gen_logic.go:495-500 | The old doc is kept exactly when it has an `@` line and the new doc has none; otherwise the new doc is used. |
| Merger.HasSwaggerAnnotations | internal/command/gen_logic.go:432-443 | A nil or empty comment group has no annotations. |
| Merger.GeneratedDocKept | internal/command/gen_logic.go:432-443 | The block sync-routes generates counts as annotated, so a merge with an unannotated new method keeps it. |
| Merger.LastTarget | internal/command/gen_logic.go:482-491 | The last declaration with the method's name and a receiver equal to the struct name up to case, because the traversal continues past a match. |
| Merger.FindMergeTarget | internal/command/gen_logic.go:482-491 | The traversal finds `LastTarget`. |
| Merger.MergeReplaces | internal/command/gen_logic.go:493-501 | On a match only the body is replaced and the doc chosen; name, receiver, signature and every other declaration are kept. |
| Merger.MergeAppends | internal/command/gen_logic.go:502-505 | Without a match the new method becomes the last declaration. |
| Merger.MergeLeavesTarget | internal/command/gen_logic.go:482-505 | After a merge the file holds a declaration the same snippet would be merged into. |
| Merger.MergeIdempotent | internal/command/gen_logic.go:482-505 | Merging the same method twice gives what merging it once gives. |
| Merger.MergeSameTarget | internal/command/gen_logic.go:500-501 | Replacing doc and body keeps the declaration the last target. |
| Merger.ChooseDocStable | internal/command/gen_logic.go:495-500 | A second merge of the same doc keeps the doc the first merge chose. |
| Merger.GoFile.ReplaceDocAndBody | internal/command/gen_logic.go:500-501 | Only the chosen declaration's doc and body change. |
| Merger.GoFile.AppendDecl | internal/command/gen_logic.go:504 | The declaration is appended and the package name is kept. |
| Merger.AfterLastSlash | internal/command/gen_logic.go:478 | The position after the last `/`, with no `/` after it. |
| Merger.DirOf | internal/command/gen_logic.go:478 | A path without `/` lives in `.`. |
| Merger.BaseOf | internal/command/gen_logic.go:478 | A base name holds no `/`. |
| Merger.NewFilePackageInDir | internal/command/gen_logic.go:477-480 | A new file gets its directory's last segment as its package name. |
| Merger.SmartReplaceOrAddMethods | internal/command/gen_logic.go:447-520 | The tree and error are those of `MergeSpec`: the guards, then the merge, then the write of the printout, formatted if formatting succeeds and raw otherwise. |
| Merger.MergeBlankSnippet | internal/command/gen_logic.go:448-450 | A whitespace-only snippet succeeds without touching the tree. |
| Merger.MergeFailureWritesNothing | internal/command/gen_logic.go:452-510 | Each error (unparsable snippet, no declaration, first declaration not a func, unparsable target, printer failure) leaves the tree unchanged. |
| Merger.MergeTouchesOnlyPath | internal/command/gen_logic.go:515-519 | Only the target path is written. |
| Merger.MergeNewFile | internal/command/gen_logic.go:477-519 | A missing file is created from a unit in the directory's package whose only declaration is the new method. |
| Merger.LastContentTarget | internal/command/gen_logic.go:550-560 | The last declaration with the method's name whose receiver matches up to case and a leading `*`. |
| Merger.FindMethodContent | internal/command/gen_logic.go:537-567 | A missing file gives "" with no error, and a read or parse failure is an error. A parsed file always succeeds. The result is the exact source slice of the last declaration whose name matches and whose receiver matches up to case and `*`, or "" when none matches. |
| Merger.LastContentUnique | internal/command/gen_logic.go:550-559 | The declaration the walk keeps is the last match: a match with none after it is what `LastContentTarget` returns. |
| Merger.FindMethodContentStar | internal/command/gen_logic.go:554 | The receiver name may be given with or without `*`. |
| Merger.PublicMethods | internal/command/gen_logic.go:578-586 | Only exported names are listed, at most one per declaration. |
| Merger.PublicMethodsMembers | internal/command/gen_logic.go:580-583 | A name is listed exactly when some exported function with a receiver has it. |
| Merger.PublicMethodsAppend | internal/command/gen_logic.go:579-586 | The names come in file order. |
| Merger.FindPublicMethods | internal/command/gen_logic.go:569-588 | A missing file gives no methods, and a read or parse failure is an error. Otherwise the result is `PublicMethods` of the declarations, collected by the loop. |
| Merger.LogicTargetsFor | internal/command/gen_logic.go:349-363 | The handler and service files sit in their layout directories with the `_handler.go` and `_service.go` suffixes, and the struct names end in `Handler` and `RepositoryImpl`. |
| Merger.BuildLogicTargets | internal/command/gen_logic.go:340-363 | The naming part fails exactly when the layout is not recognised, and otherwise yields `LogicTargetsFor` of the preset. |
| Merger.LogicTargetsMatchApiTasks | internal/command/gen_logic.go:356-359 | gen-logic edits exactly the handler, service, repository-impl and repository-interface files that gen-api's tasks edit. |
| Merger.HandlerStructFolds | internal/command/gen_logic.go:360 | `<Entity>Handler` and `<lowerCamel entity>Handler` are equal up to case, so the struct is found either way. |
| Merger.MergeTasks | internal/command/gen_logic.go:400-409 | There are exactly three merge tasks: handler, service and repository impl. |
| Merger.ApplyGeneratedCode | internal/command/gen_logic.go:399-430 | The tree and error are those of `ApplySpec`: the three merges in order, skipping empty snippets, then the interface method. |
| Merger.ApplyNothing | internal/command/gen_logic.go:411-428 | Empty snippets leave the tree untouched. |
| Merger.ApplyInterfaceAfterMerges | internal/command/gen_logic.go:415-417 | A failing merge ends the run before the interface edit. |
| Merger.RepoInterfaceAnchorPlain | internal/command/gen_logic.go:423-424 | The interface anchor renders to itself. |
| Merger.RepoInterfaceAnchorAgrees | internal/command/gen_logic.go:423 | The interface anchor is the one gen-api renders for the same entity (internal/command/gen_api.go:398). |
| Merger.RepoInterfaceRendered | internal/command/gen_api.go:398 | gen-api's template for the interface anchor renders to gen-logic's anchor. |
| Modifier.ModifySourceFile | internal/command/modifier.go:17-34 | A parse, modifier or printer failure returns before any write. Success writes only the file. The legacy variant is cmd/modifier.go:19-36. |
| Modifier.ProviderBlockShape | internal/command/modifier.go:54-67 | The provider block begins with the `// <E> Providers` marker and ends with the anchor. |
| Modifier.ProviderEditSkips | internal/command/modifier.go:44-48 | With the marker present the container text is not changed. The legacy variant is cmd/modifier.go:47-51. |
| Modifier.ProviderEditNoAnchor | internal/command/modifier.go:79 | Without the anchor the replace changes nothing and raises no error. |
| Modifier.ProviderEditInserts | internal/command/modifier.go:52-79 | Only the first anchor is replaced by the block. The text around it is kept, and afterwards both the marker and the anchor are present. |
| Modifier.ProviderEditIdempotent | internal/command/modifier.go:44-79 | Adding the providers twice is adding them once. |
| Modifier.ProviderLayouts | internal/command/modifier.go:54-68 | The DDD block and the other block share the same head and the same tail. Right after the head, one has `persistence` where the other has `repository`, so the DDD block is one character longer. |
| Modifier.AddProviderUnreadable | internal/command/modifier.go:39-42 | A read failure of the container is returned and nothing is written. |
| Modifier.EnsureImportsForDI | internal/command/modifier.go:88-95 | Every failure leaves the tree unchanged; an unreadable container is a parse failure. On success the container holds the printout of the parsed file with every configured package imported under the module path. The legacy variant is cmd/modifier.go:82-91. |
| Modifier.AddProviderToDI | internal/command/modifier.go:36-86 | A read failure is returned with no write. On success only the container file has changed. The legacy variant is cmd/modifier.go:39-80. |
| Modifier.AddProviderPresent | internal/command/modifier.go:44-48 | With the marker present, only the import step runs. |
| Modifier.AddProviderAbsent | internal/command/modifier.go:50-85 | With the marker missing, the provider edit is written first and the import step runs on it. A failing import step leaves that write in place. |
| Modifier.WithField | internal/command/modifier.go:116-123 | The list afterwards has a field with that first name. The old fields come first, and at most one field is added. |
| Modifier.WithKey | internal/command/modifier.go:148-163 | The literal afterwards has the key. Its existing elements stay in front, and at most one element is added. |
| Modifier.FieldExists | internal/command/modifier.go:109-115 | The found-flag loop reports whether some field's first name is the handler name. |
| Modifier.KeyExists | internal/command/modifier.go:148-156 | The found-flag loop reports whether some key-value element has the handler name as its key. |
| Modifier.RouterTree.AddHandler | internal/command/modifier.go:106-170 | The traversal edits each declaration in place as `InjectHandler` states. |
| Modifier.VisitDecl | internal/command/modifier.go:106-167 | One visit gives `InjectDecl`: the Router struct gains the handler field unless a field already has that name, and NewRouter gains the parameter the same way and has its returned literals extended. Every other declaration is kept. |
| Modifier.InjectReturns | internal/command/modifier.go:144-167 | Each returned literal of `NewRouter` gets the key unless it already has it. |
| Modifier.InjectHandlerIdempotent | internal/command/modifier.go:107-167 | Wiring the handler in twice is wiring it in once. |
| Modifier.InjectHandlerAdds | internal/command/modifier.go:107-167 | `Router` has the field and `NewRouter` has the parameter, with the old ones kept in front. Every returned literal has the key, and every other declaration is unchanged. |
| Modifier.WithFieldPrefix | internal/command/modifier.go:119-122 | Appending keeps the existing fields in front. |
| Modifier.HandlerParamName | internal/command/modifier.go:104 | The parameter is `<lowerCamel entity>Handler`. |
| Modifier.AddHandlerToRouterFile | internal/command/modifier.go:97-175 | The tree and error are those of `AddHandlerToRouter`: the edit and the import, through modifySourceFile. The legacy variant is cmd/modifier.go:93-180. |
| Modifier.AddRoutesToRouter | internal/command/modifier.go:177-223 | A read error is returned without a write, and the marker present means no write. Otherwise there is no error, and the router file holds the formatted edit when formatting succeeds and the unformatted edit when it fails. The legacy variant is cmd/modifier.go:183-229. |
| Modifier.RoutesBlockShape | internal/command/modifier.go:193-203 | The route block begins with the `// <E> routes` marker and ends with the anchor. |
| Modifier.RoutesEditInserts | internal/command/modifier.go:185-214 | Only the first anchor is replaced by the group, the five CRUD routes and the anchor. The marker is then present and the anchor survives. |
| Modifier.RoutesEditIdempotent | internal/command/modifier.go:185-214 | Adding the routes twice is adding them once. |
| Modifier.AddRoutesRerun | internal/command/modifier.go:189-222 | A second run over what the first run wrote writes nothing. This holds for the unformatted write, and for a formatted one that keeps the marker comment. |
| Modifier.RoutesBlockDefinesGroup | internal/command/modifier.go:194-196 | The route block opens with the creation code that gen-api's route-group step looks for (internal/command/gen_api.go:426-431). |
| Modifier.RouteGroupIsCreation | internal/command/modifier.go:195-196 | The head of the route block is gen-api's group creation code. |
| Routes.RouteOfCall | cmd/sync_router.go:103-136 | A recorded route has an HTTP verb. |
| Routes.IsHttpMethod | cmd/sync_router.go:286-293 | Only the seven verbs in capitals are accepted, so the caller must upper-case the selector name first (cmd/sync_router.go:105). |
| Routes.ScanRoutesWellKeyed | cmd/sync_router.go:129-135 | Every route is stored under `Handler.Func` and has an HTTP verb. |
| Routes.RouteOverwrites | cmd/sync_router.go:129-135 | A later registration under the same key replaces the earlier one, and other keys are kept. |
| Routes.GroupResetsPrefix | cmd/sync_router.go:91-100 | Each `x.Group("<lit>")` assignment sets the prefix to `/api/v1<lit>`, whatever came before, and records no route. |
| Routes.NoDoubleSlash | cmd/sync_router.go:119 | A path without `//` is kept as it is. |
| Routes.QuotedTrimmed | cmd/sync_router.go:96 | Trimming the quotes of a literal gives its text. |
| Routes.GroupThenRoute | cmd/sync_router.go:88-135 | `Group("/widgets")` then `Post("/", h.WidgetHandler.Create)` registers POST `/api/v1/widgets/` under `WidgetHandler.Create`, and nothing else. |
| Routes.GroupLiteral | cmd/sync_router.go:93-97 | A group call with a literal yields the prefix `/api/v1<lit>`. |
| Routes.RouteLiteral | cmd/sync_router.go:105-135 | A verb call with a literal path and a `x.Handler.Func` argument yields the upper-cased verb and the prefixed path with `//` replaced. |
| Routes.ParseRoutes | cmd/sync_router.go:80-143 | The collected routes are well keyed, and a file that cannot be read or parsed is an error. |
| Routes.CollectRoutes | cmd/sync_router.go:87-142 | The walk, updating the prefix and the table in place, yields `ScanRoutes`. |
| Routes.ReceiverHere | cmd/sync_router.go:171 | The receiver capture is a pair of words. |
| Routes.FuncLine | cmd/sync_router.go:171-182 | A matched line yields a pair of words: the pointer-receiver type and the method name. |
| Routes.FuncLineOf | cmd/sync_router.go:171 | The signature line of a pointer-receiver method yields its type and name. |
| Routes.TrimSpaceHasPrefix | cmd/sync_router.go:192 | Testing after the leading spaces is the source's test on the trimmed line. |
| Routes.HeadLines | cmd/sync_router.go:253-256 | The generated block opens with four lines: name, summary, description and tag. |
| Routes.SwaggerComments | cmd/sync_router.go:248-265 | The generated block has eleven lines, and the last is the canonical `@Router` line. |
| Routes.RouterLineIsTag | cmd/sync_router.go:210 | The canonical line is a `@Router` comment. |
| Routes.SwaggerCommentsShape | cmd/sync_router.go:248-265 | The generated block is all comments, and its only `@Router` line is its last. |
| Routes.CamelCaseToWords | cmd/sync_router.go:267-284 | The rune loop and title-casing yield `CamelCaseToWordsSpec(s)`. |
| Routes.CamelCaseExamples | cmd/sync_router.go:267-284 | "getAll" gives "Get All" and "" gives "". |
| Routes.CommentStart | cmd/sync_router.go:187-199 | The comment block directly above a line: every line in it is a comment, and the line before it is not. |
| Routes.RouterTagFrom | cmd/sync_router.go:207-219 | The first `@Router` line of the block, or none. |
| Routes.EditBlock | cmd/sync_router.go:206-227 | Only lines above the method change, and an unchanged flag means unchanged lines. |
| Routes.Step | cmd/sync_router.go:177-232 | One turn keeps later lines, appends the line's generated block and the line as read, and never clears `changed`. |
| Routes.PassUpTo | cmd/sync_router.go:176-233 | Lines not yet visited are unchanged. |
| Routes.UpdateLines | cmd/sync_router.go:235-245 | The file is written exactly when something changed. |
| Routes.NoRouteNotWritten | cmd/sync_router.go:180-185 | A file with no registered method is not written. |
| Routes.UpdateWithoutBlocks | cmd/sync_router.go:237-239 | Without a generated block, the lines edited in place are written. |
| Routes.UpdateDropsEdits | cmd/sync_router.go:231-242 | With a generated block, the original lines with the blocks interleaved are written, so every in-place edit of the same pass is lost. |
| Routes.UpdateLinesFixed | cmd/sync_router.go:235-242 | The corrected write is produced exactly when something changed. |
| Routes.UpdateFixedKeepsEdits | cmd/sync_router.go:231-242 | The corrected write keeps every edited line, each directly below its generated block. |
| Routes.UpdateFixedAgrees | cmd/sync_router.go:231-242 | When no block is generated, the corrected write is the code's write. |
| Routes.GeneratedBlockSettles | cmd/sync_router.go:201-227 | A method whose generated block is in place is left alone by a later run. |
| Routes.UpdateHandlerSpec | cmd/sync_router.go:158-246 | An unreadable file is an error. Without a change nothing is written. With a change the file holds the chosen lines joined by "\n", with no error. |
| Routes.FindCommentStart | cmd/sync_router.go:187-199 | The backwards search finds `CommentStart`, or -1 above the first line. |
| Routes.FindRouterTag | cmd/sync_router.go:207-219 | The forward search finds `RouterTagFrom`. |
| Routes.VisitLine | cmd/sync_router.go:177-232 | One turn of the loop is `Step`. |
| Routes.RunPass | cmd/sync_router.go:177-232 | The loop leaves the lines, the lines with blocks and the changed flag of `PassUpTo` over the whole file. |
| Routes.UpdateHandlerFile | cmd/sync_router.go:158-246 | The new tree and error are those of `UpdateHandlerSpec`. |
| Entity.GormParts | cmd/generate.go:200-208 | The field is the primary key exactly when some part equals `primaryKey`. |
| Entity.ColumnValue | cmd/generate.go:202-203 | The column is the text after the first `:` up to the next one. |
| Entity.GormPartsLastColumn | cmd/generate.go:201-204 | The last `column:` part wins. |
| Entity.GormPartsNoColumn | cmd/generate.go:201-204 | Without a `column:` part the column is empty. |
| Entity.GormTag | cmd/generate.go:196-199 | A tag without `gorm:"` has no column and no primary key. |
| Entity.FieldOf | cmd/generate.go:190-221 | The column is the tag's, or the snake-case field name when that is absent or empty. The primary-key flag is the tag's. |
| Entity.ScanFields | cmd/generate.go:186-227 | The fields seen before are kept, and at most one field is added per field node. |
| Entity.Finish | cmd/generate.go:245-256 | No struct is an error, and no primary key is an error. Otherwise the table name is the `TableName()` literal, or the snake-case entity plus `s`. |
| Entity.ParseEntityFile | cmd/generate.go:169-257 | The traversal yields `ParseEntitySpec`. |
| Entity.VisitNode | cmd/generate.go:181-241 | One visited node changes the scan as `Visit` does: a struct sets the names and appends its fields, and a `TableName` function returning a literal sets the table name. |
| Entity.ScanStructFields | cmd/generate.go:186-227 | The field loop yields `ScanFields`: each named field is appended, and a field tagged as the primary key replaces the key. |
| Entity.NoStructNoEntity | cmd/generate.go:245-247 | A file without a struct yields no descriptor. |
| Entity.ScanFieldsAppend | cmd/generate.go:186-222 | Fields accumulate over every struct, in order. |
| Entity.LastStructNames | cmd/generate.go:183-184 | The entity is named after the last struct of the file. |
| Entity.ScanFieldsCount | cmd/generate.go:186-189 | One field is added per named field; embedded fields are skipped. |
| Entity.NamedFields | cmd/generate.go:187-189 | The kept fields all have a name. |
| Entity.LastPrimaryKeyWins | cmd/generate.go:224-226 | The last tagged field is the primary key. |
| Entity.DefaultTableName | cmd/generate.go:251-253 | Without `TableName()` the table is the snake-case entity plus `s`. |
| Entity.DefaultTableNameNotPlural | cmd/generate.go:252 | For "Category" this gives "categorys", where the plural rule gives "categories". |
| Entity.TargetFile | cmd/generate.go:115-120 | Every generated file lies in `internal/<pkg>/`. |
| Entity.GenerateCode | cmd/generate.go:105-160 | The loop leaves the tree `GenerateSpec` states. |
| Entity.GeneratedFilesDistinct | cmd/generate.go:106-120 | The four packages name four distinct files, so the map order does not matter. |
| Entity.GenerateAt | cmd/generate.go:113-158 | A target keeps its content when it exists and is not forced, or when its template fails. Otherwise it holds the rendered text. |
| Entity.GenerateUntouched | cmd/generate.go:113-158 | A path no package names is left alone. |
| Entity.GenerateKeepsExisting | cmd/generate.go:123-127 | Without `--force` no existing target is changed. |
| Response.FailStatus | pkg/response/response.go:60-67 | Code 400 gives HTTP 400, 404 gives 404, and any other code 500. The same switch is at 74-80, 138-144 and 150-156. |
| Response.JSON | pkg/response/response.go:31-38 | The status and the envelope's request id, code, message and data are the arguments unchanged. |
| Response.Success | pkg/response/response.go:42-44 | HTTP 200 with code 0 and message "ok". |
| Response.Created | pkg/response/response.go:47-49 | HTTP 201 with code 0 and message "ok". |
| Response.NoContent | pkg/response/response.go:52-55 | HTTP 204 and no body. |
| Response.Fail | pkg/response/response.go:60-70 | The status follows the code, and the data is null. |
| Response.FailWithData | pkg/response/response.go:73-82 | The status follows the code, and the data is kept. |
| Response.BaseFields | pkg/response/response.go:101-105 | The base map has exactly the keys request_id, code and msg. |
| Response.Merged | pkg/response/response.go:115-120 | Base keys keep their values, and every other data key is copied. |
| Response.FlatReply | pkg/response/response.go:100-124 | Nil data gives exactly the three keys. Data keys other than those three are copied. Unmappable data gives the 500 reply with nil data. |
| Response.JSONFlat | pkg/response/response.go:100-124 | The key loop and the single re-entry on a serialisation failure yield `FlatReply`. |
| Response.SuccessFlat | pkg/response/response.go:127-129 | The flat reply with HTTP 200, code 0 and "ok". |
| Response.CreatedFlat | pkg/response/response.go:132-134 | The flat reply with HTTP 201, code 0 and "ok". |
| Response.FailFlat | pkg/response/response.go:137-146 | The status follows the code, and the body is exactly the three base keys. |
| Response.FailWithDataFlat | pkg/response/response.go:149-158 | The flat reply whose status follows the code. |
| Response.FlatDataRoundTrip | pkg/response/response.go:115-120 | A flat reply keeps every data key but the three base keys, which keep the envelope's values. |
| Response.FlatReservedOnly | pkg/response/response.go:117 | Data holding only base keys adds nothing. |
| Response.FlatAgreesWithEnvelope | pkg/response/response.go:137-146 | FailFlat and Fail agree on status, request id, code and message. |
| GormLog.NewGormZapLogger | pkg/logger/gorm_adapter.go:20-26 | Level Info, a slow threshold of 1000 ms, and record-not-found ignored. |
| GormLog.LogMode | pkg/logger/gorm_adapter.go:28-32 | A copy with the new level and the other settings kept. |
| GormLog.LogAt | pkg/logger/gorm_adapter.go:34-51 | A message is forwarded exactly when the level reaches the gate. |
| GormLog.InfoLog | pkg/logger/gorm_adapter.go:34-39 | It emits exactly when the level is at least Info. |
| GormLog.WarnLog | pkg/logger/gorm_adapter.go:41-45 | It emits exactly when the level is at least Warn. |
| GormLog.ErrorLog | pkg/logger/gorm_adapter.go:47-51 | It emits exactly when the level is at least Error. |
| GormLog.Trace | pkg/logger/gorm_adapter.go:53-78 | Silent logs nothing. A reported error gives the SQL line and the error, at any level. A query strictly over a positive threshold gives a warning. Otherwise there is an info line exactly when the level is at least Info. |
| GormLog.GatesNest | pkg/logger/gorm_adapter.go:34-51 | Whatever passes Info passes Warn, and whatever passes Warn passes Error. |
| GormLog.LogModeLastWins | pkg/logger/gorm_adapter.go:28-32 | Setting the level twice is setting it to the second value. |
| GormLog.SilentMutes | pkg/logger/gorm_adapter.go:34-56 | Silent mutes every entry point. |
| GormLog.ErrorsIgnoreLevel | pkg/logger/gorm_adapter.go:62-67 | A reported error gives the same two entries at every non-silent level. |
| GormLog.DefaultIgnoresNotFound | pkg/logger/gorm_adapter.go:20-26 | With the defaults a missing record is treated like success. |
| GormLog.ThresholdIsStrict | pkg/logger/gorm_adapter.go:69 | A query of exactly the threshold is not slow. |
| GormLog.ZeroThresholdNeverSlow | pkg/logger/gorm_adapter.go:69 | A non-positive threshold switches slow warnings off. |

## Left out

- Filesystem, process and git plumbing are not modelled. The working tree is the in-memory `Disk`, and writes always succeed. `os.MkdirAll` and write failures, `exec` of git, gofmt, goimports and gofumpt, and the git history helpers are left out.
- The Go parser, `format.Node`, `format.Source` and `astutil.AddImport` are foreign libraries. They are function parameters that may fail, over abstract declaration lists.
- `text/template` is replaced by the one substitution the anchors use: `{{.EntityName}}` becomes the entity name. The embedded `.tmpl` files of `generateCode` are not visible; their rendering is a parameter.
- The regex engine is not modelled. The fixed patterns are hand-written matchers: RE2 `\w` is `[0-9A-Za-z_]`, `\s` is `[\t\n\f\r ]`, and `.` does not match a line break.
- LLM access is out of scope: the clients, streaming, prompt rendering and `json.Unmarshal` of the reply. The model stops at the cleaned reply text.
- `pkg/logger/logger.go`, `cmd/root.go` and the Cobra and survey command layer are left out, as are all printed progress messages.
- Text is ASCII only. Unicode case mapping, byte-versus-rune indexing in the snake-case loop and Unicode `strings.Title` are left out.
- GormLog.Trace: the elapsed time (nanoseconds) and the statement callback's SQL and row count are inputs. `time.Since` and the float millisecond formatting are left out, and log entries are values rather than calls into the global logger.
- Response.JSONFlat: JSON values are a small datatype, and `structToMap` is abstracted as `Payload` (nil, a decoded object, or unmappable). Fiber's context is replaced by the request id it reads.
- Entity.GenerateCode: Go's map iteration order is replaced by a fixed order. `GeneratedFilesDistinct` shows that the order cannot matter. A `Stat` error other than not-exist is treated as "exists". Without `--force` this matches the source, which skips such a target. Under `--force` the model overwrites it, while the source skips it either way (cmd/generate.go:129-132).
- Entity.ParseEntityFile: a field's type text, which the source slices from the file, is part of the field node.
- Parsers.ParseLogicMarkdownPrompt: the partial values the source's named results hold on an error are not modelled; an error is `Failure`.
- Merger.SmartReplaceOrAddMethods: a file that exists but cannot be read is parsed as empty text, as the source's ignored read error does.
- `buildLogicAdditionInfo` context gathering is left out: reading the entity, mapper and interface files for the prompt. Only its naming part is modelled.
- Merger.BuildLogicTargets: the go.mod lookup `getProjectModule` (internal/command/gen_logic.go:345-348) is not modelled. Its error is therefore not among the function's failures, and the module path is not part of the result. The internal/command definition of `getProjectModule` is not part of this model; the copy at cmd/generate.go:161-167 fails exactly when go.mod cannot be read.
- Strings.ScanLines: `bufio.Scanner`'s 64 KiB limit on a line is not modelled. The source does not check `scanner.Err()` (cmd/sync_router.go:165-169), so a handler file with a longer line stops being scanned there; if the pass changes anything, the file is written back truncated. The model scans every line.

## Findings

| source | as written | input that shows it | evidently intended | confidence | as-written member | corrected member |
|---|---|---|---|---|---|---|
| cmd/sync_router.go:237-242 | When any method gets a generated block, the file is written from `newLines`. Those lines hold the comment lines as they were read, so `@Router` lines updated or appended in place during the same pass are dropped. | A handler file with one method that has a stale `@Router` comment, and a later method with a route but no comment. The stale line is rewritten in `lines`, but `newLines` is written. | Write the edited lines, each preceded by its generated block. | medium, not executed | Routes.UpdateDropsEdits | Routes.UpdateFixedKeepsEdits |
