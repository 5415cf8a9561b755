# Sanshain: a verified model

Sanshain stores API contracts, cuts them into per-endpoint snippets, decides whether a new version
breaks old clients, and rebuilds documents and trees from the pieces. This project models the parts of
it that are hardest to get right and proves what they promise, for all inputs, all histories or all
runs. `dafny verify dfyconfig.toml` checks everything.

Documents are values (`Json.Value`): parsing and printing YAML is taken as the identity, an object is
a finite map, and where the service iterates over a map the model iterates in an arbitrary order, so
every result holds for every order. Results are `Option`s or verdicts; error wording is not modelled.
The repository behind the service is a set of tables, the directory and the configuration are
parameters.

| module | what it is about |
|---|---|
| `Json`, `References`, `Reachability`, `Text`, `Versions` | values and JSON pointers, chains of references, reachability along a successor function, strings, semantic versions |
| `SchemaRefs`, `AsyncConversion`, `AsyncExport`, `AsyncMeaning` | AsyncAPI payloads as OpenAPI component schemas, and the same from the document's side |
| `SchemaCompat`, `ComparisonEnding`, `OpenApiCompat`, `CheckOrder` | the OpenAPI compatibility check: what it decides, exactly when it ends, in whatever order it looks |
| `CompatMeaning`, `OpenApiSoundness`, `OpenApiReading` | that check in the documents' own terms, and what an accepted change means for clients that send and for clients that read |
| `OpenApiSplit` | cutting a document into snippets and merging them back |
| `PayloadCompat`, `MessageImpact` | message contracts, consumer expectations, and the impact of a changed document |
| `StructureHistory`, `SchemaTree`, `TreeLaws` | the structure view: "last changed" over a history, the tree of a recursive schema, and what a reader finds in it |
| `RoleAdministration`, `RoleMeaning` | grants, groups and accounts as a state machine, and what each step does to the tables |
| `GraphDiff`, `DanglingPins`, `DependencyGraph` | graph diff, memoised dangling check, the filtered dependency graph |
| `LikePattern`, `PathNormal` | search patterns and normalised paths |

Where an operation is computed by a function, the modules named after a meaning (`AsyncMeaning`,
`CompatMeaning`, `TreeLaws`, `RoleMeaning`) say what it computes a second time, in the terms and
spelling of the documents and tables alone, and prove the two the same.

## Where the code and its own documentation differ

The model follows the code. Each point is a lemma with an input that shows it, beside the exact
condition or the strongest sufficient one.

- `src/asyncapi.rs:705-706` promises an error whenever a name is used for two different schemas. Two
  snippets of different documents that both spell `X` as a reference to `Y` convert without error
  although their `Y` differ: the second `X` is a no-op and its `Y` is never read
  (`TwoDocumentsShareSilently`, and the run `InsertBothSilently`). A conversion without error is
  faithful if and only if the demands are functional (`FaithfulIffFunctional`); for snippets of one
  document the promise holds (`OneDocumentReportsEveryClash`).
- A reference below a `$ref` key that holds no string is neither carried over nor refused
  (`HiddenRefEscapes`, and the run `InsertHidden`); when all `$ref` keys of the snippets hold strings
  the output is closed (`ExportIsClosed`).
- `src/openapi.rs:820-823` says the comparison of an inline schema with a `$ref` ends because the
  inline side gets smaller. Two recursive documents with references at alternating depths make it go
  round for ever (`AlternatingRecursionNeverEnds`). It ends if and only if no pair of schemas it comes
  to leads back to itself (`EndsIffNoLoop`, `DocumentCheckEndsIff`, and `OrderEndsIff` for a given order
  of looking); one document without recursion is enough (`ComparisonEnds`).
- An array in a request that gains `items` is accepted (`ItemsMayBeAdded`). What could be sent stays
  valid if and only if the new items are a composition or untyped schema that admits every value
  (`GainedItems`); `RequestBodiesStayValid` carries that condition to every pair a value can meet.
- An array that loses its `items` is accepted, in a response too, and what was declared of them is gone
  (`ItemsMayGo`). Whatever undeprecated part of a response an old client reads stays declared with its
  type if and only if no such array, no composition facing a typed schema and no reference gone astray
  is on its way (`ResponsesStayReadable`).
- Narrowing an enum that only parameters use through a component is accepted
  (`ParameterEnumMayNarrow`), although `src/openapi.rs:1118-1119` promises that a kept parameter
  accepts what it accepted. It does when the components it leads to agree as requests
  (`ParameterValuesStayValid`).
- A contract change accepted as compatible can break a satisfied expectation when the middle contract
  leaves a type open (`SilentMiddleBreaks`); `ExpectationKeptIffBridged` says exactly when it does not.
- `normalize_path` is not idempotent when white space stands before the trailing slash
  (`SpaceBeforeSlashShows`); that is the only case (`NormalizeIdempotentIff`).
- `annotate` needs distinct sibling keys: of two siblings with one key the later speaks for both, and
  every tree it can answer dates the earlier one wrongly (`TwinsHideAChange`).

## Model

| member | source | states |
|---|---|---|
| `Json.ResolvePointer` | src/asyncapi.rs:613-622 | the loop over a pointer's segments finds exactly what the recursive reading of a local JSON pointer finds; other pointers find nothing |
| `Json.UnescapeEscape` | src/asyncapi.rs:617-619 | replacing `~1` and then `~0` undoes the escaping of section 3 of RFC 6901, for every key |
| `SchemaRefs.VisitedAmongAll` | src/asyncapi.rs:1004-1008 | the references the rewriting visits are all references, when every `$ref` key holds a string |
| `SchemaRefs.AllRefsAre` | src/openapi.rs:379-400 | the references of a value are exactly the `$ref` strings that stand somewhere in it, at the end of a path of keys and positions |
| `SchemaRefs.LastSegmentIs` | src/asyncapi.rs:842-845 | the last segment is what follows the last slash, unescaped |
| `SchemaRefs.RewriteRefIs` | src/asyncapi.rs:984-1001 | a reference into the component schemas stays, any other becomes one to the component named after its last segment |
| `SchemaRefs.KeptRefResolves` | src/asyncapi.rs:984-993 | a reference into the component schemas resolves to its whole component and then the rest of its keys |
| `SchemaRefs.HoistedRef` | src/asyncapi.rs:994-1001 | a hoisted reference is respelled to name exactly the component it is carried over under |
| `SchemaRefs.RewriteKeepsPaths` | src/asyncapi.rs:973-1018 | respelling leaves every path of keys in place, so sub-pointers still resolve |
| `SchemaRefs.VisitedOfRewritten` | src/asyncapi.rs:973-1018 | the references of a rewritten schema are the respelled references of its source, no more and no fewer |
| `AsyncConversion.RewriteRefs` | src/asyncapi.rs:973-1018 | succeeds exactly when every visited reference resolves; then the node is the respelled one and exactly the demands of its references are queued |
| `AsyncConversion.Converter.InsertSchema` | src/asyncapi.rs:944-969 | ends on recursive schemas (measure: names not yet taken); on success the table only grows, the schema stands under its name and every new entry has all its references met; on failure a reference does not resolve or a name is wanted for two schemas; a schema already there changes nothing |
| `AsyncConversion.EmittedRefsResolve` | src/asyncapi.rs:708-738 | every visited reference of every emitted schema, kept, sub-pointer or hoisted, resolves inside the emitted document |
| `AsyncConversion.EmittedHeader` | src/asyncapi.rs:722-735 | the answer is an OpenAPI 3.0.3 document without paths, titled after the service, around the schemas |
| `AsyncConversion.FaithfulIffFunctional` | src/asyncapi.rs:941-969 | a conversion without error holds, under every wanted name, every schema wanted there, if and only if no name is wanted for two schemas |
| `AsyncConversion.OneDocumentIsExact` | src/asyncapi.rs:904-969 | for snippets of one document the table is exactly the payload schemas and the component schemas reachable from them, each equal to its source |
| `AsyncConversion.OneDocumentReportsEveryClash` | src/asyncapi.rs:705-706 | for snippets of one document no conversion gets past a name that stands for two schemas |
| `AsyncConversion.HiddenRefEscapes` | src/asyncapi.rs:1004-1008 | counterexample: below a `$ref` key without a string a dangling reference stands in a converted table |
| `AsyncConversion.InsertHidden` | src/asyncapi.rs:944-970 | the run behind it: such a schema, whatever it refers to, is inserted without error and as it is |
| `AsyncConversion.TwoDocumentsShareSilently` | src/asyncapi.rs:953-955 | counterexample: two documents share a name for two schemas and the table still counts as converted |
| `AsyncConversion.InsertBothSilently` | src/asyncapi.rs:944-969 | the run behind it: both insertions succeed and the second document's schema is lost |
| `AsyncExport.Deref` | src/asyncapi.rs:848-858 | the bounded loop answers as the recursion that looks at up to 32 nodes |
| `AsyncExport.FollowIffLeads` | src/asyncapi.rs:848-858 | that finds a node if and only if a chain of at most 32 nodes, each a reference resolving to the next and the last none, leads to it |
| `AsyncExport.CycleIsRefused` | src/asyncapi.rs:850-857 | references that only lead to each other are refused, whatever the bound |
| `AsyncExport.MessagesWithin` | src/asyncapi.rs:751-834 | all references of a kept message, of either AsyncAPI version, stand in its snippet |
| `AsyncExport.AddMessagePayload` | src/asyncapi.rs:904-939 | a message without payload is passed over, a foreign `schemaFormat` or an unnamed inline payload is refused, any other payload stands in the table under its name |
| `AsyncExport.ToOpenApiSchemas` | src/asyncapi.rs:708-738 | an answer is converted from exactly the payloads of the kept messages; all its visited references resolve inside it, and all its references when the snippets' `$ref` keys hold strings; it is given whenever all messages can be read and nothing conflicts |
| `AsyncExport.ExportIsClosed` | src/asyncapi.rs:703-705 | for snippets whose `$ref` keys hold strings every reference anywhere in the emitted schemas resolves inside the emitted document |
| `AsyncMeaning.KeptMessagesAre` | src/asyncapi.rs:751-834 | the kept messages are exactly those written below `publish` or `subscribe` (2.x, `oneOf` variants included) or listed by an operation or else by its channel (3.x), at the node their references lead to within 32 hops, under the key of the reference, the channel or the id; there are none to tell exactly when a reference on the way leads nowhere |
| `AsyncMeaning.PayloadOfIs` | src/asyncapi.rs:881-939 | a message asks for its payload, taken out of a multi-format object: a component under its own name, anything else under the message key and `Payload`; it is refused exactly for a foreign format, a missing component or nothing to name it after |
| `AsyncMeaning.StartsAre` | src/asyncapi.rs:714-720 | a conversion starts from exactly what the kept messages ask for |
| `AsyncMeaning.ReadableIff` | src/asyncapi.rs:714-720 | nothing is refused exactly when no message is lost and every kept one can be carried |
| `AsyncMeaning.PayloadsAreEmitted` | src/asyncapi.rs:714-720 | from the document to the answer, for both versions: what a kept message asks for stands in the answer, respelled, under the name it asks for |
| `AsyncExport.InlinePayloadIsEmitted` | src/asyncapi.rs:760-792 | from the channel to the answer: an inline payload of a 2.x message stands there under `<MessageKey>Payload` |
| `SchemaCompat.FuelIrrelevant` | src/openapi.rs:727-857 | more fuel never changes a verdict |
| `SchemaCompat.KeptHereIff` | src/openapi.rs:734-783 | what breaks a pair of schemas, spelled out: types differ although neither side is a composition or untyped, a property goes that is not marked deprecated, and for requests an enum narrows or a field becomes required |
| `SchemaCompat.ComponentFound` | src/openapi.rs:1100-1106 | a reference finds a component exactly by its whole spelling and only if it is written in place |
| `SchemaCompat.AcceptsIffNoClash` | src/openapi.rs:727-857 | a finished comparison accepts if and only if nothing it puts side by side, at any depth and through any resolved reference, breaks in that sense, is referred to differently or leads nowhere |
| `SchemaCompat.ComparisonEnds` | src/openapi.rs:820-857 | with acyclic references in the old or the new document the comparison ends with a verdict that does not depend on the fuel; the unfolded depth of that side bounds it |
| `SchemaCompat.AcceptsItself` | src/openapi.rs:720-727 | every schema, recursive or not, is accepted against itself |
| `SchemaCompat.AlternatingRecursionNeverEnds` | src/openapi.rs:820-857 | counterexample: references at alternating depths keep the comparison going whatever the fuel |
| `ComparisonEnding.EndsIffNoLoop` | src/openapi.rs:820-857 | the comparison of any two schemas ends if and only if no pair it comes to leads back to itself |
| `ComparisonEnding.DocumentCheckEndsIff` | src/openapi.rs:625-656 | the check of two documents ends in every order of looking if and only if no pair of named schemas runs into a loop and, unless one of those clashes, no pair at the paths does |
| `CheckOrder.OrderEndsIff` | src/openapi.rs:630-653 | in a given order of looking the check ends if and only if whatever would go round for ever comes after a look that ends it |
| `CheckOrder.AnyOrderAgrees` | src/openapi.rs:630-653 | once the check of the documents has a verdict, looking one by one reaches the same one, whatever the order of the named schemas and of the paths |
| `OpenApiCompat.CollectRequestSchemas` | src/openapi.rs:658-705 | the loop ends on cyclic schemas and finds exactly the names reachable from the request bodies |
| `OpenApiCompat.CheckOpenApiCompatible` | src/openapi.rs:625-656 | the verdict is that of all comparisons, where exactly the named schemas reachable from the new request bodies are compared as requests |
| `CompatMeaning.ParameterMapIs` | src/openapi.rs:1052-1071 | a parameter is taken under its location and name, a header's in any case, and the last one known so in the path item's and then the operation's list counts |
| `CompatMeaning.AllStayIff` | src/openapi.rs:640-653 | the surface is kept exactly when every operation stays: gone only if deprecated, with all response codes, no parameter gone without notice or newly required |
| `CompatMeaning.FacesIff` | src/openapi.rs:625-656 | the comparisons are exactly the named schemas of one name and what bodies, responses and parameters of one operation hold, each resolved one level |
| `CompatMeaning.AcceptedIffNothingBreaks` | src/openapi.rs:625-656 | a finished check accepts two documents if and only if every operation stays and nothing below what they put side by side breaks |
| `CompatMeaning.ImpactIff` | src/openapi.rs:540-622 | major exactly when something breaks; otherwise minor exactly when a path, operation, response code, named schema or field is new |
| `CompatMeaning.RequestRootsAre` | src/openapi.rs:661-675 | the request schemas start from exactly those that a request body names, anywhere in it |
| `CompatMeaning.RequestStepsAre` | src/openapi.rs:678-693 | and go on to exactly those that an inline component mentions, as a subschema or anywhere else |
| `OpenApiCompat.DocumentCheckEnds` | src/openapi.rs:625-656 | with one acyclic document the whole check ends, with a fixed verdict |
| `OpenApiCompat.SelfHasNoImpact` | src/openapi.rs:540-559 | every document has no impact against itself, recursive schemas and overridden parameters included |
| `OpenApiCompat.AcceptedKeepsSurface` | src/openapi.rs:976-1000 | an accepted change keeps operations that were not deprecated with all response codes, drops only deprecated parameters and requires none that was not required, path parameters exempt |
| `OpenApiCompat.NoImpactKeepsSurface` | src/openapi.rs:540-622 | without impact both documents have the same operations, except deprecated ones that went, each with the same response codes |
| `OpenApiSoundness.AcceptedKeepsValid` | src/openapi.rs:727-892 | an accepted request comparison keeps every value the old schema admits, using declared properties, valid, through any depth and recursive references, if the pairs such a value can meet are typed on both sides, gain no excluding items and keep their references |
| `OpenApiSoundness.RequestBodiesStayValid` | src/openapi.rs:1018-1027 | if the documents are accepted, every old inline request body stays valid under the new schema of its media type, under that condition on the pairs below the body only |
| `OpenApiReading.ReadingKept` | src/openapi.rs:727-857 | of two schemas that agree, a path of undeprecated properties and items the old one declares is declared by the new one with the same type if and only if nothing the check passes over is in the way |
| `OpenApiReading.ResponsesStayReadable` | src/openapi.rs:1029-1042 | the same on documents: if they are accepted, for every part of a kept response an old client reads |
| `OpenApiReading.ItemsMayGo` | src/openapi.rs:795-814 | counterexample: an array that loses its items is accepted and declares nothing of them any more |
| `OpenApiSoundness.ParameterValuesStayValid` | src/openapi.rs:1118-1162 | the same for a kept parameter, with any closed set of components that covers its new schema and agrees as requests |
| `OpenApiSoundness.GainedItems` | src/openapi.rs:795-814 | an old array without items against a new one with items is accepted; all sendable values stay valid if and only if the items admit every value |
| `OpenApiSoundness.ItemsMayBeAdded` | src/openapi.rs:795-814 | counterexample: an array that gains `items` is accepted in a request |
| `OpenApiSoundness.ParameterEnumMayNarrow` | src/openapi.rs:658-674 | counterexample: an enum used by a parameter through a component may lose values |
| `OpenApiSplit.KeyRoundTrip` | src/openapi.rs:296-302 | splitting a component key at its first slash gives back the category and name it was made of |
| `OpenApiSplit.VisitAll` | src/openapi.rs:273-294 | the worklist ends on cyclic component graphs and visits exactly what the operation reaches |
| `OpenApiSplit.ExtractUsedComponents` | src/openapi.rs:273-368 | a snippet's components are exactly the reachable ones, with their definitions |
| `OpenApiSplit.UsedIffNeeded` | src/openapi.rs:235-368 | a snippet carries exactly the components reachable from the operation by references spelled `#/components/<category>/<name>` |
| `OpenApiSplit.SnippetIsExact` | src/openapi.rs:235-400 | every such reference of an operation or a carried component that resolves in the original resolves in the snippet to the same definition; every carried component is named that way by the operation or another carried one |
| `OpenApiSplit.SplitOpenApi` | src/openapi.rs:159-232 | one snippet per operation, each once, each the snippet of its place |
| `OpenApiSplit.MergeEndpoints` | src/openapi.rs:404-491 | the loop over the later snippets computes the merge of all; no snippets, no document |
| `OpenApiSplit.FirstComponentStays` | src/openapi.rs:452-473 | merging any snippets, a component is that of the first snippet to bring it; examples, links and callbacks only the first snippet brings |
| `OpenApiSplit.LastOperationWins` | src/openapi.rs:409-450 | an operation is that of the last snippet to give it; header and the rest are the first snippet's |
| `OpenApiSplit.FirstItemStays` | src/openapi.rs:419-450 | what a path item holds beside its operations is that of the first snippet with the path |
| `OpenApiSplit.SplitMergeRoundTrip` | src/openapi.rs:159-491 | snippets of all operations, in any order and with repetitions, merge to every original operation at its place and no other, and for schemas, responses, parameters, request bodies, headers and security schemes to exactly the components reachable from them |
| `OpenApiSplit.MergeOrderIrrelevant` | src/openapi.rs:404-491 | merged paths, header and carried components do not depend on the order of the snippets |
| `OpenApiSplit.SplitThenMerge` | src/openapi.rs:159-491 | the two operations run one after the other return the original operations and what they reach; nothing only for a document without operations |
| `PayloadCompat.ProvidesIffEverywhere` | src/asyncapi.rs:378-423 | the recursion finds no mismatch if and only if no path that both schemas have shows one |
| `PayloadCompat.ExpectationKeptIffBridged` | src/asyncapi.rs:628-680 | after a compatible contract change a satisfied expectation is still satisfied if and only if the outer schemas agree where the middle contract is silent |
| `PayloadCompat.CompatibleChangeKeepsExpectation` | src/asyncapi.rs:628-680 | a compatible change never breaks a satisfied expectation when the middle contract mediates |
| `PayloadCompat.UndeprecatedMediates` | src/asyncapi.rs:378-423 | without deprecation marks it is enough that the middle states `type`, `$ref` and `items` where both outer schemas do |
| `PayloadCompat.SilentMiddleBreaks` | src/asyncapi.rs:391-401 | counterexample: a middle contract without a type lets the type change in two accepted steps |
| `MessageImpact.CollectMessages` | src/asyncapi.rs:309-342 | the loops collect exactly the keys under which the document declares a message: channel and name for 3.x, channel, operation and name, title or position for 2.x, `oneOf` variants included, each with a message declared so |
| `MessageImpact.NoImpactIffSame` | src/asyncapi.rs:1024-1037 | whatever the parser, a text has no impact against another if and only if it is the same text and can be read |
| `MessageImpact.RewordedIsPatch` | src/asyncapi.rs:1033-1035 | another text of the same document is a patch |
| `MessageImpact.ImpactIff` | src/asyncapi.rs:1024-1037 | major exactly when a text cannot be read or under some key the message is gone without notice, its payload is gone, or a place of the payload is provided no longer; minor exactly when that holds the other way round only |
| `StructureHistory.Fingerprints` | src/structure.rs:1152-1163 | the recursion adds exactly the fingerprints of the node and everything below to the table |
| `StructureHistory.RecordChanges` | src/structure.rs:1136-1140 | the table is updated at exactly the paths that are new or carry other fields |
| `StructureHistory.SinceStep` | src/structure.rs:1131-1143 | after every release the `since` table holds the first version of each path's unbroken suffix |
| `StructureHistory.PrintsAreNodes` | src/structure.rs:1150-1163 | for distinct sibling keys without the separator the fingerprint table answers for every path of keys exactly as the tree does |
| `StructureHistory.Apply` | src/structure.rs:1166-1176 | `changed_in` is read from the table, `inside` is the newest change strictly below exactly when newer, everything else is unchanged, and the answer is the newest change of the subtree |
| `StructureHistory.SameBare` | src/structure.rs:1166-1176 | "otherwise unchanged" means equal keys and own fields, and the same of the children one by one |
| `StructureHistory.AnnotatedIsLastChanged` | src/structure.rs:1121-1126 | a node's `changed_in` is the first version of the longest unbroken suffix of the history in which its keys lead to the same own fields |
| `StructureHistory.Annotate` | src/structure.rs:1127-1148 | for every history the newest tree is annotated from the table of unbroken suffixes and otherwise unchanged; with distinct sibling keys every node carries the version its keys and own fields have been unbroken since |
| `StructureHistory.TwinsHideAChange` | src/structure.rs:1127-1163 | counterexample: with a repeated sibling key every tree `annotate` can answer carries the old version on a node that changed in the new one |
| `SchemaTree.Walker.SchemaNode` | src/structure.rs:684-815 | the stack is as on entry and duplicate-free, the walk ends, the node has at most two levels per step of depth, no schema is unfolded inside itself, it is a cycle leaf exactly when its schema is open above, and it shows the whole schema everywhere else |
| `SchemaTree.Walker.CollectMembers` | src/structure.rs:844-906 | the members and required names found are exactly those of the `allOf` parts in order and then the schema's own, later declarations winning |
| `SchemaTree.PartsContribute` | src/structure.rs:855-893 | every part that resolves and is not open contributes all its members and required names |
| `SchemaTree.Walker.VariantsNodes` | src/structure.rs:908-941 | `oneOf` and `anyOf` become one node over all variants, in order, each keyed by schema name, title or position |
| `SchemaTree.BodyNode` | src/structure.rs:684-941 | for every document, cyclic or not: height at most twice the depth limit plus three, no schema inside itself, everything that is not cut is shown, and every child is accounted for by its schema |
| `TreeLaws.FollowIff` | src/structure.rs:270-287 | a schema is resolved exactly when a chain of at most 32 nodes leads to it, under the last segment of the chain's last reference, and under no name when there is none |
| `TreeLaws.RecursivePropertyIsCut` | src/structure.rs:710-718 | below the node of a schema, a property that refers to that schema again is a cycle leaf without children |
| `TreeLaws.RecursivePartIsCut` | src/structure.rs:857-864 | a part of an `allOf` that refers to a schema open above is a cycle leaf under its name |
| `TreeLaws.PropertyIsShown` | src/structure.rs:819-841 | every property is a child under its name, marked required exactly when the schema lists it, and a cycle exactly when its schema is open above |
| `TreeLaws.PartIsShown` | src/structure.rs:855-882 | every property of a part written in place is a child |
| `TreeLaws.SinglePartIsShown` | src/structure.rs:746-771 | a single part without properties beside it reads as that part |
| `TreeLaws.JsonTypeIff` | src/structure.rs:945-962 | the type is the string, or the first string of the list that is not `null` |
| `TreeLaws.AnyKeyIsShown` | src/structure.rs:773-791 | an object's schema for further keys is a child |
| `TreeLaws.ItemsAreShown` | src/structure.rs:792-801 | an array's items are a child |
| `TreeLaws.VariantsAreShown` | src/structure.rs:908-941 | the variants are shown in order below one child, keyed by schema name, title or position |
| `TreeLaws.NothingElseIsShown` | src/structure.rs:684-815 | apart from parts of an `allOf` there is no other child |
| `TreeLaws.NoSchemaBelowItself` | src/structure.rs:710-722 | whatever node shows a named schema, nothing below it shows that schema again |
| `RoleAdministration.RolesFromDirectory` | src/application/directory_roles.rs:118-139 | the nested loops find exactly the roles of the directory groups named, each once |
| `RoleAdministration.Store.SetRoles` | src/application/authz.rs:250-277 | deleting and re-inserting row by row is the set-group-roles step, guarded by the roles that differ |
| `RoleAdministration.Store.RemoveGroup` | src/application/authz.rs:234-244 | removing members, grants and group one after the other is the delete-group step, whose effect on the tables `DeleteGroupMeans` states |
| `RoleAdministration.Store.RemoveUser` | src/application/auth_service.rs:309-318 | removing grants, memberships and account is the delete-user step, guarded as `admin` for a root name |
| `RoleAdministration.Store.Handle` | src/application/authz.rs:77-354 | every request is its step, whose effect `RoleMeaning` states; the rows stay consistent, a refusal changes nothing, and without privilege nobody's guarded roles move |
| `RoleAdministration.Store.Serve` | src/application/authz.rs:17-354 | requests served one after the other, each caller resolved as the tables stand by then: if no caller starts with privilege, no guarded role moves in the whole run |
| `RoleAdministration.StepKeepsValid` | src/application/authz.rs:77-354 | no step leaves a row that refers to a missing user or group |
| `RoleAdministration.UnprivilegedStep` | src/application/authz.rs:62-75 | a step by an actor who is neither root nor admin moves nobody's guarded roles, direct, by group or by directory group; no holder and no root name disappears |
| `RoleAdministration.RunsKeepGuardedRoles` | src/application/authz.rs:17-354 | the same over every run of requests by callers who start without privilege, resolved afresh at each request; none of them ever gains privilege |
| `RoleAdministration.GrantTakesEffect` | src/application/authz.rs:53-87 | a grant succeeds exactly for whom the guard lets, adds exactly that role and moves nobody else's |
| `RoleMeaning.AllowedIff` | src/application/authz.rs:62-75 | touching `admin` or `releaser` takes root or admin, nothing else does |
| `RoleMeaning.ActorHolds` | src/application/authz.rs:17-51 | a caller holds the known roles stored for the account, directly or by a group, and those of the directory groups the directory lists; root by name |
| `RoleMeaning.GrantMeans` | src/application/authz.rs:77-87 | when a grant is let through, and that it adds exactly its row |
| `RoleMeaning.RevokeMeans` | src/application/authz.rs:89-98 | when a revocation is let through, and that it removes exactly its row |
| `RoleMeaning.CreateMeans` | src/application/authz.rs:209-215 | a name that is not blank gives a native group of the trimmed name, the existing one if there is; all else stays |
| `RoleMeaning.AddDirectoryMeans` | src/application/authz.rs:186-202 | a DN that is not blank gives a directory group of that name up to case, the existing one if there is; all else stays |
| `RoleMeaning.RenameMeans` | src/application/authz.rs:217-232 | renaming changes the name of that native group and nothing else; blank and taken names are refused |
| `RoleMeaning.DeleteGroupMeans` | src/application/authz.rs:234-244 | deleting takes the group with its grants and memberships and leaves everything else; guarded groups take privilege |
| `RoleMeaning.SetGroupRolesMeans` | src/application/authz.rs:250-277 | exactly the new grants and those of the other groups; privilege where `admin` or `releaser` comes or goes |
| `RoleMeaning.AddMemberMeans` | src/application/authz.rs:331-341 | adds exactly that membership of an existing user in a native group |
| `RoleMeaning.RemoveMemberMeans` | src/application/authz.rs:343-354 | removes exactly that membership |
| `RoleMeaning.DeleteUserMeans` | src/application/authz.rs:303-329 | takes the account with its grants and memberships and nothing else; privilege for root names and holders of guarded roles |
| `RoleMeaning.RegisterMeans` | src/application/auth_service.rs:283-303 | adds exactly one account of that name, never a root name or one that is taken |
| `RoleMeaning.AdminsAndReleasersStay` | src/application/authz.rs:17-354 | over every run by callers who start neither root nor admin nobody who stays gains or loses `admin` or `releaser`, and no holder and no root account goes |
| `RoleMeaning.DirectoryConfersTheSame` | src/application/directory_roles.rs:118-139 | over such a run no list of directory groups gains or loses either role |
| `RoleAdministration.RevokeTakesEffect` | src/application/authz.rs:89-98 | a revoked role is gone unless one of the user's groups still confers it; nothing else moves |
| `RoleAdministration.MembershipConfersGroupRoles` | src/application/authz.rs:331-341 | joining a native group confers exactly its roles |
| `RoleAdministration.LeavingDropsGroupRoles` | src/application/authz.rs:343-354 | leaving a group leaves exactly the direct roles and those of the other groups |
| `RoleAdministration.RunsKeepNamesUnique` | src/application/authz.rs:186-232 | over every run, by whomever, no two groups of one source share a name |
| `RoleAdministration.GroupRolesReplaced` | src/application/authz.rs:246-277 | replacing a group's roles leaves exactly the new ones, other groups keep theirs |
| `RoleAdministration.DeletionIsClean` | src/application/authz.rs:297-329 | a deleted user leaves no rows, everybody else keeps all roles |
| `GraphDiff.DiffGraphs` | src/application/branch_service.rs:388-491 | added, removed and changed pins are exactly those of the two key-to-pin maps, added and removed without repeats, changed without repeats where no two keys show alike; services and periphery are the set differences |
| `GraphDiff.ByKeyIs` | src/application/branch_service.rs:424-427 | of several pins with one key the last is kept |
| `GraphDiff.NormalizedTellApart` | src/application/branch_service.rs:409-415 | pins whose normalised path is that of their path never show alike |
| `GraphDiff.DiffIsPatch` | src/application/branch_service.rs:425-451 | removing, changing and adding turns the left key-to-version map into the right one, exactly |
| `GraphDiff.PartsDisjoint` | src/application/branch_service.rs:428-451 | the three parts speak about different keys, and are all empty if and only if the versions agree |
| `GraphDiff.SwappedDiff` | src/application/branch_service.rs:388-491 | swapping the sides swaps added and removed and the versions of every change |
| `GraphDiff.PeripheryIsPatch` | src/application/branch_service.rs:396-407 | the periphery parts are disjoint and patch the left set into the right one |
| `DanglingPins.MarkDangling` | src/application/branch_service.rs:263-294 | every pin gets the flag of a direct lookup and keeps its other fields; the store is asked exactly once per service named and once per version of a known service |
| `DanglingPins.LookUpVersion` | src/application/branch_service.rs:278-288 | a memoised answer is the store's answer, and the memo holds exactly what was asked |
| `DependencyGraph.HighestVersions` | src/application/mcp_service.rs:653-670 | per producer and type, the newest version offered and the newest GA version offered |
| `DependencyGraph.AllEdges` | src/application/mcp_service.rs:672-726 | the edges are exactly those of the dependencies of the asked type, the owned subscriptions and the periphery; outdated means a newer version is offered, superseded that a newer GA is |
| `DependencyGraph.EdgesAreHonest` | src/application/mcp_service.rs:687-690 | superseded implies outdated on every edge |
| `DependencyGraph.GetGraph` | src/application/mcp_service.rs:638-812 | closed under every filter: edges join returned nodes, a node requires exactly the targets of its edges, kinds and provided versions are right; the nodes are exactly the ends of edges and the producers of the asked type; a focus is refused exactly when it is none of those, and otherwise shows its edges and neighbours |
| `Versions.OlderMeans` | src/domain/models.rs:177-182 | a higher major is newer whatever follows, then a higher minor, then a higher patch; versions are totally ordered |
| `LikePattern.BuildPattern` | src/infrastructure/mod.rs:20-34 | the loop builds the character-wise translation between two `%` |
| `LikePattern.PatternMeansSubstring` | src/infrastructure/mod.rs:16-34 | whatever lower-casing does, `LIKE` accepts a text on the pattern if and only if some substring matches the trimmed, lower-cased query with `*` as the only wildcard |
| `LikePattern.PatternEscapesComplete` | src/infrastructure/mod.rs:24-27 | every escape of the pattern is followed by the metacharacter it escapes; none dangles |
| `PathNormal.CollapseSlashes` | src/openapi.rs:69-84 | the scan with its flag drops exactly the repeated slashes |
| `PathNormal.BlankPathVariables` | src/openapi.rs:86-106 | the scan blanks exactly the non-empty closed variables |
| `PathNormal.NormalizePath` | src/openapi.rs:51-67 | trim, collapse, blank, drop one trailing slash |
| `PathNormal.NormalizeIdempotentIff` | src/openapi.rs:51-67 | normalising twice is normalising once if and only if no white space stands before the trailing slash |
| `PathNormal.SpaceBeforeSlashShows` | src/openapi.rs:51-67 | counterexample: a letter, a blank and a slash lose the slash first and the blank second |
| `PathNormal.NormalFormOfTemplate` | src/openapi.rs:51-67 | for templates of brace-free literals and non-empty variables the result depends on the literals only |
| `PathNormal.RepeatedSlash` | src/openapi.rs:69-84 | a repeated slash makes no difference, wherever it stands |
| `PathNormal.TrailingSlash` | src/openapi.rs:61-64 | a trailing slash makes no difference after anything but white space or nothing |

## Left out

- OpenApiSoundness.RequestBodiesStayValid: says nothing of a body where a value can meet a composition or an untyped schema, since the check does not compare those; `nullable`, numeric and length constraints are not read.
- OpenApiSoundness.ParameterValuesStayValid: one direction only. That the covering components agree as requests is sufficient; two components that differ in a breaking way may still admit the same values.
- SchemaCompat.ComparisonEnds: the recursion is modelled with fuel; `Unfinished` means that some order of looking at the subschemas goes deeper than the fuel, and running out of stack is not modelled otherwise.
- OpenApiCompat.CheckOpenApiCompatible: `Unfinished` may stand where one particular order of looking is rejected first (`CheckOrder` treats a given order); header names are lower-cased as ASCII.
- ComparisonEnding.DocumentCheckEndsIff: about all orders of looking at once; for one order see `CheckOrder.OrderEndsIff`.
- OpenApiSplit.SplitMergeRoundTrip: not for `examples`, `links` and `callbacks`, which the merge takes from the first snippet only, and not for fields of a path item beside its operations, which the split does not carry.
- MessageImpact.NoImpactIffSame: where several messages share a key, which one is kept is left open.
- StructureHistory.Annotate: two nodes have the same own fields when their serialised text is the same; that the serialisation tells different fields apart is assumed.
- SchemaTree.Walker.SchemaNode: descriptions, formats, constraints, examples, enum values and type labels of a node are display fields and not modelled; nor are operation, parameter and message nodes around a body.
- RoleAdministration.RunsKeepGuardedRoles: maintainer scopes over Producers, approval and passwords of accounts, and a directory that changes during the run; registration only creates the account.
- DependencyGraph.GetGraph: when a version was last provided, and the resolution of the scope.
- GraphDiff.DiffGraphs: the sorting of the result for display, and resolving a selector to its pins.
- Failures of the repository: every lookup and write succeeds.
- Proto contracts (`src/proto.rs`), Backstage export, descriptions, dashboards, the catalog: mostly field reading, or driven by regular expressions.
- HTTP routing, sessions, tokens, password hashing, LDAP and OIDC, webhooks, metrics and audit writes: input and output.
- AsyncAPI splitting and the extraction of PUB and SUB messages: the same lookups as the conversion, without its closure.
