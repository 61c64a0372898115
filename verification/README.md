# Wolkvorm: verified models of its stateful and string-handling cores

Wolkvorm provisions cloud resources from form input. This project states and proves in Dafny what
its most intricate parts promise:

- **Lambda packaging** (`FileTree`, `TreeLaws`, `WalkOrder`, `Paths`, `PathLaws`, `ContentFilter`,
  `BuildPlan`, `ArchiveNames`, `PlanCompiler`, `BatchLaws`, `PackagingLaws`, `ClaimLaws`,
  `ContentHash`): packaging claims are compiled to a plan of actions and the plan is executed with a
  threaded working directory and filter. Executing the compiled plan means what interpreting the
  claims means; the content hash reads what the archive holds, up to one stated exception; the order
  in which the system lists directories never shows.
- **Dependency graph** (`DependencyGraph`, `EdgeLaws`, `GraphLayout`): edges are exact, the
  blast-radius search equals reachability on cyclic graphs, and the shelf layout never overlaps.
- **HCL generation** (`HclPrinter`, `HclReader`, `HclRoundTrip`, `BodyLaws`, `PathTemplate`,
  `TemplateOrder`, `ListCodec`): an independent reader recovers exactly what the printer was given,
  block grouping and heredocs included; path templates resolve the same way for every map order
  unless values hold placeholders of other keys; the comma list the user interface keeps and the list
  the generator prints are the same selection, up to one stated exception.
- **Runs, resources and approvals** (`ResourceNames`, `Lifecycle`, `Server`, `RunLaws`,
  `ResourceLaws`, `ApprovalLaws`, `RecordEvents`, `RowEvents`, `ApprovalEvents`, `Scenarios`): a class
  whose handlers update tables and memory step by step is proved to follow a state machine; the
  machine's invariants, and what the tables hold as told by the events alone, are proved over every
  run, crashes and restarts included.
- **Drift sweeps and costs** (`DriftSweep`, `CostSummary`): mutual exclusion over all interleavings
  of any number of callers, and conservation of cost totals.

`Wrappers`, `Text`, `Values` and `Ordering` hold shared options, string functions, input values and
sorting.

Code that changes state in the original (loops, classes, handlers) is written as methods with
invariants, each proved against a function of its inputs or old state; the promises are then lemmas
about those functions. Iteration orders that Go leaves open, clocks, shell lines, regular
expressions, table listings and check results are parameters, so every statement holds for all of
them.

## Main results

- `PlanCompiler.BatchingPreservesMeaning`, `PlanPreservesMeaning`: compiling and executing packaging
  claims means what interpreting them means, on every run.
- `BatchLaws.BatchingIsHarmlessExactly`: for which command lists that is what running each line in a
  shell of its own means.
- `PackagingLaws.ZipCommandMeans`, `ClaimLaws.CommandClaimMeans`, `HashExact`: what commands and claims
  pack and what is hashed, from their text and the file system alone.
- `ContentHash.HashCoversZip`, `HashEqualsZipExactly`, `ArchiveIgnoresListingOrder`: what the hash
  reads against what the archive holds, and independence of listing order.
- `ContentFilter.FilterIsPerEntry`, `ArchiveNames.NamesNeverCollide`: which locations are packed, and
  that none hides another.
- `DependencyGraph.GetBlastRadius`, `EdgeLaws.EdgesFollowReferences`: reachability on cyclic graphs, and
  where its edges lead.
- `GraphLayout.LayOut`: nothing overlaps.
- `BodyLaws.BodyExact`, `HclRoundTrip.HeredocReadsBackExactly`, `QuotedExact`: the printed body reads
  back as what schema and inputs say.
- `PathTemplate.ResolutionIsSimultaneous`, `TemplateOrder.OrderFreeExactly`: when substitution is
  confluent.
- `ListCodec.TextHoldsSelection`, `ListRecoveredExactly`: one selection in text and in the list.
- `ResourceLaws.OneLiveRowAlways`, `DestroyClearsKeyExactly`, `RestartRevivesKeyExactly`,
  `HandlersAgreeOnNamedRequests`, `RowEvents.RowsAsTheEventSays`: tracked resources over every run.
- `RunLaws.RecordsOkAlways`, `RecordEvents.RecordAsEnded`: execution records over every run and crash.
- `ApprovalLaws.RunsAreAccountedFor`, `ApprovalEvents.ApprovalAsDecided`, `WaitingAsDecided`: every run
  has its own origin, and every approval is what was decided.
- `DriftSweep.SweepsExcludeEachOther`: mutual exclusion in every interleaving.
- `CostSummary.SummaryConserves`: the breakdowns of a summary add up to its total.

## Where the code does not do what one might expect

- A batch of shell lines is one script, so a failing line inside it goes unnoticed when a later line
  succeeds (`PlanCompiler.FailureInsideBatchIsLost`). No shell and no state tells the plan from running
  each line in a shell of its own exactly when no shell command has several lines and no two stand
  next to each other (`BatchLaws.BatchingIsHarmlessExactly`).
- `execute` ignores the filter of a single-file source while the hash honours it:
  `ContentHash.HashEqualsZipExactly` gives the exact condition, `SomeFileEscapesHash` a claim.
- A multi-select inside a nested block with one id chosen is printed as a quoted string, not as a
  list, because `isListField` is asked of top-level fields only: `ListCodec.ListRecoveredExactly`
  gives the exact condition, `OneIdInBlockIsNoList` a field.
- A destroy with a resource id does not look at the state key:
  `ResourceLaws.DestroyClearsKeyExactly` gives the exact condition, `Scenarios.DestroyByIdMissesKey`
  the runs.
- The comment on `cleanupStaleRecords` speaks of the runs just interrupted, but the code recovers
  every interrupted apply in the table, earlier sessions included, so a destroyed key can come back:
  `ResourceLaws.RestartRevivesKeyExactly` gives the exact condition, `Scenarios.DestroyedKeyReturns`
  the runs.
- The destroy fallback of the HTTP handler can mark an unnamed row the WebSocket handler leaves:
  `ResourceLaws.HandlersAgreeOnNamedRequests` gives the exact condition,
  `Scenarios.HandlersCanDisagree` the runs.
- The note appended to the logs of an interrupted run starts with a backslash and an `n`, because
  the SQL text is a Go raw string; the model keeps these two characters.
- Values are printed without escaping, so a quoted value with a quote, backslash, newline or template
  start does not read back as itself (`HclRoundTrip.QuotedExact`, `BackslashReadsAsEscape`), and a
  heredoc whose lines all start with a space loses that margin (`HclRoundTrip.HeredocExact`; a
  leading tab is not a space there, as the flush rule speaks of spaces).
- Replacing placeholders one key after the other can depend on the iteration order once values hold
  placeholders. It does, on some template, exactly when the value of some key other than `env` holds
  the placeholder of another key whose value is not that same text
  (`TemplateOrder.OrderFreeExactly`, `BracesMakeOrderMatter`).

## Model

| member | source | states |
|---|---|---|
| FileTree.EmitDirContent | modules/aws/lambda/package.py:228-236 | walking a directory yields all its files by name, then every child directory by name followed by what is below it; nothing for a missing base |
| TreeLaws.WalkIsExact | modules/aws/lambda/package.py:228-236 | every location below the directory is yielded exactly once, with its kind, and nothing else is |
| TreeLaws.ListingOrderNeverShows | modules/aws/lambda/package.py:228-236 | permuting the listing of any directories at any depth leaves the walk unchanged, entry by entry |
| WalkOrder.WalkIsOrdered | modules/aws/lambda/package.py:228-236 | in every directory files come first, then directories, each before what is below it, and names of a kind ascend |
| TreeLaws.SameLookup | modules/aws/lambda/package.py:281-302 | nor does it change what is found at a location, file contents included |
| Paths.NormpathLeads | modules/aws/lambda/package.py:860-887 | a normalised path argument leads where following the written one component by component leads, from the root or from any working directory |
| ContentFilter.Apply | modules/aws/lambda/package.py:617-628 | the last matching rule decides: a path is dropped exactly if some excluding rule matches and no later including rule does; kept by default |
| ClaimLaws.PatternsAreRules | modules/aws/lambda/package.py:585-595 | one rule per pattern, excluding exactly if it starts with `!`, which is not part of the expression |
| PathLaws.EntryTextExact | modules/aws/lambda/package.py:607-615 | a file is matched by the text of its normalised path under the prefix, a directory by a text that leads to its path and ends in one slash |
| ClaimLaws.SingleFileTextExact | modules/aws/lambda/package.py:639-644 | a single file is matched by its name under the normalised prefix; only the prefix `.` shows |
| ContentFilter.FilterSource | modules/aws/lambda/package.py:601-660 | the stream of visits filtered step by step is the kept subsequence of the plain walk; a single file is yielded if its own name is kept |
| ContentFilter.FilterIsPerEntry | modules/aws/lambda/package.py:630-660 | a location survives exactly if it exists and its own text is kept; excluding a directory does not prune what is below it |
| ContentFilter.NoRulesKeepAll | modules/aws/lambda/package.py:617-660 | an empty rule list gives the unfiltered walk |
| ContentFilter.FilterIgnoresListingOrder | modules/aws/lambda/package.py:646-660 | listing order does not show through the filter |
| ContentFilter.ListFiles | modules/aws/lambda/package.py:135-157 | the paths of all files below, sorted by the text of the relative path |
| ContentFilter.ListFilesIsExact | modules/aws/lambda/package.py:135-157 | the result is sorted, holds exactly the files below the directory, and does not depend on how directories are listed |
| BuildPlan.ZipWriteStream.WriteFile | modules/aws/lambda/package.py:402-417 | one entry is appended under its archive name, the prefix joined, normalised and made relative, a directory's with a slash; the earlier entries stay |
| ArchiveNames.NamesNeverCollide | modules/aws/lambda/package.py:402-417 | no two entries that one zip action makes of a directory have the same archive name, with or without a filter and under any prefix |
| BuildPlan.ZipWriteStream.WriteAll | modules/aws/lambda/package.py:374-392 | one entry per walked path is appended, in walk order, with the bytes found there |
| BuildPlan.ExecuteZip | modules/aws/lambda/package.py:1002-1027 | a directory appends its filtered content, a single file appends itself whatever the filter; a missing source is an error and appends nothing |
| BuildPlan.Execute | modules/aws/lambda/package.py:981-1139 | the loop over steps and zip, shell, directory and filter actions, with its working directory, filter, file system and stream in variables, computes the meaning of the plan, failures included |
| PlanCompiler.CommandsStep | modules/aws/lambda/package.py:811-856 | the emitted actions are the working directory and then the compiled commands, and one source is recorded for every zip action when the claim has a path; a malformed zip call is the error. What compiled commands and sources are is said by the four rows below |
| PackagingLaws.ZipCommandMeans | modules/aws/lambda/package.py:820-851 | executing the plan of one `:zip` command, from any state: three words pack what the second leads to from the working directory under the third as prefix, trimmed; two words without prefix; one word the working directory; with the fixed timestamp, the kept locations each once in walk order, with their bytes and names; any other number of words is a malformed call |
| PackagingLaws.ShellCommandMeans | modules/aws/lambda/package.py:852-856 | executing the plan of any other single command runs its lines in one shell, whose last exit status decides |
| PackagingLaws.PlanCutAtZip | modules/aws/lambda/package.py:811-856 | a command list cut before a `:zip` is done one part after the other |
| PackagingLaws.NeighboursJoin | modules/aws/lambda/package.py:811-856 | two neighbouring shell commands are one command of both their lines |
| ClaimLaws.CompilesExactly | modules/aws/lambda/package.py:820-851 | a command list compiles if and only if every `:zip` in it has one to three words |
| ClaimLaws.PathClaimMeans | modules/aws/lambda/package.py:859-883 | a claim that is a path packs what is there unfiltered under no prefix and records it; a path that is not there is the error |
| ClaimLaws.PackingClaimMeans | modules/aws/lambda/package.py:885-959 | a claim with a path and no commands packs it under its prefix through its patterns and records path, patterns and prefix |
| ClaimLaws.CommandClaimMeans | modules/aws/lambda/package.py:811-893 | a claim with commands does them from its path, or the base without one, under its patterns, and records its path once per `:zip`, with the trimmed third word as prefix |
| ClaimLaws.ClaimsInOrder | modules/aws/lambda/package.py:858-979 | claims are compiled and executed one after the other, their sources recorded in order; the first failure decides |
| PlanCompiler.BatchingPreservesMeaning | modules/aws/lambda/package.py:811-856 | executing the compiled actions equals interpreting the commands one by one, from any state and for any shell, failing runs included: same working directory, file system and archive, or same error |
| PlanCompiler.StrictRunsAgree | modules/aws/lambda/package.py:1084-1129 | unless a line fails in its own shell, the compiled plan gives what running each line in a shell of its own gives: the same success, or the same malformed or missing zip |
| BatchLaws.BatchingIsHarmlessExactly | modules/aws/lambda/package.py:811-856 | for every command list with a plan, executing the plan gives what running each line in a shell of its own gives, in every shell and from every state, if and only if no shell command has several lines and no two stand next to each other |
| BatchLaws.SomeShellDisagrees | modules/aws/lambda/package.py:1084-1129 | for every other list and every state in which the sources of its zips are there, some shell tells the two apart |
| PlanCompiler.FailureInsideBatchIsLost | modules/aws/lambda/package.py:1100-1115 | which happens for any shell: a failing line followed in its batch by one that leaves status zero goes unnoticed |
| PlanCompiler.PlanClaim | modules/aws/lambda/package.py:858-961 | one claim gives its actions and its hashed sources; a missing path of a plain claim is the error |
| PlanCompiler.BuildPlanManager.Plan | modules/aws/lambda/package.py:699-979 | the plan is one step per claim that has actions, in claim order, and the sources of this call are appended to those recorded before; a failure records nothing |
| PlanCompiler.BuildPlanManager.Record | modules/aws/lambda/package.py:970-977 | the recorded sources grow by the given ones, and stay absent when there are none |
| PlanCompiler.PlanPreservesMeaning | modules/aws/lambda/package.py:858-1139 | executing the plan of any claims does to file system and archive what the claims mean one after the other; no step leaks its working directory or filter into the next |
| ContentHash.HashSource | modules/aws/lambda/package.py:251-302 | the updates one recorded source feeds to the hash, path texts as written and file contents, with or without patterns, for a directory, a file or nothing |
| ContentHash.GenerateContentHash | modules/aws/lambda/package.py:239-277 | the updates of all sources in order |
| ClaimLaws.HashExact | modules/aws/lambda/package.py:251-302 | for a recorded path: nothing, one file or one update per kept location in walk order, or per file sorted by path without patterns; every path text leads to the location, relative exactly if the recorded path is, and every file comes with its bytes |
| ContentHash.HashCoversZip | modules/aws/lambda/package.py:239-277 | for claims without commands, the files and bytes packed by executing the plan are those the hash reads plus exactly the single files their own patterns reject |
| ContentHash.HashEqualsZipExactly | modules/aws/lambda/package.py:1019-1027 | hence hash and zip hold the same files if and only if no source is a single file rejected by its own patterns |
| ContentHash.RejectedFileEscapesHash | modules/aws/lambda/package.py:1019-1027 | which happens for any single file and patterns that reject it: the plan packs the file and the hash reads nothing |
| ContentHash.SomeFileEscapesHash | modules/aws/lambda/package.py:1019-1027 | a claim for which it does: one file under the pattern that names and excludes it |
| ContentHash.HashIgnoresListingOrder | modules/aws/lambda/package.py:239-277 | listing order changes neither one update nor the order of the updates |
| ContentHash.ZipIgnoresListingOrder | modules/aws/lambda/package.py:1002-1027 | nor what a zip action appends, entry by entry, or whether it fails |
| ContentHash.ArchiveIgnoresListingOrder | modules/aws/lambda/package.py:858-1027 | for claims without commands listing order shows neither in the plan, nor in the recorded sources, nor anywhere in the archive of the executed plan |
| DependencyGraph.BlastSearch.FindDependents | frontend/src/pages/GraphPage.js:133-145 | the recursive search ends on cyclic graphs too, adds only nodes that reach the goal, and leaves every finished node with all its dependents in the set |
| DependencyGraph.GetBlastRadius | frontend/src/pages/GraphPage.js:133-145 | the result is exactly the set of nodes with a walk of one edge or more to the node, cycles included |
| DependencyGraph.IndexRow | backend/handler_graph.go:102-111 | the values a row is entered under: its name and the identifying inputs it has |
| DependencyGraph.IndexIsLastWriter | backend/handler_graph.go:84-112 | the index holds exactly the values that name some row, and the last row so named wins |
| DependencyGraph.FindTarget | backend/handler_graph.go:128-148 | a reference leads to the row indexed under it unless that is the referring row; else to the first row of the expected type and environment; else nowhere |
| DependencyGraph.BuildGraph | backend/handler_graph.go:72-161 | nodes are the live rows in order; edges are those of every row, reference field and reference |
| DependencyGraph.EdgesAreExact | backend/handler_graph.go:114-150 | an edge is drawn if and only if a live row holds a reference to its target in a reference field |
| EdgeLaws.EdgesFollowReferences | backend/handler_graph.go:114-150 | from the rows alone: an edge is drawn if and only if a live row holds a reference in a reference field that leads there: to the last live row that goes by it, or, when that is the row itself or there is none, to the first other live row of the expected type in the same environment |
| EdgeLaws.NodesAreLiveRows | backend/handler_graph.go:86-100 | the nodes are the rows that are not destroyed |
| DependencyGraph.EdgesJoinLiveNodes | backend/handler_graph.go:128-148 | no edge joins a row to itself and both ends are nodes |
| DependencyGraph.BlastRadiusStaysInGraph | backend/handler_graph.go:114-161 | in a graph built from any rows everything that reaches a node is itself a node |
| DependencyGraph.FieldOrderIsIrrelevant | backend/handler_graph.go:120-150 | the iteration order of the map of reference fields changes no blast radius |
| GraphLayout.GroupNodes | frontend/src/pages/GraphPage.js:69-74 | groups partition the nodes, in node order, and none is empty |
| GraphLayout.GroupsHaveOnePlaceEach | frontend/src/pages/GraphPage.js:69-74 | with distinct ids every node has one group and one index in it |
| GraphLayout.PackGroups | frontend/src/pages/GraphPage.js:79-123 | any two boxes are a gap apart horizontally or vertically, every box fits into the drawing with a gap on each side, every node gets the centre of its grid cell; a box that fits stands beside the one before, any other starts a shelf right below the tallest box of the last; the drawing ends a gap below the last shelf |
| GraphLayout.CentreInBox | frontend/src/pages/GraphPage.js:109-116 | a node stands inside its box, clear of padding and header |
| GraphLayout.GridExact | frontend/src/pages/GraphPage.js:109-116 | nodes step a column to the right, or after three a row down to the left, and the box ends where its last column and last row do |
| GraphLayout.CentresAreApart | frontend/src/pages/GraphPage.js:109-116 | two distinct nodes of one box or of two stand at least 80 apart |
| GraphLayout.LayOut | frontend/src/pages/GraphPage.js:68-131 | all of this for any nodes with distinct ids and any order of the groups |
| HclPrinter.FormatParts | backend/hcl_generator.go:128-136 | the list text holds the trimmed parts, quoted, in order, empty ones kept or dropped as asked |
| HclPrinter.FormatHeredoc | backend/hcl_generator.go:291-298 | the value line by line, indented, between the opening line and the end marker |
| HclPrinter.FormatHclValue | backend/hcl_generator.go:249-317 | the lines of one field of boolean, string, select or multiline type |
| HclPrinter.PrintTopLevel | backend/hcl_generator.go:91-142 | the surviving fields without a block are printed in schema order, the others are collected in schema order, and the core add-ons switch is followed |
| HclPrinter.PrintAddons | backend/hcl_generator.go:144-153 | the core add-ons as one object of three |
| HclPrinter.GatherBlocks | backend/hcl_generator.go:157-165 | the block names in order of first appearance |
| HclPrinter.PrintReindented | backend/hcl_generator.go:170-174 | the lines of a field cut apart again and indented by two more spaces |
| HclPrinter.PrintBlock | backend/hcl_generator.go:166-178 | a block with the fields of its name |
| HclPrinter.GenerateBody | backend/hcl_generator.go:80-179 | the body: surviving top-level fields, the core add-ons if they are on and not given, then the blocks |
| HclRoundTrip.BodyRoundTrip | backend/hcl_generator.go:80-179 | reading the generated body with an independent reader gives exactly the surviving fields with their values: top-level ones in schema order, then the core add-ons if they are printed, then each block with its fields in schema order |
| BodyLaws.BodyExact | backend/hcl_generator.go:80-179 | from schema and inputs alone: the body reads as exactly the fields with an input, or a default where there is none, that is not the empty string, each with what that value stands for by its kind; top-level ones in schema order, the add-ons object exactly if the last switch says so and none is given, blocks in order of first appearance with their fields in schema order |
| BodyLaws.FieldReadBackExactly | backend/hcl_generator.go:91-142 | with distinct names a field is read back if and only if it is the one of these, and with its input or default |
| HclRoundTrip.EveryFieldOnce | backend/hcl_generator.go:118-122 | the fields in body order are a rearrangement of the surviving fields: none lost, none repeated |
| HclRoundTrip.BlockOrderExact | backend/hcl_generator.go:157-165 | every block name of a collected field appears once in the block order, and no other name |
| HclRoundTrip.BlockOrderGrows | backend/hcl_generator.go:157-165 | more fields only add blocks at the end, so blocks stand in order of first appearance |
| HclRoundTrip.FlushOfIndented | backend/hcl_generator.go:170-174 | indenting all lines of a heredoc alike does not change what it reads as, at top level or in a block |
| HclRoundTrip.HeredocExact | backend/hcl_generator.go:288-299 | a multi-line value reads back as itself and a final newline if and only if some line of it starts without a space |
| HclRoundTrip.HeredocReadsBackExactly | backend/hcl_generator.go:166-178 | the whole body of a multi-line field, at top level or in any block, reads back as the value and a final newline if and only if some line starts without a space |
| HclRoundTrip.QuotedExact | backend/hcl_generator.go:286-300 | under a reader that decodes all escapes of quoted templates, a value reads back as itself if and only if it holds no quote, backslash, newline or template start |
| HclRoundTrip.BackslashReadsAsEscape | backend/hcl_generator.go:286-300 | a value with a backslash can read back as another value |
| PathTemplate.ResolvePath | backend/hcl_generator.go:536-546 | the replacements, `{env}` first and then key after key in the iteration order given |
| PathTemplate.ResolutionIsSimultaneous | backend/hcl_generator.go:536-546 | with brace-free keys and values the result is the same for every iteration order: all placeholders filled at once, `{env}` from the environment |
| TemplateOrder.OrderFreeExactly | backend/hcl_generator.go:536-546 | for brace-free keys and environment and values that are text with placeholders, the iteration order never shows, on no template, if and only if no value other than that of an input `env` holds the placeholder of another key whose value is not that same text |
| TemplateOrder.ResolvedAtOnce | backend/hcl_generator.go:536-546 | under that condition every order gives all placeholders filled at once |
| TemplateOrder.BracesMakeOrderMatter | backend/hcl_generator.go:540-543 | otherwise, whatever the other inputs, two orders give two results on the template that is the placeholder of the key with that value |
| ListCodec.MultiSelect.ToggleItem | frontend/src/components/AwsResourceSelect.js:203-212 | whatever the text was, parsing it afterwards gives a selection without repeats in which exactly the clicked id is flipped; over all clicks it is the selection the clicks make |
| ListCodec.MultiSelect.RemoveItem | frontend/src/components/AwsResourceSelect.js:219-222 | whatever the text was, parsing it afterwards gives the earlier selection without the id, in its order; over all clicks it is the selection the clicks make |
| ListCodec.SelectionExact | frontend/src/components/AwsResourceSelect.js:203-222 | the selection holds exactly the ids whose first state and own clicks leave them selected, and never repeats one if it did not at first |
| ListCodec.TextHoldsSelection | frontend/src/components/AwsResourceSelect.js:65-68 | from any text, after any clicks on comma-free ids without edge spaces, parsing the text gives the selection, and after the first click the text is the joined selection |
| ListCodec.PrintedSelection | backend/hcl_generator.go:118-178 | the whole body printed for a list field holding the text: nothing when nothing is selected, else one line with exactly the selected ids in order, at top level or in the block; a list, except for one id alone in a block |
| ListCodec.PrintedSelectionReadsBack | backend/hcl_generator.go:118-178 | that body reads back as the selection, at top level and in any block |
| ListCodec.ListRecoveredExactly | backend/hcl_generator.go:118-122 | the list is recovered if and only if the field has no block or the selection is not a single id |
| ListCodec.OneIdInBlockIsNoList | backend/hcl_generator.go:118-122 | one subnet chosen in a block reads back as a string |
| ResourceNames.GetResourceName | backend/handler_plan.go:45-59 | the first non-empty text among the name fields in their order, else schema and clock |
| ResourceNames.NameExact | backend/handler_plan.go:45-59 | the name is that of the first name field with non-empty text, and without one the schema and the clock |
| ResourceNames.StateKeyInjective | backend/hcl_generator.go:463-465 | environments and schema ids without slashes make the state key injective, whatever the names |
| ResourceNames.KeysCollideExactly | backend/hcl_generator.go:463-465 | for any two pairs of schema id and environment some names share a key if and only if what comes before the name in one key is a beginning of the other |
| Server.WolkvormServer.StartRecord | backend/handler_plan.go:124-142 | a fresh running record, first in memory and last in the table |
| Server.WolkvormServer.Submit | backend/handler_plan.go:381-394 | with the gate on an apply or destroy becomes a pending approval and starts nothing; otherwise the run starts |
| Server.WolkvormServer.Decide | backend/handler_approvals.go:56-138 | only a pending approval changes; approving begins one background run; unknown and decided ones are the two errors |
| Server.WolkvormServer.LaunchApproved | backend/handler_approvals.go:118-130 | the background run takes action, schema, inputs, region and environment from the approval |
| Server.WolkvormServer.FinishRecord | backend/handler_plan.go:196-208 | the run ends with the same status and logs in memory and table, and nothing else changes |
| Server.WolkvormServer.TrackAppliedResource | backend/handler_plan.go:210-329 | a successful apply refreshes the live row of the key or adds an active one; a failed one adds a failed row only if the key has none |
| Server.WolkvormServer.FinishHttp | backend/handler_plan.go:186-361 | the whole end of an HTTP run, destroy by id, by key or by scan |
| Server.WolkvormServer.DestroyByScan | backend/handler_plan.go:343-356 | the first scanned row that matches is marked, and only that one |
| Server.WolkvormServer.FinishWs | backend/handler_ws.go:266-406 | the whole end of a WebSocket run, destroy by key only |
| Server.WolkvormServer.Restart | backend/database.go:229-278 | a crash loses the memory; running records become interrupted, and recovery happens only if there were any |
| Server.WolkvormServer.RecoverResources | backend/database.go:245-276 | an unknown row is added for every interrupted apply whose key has no live row yet |
| Server.WolkvormServer.SetApprovalRequired | backend/credentials.go:360-365 | the gate is as set and nothing else changes |
| RunLaws.RecordsOkAlways | backend/handler_plan.go:124-208 | in every reachable state ids are fresh, a record is running exactly if a run in memory owns it and matches it, and the history is this session's part of the table |
| RunLaws.RecordsLeaveRunningOnce | backend/database.go:229-305 | through any continuation, crashes included, a record keeps its identity and request, and once out of running never changes again |
| RecordEvents.FinishIsRecorded | backend/handler_plan.go:190-208 | just after a run ends, its table record and its history entry are successes if and only if it went well, errors if and only if not, with its logs, and no other record has changed |
| RecordEvents.RecordAsEnded | backend/handler_ws.go:266-288 | through any run of the system a record is a success, an error or interrupted exactly according to the event that ended it, with its logs, and running while there is none |
| RecordEvents.RecordsAfter | backend/handler_plan.go:124-142 | an event begins at most one record, with the columns of the request or of the approval, and changes no other than it names |
| RecordEvents.JobAfter | backend/handler_plan.go:124-142 | the new run holds the request or the approval, and the name made when it began |
| RunLaws.RestartStopsEverything | backend/database.go:229-241 | just after a restart no row is running, whatever ran is interrupted, and the history is empty |
| RunLaws.HistoryAgreesWithTable | backend/handler_plan.go:137-142 | within a session history and table agree on every run, newest first |
| RunLaws.HistoryIdsDistinct | backend/handler_ws.go:278-288 | every run in progress has one history entry and only one, so the loop that stops at the first match edits the right one |
| ResourceLaws.OneLiveRowAlways | backend/handler_plan.go:210-358 | over every run of applies, destroys, crashes and recoveries at most one live row has a given key, and every row is keyed by its name and named after its inputs |
| RowEvents.RowsAsTheEventSays | backend/handler_plan.go:210-358 | what every event in every reachable state makes of every row, and every column of the rows it adds: a successful apply refreshes the live row of its key or adds an active one, a failed one adds a failed one only where there is none, a successful destroy marks the row of its id, else of its key, else over HTTP the first that looks like it, a restart adds unknown rows for interrupted applies, and nothing else changes any |
| ResourceLaws.DestroyedStaysDestroyed | backend/database.go:413-435 | through any continuation a row keeps its identity, and a destroyed row is never touched again |
| ResourceLaws.ApplyLeavesActiveRow | backend/handler_plan.go:211-235 | after a successful apply in any reachable state the one live row of the key is active and holds the inputs of the request |
| ResourceLaws.FailedApplyLeavesRow | backend/handler_plan.go:308-329 | a failed apply leaves the key with a live row and changes no row that was there |
| ResourceLaws.DestroyLeavesNoLiveRow | backend/handler_plan.go:337-341 | after a successful destroy without a resource id no live row has the key |
| ResourceLaws.DestroyClearsKeyExactly | backend/handler_plan.go:331-342 | in every reachable state a successful destroy leaves its key without live row if and only if it names no resource id, or the key had no live row, or that row has the id |
| Scenarios.DestroyByIdMissesKey | backend/handler_plan.go:333-335 | for every named request and other id there is a run whose successful destroy by id leaves the live row of the key |
| ResourceLaws.RestartRecoversApplies | backend/database.go:243-276 | a restart that interrupts anything leaves a live row for every interrupted named apply in the table |
| ResourceLaws.RecoverExact | backend/database.go:245-276 | after recovery a key has a live row if and only if it had one or some interrupted apply of the table is for that key |
| ResourceLaws.RestartRevivesKeyExactly | backend/database.go:229-278 | in every reachable state a key without live row gets one at a restart if and only if some run is in progress and some apply for the key never ended, in this session or an earlier one |
| Scenarios.DestroyedKeyReturns | backend/database.go:246-257 | for every named request there is a run, apply, crash, destroy, another run, crash, after which its key has a destroyed row and a live one |
| ResourceLaws.HandlersAgreeExactly | backend/handler_ws.go:402-406 | for a destroy without resource id the two handlers change the table alike if and only if the key has a live row or the scan matches none |
| ResourceLaws.ScanFindsOnlyUnnamed | backend/handler_plan.go:345-353 | for a named request whose key lookup misses, the scan matches exactly the unnamed live rows of the schema and environment when the request bears the made-up name of this second |
| ResourceLaws.HandlersAgreeOnNamedRequests | backend/handler_plan.go:331-358 | in every reachable state the exact condition under which both handlers agree on a named request; a named row the key lookup missed is never marked |
| Scenarios.HandlersCanDisagree | backend/handler_ws.go:402-406 | for any two times there is a run to a destroy that over HTTP marks an unnamed row and over WebSocket marks none |
| ApprovalLaws.AccountsOkAlways | backend/handler_approvals.go:56-138 | in every reachable state waiting launches are approved, wait once and have not been launched, and exactly the apply and destroy runs have an origin, each a good one, no two the same |
| ApprovalLaws.RunsAreAccountedFor | backend/handler_plan.go:381-394 | every apply or destroy run has its own origin: a request made while the gate was off or an approved approval, with the same action, schema, environment, region and inputs |
| ApprovalLaws.UnapprovedStartsNothing | backend/handler_ws.go:79-89 | a pending or rejected approval is the origin of no run |
| ApprovalLaws.ApprovalsLeavePendingOnce | backend/handler_approvals.go:62-91 | through any continuation an approval leaves pending at most once and is never decided again |
| ApprovalEvents.ApprovalAsDecided | backend/handler_approvals.go:56-91 | through any run an approval is approved, or rejected, if and only if the first decision on it said so, and pending while there is none |
| ApprovalEvents.WaitingAsDecided | backend/handler_approvals.go:112-138 | an approval waits to be launched if and only if the first decision approved it and it has neither been launched nor the server restarted since |
| ApprovalEvents.LaunchBegins | backend/handler_approvals.go:118-130 | a launch begins one running record with the approval's action, schema, environment, region and inputs |
| ApprovalEvents.ApprovalsAfter | backend/handler_approvals.go:159-181 | an approval is asked for exactly by an apply or destroy while the gate is on, pending and with the columns of the request |
| DriftSweep.SweepsExcludeEachOther | backend/drift_detector.go:176-209 | in every interleaving of any number of callers at most one is between setting and clearing the flag, and the flag is set exactly then |
| DriftSweep.CompletedSweepIsExact | backend/drift_detector.go:191-201 | a completed sweep checked each active or unknown resource of its snapshot once, in order, and counted exactly the drifted ones |
| DriftSweep.CheckedExactly | backend/drift_detector.go:193-196 | an id is checked if and only if the snapshot has it as active or unknown |
| DriftSweep.SweepAll | backend/drift_detector.go:191-201 | the loop of one sweep run to its end, each check with its own outcome |
| CostSummary.LatestPerResource | backend/handler_cost_dashboard.go:25-35 | each key keeps a record of that key than which none is later, the first such; keys without records keep nothing |
| CostSummary.KeysAgree | backend/handler_cost_dashboard.go:28-31 | records with ids share a key exactly if the ids agree, records without exactly if schema, environment and region agree |
| CostSummary.Summarize | backend/handler_cost_dashboard.go:37-42 | total and the three breakdowns after visiting the kept records in the order given |
| CostSummary.SumIgnoresOrder | backend/handler_cost_dashboard.go:37-42 | the total does not depend on the iteration order |
| CostSummary.BreakdownConserves | backend/handler_cost_dashboard.go:37-42 | the groups of a breakdown by any attribute add up to the total, in whatever order either map is read |
| CostSummary.BreakdownExact | backend/handler_cost_dashboard.go:39-41 | a group is there if and only if some kept record belongs to it, with the sum over those records |
| CostSummary.SummaryConserves | backend/handler_cost_dashboard.go:37-52 | the three breakdowns of a summary all add up to the total of any other iteration order |
| CostSummary.SummaryExact | backend/handler_cost_dashboard.go:39-41 | the breakdowns are by environment, by schema and by region, each group the sum over its kept records |
| CostSummary.CurrentSpend | backend/handler_cost_dashboard.go:141-155 | the spend of a budget is the sum over the records in its scope |
| CostSummary.SpendExact | backend/handler_cost_dashboard.go:143-155 | the spend is the total of all records, of those of the environment, of those of the schema, or nothing |
| CostSummary.GlobalSpendIsSumOfEnvs | backend/handler_cost_dashboard.go:143-155 | global spend is the sum of the spends of environments that partition the records |

## Left out

Lambda packaging:

- BuildPlan.Execute: does not run the pip, poetry, uv and npm actions, which install dependencies through subprocesses and pack the result.
- PlanCompiler.PlanClaim: does not emit those actions or hash the requirement and lock files they come from, nor read the claim keys and the runtime that ask for them.
- PlanCompiler.BuildPlanManager.Plan: leaves out the same actions and sources.
- BuildPlan.ZipWriteStream.WriteFile: an entry keeps name, source, bytes and whether its timestamp is the fixed zero, not the ZIP header, attributes or compression.
- The subprocess itself: a shell line is a function of text, working directory, file system and `$?`; shell variables, `exit` or `set -e` inside a line, and constructs that span lines are not carried from one line to the next.
- SHA-256 and the injectivity of the hashed byte stream: the hash is the sequence of its updates, which the original feeds without separators.
- Symbolic links, permissions, and the double slash that `normpath` keeps at the start of a path.
- `patterns_list` for a pattern text with comments and `commands` given as one text: both are lists here. A pattern that is not a valid regular expression is not part of this model.
- `ZipContentFilter` objects are values, their compiled rules; the field that `compile` and `reset` assign is the filter variable of `execute`. That `os.walk` descends in the order the caller sorted its directory list into is part of the walk.
- Objects passed as claims that are neither text nor dictionary.

Dependency graph and layout:

- The display group of a schema (`schemaToGroup`) and the sort of groups by size: the layout is proved for every order of the groups. Group names that collide with members of `Object.prototype` are not modelled.

HCL generation:

- HclPrinter.FormatHclValue: leaves out the field types number, list, `sg_rules`, `nodegroups` and raw `hcl`.
- The module header, provider, backend, tags and outputs around the body.
- Numbers and objects as input values: only the text Go prints for them is kept.
- The reader covers the subset of HCL native syntax the printer uses, with the flush rule as worded in the section "Template Literals" of the HCL Native Syntax Specification, blank lines counted like others; it refuses commas inside quoted list items and escapes inside heredocs, which never arise from the values the round trip speaks of.
- PathTemplate.ResolvePath: values are the text Go prints for them.
- TemplateOrder.OrderFreeExactly: values are text with whole, un-nested placeholders; stray or nested braces, which can form a placeholder only together with what stands around them, are not covered.
- White space is one set for `strings.TrimSpace` and JavaScript's `trim`, which differ in a few code points.
- The single-select branch of the resource picker.

Runs, resources and approvals:

- Handlers are atomic: two people deciding one approval or two applies on one key, racing between their read and their write, and a crash between the update of a record and the tracking of its resource, are not modelled.
- Ids are fresh numbers; the original derives them from the clock. Schema ids and environments hold no slash.
- Imports, policies, notifications, audit log, outputs, duration and time columns, HTTP statuses other than the two review errors, unknown schemas, and failing database calls.
- The inputs of an approval are stored as JSON text; they are the same inputs when read again here.

Drift and costs:

- What one drift check does (its outcome is a parameter), the scheduler and its channels.
- Costs are exact rationals, not floating point; budget percentages, trends and per-resource costs.
