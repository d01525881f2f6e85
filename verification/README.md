# Execraft transports, resolvers and lifecycle transactions: a verified model

Execraft drives coding agents (Codex, Claude Code, OpenCode) through their command-line
protocols, resolves layered agent configuration, renders disposable workspaces and archives
or removes task dossiers. This project models those cores in Dafny and proves what their
code and documentation rely on. One module per component:

| file | models |
|---|---|
| `Json.dfy`, `Text.dfy`, `Sequences.dfy` | JSON values, stripping, splitting and decimal numerals, lists without repetition and insertion sort |
| `DeepMerge.dfy`, `LegacyProfiles.dfy` | the deep merge shared by profiles and rendering; the memoised profile resolver |
| `LegacyConfig.dfy`, `ExecutionCompat.dfy` | the legacy provider list and its translation to schema v4 and back |
| `OutputSchema.dfy` | the rewriting of JSON Schemas for Codex and its meaning for instances |
| `CodexSession.dfy`, `CodexRuns.dfy` | the Codex app-server controller, and what every run of it keeps |
| `CodexHandshake.dfy`, `CodexControls.dfy`, `CodexVerdicts.dfy` | what a run sends and how it is judged, read off its log: starts and retries, control requests, ends and failures |
| `Attempts.dfy` | the fallback chains of the Codex and Claude adapters |
| `LiveFraming.dfy`, `LiveAccounts.dfy`, `LiveStdin.dfy`, `LiveSession.dfy` | the live JSONL transport: its framing, what a session comes to and where it stops, when stdin is closed, and the session object |
| `EventBridge.dfy` | the OpenCode event bridge |
| `TerminalMessage.dfy` | assistant messages and the final answer of an OpenCode run |
| `PlanContract.dfy`, `PlanLabels.dfy` | canonicalization and validation of plan graphs, and the labels of what is removed |
| `FileTree.dfy`, `ArchiveEffects.dfy` | file trees, and what archiving and reactivating do to one |
| `CatalogPlaces.dfy`, `CatalogGuards.dfy`, `CatalogConditions.dfy`, `CatalogCycles.dfy`, `CatalogArchive.dfy` | where the catalog keeps a dossier, when its operations go through, repeated cycles, and the archive's manager |
| `PermanentRemoval.dfy` | removal plans and the deepest-first removal |
| `Render.dfy`, `WorkspaceShell.dfy`, `RenderedFiles.dfy` | what a project renders to, path by path, the manifest, the provider refresh |

Where the source changes state in place the model is a class or a method with loops, proved
against functions on values; the theorems are lemmas about those functions and invariants of
the methods. The environment is explicit: servers, clocks, reads and writes, failing system
calls and callbacks are arguments and may be anything the contracts allow. Beside the functions that
the methods compute stand laws over what can be observed alone (the log of a run, the raw profiles, the
paths of a tree, the events of a stream), such as `HandshakeExactly`, `ClosedExactly`, `DeclarationReads`,
`AnswerIsRight`, `RestorableExactly` and `SeenExactly`.

## What the code promises and does not keep

These claims are stated where the code meets them, with a concrete input where it does not.

- **Steering order.** Every non-empty steering text is sent or still queued, never lost or
  doubled, against any server (`SteeringNeverLost`). The texts are in the order polled at every
  point of a run exactly as long as no poll brings other texts into an active session in which
  some are waiting (`OrderExactly`), and no active session has texts waiting exactly as long as no
  thread id arrives after a turn id with texts queued (`AlwaysDrainedExactly`). The second implies
  the first; `LateThreadReorders` is a run that keeps neither.
- **No prompt replay.** The comment in the Codex adapter says a started turn is never
  replayed. `work_started` is taken back by exactly one kind of step, an answer to
  `turn/start` that leaves the turn id empty (`WorkStartedExactly`, `CodexStickyExactly`);
  the one-shot command follows started work exactly after such a step (`CodexReplaysExactly`);
  `BlankTurnReplays` is a run in which it does. Claude attempts never replay (`ClaudeNeverReplays`).
- **Failures are reported.** A failed turn, error answer or error result is reported as a success
  exactly when the text of the last one is empty (`CodexSucceedsExactly`, `ClaudeSucceedsExactly`);
  `EmptyFailureSucceeds` is a turn that fails so.
- **Schema compatibility.** The transformation strengthens the schemas whose literals hold nothing to
  rewrite, whose property names are not taken for keywords or extensions, which do not ask for
  unique items and whose required names are declared. The literals left alone are described by
  their syntax (`FixedExactly`). `LiteralIsRewritten`, `ExtensionNameIsLost`,
  `UniqueItemsIsLost` and `UndeclaredRequirementIsLost` are schemas that become more permissive
  without one of these, and `KeywordNamesAreMistaken` has two that change their meaning.
- **Merge associativity** holds on exactly the associable triples (`MergeAssociativeExactly`);
  `MergeNotAssociative` has a scalar between two mappings.
- **No drift between provider configurations.** The round trip gives a list back exactly when
  each model reference fits its adapter (`RoundTripExactly`). `VendorIsLost` is a Claude
  provider that passes the legacy parser and comes back without its vendor prefix.
- **Anonymous OpenCode messages.** A text without a message id stays alone exactly when no other
  text carries the id made up for it (`AnonymousAlone`); in `AnonymousCollides` a text that does comes
  first, and both end in one message.
- **OpenCode session errors.** The comment in `execute` says an error event always fails the
  run. It does so exactly when the first error event has a usable message
  (`ErrorFreeExactly`); `ErrorAndSuccess` is a stream with two error events and an answer.
- **Stale answers.** The docstring of `_extract_terminal_message` says the text of an earlier step is
  never the final answer. The answer is of the last finished step exactly when a text that may
  answer stands between the last two `step_finish` events (`FreshExactly`). `StaleAnswer` and
  `StaleSharedAnswer` end in a step without text, which hands back that of the one before: it has
  no message id and no `step_start` follows that text, or it has the same message id.
- **Archive history.** When writing the history record fails, the dossier has already been moved:
  the source has no rollback there. Without any system call failing this happens exactly when the
  history is a regular file, or a directory has the record's name (`Strands`, in the contracts of
  `Reactivate`, `ReactivateTask` and `ReactivateProject`). `HistoryFileStrands` is a project that
  can be archived and then comes back without its record.

## Model

| member | source | states |
|---|---|---|
| `DeepMerge.MergeMappings` | src/execraft/agents/legacy_profiles.py:13-24 | the copying loop computes the recursive merge |
| `DeepMerge.MergeByPath` | src/execraft/agents/legacy_profiles.py:13-24 | at every path the override decides if it has a say there, else the base does |
| `DeepMerge.MergeIdentity` | src/execraft/agents/legacy_profiles.py:13-24 | the empty mapping is neutral on both sides |
| `DeepMerge.MergeIdempotent` | src/execraft/agents/legacy_profiles.py:13-24 | merging a mapping with itself changes nothing |
| `DeepMerge.MergeAbsorbs` | src/execraft/agents/legacy_profiles.py:13-24 | a layer hides another exactly when it decides everything the other says |
| `DeepMerge.MergeAssociativeExactly` | src/execraft/render.py:421-428 | grouping of three layers does not matter exactly on associable triples |
| `DeepMerge.MergeAssociative` | src/execraft/render.py:421-428 | in particular when the middle layer has no scalar between two mappings |
| `DeepMerge.MergeNotAssociative` | src/execraft/render.py:421-428 | three layers whose grouping matters |
| `LegacyProfiles.EndedChainIsLongest` | src/execraft/agents/legacy_profiles.py:273-289 | an inheritance chain that ends is the only one from its profile |
| `LegacyProfiles.OutcomesExclusive` | src/execraft/agents/legacy_profiles.py:273-289 | resolved, unknown parent, malformed `extends` and cycle exclude one another; the resolution is unique |
| `LegacyProfiles.OutcomesExhaustive` | src/execraft/agents/legacy_profiles.py:273-289 | every profile of every graph has one of these four outcomes |
| `LegacyProfiles.ChildResolves` | src/execraft/agents/legacy_profiles.py:284-286 | own fields over the parent's resolution is the fold over the longer chain |
| `LegacyProfiles.LinkExactly` | src/execraft/agents/legacy_profiles.py:45-49 | when a profile has a parent, none, or a malformed one, by its raw `extends` |
| `LegacyProfiles.ResolutionReads` | src/execraft/agents/legacy_profiles.py:270-289 | at every path not headed by `extends`, a resolution has the value of the first profile of the chain, child first, that has a say there; it has no `extends` |
| `LegacyProfiles.Resolver.Resolve` | src/execraft/agents/legacy_profiles.py:270-289 | terminates on any graph; returns the root-first fold of the chain, which reads as the raw profiles say and has no `extends`, or reports a cycle that the chain has, or the unknown parent or malformed `extends` in which it ends; the memo stays correct |
| `LegacyProfiles.Resolver.ResolveDeclared` | src/execraft/agents/legacy_profiles.py:281-289 | the part of the resolver that pushes, merges, pops and memoises |
| `LegacyProfiles.CheckProfile` | src/execraft/agents/legacy_profiles.py:291-292 | a profile passes exactly when it resolves to a fragment the validator accepts |
| `LegacyProfiles.Declare` | src/execraft/agents/legacy_profiles.py:295-299 | a provider is declared exactly when its profile resolves, with its own fields over that and without `extends` |
| `LegacyProfiles.DeclarationUnique` | src/execraft/agents/legacy_profiles.py:295-299 | the declared value does not depend on the memo or the visiting order |
| `LegacyProfiles.DeclarationReads` | src/execraft/agents/legacy_profiles.py:295-299 | the same of a declaration, the raw provider before the chain |
| `LegacyProfiles.ResolveProviderMappings` | src/execraft/agents/legacy_profiles.py:260-300 | succeeds exactly when the schema version allows profiles and every profile and provider is in order; declarations come in provider order, read as the raw provider and profiles say, and have no `extends`; an error names a fault that some profile or provider really has |
| `LegacyConfig.SortByPriority` | src/execraft/agents/legacy_config.py:607-609 | the in-place sort computes the stable priority order |
| `LegacyConfig.PrioritySortStable` | src/execraft/agents/legacy_config.py:607-609 | a rearrangement by falling priority, then by declaration |
| `LegacyConfig.SortedExactly` | src/execraft/agents/legacy_config.py:607-609 | a list is left alone exactly when its priorities do not rise |
| `LegacyConfig.SortIsIdempotent` | src/execraft/agents/execution_compat.py:208-209 | sorting a sorted list gives it back |
| `LegacyConfig.CheckAliases` | src/execraft/agents/legacy_config.py:93-113 | aliases pass exactly when they are non-empty and new everywhere |
| `LegacyConfig.CheckProvider` | src/execraft/agents/legacy_config.py:499-522 | a declaration passes exactly when it is fit and brings only new ids |
| `LegacyConfig.ParseLegacyAgentConfigs` | src/execraft/agents/legacy_config.py:573-609 | accepted exactly when no id or alias is declared twice and each config is fit; the result is the stable priority sort of the selected ones |
| `LegacyConfig.ParsedList` | src/execraft/agents/legacy_config.py:573-609 | a parsed list is in priority order, with unique ids and fit configs |
| `LegacyConfig.AcceptableExactly` | src/execraft/agents/legacy_config.py:499-571 | a list is accepted exactly when each config has a supported adapter, non-empty names and, for OpenCode, a model with a provider, and no id or alias occurs twice in it |
| `LegacyConfig.SelectedExactly` | src/execraft/agents/legacy_config.py:573-609 | exactly the enabled configs are kept, or all of them, in the order declared |
| `ExecutionCompat.NormalizeLegacyAgentConfigs` | src/execraft/agents/execution_compat.py:87-115 | the loop builds one profile and runtime per config and a route only for a model |
| `ExecutionCompat.OwnRuntime` | src/execraft/agents/execution_config.py:136-140 | with unique ids a config's runtime reference finds its own runtime |
| `ExecutionCompat.OwnRoute` | src/execraft/agents/execution_config.py:142-146 | and its route reference its own route |
| `ExecutionCompat.ReturnedExactly` | src/execraft/model_routes.py:29-35 | the model comes back exactly when it fits its adapter; otherwise what is lost or added |
| `ExecutionCompat.OneProjected` | src/execraft/agents/execution_compat.py:118-185 | one config comes back with every compared field but possibly the model, or fails when OpenCode has none |
| `ExecutionCompat.ProjectionExactly` | src/execraft/agents/execution_compat.py:118-185 | any profile, route alias and target included: when it is projected, and the adapter, model and target it gets |
| `ExecutionCompat.ProjectNativeLegacyConfigs` | src/execraft/agents/execution_compat.py:188-209 | the loop stops at the first failing profile, else sorts the projections |
| `ExecutionCompat.RoundTripExactly` | src/execraft/agents/execution_compat.py:87-209 | projecting the normalized form gives the stable priority sort under dataclass equality exactly when each model reference fits its adapter |
| `ExecutionCompat.ParsedRoundTrip` | src/execraft/agents/execution_compat.py:188-209 | a parsed list comes back itself exactly when only OpenCode models have a slash |
| `ExecutionCompat.VendorIsLost` | src/execraft/agents/execution_compat.py:20-31 | a parsed Claude provider with a vendor prefix drifts |
| `OutputSchema.CompatibleIsClosed` | src/execraft/agents/codex_live.py:31-72 | for every JSON value, every object node comes out closed with all its properties required, and no dropped keyword is left |
| `OutputSchema.CompatibleIdempotent` | src/execraft/agents/codex_live.py:31-72 | transforming twice is transforming once, for every JSON value |
| `OutputSchema.FixedExactly` | src/execraft/agents/codex_live.py:31-72 | a value comes out unchanged exactly when every mapping in it keeps its keys, infers no type and is no object node that is not closed already |
| `OutputSchema.TransformedMeansNative` | src/execraft/agents/codex_live.py:31-86 | for every instance, the transformed schema accepts exactly what the native reading of the original accepts |
| `OutputSchema.NativeIsStronger` | src/execraft/agents/codex_live.py:31-86 | the native reading never accepts more than JSON Schema does |
| `OutputSchema.TransformationStrengthens` | src/execraft/agents/codex_live.py:31-86 | every instance the transformed schema accepts is accepted by the original |
| `OutputSchema.InferenceExcludes` | src/execraft/agents/codex_live.py:46-58 | an inferred type never excludes the `const`, and no `enum` member exactly when none is an array or object |
| `OutputSchema.InferredExactly` | src/execraft/agents/codex_live.py:46-86 | a type is inferred exactly for an untyped node whose `const` is a scalar, or without one an `enum` whose scalars are of one type; which type, by the kind of scalar |
| `OutputSchema.LiteralIsRewritten` | src/execraft/agents/codex_live.py:31-47 | a literal inside `const` is rewritten like a schema |
| `OutputSchema.ExtensionNameIsLost` | src/execraft/agents/codex_live.py:39-68 | a required property whose name starts with `x-` is dropped and forgotten |
| `OutputSchema.KeywordNamesAreMistaken` | src/execraft/agents/codex_live.py:39-68 | properties called `const` or `properties` make their table look like a schema, which adds members to require |
| `OutputSchema.UndeclaredRequirementIsLost` | src/execraft/agents/codex_live.py:59-68 | a required name without a declared property is forgotten |
| `OutputSchema.UniqueItemsIsLost` | src/execraft/agents/codex_live.py:39-45 | `uniqueItems` is dropped |
| `CodexSession.Controller.constructor` | src/execraft/agents/codex_live.py:110-128 | the initial state of a session |
| `CodexSession.Controller.HandleMessage` | src/execraft/agents/codex_live.py:155-162 | one server message takes the state and the outgoing messages where the step function says |
| `CodexSession.Controller.HandleResponse` | src/execraft/agents/codex_live.py:194-256 | the same for an answer, control answers first |
| `CodexSession.Controller.SandboxCompatibilityRetry` | src/execraft/agents/codex_live.py:550-593 | one retry per stage, as the step function says; when and what, `CodexHandshake.TurnRetried` and `ThreadRetried` |
| `CodexSession.Controller.ThreadStartRequest` | src/execraft/agents/codex_live.py:500-509 | a fresh protocol id in the current spelling |
| `CodexSession.Controller.TurnStartRequest` | src/execraft/agents/codex_live.py:530-548 | the same, on the session's thread |
| `CodexSession.Controller.SteerRequest` | src/execraft/agents/codex_live.py:605-627 | a fresh control id, remembered until it is answered |
| `CodexSession.Controller.FlushPendingSteering` | src/execraft/agents/codex_live.py:617-621 | with both ids known the whole queue is sent in order, otherwise nothing happens |
| `CodexSession.Controller.PollControls` | src/execraft/agents/codex_live.py:164-192 | a batch of operator controls, one after the other |
| `CodexSession.Controller.PollControl` | src/execraft/agents/codex_live.py:174-191 | one control: sent when the turn is active, queued or dropped otherwise |
| `CodexRuns.SteeringNeverLost` | src/execraft/agents/codex_live.py:164-192 | in every reachable state the texts sent and queued are exactly those polled, against any server |
| `CodexRuns.DrainedExactly` | src/execraft/agents/codex_live.py:617-621 | a step leaves texts waiting in an active session exactly when a thread id comes late |
| `CodexRuns.AlwaysDrainedExactly` | src/execraft/agents/codex_live.py:237-271 | every state of a run is drained exactly when no thread id comes late |
| `CodexRuns.OrderExactly` | src/execraft/agents/codex_live.py:164-192 | at every point of a run the texts sent, then those waiting, are those polled in order, exactly when no poll overtakes waiting texts |
| `CodexRuns.SteeringInOrder` | src/execraft/agents/codex_live.py:164-192 | a run without a late thread id is drained and in order, and no poll overtakes |
| `CodexRuns.OrderlySteering` | src/execraft/agents/codex_live.py:237-271 | a server that opens the thread before the turn gives order and an empty queue |
| `CodexRuns.TurnIdNeedsThread` | src/execraft/agents/codex_live.py:237-271 | with such a server a turn id implies a thread id |
| `CodexRuns.LateThreadOvertakes` | src/execraft/agents/codex_live.py:237-249 | after a late thread id the next text is sent past the waiting ones |
| `CodexRuns.LateThreadReorders` | src/execraft/agents/codex_live.py:237-249 | a run in which the second text is sent and the first still waits |
| `CodexRuns.HandshakeIsBounded` | src/execraft/agents/codex_live.py:500-603 | against a server that answers each id once: at most two thread/start and two turn/start, in distinct spellings, with ids 2 to 5, every turn on the session's non-empty thread |
| `CodexHandshake.HandshakeExactly` | src/execraft/agents/codex_live.py:194-256 | against such a server: a thread is started exactly after initialize succeeds, a second time exactly after the first thread/start is refused; a turn exactly after a thread is named, a second time exactly after the first turn/start is refused before the turn was reported |
| `CodexHandshake.TurnRetried` | src/execraft/agents/codex_live.py:578-592 | a refusal that mentions an unknown variant or enum, in any case, is followed by exactly one turn/start, on the same thread, in the other spelling, under the next id; nothing ends or fails |
| `CodexHandshake.ThreadRetried` | src/execraft/agents/codex_live.py:561-577 | the same of thread/start |
| `CodexHandshake.OtherFailuresEnd` | src/execraft/agents/codex_live.py:201-216 | any other failure answer but to a control request ends the session with its text |
| `CodexHandshake.VariantExactly` | src/execraft/agents/codex_live.py:595-598 | the two markers, at any place and in any case of their letters |
| `CodexHandshake.StartedExactly` | src/execraft/agents/codex_live.py:258-271 | until a turn/start is answered, work has started exactly if the server has reported the turn |
| `CodexControls.ControlsNameTurn` | src/execraft/agents/codex_live.py:174-190 | every steer and interrupt names the thread and the turn that are running |
| `CodexControls.InterruptsExactly` | src/execraft/agents/codex_live.py:183-190 | as many interrupts are sent as were polled while a turn was running |
| `CodexControls.AnswersExactly` | src/execraft/agents/codex_live.py:155-157 | every request of the server is answered, once and in order, and nothing else is |
| `CodexRuns.ControlIdsCountUp` | src/execraft/agents/codex_live.py:623-627 | control ids are 100, 101 and so on over the whole run |
| `CodexRuns.ControlFailureIsHarmless` | src/execraft/agents/codex_live.py:204-213 | a failed steer or interrupt is only crossed off: no end, no retry, no message |
| `CodexRuns.WorkStartedExactly` | src/execraft/agents/codex_live.py:250-264 | started work is forgotten by exactly one kind of step |
| `Attempts.UnavailableIsUntouched` | src/execraft/agents/codex_adapter.py:320-328 | an attempt given up as unavailable never saw work start |
| `Attempts.ExecuteCodex` | src/execraft/agents/codex_adapter.py:221-244 | at most two attempts; the second exactly after an unavailable live session, which saw work start exactly if the server blanked the turn id |
| `Attempts.ExecuteClaude` | src/execraft/agents/claude_code_adapter.py:203-278 | at most four attempts in the documented order, each after an unavailable one; none but the last saw work start, whatever the provider sent |
| `Attempts.NoPromptReplay` | src/execraft/agents/claude_code_adapter.py:203-278 | in any chain only the last attempt may have observed started work |
| `Attempts.CodexStickyExactly` | src/execraft/agents/codex_live.py:250-271 | `work_started` is never taken back exactly when no turn/start answer blanks the turn id |
| `Attempts.CodexReplaysExactly` | src/execraft/agents/codex_adapter.py:318-331 | an unavailable Codex attempt saw work start exactly when the server blanked the turn id of started work |
| `Attempts.BlankTurnReplays` | src/execraft/agents/codex_live.py:250-253 | a run that falls back although work had started |
| `Attempts.CodexSucceedsExactly` | src/execraft/agents/codex_adapter.py:325-334 | a session is a success exactly when it closed after a message that completed it and the last failure in it, if any, has an empty text |
| `CodexVerdicts.EndsExactly` | src/execraft/agents/codex_live.py:194-346 | which events complete a session and which are recorded as its failure, with their text, read off the messages: ends of turns, failed requests but control and retried ones, threads without a name |
| `CodexVerdicts.SucceedsExactly` | src/execraft/agents/codex_adapter.py:325-334 | a session that closed is a success exactly when such an event came and the last failure, if any, has no text |
| `CodexVerdicts.FallsBackExactly` | src/execraft/agents/codex_adapter.py:318-331 | it is given up for the one-shot command exactly when no work is under way and the protocol is missing or nothing ended it |
| `CodexVerdicts.UnderwayExactly` | src/execraft/agents/codex_live.py:250-271 | `work_started` and the turn id, read off the reports and answers of the server |
| `CodexVerdicts.ForgottenExactly` | src/execraft/agents/codex_live.py:250-253 | a turn is forgotten exactly where work was under way and is no longer |
| `Attempts.EmptyFailureSucceeds` | src/execraft/agents/codex_live.py:336-342 | a turn that fails with an empty text and is taken for a success |
| `Attempts.ClaudeController.HandleMessage` | src/execraft/agents/claude_live.py:57-96 | which messages start work, record an error text and complete the session |
| `Attempts.ClaudeSticky` | src/execraft/agents/claude_live.py:71-79 | over every message trace `work_started` is set exactly by assistant output and never taken back |
| `Attempts.ClaudeNeverReplays` | src/execraft/agents/claude_code_adapter.py:203-278 | in any chain of Claude attempts no message but those of the last was assistant output |
| `Attempts.ClaudeSucceedsExactly` | src/execraft/agents/claude_code_adapter.py:404-411 | success exactly when the session closed after a result and the last result that reports an error, if any, has an empty text |
| `Attempts.ClaudeFallsBackExactly` | src/execraft/agents/claude_code_adapter.py:390-411 | it is given up for the next attempt exactly when there was no assistant output and the protocol is missing or no result came |
| `EventBridge.ByteLenAppend` | src/execraft/agents/opencode_events.py:51-62 | byte length adds up over concatenation |
| `EventBridge.ByteLenExactly` | src/execraft/agents/opencode_events.py:51-62 | the size of a text is the number of bytes of its UTF-8 encoding, from which it can be read back |
| `EventBridge.RecordEnds` | src/execraft/agents/opencode_events.py:39-43 | a record within the limit yields its events and no more; an oversized one at least one error, and events besides exactly when what is left of it is within the limit and decodes to some |
| `EventBridge.RecordGoesOn` | src/execraft/agents/opencode_events.py:33-37 | a growing record is kept whole within the limit and dropped with an error above it |
| `EventBridge.EventsExactly` | src/execraft/agents/opencode_events.py:39-69 | a record yields events exactly when the line left of it is within the limit and decodes to some |
| `EventBridge.LineYields` | src/execraft/agents/opencode_events.py:61-69 | a line yields all the events it decodes to, in order, or none above the limit |
| `EventBridge.RecordYields` | src/execraft/agents/opencode_events.py:26-69 | a record yields those of the line that is left of it |
| `EventBridge.PiecesOutcome` | src/execraft/agents/opencode_events.py:26-69 | in whatever pieces a record arrives, it has its own outcome |
| `EventBridge.Bridge.Feed` | src/execraft/agents/opencode_events.py:26-43 | after any chunk every finished record has come out as its pieces say and the buffer is what they leave of the open one, within the limit |
| `EventBridge.Bridge.FeedLines` | src/execraft/agents/opencode_events.py:39-43 | the same for a chunk with newlines |
| `EventBridge.Bridge.EndRecord` | src/execraft/agents/opencode_events.py:39-41 | completing a record settles its outcome and starts an empty one |
| `EventBridge.Bridge.GrowRecord` | src/execraft/agents/opencode_events.py:34-37 | more of an open record |
| `EventBridge.Bridge.Finish` | src/execraft/agents/opencode_events.py:45-49 | the final record without a newline gets its outcome too |
| `EventBridge.Bridge.DiscardOversizedPartialRecord` | src/execraft/agents/opencode_events.py:51-59 | an oversized buffer is emptied with one error, any other kept |
| `EventBridge.Bridge.DecodeBoundedLine` | src/execraft/agents/opencode_events.py:61-69 | a line is decoded or, above the limit, answered with one error |
| `EventBridge.DecodeStream` | src/execraft/agents/opencode_events.py:26-69 | however a text is cut into chunks: one outcome per record of the split text, fixed by the pieces it came in; events of an oversized one exactly when what its last cut left is within the limit and decodes to some; the decoded events when all records are within it; of each record exactly the events of the line left of it, in order |
| `LiveFraming.LineTaken` | src/execraft/agents/live_session.py:227-251 | taking a line keeps the framing and delivers its message |
| `LiveFraming.ChunkFramed` | src/execraft/agents/live_session.py:389-392 | a chunk extends the framing wherever it is cut |
| `LiveFraming.CompleteLines` | src/execraft/agents/live_session.py:227-251 | what was delivered is fixed by what was received: the messages of its complete lines up to one that is not JSON; exactly an oversized open line or one that is not JSON is unacceptable |
| `LiveFraming.DeliveredGrows` | src/execraft/agents/live_session.py:227-251 | more bytes only add messages |
| `LiveFraming.DeliveredExactly` | src/execraft/agents/live_session.py:227-251 | which messages a stream holds, line by line: those of the objects before the first complete line that is not JSON, in order; it is acceptable exactly when there is no such line and the open one is not too long |
| `LiveSession.Session.AppendMessages` | src/execraft/agents/live_session.py:80-85 | encoded messages join the queue in order unless it is closed |
| `LiveSession.Session.CloseStdin` | src/execraft/agents/live_session.py:189-201 | closing empties the queue and takes stdin out of what is waited for |
| `LiveSession.Session.RegisterStdinIfNeeded` | src/execraft/agents/live_session.py:203-212 | afterwards stdin is waited for exactly while it is open and bytes wait; it is given up exactly when an idle one is refused |
| `LiveSession.Session.ApplyUpdate` | src/execraft/agents/live_session.py:214-225 | replies are queued, and the queue, completion and termination are as the update says |
| `LiveSession.Session.ProcessJsonLines` | src/execraft/agents/live_session.py:227-251 | all complete lines are processed, each message delivered once, its replies queued and its time noted; it fails exactly before an invalid or oversized line |
| `LiveSession.Session.OnWritable` | src/execraft/agents/live_session.py:323-351 | a write takes exactly a prefix of the queue, and counts as activity exactly if it took bytes |
| `LiveSession.Session.OnReadable` | src/execraft/agents/live_session.py:353-392 | a chunk refreshes output and activity, and one of stdout is received and its lines processed; it ends the session exactly when it is classified or unacceptable |
| `LiveSession.Session.NoteOutput` | src/execraft/agents/live_session.py:372-377 | output is noted, refreshes the silence deadline, and is activity |
| `LiveSession.Session.Deliver` | src/execraft/agents/live_session.py:243-251 | a message is delivered and answered, and its time noted for the rolling deadline |
| `LiveSession.Session.Heartbeat` | src/execraft/agents/live_session.py:399-434 | a heartbeat that is due counts as activity exactly if the processor was busy |
| `LiveSession.Session.DueExactlyWhenQuiet` | src/execraft/agents/live_session.py:158-168 | the inactivity and silence deadlines have come exactly when no noted time is within the window |
| `LiveSession.Session.CheckWatchdogs` | src/execraft/agents/live_session.py:272-305 | which watchdog fires, exactly, by the account of the session |
| `LiveSession.Session.SelectWait` | src/execraft/agents/live_session.py:311-322 | each wait is between 1 and 50 ms and passes no deadline by more than the minimum |
| `LiveSession.Session.LoopHead` | src/execraft/agents/live_session.py:254-311 | the head of an iteration polls input and decides as the account says: a watchdog, the end of the process, or to go on |
| `LiveSession.Session.CheckExit` | src/execraft/agents/live_session.py:307-311 | a dead process ends the session exactly when its streams are drained or a second has passed since it was found dead |
| `LiveSession.Session.Iterate` | src/execraft/agents/live_session.py:253-435 | one loop iteration ends exactly where its head or an entry says so, and leaves the account as of there, heartbeat included |
| `LiveSession.Session.HandleReady` | src/execraft/agents/live_session.py:323-392 | all ready entries in order, up to the first that ends the session, each changing the account as it should |
| `LiveSession.Session.Follow` | src/execraft/agents/live_session.py:253-435 | the loop ends in the first iteration that something stops, with the account as of there |
| `LiveSession.Run` | src/execraft/agents/live_session.py:253-435 | any session: it ends exactly where and how the script says (`Ends`); by then the callback saw exactly the messages received, and stdin got a prefix of the initial messages, inputs and replies, with the bytes written and the queue as accounted; stdin is closed exactly when a message completed the protocol and completion closes it, or it was lost (`Lost`) |
| `LiveAccounts.AccountAccounts` | src/execraft/agents/live_session.py:253-435 | what was received and asked for by then is the output, the polled inputs and the replies of the script so far |
| `LiveAccounts.ScriptConserves` | src/execraft/agents/live_session.py:75-85 | while stdin is open, everything asked for is written or waits |
| `LiveStdin.ClosedExactly` | src/execraft/agents/live_session.py:189-225 | stdin is closed exactly when the completed protocol closes it, a write broke with bytes waiting, or an idle stdin was refused registration |
| `LiveStdin.ScriptCloses` | src/execraft/agents/live_session.py:189-225 | the same of whole iterations, whatever is received |
| `LiveStdin.CompletedExactly` | src/execraft/agents/live_session.py:214-225 | the protocol is completed exactly when some answer has said so |
| `LiveStdin.WritesExactly` | src/execraft/agents/live_session.py:323-351 | a write takes what the environment allows of what was asked for and not written, and nothing once stdin is closed |
| `LiveAccounts.OutputsExactly` | src/execraft/agents/live_session.py:369-377 | output is noted exactly at the times bytes came on stdout or stderr |
| `LiveAccounts.ActivityExactly` | src/execraft/agents/live_session.py:334-407 | activity is noted exactly at output, at writes that took bytes, and at due heartbeats that found the processor busy |
| `LiveAccounts.ProgressExactly` | src/execraft/agents/live_session.py:243-248 | the rolling deadline counts from the entry that delivered the latest message |
| `LiveAccounts.StreamsExactly` | src/execraft/agents/live_session.py:353-370 | a stream is open until it is found at its end |
| `LiveAccounts.HeartbeatExactly` | src/execraft/agents/live_session.py:399-434 | the next heartbeat is due an interval after the last one |
| `LiveAccounts.ExitsExactly` | src/execraft/agents/live_session.py:307-311 | a session whose process is gone ends exactly when nothing is left to write and both streams are at their end, or a second after the process was first found gone |
| `LiveAccounts.GoneSince` | src/execraft/agents/live_session.py:307-309 | a process counts as gone since the first iteration that found it so |
| `LiveAccounts.WatchdogExactly` | src/execraft/agents/live_session.py:272-305 | which watchdog fires after some iterations, as an iff for each, by what the environment did in them |
| `LiveAccounts.EndsOnce` | src/execraft/agents/live_session.py:253-435 | a script has one end: where, after how many entries, and how |
| `LiveAccounts.HeadEndsExactly` | src/execraft/agents/live_session.py:272-311 | a session ends by a watchdog, or the end of the process, exactly when that is the first thing to stop it |
| `LiveAccounts.EndsBecause` | src/execraft/agents/live_session.py:272-311 | what had been quiet, and for how long, or why the process is left, when a session ends so |
| `TerminalMessage.CollectChunks` | src/execraft/agents/opencode_adapter.py:549-566 | the loop collects, for every id, its texts in order and its last position |
| `TerminalMessage.LastUnderIsLast` | src/execraft/agents/opencode_adapter.py:565-566 | the last position of an id is that of its last text |
| `TerminalMessage.ExtractTextMessages` | src/execraft/agents/opencode_adapter.py:534-572 | one message per id, with all its text in event order, ordered by last occurrence; every text event is in one |
| `TerminalMessage.MessagesDetermined` | src/execraft/agents/opencode_adapter.py:534-572 | these conditions fix the result, and no id occurs twice |
| `TerminalMessage.AnonymousAlone` | src/execraft/agents/opencode_adapter.py:558-563 | a text without an id is isolated exactly when no other text carries its made-up id |
| `TerminalMessage.AnonymousCollides` | src/execraft/agents/opencode_adapter.py:558-565 | a text with the id `anonymous-1` and one without an id end in one message |
| `TerminalMessage.ExtractTerminalMessage` | src/execraft/agents/opencode_adapter.py:575-617 | the last text that may answer the last `step_finish`: under its message id, or without one any since the last `step_start`; none exactly when there is none, and then without text from before that start; from an earlier step exactly when none follows the previous `step_finish` |
| `TerminalMessage.AnswerDetermined` | src/execraft/agents/opencode_adapter.py:575-617 | there is one answer and no more |
| `TerminalMessage.AnswerIsRight` | src/execraft/agents/opencode_adapter.py:575-617 | what the answer is, over the events alone: of a step without an id the message of its last text since its `step_start`, with the texts since then only; of one with an id all the texts filed under that |
| `TerminalMessage.MayAnswerExactly` | src/execraft/agents/opencode_adapter.py:596-617 | the texts that may answer are those with no `step_start` between them and the step, or those filed under its id |
| `TerminalMessage.AnsweredLast` | src/execraft/agents/opencode_adapter.py:575-617 | the answer ends at the last text that may answer, and is missing exactly when there is none |
| `TerminalMessage.FreshExactly` | src/execraft/agents/opencode_adapter.py:575-617 | it is of the last step exactly when such a text stands between the last two `step_finish` events |
| `TerminalMessage.StaleAnswer` | src/execraft/agents/opencode_adapter.py:606-617 | a last step without id, start or text hands back the text of the one before |
| `TerminalMessage.StaleSharedAnswer` | src/execraft/agents/opencode_adapter.py:596-604 | so does one that shares its message id |
| `TerminalMessage.ErrorFreeExactly` | src/execraft/agents/opencode_adapter.py:638-648 | a run counts as free of errors exactly when its first error event, if any, has no usable message |
| `TerminalMessage.Conclude` | src/execraft/agents/opencode_adapter.py:440-482 | failure exactly on a bad exit code or a usable error; success only with that answer, right over the events alone, and whether it is fresh; no answer only when no text may answer |
| `TerminalMessage.ErrorAndSuccess` | src/execraft/agents/opencode_adapter.py:444-446 | a stream with error events that is reported as success |
| `PlanContract.PopFields` | src/execraft/plan_contract.py:201-204 | the loop removes exactly the known fields and lists each once |
| `PlanContract.CanonicalizePackage` | src/execraft/plan_contract.py:191-225 | one package and its criteria, with what was removed |
| `PlanContract.CanonicalizePackages` | src/execraft/plan_contract.py:187-226 | the loop over a list of packages, with removals and completed ids |
| `PlanContract.CanonicalizeLegacyPlanGraphMapping` | src/execraft/plan_contract.py:169-232 | the canonical graph, one label for each removed field, completed ids once in order, and `changed` exactly when the graph differs |
| `PlanContract.OnlyLegacyFieldsGo` | src/execraft/plan_contract.py:201-226 | no package or criterion is dropped or moved; each loses its known runtime fields and keeps every other field |
| `PlanContract.ChangedExactly` | src/execraft/plan_contract.py:124-126 | nothing is listed exactly when nothing changes |
| `PlanContract.CompletedExactly` | src/execraft/plan_contract.py:195-199 | the completed ids are the labels of exactly the packages whose stage or status, stripped, spells `completed` in any case |
| `PlanLabels.RemovedExactly` | src/execraft/plan_contract.py:201-222 | a label is reported exactly when it stands for a runtime field of a package, or of a criterion of one, in either list |
| `PlanLabels.LabelExactly` | src/execraft/plan_contract.py:195 | the id in a label: the own one, stripped, unless that is missing or blank; else the position |
| `PlanContract.CanonicalTwice` | src/execraft/plan_contract.py:169-232 | canonicalizing twice is canonicalizing once |
| `PlanContract.ValidateDeclarativePlanGraphMapping` | src/execraft/plan_contract.py:129-166 | accepted exactly when the checked list is declarative; otherwise the first package at fault and its fields |
| `PlanContract.ValidExactly` | src/execraft/plan_contract.py:129-232 | the projection validates exactly when every key of the checked list was declarative or known-legacy |
| `Sequences.Deduplicated` | src/execraft/plan_contract.py:231 | each element once |
| `Sequences.DistinctOnce` | src/execraft/plan_contract.py:231 | in the order of first occurrence |
| `FileTree.Moved` | src/execraft/catalog_archive.py:340-344 | a rename carries every entry below a directory |
| `FileTree.MoveBack` | src/execraft/catalog_archive.py:376-384 | renaming there and back restores every entry |
| `FileTree.MoveWellFormed` | src/execraft/catalog_archive.py:340-344 | a rename keeps the tree a tree |
| `FileTree.AbsentIsFree` | src/execraft/catalog_archive.py:155-158 | if a target does not exist, nothing lies below it |
| `ArchiveEffects.VerifyExactly` | src/execraft/catalog_archive.py:299-328 | verification is ok exactly when the inventories are the same map |
| `ArchiveEffects.InventoryExactly` | src/execraft/catalog_archive.py:697-723 | the inventory has every regular file at any depth but the metadata document at the top and what is below a history directory, each with the stamp of its content |
| `ArchiveEffects.VerifyDetects` | src/execraft/catalog_archive.py:299-328 | with a collision-free digest, exactly when the covered files are the same |
| `ArchiveEffects.ShelvedEffect` | src/execraft/catalog_archive.py:330-344 | archiving moves the dossier as it is, adds the metadata document and leaves the rest alone |
| `ArchiveEffects.UnshelvedEffect` | src/execraft/catalog_archive.py:372-390 | reactivation moves it back, trading the metadata for a history record |
| `ArchiveEffects.RoundTrip` | src/execraft/catalog_archive.py:330-390 | an archived and reactivated dossier is what it was with one history record more |
| `ArchiveEffects.RoundTripElsewhere` | src/execraft/catalog_archive.py:330-390 | nothing else changes but parent directories that are made |
| `ArchiveEffects.ManyCyclesKeepFiles` | src/execraft/catalog_archive.py:330-390 | any number of history records leaves files and inventory as they were |
| `ArchiveEffects.ManyCyclesKeepRecords` | src/execraft/catalog_archive.py:384-390 | with distinct archive ids every record is still there |
| `CatalogGuards.UntouchedVerifies` | src/execraft/catalog_archive.py:697-723 | the metadata document adds nothing to the inventory |
| `CatalogGuards.VerifiedIsIntact` | src/execraft/catalog_archive.py:299-328 | what a verified inventory says of the tree, path by path |
| `CatalogGuards.TamperedIsRefused` | src/execraft/catalog_archive.py:346-371 | with a collision-free digest, two archives with the same metadata that differ in a covered file are not both reactivated |
| `CatalogConditions.TaskArchivableExactly` | src/execraft/catalog_archive.py:142-172 | when archiving a task goes through, over the paths of the tree |
| `CatalogConditions.ProjectArchivableExactly` | src/execraft/catalog_archive.py:174-217 | when archiving a project does |
| `CatalogConditions.RestorableExactly` | src/execraft/catalog_archive.py:346-390 | when reactivation goes through: a metadata document of that place, exactly the files it lists, and nothing in the way of the move, the registration or the history record |
| `CatalogConditions.LoadExactly` | src/execraft/catalog_archive.py:454-487 | which metadata is loaded from an archived directory |
| `CatalogConditions.SafeIdExactly` | src/execraft/catalog_archive.py:681-685 | an id is safe exactly when it is an identifier once its dashes are underscores |
| `CatalogPlaces.KeptInventory` | src/execraft/catalog_archive.py:697-723 | a dossier kept but for its metadata document and history has the same inventory |
| `CatalogPlaces.OperationKeepsContents` | src/execraft/catalog_archive.py:142-248 | any operation, whatever becomes of it, keeps the contents of every task dossier, wherever that is then |
| `CatalogPlaces.TaskOperationKeepsProjects` | src/execraft/catalog_archive.py:142-233 | a task operation leaves every project directory either active or archived |
| `CatalogPlaces.ProjectOperationKeepsProjects` | src/execraft/catalog_archive.py:174-248 | so does a project operation |
| `CatalogPlaces.TaskOperationKeepsFiles` | src/execraft/catalog_archive.py:142-233 | a task operation keeps the files of every project outside its tasks, wherever it is |
| `CatalogPlaces.ProjectOperationKeepsFiles` | src/execraft/catalog_archive.py:174-248 | so does a project operation |
| `CatalogPlaces.CatalogKeepsInventories` | src/execraft/catalog_archive.py:142-248 | what `Perform` keeps includes the inventory of every task dossier |
| `CatalogCycles.ShelvedIsRestorable` | src/execraft/catalog_archive.py:346-390 | a task just archived can be reactivated exactly when its history record can be written; else it strands |
| `CatalogCycles.ProjectIsRestorable` | src/execraft/catalog_archive.py:346-390 | the same of a project |
| `CatalogCycles.HistoryFileStrands` | src/execraft/catalog_archive.py:372-390 | a project with a regular file in the place of its history can be archived, and its history record cannot be written |
| `CatalogCycles.TaskCycleReady` | src/execraft/catalog_archive.py:142-233 | after a cycle a task meets every guard of archiving and reactivation again |
| `CatalogCycles.ProjectCycleReady` | src/execraft/catalog_archive.py:174-248 | so does a project |
| `CatalogCycles.RecordedAllRecordable` | src/execraft/catalog_archive.py:384-390 | earlier history records are never in the way of another |
| `CatalogPlaces.TaskOperationKeepsPlaces` | src/execraft/catalog_archive.py:142-233 | a task operation, successful or not, leaves every dossier in exactly one place |
| `CatalogPlaces.ProjectOperationKeepsPlaces` | src/execraft/catalog_archive.py:174-248 | so does a project operation |
| `CatalogArchive.CatalogArchiveManager.MoveIntoArchive` | src/execraft/catalog_archive.py:330-344 | succeeds exactly when nothing is in the way and nothing fails; otherwise the tree is as before up to made parents |
| `CatalogArchive.CatalogArchiveManager.ArchiveTask` | src/execraft/catalog_archive.py:142-172 | when archiving a task succeeds, exactly, what it does then, and that a failure loses nothing |
| `CatalogArchive.CatalogArchiveManager.ArchiveProject` | src/execraft/catalog_archive.py:174-217 | the same for a project and its registration |
| `CatalogArchive.CatalogArchiveManager.MoveProjectIn` | src/execraft/catalog_archive.py:206-216 | the rename and the registration, undone when that cannot be removed |
| `CatalogArchive.CatalogArchiveManager.Reactivate` | src/execraft/catalog_archive.py:346-390 | succeeds exactly when metadata, inventory, destination and system calls allow, and then the directory was intact, path by path; strands exactly when only the history record cannot be written; otherwise the tree is as before |
| `CatalogArchive.CatalogArchiveManager.MoveOut` | src/execraft/catalog_archive.py:372-383 | the rename and the registration, undone when the registration fails |
| `CatalogArchive.CatalogArchiveManager.WriteHistory` | src/execraft/catalog_archive.py:384-390 | the history record replaces the metadata document, or fails after the move |
| `CatalogArchive.CatalogArchiveManager.ReactivateTask` | src/execraft/catalog_archive.py:219-233 | exactly when a task comes back, always under an active project, and exactly when it comes back without its history record |
| `CatalogArchive.CatalogArchiveManager.ReactivateProject` | src/execraft/catalog_archive.py:235-248 | exactly when a project comes back, and its registration with it, and exactly when it comes back without its record |
| `CatalogArchive.CatalogArchiveManager.ArchiveAndReactivateTask` | src/execraft/catalog_archive.py:142-233 | one cycle without failing calls: exactly when it goes through, with one history record more and ready for the next, and exactly when it ends in the history window |
| `CatalogArchive.CatalogArchiveManager.ArchiveAndReactivateProject` | src/execraft/catalog_archive.py:174-248 | the same for a project, with its registration as it was |
| `CatalogArchive.CatalogArchiveManager.CycleTask` | src/execraft/catalog_archive.py:142-233 | any number of cycles: all go through exactly when the first can and no record is in the way; then the dossier is what it was with every record |
| `CatalogArchive.CatalogArchiveManager.CycleProject` | src/execraft/catalog_archive.py:174-248 | the same for a project |
| `CatalogArchive.CatalogArchiveManager.Perform` | src/execraft/catalog_archive.py:142-248 | over any sequence of operations with any failures, every task dossier that starts in one place ends in exactly one with its contents, and every project directory stays either active or archived with its files |
| `PermanentRemoval.SortDeepestFirst` | src/execraft/permanent_removal.py:446 | the distinct paths, deepest first |
| `PermanentRemoval.PrunedOnce` | src/execraft/permanent_removal.py:447-457 | removing one more subtree from a pruned tree prunes it too |
| `PermanentRemoval.StillThere` | src/execraft/permanent_removal.py:447-449 | a planned path that existed is still there at its turn |
| `PermanentRemoval.PermanentRemovalService.RemovePaths` | src/execraft/permanent_removal.py:442-457 | removes exactly the union of the planned subtrees and reports exactly the planned paths that existed; stops at the first that cannot be removed, of which a part may be gone |
| `PermanentRemoval.PlannedApart` | src/execraft/permanent_removal.py:129-168 | no path planned for an external project is in, at or above its directory |
| `PermanentRemoval.PlannedExactly` | src/execraft/permanent_removal.py:222-269 | which paths are planned, one by one: three of the project, and of each task its dossiers, registries, state, completion archive and start journal, outside an external project |
| `PermanentRemoval.PermanentRemovalService.PreviewProject` | src/execraft/permanent_removal.py:129-168 | the plan lists exactly the owned paths that exist, each once |
| `PermanentRemoval.PermanentRemovalService.RemoveProject` | src/execraft/permanent_removal.py:170-196 | succeeds exactly when every planned path can be removed, and then removes exactly what is at or below one; a failure removes nothing else; an external project directory is untouched |
| `Render.OverlayWins` | src/execraft/render.py:172-189 | a project's file replaces the built-in one of the same name, and no other |
| `Render.ThenWritten` | src/execraft/render.py:87-92 | writing two sets of files in turn is writing one overridden by the other, on disk and in the records |
| `Render.Deduplicate` | src/execraft/render.py:87-92 | the last record for each path, in order of path |
| `Render.OverlayAddsOnly` | src/execraft/render.py:296-334 | an accepted overlay changes neither the schema, the permissions nor any generated provider block, and everything else of it is kept |
| `Render.ManifestUnlisted` | src/execraft/render.py:660-709 | no rendered file is the manifest itself |
| `Render.RenderedAgrees` | src/execraft/render.py:507-520 | the manifest lists exactly the rendered files, each with the hash of what is on disk and its source |
| `Render.RefreshKeepsAgreement` | src/execraft/render.py:348-418 | a refresh touches the configuration and the manifest only, and no tracked file loses its agreement |
| `Render.RefreshOnlyManaged` | src/execraft/render.py:376-391 | only blocks of the registry change, and they end up as registered |
| `Render.RefreshTwice` | src/execraft/render.py:348-396 | a second refresh returns no id and writes nothing |
| `RenderedFiles.SeenExactly` | src/execraft/render.py:148-709 | at every path stands what the last step writes there: skills, agents and commands with the project's over the built-in ones and without `.gitkeep`, configurations, instructions, container and editor files; nothing anywhere else |
| `RenderedFiles.RendersExactly` | src/execraft/render.py:660-709 | a project renders exactly when no directory is missing, its overlay is an object that shares no provider with the registry, and its settings are an object |
| `RenderedFiles.ModePrevails` | src/execraft/render.py:451-464 | the policy's mode prevails in the Claude settings, and nothing else of them changes |
| `RenderedFiles.PlainConfig` | src/execraft/render.py:296-304 | the configuration without an overlay |
| `RenderedFiles.CleanedExactly` | src/execraft/render.py:673-680 | cleaning takes away the six generated trees and three generated files, and nothing else |
| `RenderedFiles.RefreshExactly` | src/execraft/render.py:368-396 | read back: exactly the missing or different blocks are returned, those of the registry stand as registered, every other key as it was |
| `WorkspaceShell.Shell.WriteFile` | src/execraft/render.py:59-84 | one file and its record |
| `WorkspaceShell.Shell.CopyDirectory` | src/execraft/render.py:132-145 | the loop writes and records exactly the files of a source directory |
| `WorkspaceShell.Shell.CopyLayers` | src/execraft/render.py:118-145 | the loop over layers writes the overridden union |
| `WorkspaceShell.Shell.CopyProviderFiles` | src/execraft/render.py:172-189 | built-in and project files of one category, without `.gitkeep` |
| `WorkspaceShell.Shell.BuildConfig` | src/execraft/render.py:296-334 | the configuration, or the error that rejects the overlay |
| `WorkspaceShell.Shell.RenderSkills` | src/execraft/render.py:148-169 | skills, or a missing directory |
| `WorkspaceShell.Shell.RenderOpencode` | src/execraft/render.py:275-345 | the OpenCode files, or the error; the manifest is not touched |
| `WorkspaceShell.Shell.RenderClaude` | src/execraft/render.py:431-470 | the Claude files, with the policy's mode over the project's settings |
| `WorkspaceShell.Shell.RenderFiles` | src/execraft/render.py:683-707 | all steps in order, or the first error |
| `WorkspaceShell.Shell.WriteManifest` | src/execraft/render.py:507-520 | the manifest of a list of records |
| `WorkspaceShell.Shell.RenderWorkspace` | src/execraft/render.py:660-709 | the disk holds what the project renders to and a manifest that agrees with it; an unowned workspace is not cleaned |
| `WorkspaceShell.Shell.UpdateManifestEntry` | src/execraft/render.py:399-418 | one entry of a readable manifest that has it, nothing otherwise |
| `WorkspaceShell.Shell.UpdateProviders` | src/execraft/render.py:390 | the loop writes the stale blocks over the configured ones |
| `WorkspaceShell.Shell.RefreshOpencodeProviders` | src/execraft/render.py:348-396 | disk and returned ids, sorted, are those of the refresh function |
| `Text.SplitJoins` | src/execraft/agents/opencode_events.py:33 | splitting loses nothing and leaves no separator in a part |
| `Text.SplitAppend` | src/execraft/agents/opencode_events.py:33-42 | two pieces split like the whole, but for the part at the cut |
| `Text.Stripped` | src/execraft/agents/codex_live.py:176 | what is left is the part between the first and the last character that is not white space |
| `Text.DecimalReads` | src/execraft/agents/opencode_adapter.py:562-563 | a numeral has nothing but digits, and they give back the number |
| `Text.DecimalInjective` | src/execraft/agents/opencode_adapter.py:562-563 | made-up message ids of different numbers differ |

## Left out

- Processes, pipes, signals, threads, file locks, permissions and temporary files: the
  environment of a session is a script of clock readings, reads and writes; the environment of an
  archive operation says which system calls fail.
- Text formats: YAML and JSON text, UTF-8 decoding and SHA-256 are functions; only the byte
  lengths of characters, the JSON round trip of the documents written (`Kept`) and, where named, a
  collision-free digest are assumed.
- Python's identification of `True`, `1` and `1.0` as dictionary values and keys, and mapping keys
  that are not strings: JSON values of different kinds differ here, and keys are text.
- `casefold`, `lower` and `isidentifier` outside ASCII, and JSON-RPC ids that are booleans or floats.
- Event texts and console emissions, usage and cost (whose extraction raises when the `part` of a step is
  not a mapping), activity descriptions and `final_message` selection: presentation, or one-branch facts.
- A bridge or controller without a callback, which ignores its input.
- The order in which `required` lists the properties of a closed schema, and the order of removal
  labels within one package: Python leaves the latter to set iteration; both are modelled up to order.
- OutputSchema.TransformationStrengthens: one direction, because the native reading is stricter by
  design; `TransformedMeansNative` gives its exact meaning.
- Validation of single configuration fields (capabilities, efforts, limits, names of providers and
  profiles): `Validator` and the parsed records are arguments.
- ExecutionCompat.RoundTripExactly: for lists with unique provider ids, as the parser guarantees; with
  repeated ids a lookup finds the first config of that id.
- Runtimes other than native ones have no projection and only their error is modelled; execution
  targets, skills and OpenClaw options are carried but not validated.
- The clock within one read of a live session: all messages of a chunk share the reading after it.
- Exceptions out of message callbacks and classifiers of a live session; the capture buffers and the
  heartbeat snapshot.
- Projects registered outside the control plane cannot be archived as a whole and are not in the
  archive model.
- CatalogArchive.CatalogArchiveManager.ArchiveTask: the view that `inspect` reads after the move, and the
  error when that read fails, are not modelled; the result is that of the move.
- CatalogArchive.CatalogArchiveManager.ArchiveProject: the same.
- CatalogArchive.CatalogArchiveManager.ReactivateTask: the entry read from TASK.yaml after the move, and the
  error when that is not a mapping, are not modelled; the dossier is back by then.
- CatalogArchive.CatalogArchiveManager.ReactivateProject: the same for project.yaml.
- Symbolic links: the trees have none.
- PermanentRemoval.PermanentRemovalService.RemoveProject: the registration, the archive index and the pruning
  of empty parents in the cited lines are not modelled.
- Branch deletion, archive-index rewriting, workspace retirement, active-task pointers, driver checks
  and the pruning of empty parents during permanent removal; registry and state locations come from
  modules that are not part of this model and are arguments inside the owned roots.
- Removal of a single task: the same loop over the paths of one task, after checks made by other modules.
- Policy loading, the editor files' contents and the TOML rewriting of a workspace: arguments of the
  project value. A `settings.json` that is an array is rejected here; Python accepts an empty one.
- Aliasing: documents are values, so that copies made before an update are not modelled.
- The orchestrator, scheduler, journal and project-execution packages, the command line, the GUI and
  installers.
