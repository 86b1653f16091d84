# OpenClaw algorithms, verified

Dafny models of the algorithms and state machines of OpenClaw that carry real invariants, with
proofs over every input, every run and every interleaving. `dafny verify dfyconfig.toml` checks
everything.

| file | models |
|---|---|
| `Graphs.dfy`, `StronglyConnected.dfy`, `ImportCycles.dfy` | the runtime import-cycle check: component search, cycle witness, verdict |
| `ImportWorklist.dfy` | the worklist over relative imports |
| `TranslationTree.dfy`, `TranslationObjects.dfy` | flattening and rebuilding translation trees, on values and in place |
| `TranslationBatches.dfy`, `TranslateBatch.dfy`, `PiRpcClient.dfy`, `SyncLocale.dfy`, `SyncOutcomes.dfy` | packing, retrying and splitting, the RPC client, one locale's sync, what a sync reports and writes |
| `ToggleStore.dfy` | the locked read-modify-write of the session toggles |
| `RecallCache.dfy`, `RecallPrefix.dfy`, `Whitespace.dfy` | the recall cache; the injected prompt prefix and its stripper |
| `MapConcurrent.dfy`, `JpegScanner.dfy` | the bounded concurrent map; the JPEG size reader |
| `DiscoveryCache.dfy`, `BedrockEntries.dfy`, `BedrockModels.dfy` | the Bedrock discovery cache; the entries it lists and the merged model list |
| `RunCommand.dfy` | the child-process supervisor |
| `Utf16.dfy` | surrogate-safe slicing |
| `Basics.dfy` | optional values, lists without repetition, ASCII lower case |

Code that updates variables is modelled by classes and loops; each method is proved equal to a
function, and the theorems are about that function. An event-driven component has a `State`, an
`Event`, the step `Next` and the state `After` a run of events; what one callback, or the code
between two awaits, does is one step, and its class method is proved to take `After(past)` to
`After(past + [event])`. Theorems about `After` therefore hold in every order of events.

## What the code does that one might not expect

- The component search takes an empty file name for an empty stack: its "stack underflow" error
  is thrown exactly when the empty string is in the graph (`CollectStronglyConnectedComponents`).
- `runCommand` arms its kill-wait timer after asking for the kill. If that request makes the child
  report an error at once, the promise settles first and the timer stays armed until it fires
  (`ArmedAfterSettlingIff`, `KillErrorLeavesTimerArmed`).
- A toggle whose read fails for any reason starts from an empty store and, if its write succeeds,
  erases every other session's toggle. `NoLostUpdateIff` says which runs lose an update.
- The JPEG scanner knows no fill bytes: an extra 0xff before a marker is read as the marker
  (`FillBytesHideFrame`). It also needs one byte after the nine it reads of a frame header
  (`ReturnsSizeIff`).
- Joining a Bedrock fetch that fails gives its rejection, starting it gives an empty list
  (`CallersAgree`).
- `--force` changes nothing a sync decides, reports or writes: the branch it guards is never
  reached with an existing text (`UntranslatedIsNew`, `ForceIsInert`).
- The error for a missing translation names the key, so a key containing "timed out" is taken for a
  timeout and splits its batch (`MissingLooksTimedOutIff`, `TimedOutKeySplits`). The attempt bound
  covers this.
- Flatten and rebuild drop objects without texts, split dotted keys, and drop an empty key above
  other keys at the top level, where two texts may then share one flat key; nothing else is changed
  (`RoundTripIff`, `TextsKeptIff`, `EmptyKeyCollides`).

## Model

| member | source | states |
|---|---|---|
| `ImportCycles.CheckImportCycles` | openclaw/scripts/check-import-cycles.ts:253-276 | For every import graph: the check exits 0 exactly when the graph has no closed walk of imports; otherwise every printed cycle is one, and every cyclic strongly connected component gets a printed cycle. It throws only when some file name is the empty string. |
| `ImportCycles.CollectStronglyConnectedComponents` | openclaw/scripts/check-import-cycles.ts:155-208 | The component search ends; it throws "stack underflow" exactly when an empty file name is in the graph; else it reports exactly the maximal mutually reachable sets that carry a cycle, each once, pairwise disjoint, no file repeated. |
| `ImportCycles.ComponentSearch.Visit` | openclaw/scripts/check-import-cycles.ts:165-197 | A visit keeps the search invariant, visits its node once, leaves the stack below it as it was, and fails only on an empty name. |
| `ImportCycles.ComponentSearch.PopComponent` | openclaw/scripts/check-import-cycles.ts:184-193 | The pop loop removes exactly the part of the stack from the node up and returns it without repetition. |
| `ImportCycles.ComponentSearch.CloseComponent` | openclaw/scripts/check-import-cycles.ts:181-196 | At the end of a visit the component is closed exactly at its root, and the state is again one a finished visit may leave. |
| `ImportCycles.EmptyReportIffAcyclic` | openclaw/scripts/check-import-cycles.ts:253-268 | Nothing is reported if and only if no closed walk exists. |
| `ImportCycles.OnCycleIsCycle` | openclaw/scripts/check-import-cycles.ts:194-196 | A file that reaches itself through at least one import is exactly a file that starts a closed walk. |
| `ImportCycles.SccOf` | openclaw/scripts/check-import-cycles.ts:155-208 | Every file on a cycle lies in a cyclic component, so the report misses none. |
| `StronglyConnected.OpenVisit` | openclaw/scripts/check-import-cycles.ts:165-170 | Pushing an unvisited node, with index and low link the next number, enters the visit invariant. |
| `StronglyConnected.AfterChild` | openclaw/scripts/check-import-cycles.ts:173-175 | After an unvisited import returns, taking the smaller low link keeps the visit invariant: a low link is the index of a stacked node that is reached, and bounds every edge back below. |
| `StronglyConnected.AfterStacked` | openclaw/scripts/check-import-cycles.ts:176-178 | Taking the index of an import that is on the stack keeps the visit invariant. |
| `StronglyConnected.AfterFinished` | openclaw/scripts/check-import-cycles.ts:172-179 | An import whose component is closed needs no action: it leads to no open node. |
| `StronglyConnected.KeepOpen` | openclaw/scripts/check-import-cycles.ts:181-183 | A node whose low link is below its index reaches an open node beneath it, so leaving it stacked is right. |
| `StronglyConnected.TopMutual` | openclaw/scripts/check-import-cycles.ts:181-193 | At a root, every node above it on the stack is mutually reachable with it. |
| `StronglyConnected.TopMaximal` | openclaw/scripts/check-import-cycles.ts:181-193 | At a root, no node outside the popped part is mutually reachable with a node in it. |
| `StronglyConnected.TopIsScc` | openclaw/scripts/check-import-cycles.ts:181-193 | What a root pops is a whole strongly connected component. |
| `StronglyConnected.CyclicScc` | openclaw/scripts/check-import-cycles.ts:194-196 | The test "more than one file, or a self-import" is exactly whether the component carries a cycle. |
| `StronglyConnected.PopVisited` | openclaw/scripts/check-import-cycles.ts:181-197 | Popping a component and reporting it when cyclic restores the invariant of a finished visit. |
| `ImportCycles.FindCycleWitness` | openclaw/scripts/check-import-cycles.ts:210-243 | On a reported component the witness is a real cycle inside it that repeats no file but its end; the fallback to the bare component is not taken. |
| `ImportCycles.WitnessSearch.Visit` | openclaw/scripts/check-import-cycles.ts:219-242 | When every file of the component imports a file of the component, the search finds a cycle without stepping back: the path only grows. |
| `ImportCycles.CyclicSccIsProductive` | openclaw/scripts/check-import-cycles.ts:210-243 | In a cyclic component every file imports a file of the component, which is what rules the fallback out. |
| `ImportCycles.CloseWalk` | openclaw/scripts/check-import-cycles.ts:228-231 | The path from the repeated file on, closed by it, is a cycle in the component with no other repetition. |
| `ImportCycles.IndexOf` | openclaw/scripts/check-import-cycles.ts:228 | The index found is the first position of the file, or -1 if there is none. |
| `ImportWorklist.CollectRelativeImportGraph` | openclaw/scripts/load-channel-config-surface.ts:117-144 | The worklist ends, reads each file once and returns exactly the files reachable from the entry; it fails exactly when a reachable file cannot be read. |
| `ImportWorklist.StepFrontier` | openclaw/scripts/load-channel-config-surface.ts:122-141 | One step keeps it true that everything imported by a read file is read or queued and that everything queued is reachable. |
| `ImportWorklist.Finished` | openclaw/scripts/load-channel-config-surface.ts:122-144 | With an empty queue the files read are exactly those reachable. |
| `TranslationTree.FlattenIsLeaves` | openclaw/scripts/control-ui-i18n.ts:281-291 | Flattening a tree with the conditions of `RoundTripIff`, empty objects allowed, lists its leaves in order under their dotted paths, none overwriting another. |
| `TranslationTree.FlatKeysPrefixFree` | openclaw/scripts/control-ui-i18n.ts:281-291 | No flat key equals another or continues another after a dot. |
| `TranslationTree.DottedKeepsPrefix` | openclaw/scripts/control-ui-i18n.ts:281-308 | Dotting paths of dot-free keys is injective and adds no prefix relation. |
| `TranslationTree.SplitDotted` | openclaw/scripts/control-ui-i18n.ts:294 | Splitting a dotted key gives its parts back. |
| `TranslationTree.RebuildOfFlatten` | openclaw/scripts/control-ui-i18n.ts:293-308 | Rebuilding from the flat map gives the tree without its empty objects, in the same key order, and never replaces a value already stored. |
| `TranslationTree.RoundTripIff` | openclaw/scripts/control-ui-i18n.ts:281-308 | For every tree: flatten then rebuild returns the tree itself if and only if no object is empty, no key holds a dot or is listed twice, and no object stands under an empty key at the top level. Empty keys further down are kept. |
| `TranslationTree.TextsKeptIff` | openclaw/scripts/control-ui-i18n.ts:281-308 | For every tree: rebuilding keeps every text in its place, losing only empty objects, if and only if the tree without its empty objects meets those conditions. |
| `TranslationTree.RebuildSound` | openclaw/scripts/control-ui-i18n.ts:293-308 | Whatever flat map it starts from, rebuilding makes no dotted key, no key twice and no empty object, and no object under an empty top-level key unless some flat key starts with a dot. |
| `TranslationTree.FlattenNoLeadingDot` | openclaw/scripts/control-ui-i18n.ts:281-291 | A tree without dotted keys has no flat key that starts with a dot. |
| `TranslationTree.FlattenPrune` | openclaw/scripts/control-ui-i18n.ts:281-291 | Objects without texts leave no trace in the flat map. |
| `TranslationTree.PruneIdentityIff` | openclaw/scripts/control-ui-i18n.ts:281-308 | Dropping objects without texts changes nothing if and only if no object is empty. |
| `TranslationTree.EmptyKeyCollides` | openclaw/scripts/control-ui-i18n.ts:283 | The smallest tree outside the condition of `TextsKeptIff` that loses a text: an object under an empty top-level key gives two leaves one flat key. |
| `TranslationTree.SetPathGet` | openclaw/scripts/control-ui-i18n.ts:293-308 | For every tree: an assignment stores its text, takes away the texts above and below its path, and leaves every other text as it was. |
| `TranslationTree.SetPathOrder` | openclaw/scripts/control-ui-i18n.ts:300-307 | An assignment keeps the order of an object's keys and puts a new key last. |
| `TranslationTree.RelabelRoundTrip` | openclaw/scripts/control-ui-i18n.ts:1135-1138 | The locale written for a source, read back and flattened, has exactly the source's keys in order with the new texts. |
| `TranslationTree.MapSetAt` | openclaw/scripts/control-ui-i18n.ts:285 | Setting a flat key keeps an existing key's place and puts a new one last. |
| `TranslationObjects.FlatMap.Set` | openclaw/scripts/control-ui-i18n.ts:285 | The filled map changes in place as `Map.set` does. |
| `TranslationObjects.FlattenTranslations` | openclaw/scripts/control-ui-i18n.ts:281-291 | The recursive fill of one shared map leaves exactly the flat map of the tree appended to what was there. |
| `TranslationObjects.TranslationObject.SetNestedValue` | openclaw/scripts/control-ui-i18n.ts:293-308 | The in-place setter turns the object graph into the tree with that path set, keeps the objects unshared, and changes nothing off the path. |
| `TranslationObjects.TranslationObject.PutSlot` | openclaw/scripts/control-ui-i18n.ts:300-307 | Assigning a property replaces an existing one in place or adds it last. |
| `TranslationObjects.TranslationObject.MakeBelow` | openclaw/scripts/control-ui-i18n.ts:299-303 | Where no object is found on the way, a text included, a new object takes its place and the walk goes on in it. |
| `TranslationObjects.TranslationObject.SetBelow` | openclaw/scripts/control-ui-i18n.ts:305 | Where an object is found the walk goes on in it, and the parent sees the change. |
| `TranslationObjects.BuildNextMap` | openclaw/scripts/control-ui-i18n.ts:1135-1138 | The loop over the source keys builds, in place, the tree that rebuilding with the new texts gives. |
| `TranslationBatches.BuildTranslationBatches` | openclaw/scripts/control-ui-i18n.ts:659-683 | The batches concatenate to the items; each has 1 to 20 items and, if more than one, fits the budget at its estimate plus 2 per item; a batch closes only when full or when the next item would overflow. |
| `TranslationBatches.CostSnoc` | openclaw/scripts/control-ui-i18n.ts:499-501 | The running total the packer keeps grows by the length of key and text and 10 per item, from 2. |
| `TranslationBatches.GreedyIsUnique` | openclaw/scripts/control-ui-i18n.ts:659-683 | The closing rule determines the batches: there is one greedy packing. |
| `TranslationBatches.GreedyIsFewest` | openclaw/scripts/control-ui-i18n.ts:659-683 | From any start no later than another packing's start, greedy packing needs no more batches. |
| `TranslationBatches.PackerUsesFewest` | openclaw/scripts/control-ui-i18n.ts:659-683 | No in-order packing within the same limits uses fewer prompts. |
| `TranslateBatch.TranslateBatch` | openclaw/scripts/control-ui-i18n.ts:925-987 | The retry-and-split loop computes, for every service, the result and the attempt number of the recursive specification. |
| `TranslateBatch.ReadTranslations` | openclaw/scripts/control-ui-i18n.ts:942-949 | Reading the reply yields the items' texts or the error for the first item without a non-blank text. |
| `TranslateBatch.AcceptedIff` | openclaw/scripts/control-ui-i18n.ts:937-954 | An attempt is accepted if and only if its reply is a JSON object with a string holding some non-blank character for every item; the result is then exactly those texts, after that one attempt. |
| `TranslateBatch.AfterError` | openclaw/scripts/control-ui-i18n.ts:955-986 | What follows an error: a timeout splits a larger batch in halves and ends a single item; any other error is followed by one more attempt and ends the second. |
| `TranslateBatch.MissingLooksTimedOutIff` | openclaw/scripts/control-ui-i18n.ts:946 | The error for a missing translation is taken for a timeout if and only if the key itself holds "timed out", in any case. |
| `TranslateBatch.MissingKeyDecides` | openclaw/scripts/control-ui-i18n.ts:942-984 | For the first item a reply lacks: its key decides whether the batch is split, given up or asked for again as a whole. |
| `TranslateBatch.TimedOutKeySplits` | openclaw/scripts/control-ui-i18n.ts:943-984 | A reply without the key "timed out" splits its batch; one without the key "title" is retried whole. |
| `TranslateBatch.AttemptsBounded` | openclaw/scripts/control-ui-i18n.ts:933-984 | For every pattern of timeouts and errors, n items take at most 4n-2 attempts, two for no items. |
| `TranslateBatch.BoundIsReached` | openclaw/scripts/control-ui-i18n.ts:933-984 | For every number of items some service makes a successful run take exactly 4n-2 attempts. |
| `TranslateBatch.DoneCoversItems` | openclaw/scripts/control-ui-i18n.ts:942-975 | A successful translation has exactly the items' keys, no blank value, and each value stood under its key in a reply to a prompt that held the key. |
| `TranslateBatch.FailureGivesUp` | openclaw/scripts/control-ui-i18n.ts:959-986 | A translation fails only because one item timed out, or one stretch of items failed twice in a row otherwise, and it stops there. |
| `TranslateBatch.SplittingRecovers` | openclaw/scripts/control-ui-i18n.ts:959-975 | If single items succeed and larger batches fail only by timing out, the whole translation succeeds. |
| `PiRpcClient.EveryRunKeepsInv` | openclaw/scripts/control-ui-i18n.ts:685-892 | In every reachable state at most one prompt is open, exactly while it is pending, and the invariants of calls, timers, requests and replies hold. |
| `PiRpcClient.RepliesReachTheirPrompt` | openclaw/scripts/control-ui-i18n.ts:803-811 | With one `agent_end` per request, a resolved call holds the reply to its own request, though the reply carries no id; no two calls share a request. |
| `PiRpcClient.AgentEndIsForPending` | openclaw/scripts/control-ui-i18n.ts:784-811 | An `agent_end` that finds a prompt pending belongs to that prompt. |
| `PiRpcClient.TimersBelongToPending` | openclaw/scripts/control-ui-i18n.ts:829-872 | The pending prompt's timeout and heartbeat are the only armed timers; a settled prompt has none. |
| `PiRpcClient.FailuresAreFinal` | openclaw/scripts/control-ui-i18n.ts:814-877 | Once a call has failed every later call fails. |
| `PiRpcClient.LaterRun` | openclaw/scripts/control-ui-i18n.ts:814-877 | Whatever happens later, an outcome never changes, and after a failure no further prompt is sent. |
| `PiRpcClient.OpenCallEndsIff` | openclaw/scripts/control-ui-i18n.ts:736-873 | The open call ends if and only if its response fails, its timeout or write error comes, the process errs or closes, or its reply comes, and with that outcome. |
| `PiRpcClient.IdleEndsNothing` | openclaw/scripts/control-ui-i18n.ts:758-788 | With nothing pending no event but the next call's turn gives a call an outcome or sends a prompt. |
| `PiRpcClient.ClosedIff` | openclaw/scripts/control-ui-i18n.ts:743-748 | The client is closed if and only if the run holds a `close`, an end of the process, or a timeout of the prompt pending then. |
| `PiRpcClient.PoisonedIff` | openclaw/scripts/control-ui-i18n.ts:815 | The chain is rejected if and only if some call has failed. |
| `PiRpcClient.ClosedSendsNothing` | openclaw/scripts/control-ui-i18n.ts:816-818 | After a run that closed the client no continuation sends a prompt, and every call whose turn comes fails. |
| `PiRpcClient.NextCallIsSentIff` | openclaw/scripts/control-ui-i18n.ts:815-872 | The next waiting call is sent as the next request, with its two timers, if and only if nothing has closed the client and no call has failed; else it fails. |
| `PiRpcClient.CallsArePrompts` | openclaw/scripts/control-ui-i18n.ts:814-815 | Every prompt asked for is a call of the chain. |
| `PiRpcClient.Client.StartNext` | openclaw/scripts/control-ui-i18n.ts:815-872 | The chained callback passes an earlier rejection on, refuses on a closed client, else opens the next request. |
| `PiRpcClient.Client.SettlePending` | openclaw/scripts/control-ui-i18n.ts:758-764 | Settling clears `pending` and both timers and settles the open call once. |
| `PiRpcClient.Client.OnResponse` | openclaw/scripts/control-ui-i18n.ts:790-802 | A response acts only when its id is the pending one. |
| `PiRpcClient.Client.OnAgentEnd` | openclaw/scripts/control-ui-i18n.ts:803-811 | The line settles whatever is pending, resolved or rejected by its text. |
| `PiRpcClient.Client.OnTimer` | openclaw/scripts/control-ui-i18n.ts:837-849 | A timeout of the pending prompt rejects it and closes the client. |
| `PiRpcClient.Client.OnWriteError` | openclaw/scripts/control-ui-i18n.ts:864-873 | A write error clears its own timers and rejects its own prompt only. |
| `PiRpcClient.Client.OnProcessClose` | openclaw/scripts/control-ui-i18n.ts:743-748 | A closed process closes the client and rejects the pending prompt. |
| `PiRpcClient.Client.OnProcessError` | openclaw/scripts/control-ui-i18n.ts:739-741 | A process error rejects the pending prompt. |
| `PiRpcClient.Client.Deliver` | openclaw/scripts/control-ui-i18n.ts:685-892 | Handling one event takes the client to the next state of the event machine, over any run. |
| `SyncLocale.SyncLocale` | openclaw/scripts/control-ui-i18n.ts:996-1232 | The whole run equals its specification for the packer's batches. |
| `SyncLocale.ReusePass` | openclaw/scripts/control-ui-i18n.ts:1021-1050 | The first loop splits the source keys into reused texts, pending items and old fallbacks. |
| `SyncLocale.TranslatePending` | openclaw/scripts/control-ui-i18n.ts:1074-1081 | The batches are translated one after another; the first failure ends the run. |
| `SyncLocale.RecordTranslations` | openclaw/scripts/control-ui-i18n.ts:1082-1101 | Translated items enter the memory under their cache keys and nothing else changes in it. |
| `SyncLocale.FallbackPass` | openclaw/scripts/control-ui-i18n.ts:1114-1128 | The second loop gives every remaining key its text and lists its fallbacks. |
| `SyncLocale.SecondSyncIsNoop` | openclaw/scripts/control-ui-i18n.ts:1017-1232 | After a completed, written sync of a well-formed source, any further sync or check with the same settings has nothing pending, makes no attempt, decides the same texts and fallback list, reports no change and leaves every file as it is. |
| `SyncLocale.SecondPlan` | openclaw/scripts/control-ui-i18n.ts:1021-1147 | The second run reuses every text the first decided, with the same fallbacks and memory. |
| `SyncLocale.SecondRunReuses` | openclaw/scripts/control-ui-i18n.ts:1021-1050 | For each key the second run's lookup finds the text the first run decided. |
| `SyncLocale.AfterFirstRun` | openclaw/scripts/control-ui-i18n.ts:1017-1021 | Loading the files a run wrote gives its texts, its memory and its fallback keys back. |
| `SyncLocale.FinishUnchanged` | openclaw/scripts/control-ui-i18n.ts:1140-1198 | A run that decides what the files hold keeps the old generation time and reports no change. |
| `SyncOutcomes.ChangedIffWritingChanges` | openclaw/scripts/control-ui-i18n.ts:1179-1231 | A check, a dry run and a writing run decide and report the same; they report a change if and only if writing changes some file; only a writing run that reports one writes, and every other run leaves all files alone. |
| `SyncOutcomes.ChangedIffUnexpected` | openclaw/scripts/control-ui-i18n.ts:1171-1190 | A completed run reports a change if and only if some file is not byte for byte what its plan expects. |
| `SyncOutcomes.RunKeyOutcome` | openclaw/scripts/control-ui-i18n.ts:1017-1147 | For each source key of a completed run, in terms of the files found: where its text comes from, whether it was pending, and whether it is a fallback. |
| `SyncOutcomes.PendingInOrder` | openclaw/scripts/control-ui-i18n.ts:1021-1050 | The pending items stand in the order of the source. |
| `SyncOutcomes.RunAbortsIff` | openclaw/scripts/control-ui-i18n.ts:1074-1105 | A run aborts if and only if it has a provider and some batch cannot be translated. |
| `SyncOutcomes.GoodServiceCompletes` | openclaw/scripts/control-ui-i18n.ts:1052-1105 | With a service that answers every batch with a text for each key, the run completes after one attempt per batch, and each pending key gets the text of its batch's reply. |
| `SyncOutcomes.GoodServiceTranslatesAll` | openclaw/scripts/control-ui-i18n.ts:1074-1101 | The same for the loop over the batches. |
| `SyncOutcomes.WrittenMeta` | openclaw/scripts/control-ui-i18n.ts:1140-1169 | What the metadata file then says: counts that add up, the fallbacks, the source, the provider or the one before it, and the old time exactly if nothing else has changed. |
| `SyncOutcomes.WrittenTexts` | openclaw/scripts/control-ui-i18n.ts:1135-1138 | The locale file then flattens to the source's keys in order with the decided texts; a glossary that was there is kept. |
| `SyncOutcomes.WrittenMemory` | openclaw/scripts/control-ui-i18n.ts:1088-1100 | The memory then holds a full entry for every pending key that was translated, and every other usable entry as it was, and nothing else. |
| `SyncLocale.AssignsExactlySourceKeys` | openclaw/scripts/control-ui-i18n.ts:1021-1138 | Every completed run assigns a text to exactly the source's keys. |
| `SyncLocale.ProviderLeavesNoFallbacks` | openclaw/scripts/control-ui-i18n.ts:1052-1147 | A completed run with a provider leaves no fallback key. |
| `SyncLocale.AttemptsPerItem` | openclaw/scripts/control-ui-i18n.ts:1052-1081 | A run makes at most four attempts per pending item, and none without a provider. |
| `SyncLocale.TranslateAllCovers` | openclaw/scripts/control-ui-i18n.ts:1074-1101 | When all batches succeed, exactly the pending keys are translated, none blank. |
| `SyncLocale.TranslateAllBounded` | openclaw/scripts/control-ui-i18n.ts:1074-1081 | Non-empty batches cost at most four attempts per item. |
| `SyncLocale.KeysPartition` | openclaw/scripts/control-ui-i18n.ts:1021-1050 | Every source key is either reused or pending, never both. |
| `SyncLocale.KeyOutcome` | openclaw/scripts/control-ui-i18n.ts:1021-1128 | For each key of a completed run, where its text comes from, and that it is a fallback exactly without a provider when it was one before or has no text of its own. |
| `SyncLocale.UntranslatedIsNew` | openclaw/scripts/control-ui-i18n.ts:1118-1125 | In a completed run a pending key without a translation has no text in the locale file: the branch that reuses it is never taken. |
| `SyncLocale.ForceIsInert` | openclaw/scripts/control-ui-i18n.ts:1119-1198 | The force option changes no decision, report or file of any run of a well-formed source. |
| `SyncLocale.FallbackKeys` | openclaw/scripts/control-ui-i18n.ts:1146-1147 | The fallback keys of a run are source keys without repetition, so removing duplicates changes nothing. |
| `ToggleStore.EveryRunKeepsInv` | openclaw/extensions/active-memory/index.ts:177-201 | Under every interleaving the lock chain stays in order and the file is what the completed turns leave. |
| `ToggleStore.MutualExclusion` | openclaw/extensions/active-memory/index.ts:180-191 | At most one call is between its read and its write; all earlier calls have finished and all later ones wait. |
| `ToggleStore.Serializable` | openclaw/extensions/active-memory/index.ts:509-525 | Turns are taken in call order and the file equals applying them one after another. |
| `ToggleStore.NeverStuck` | openclaw/extensions/active-memory/index.ts:187-191 | A failing task still releases the lock: while a call is unfinished, the oldest one can move. |
| `ToggleStore.ApplyKeepsOthers` | openclaw/extensions/active-memory/index.ts:514-525 | A turn whose read worked sets its own session and leaves every other as it was. |
| `ToggleStore.ApplyToOne` | openclaw/extensions/active-memory/index.ts:445-525 | What any turn, with its read and its write working or not, does to any one session. |
| `ToggleStore.SequentialKeepsLast` | openclaw/extensions/active-memory/index.ts:445-525 | After any turns a session is disabled if and only if its last successful toggle asked for that and no turn of another session has since written without having read. |
| `ToggleStore.SessionAfterRun` | openclaw/extensions/active-memory/index.ts:177-525 | The same after every interleaving, whatever reads and writes fail. |
| `ToggleStore.NoLostUpdateIff` | openclaw/extensions/active-memory/index.ts:177-525 | Exactly when no update is lost: after every interleaving a session is in the state its last successful toggle asked for, unless that was "disabled" and another session's turn has since written without having read. |
| `ToggleStore.NoLostUpdate` | openclaw/extensions/active-memory/index.ts:177-525 | In particular nothing is lost in a run in which every turn that wrote had read. |
| `ToggleStore.FailedReadKeepsOthersIff` | openclaw/extensions/active-memory/index.ts:472-477 | One turn: a swallowed read error followed by a successful write keeps the other sessions if and only if no other session was disabled. |
| `ToggleStore.FailedReadLosesUpdate` | openclaw/extensions/active-memory/index.ts:472-525 | A concrete store in which a failed read makes one toggle erase another session's. |
| `ToggleStore.DisabledIff` | openclaw/extensions/active-memory/index.ts:445-507 | A session is disabled if and only if its key is not blank and the file, present and readable, holds an object for it that says so. |
| `ToggleStore.TurnOnDisk` | openclaw/extensions/active-memory/index.ts:445-525 | What one turn does to every entry on disk: its own gets the turn's time or goes; of the others exactly the disabled ones stay, unchanged, if the read worked, and none if it failed; a failed write changes nothing. |
| `ToggleStore.EntryAfterRun` | openclaw/extensions/active-memory/index.ts:177-525 | After every interleaving the file holds for each session the entry, with its time, that its last successful toggle wrote, or the one it had at first, unless erased since. |
| `ToggleStore.ToggleLock.SetSessionDisabled` | openclaw/extensions/active-memory/index.ts:180-186 | A call chains itself behind the current lock promise at once. |
| `ToggleStore.ToggleLock.BeginTurn` | openclaw/extensions/active-memory/index.ts:186-187 | A call starts its task only after the promise before it is released. |
| `ToggleStore.ToggleLock.FinishRead` | openclaw/extensions/active-memory/index.ts:515-521 | The modified store is computed from what this turn read. |
| `ToggleStore.ToggleLock.FinishWrite` | openclaw/extensions/active-memory/index.ts:479-488 | The file is replaced or left as it is, and the lock released either way. |
| `RecallCache.RunKeepsOrder` | openclaw/extensions/active-memory/index.ts:934-970 | After every run the entries are the last values stored, in order of last insert, at most 1000 of them for non-empty keys. |
| `RecallCache.HitIsLatestUnexpired` | openclaw/extensions/active-memory/index.ts:934-944 | A hit is always the last value stored for the key, and unexpired. |
| `RecallCache.InsertEvictsOldestOnly` | openclaw/extensions/active-memory/index.ts:946-962 | An insert leaves its key last and removes at most one unexpired entry, the one inserted longest ago. |
| `RecallCache.SurvivorsOfInsert` | openclaw/extensions/active-memory/index.ts:946-970 | What an insert leaves before evicting: exactly the unexpired entries of other keys. |
| `RecallCache.LookupDropsExpired` | openclaw/extensions/active-memory/index.ts:934-944 | A lookup removes the key's entry if it has expired, and nothing else. |
| `RecallCache.UncrowdedIsComplete` | openclaw/extensions/active-memory/index.ts:934-970 | With a clock that does not run back and at most 999 other live keys at each insert, every unexpired key is cached. |
| `RecallCache.AgreesWithPlainMap` | openclaw/extensions/active-memory/index.ts:934-970 | Under those conditions every lookup answers as a plain map with expiry times. |
| `RecallCache.BuildCacheKey` | openclaw/extensions/active-memory/index.ts:924-932 | A built key is never empty, so the eviction loop never stops early; what it determines is `CacheKeyIff`. |
| `RecallCache.CacheKeyIff` | openclaw/extensions/active-memory/index.ts:924-932 | Two keys are equal if and only if the query hashes are, and the agent and session parts joined by a colon. |
| `RecallCache.CacheKeyDetermines` | openclaw/extensions/active-memory/index.ts:924-932 | Among agent ids without a colon the key determines agent, session part and hash. |
| `RecallCache.CacheKeysCollide` | openclaw/extensions/active-memory/index.ts:931 | With a colon in the agent id two different recalls share a key. |
| `RecallCache.ActiveRecallCache.GetCachedResult` | openclaw/extensions/active-memory/index.ts:934-944 | A lookup returns the hit and deletes an expired entry. |
| `RecallCache.ActiveRecallCache.SweepExpired` | openclaw/extensions/active-memory/index.ts:964-970 | The sweep, deleting while it visits, leaves exactly the unexpired entries in order. |
| `RecallCache.ActiveRecallCache.SetCachedResult` | openclaw/extensions/active-memory/index.ts:946-962 | Sweep, delete, insert and eviction loop give the next cache of the run. |
| `RecallPrefix.EscapeIsPerCharacter` | openclaw/extensions/active-memory/index.ts:1296-1303 | The five replacement passes in sequence equal one escape per character. |
| `RecallPrefix.DecodeEscape` | openclaw/extensions/active-memory/index.ts:1296-1303 | Decoding the predefined entities (section 4.6 of XML 1.0) undoes the escape on every string. |
| `RecallPrefix.EscapedHasNoMarkup` | openclaw/extensions/active-memory/index.ts:1296-1303 | Escaped text contains no angle bracket or quote. |
| `RecallPrefix.EscapedHidesClose` | openclaw/extensions/active-memory/index.ts:1341-1358 | No line of an escaped summary trims to the closing tag. |
| `RecallPrefix.StripUndoesInjection` | openclaw/extensions/active-memory/index.ts:1341-1515 | For every summary and message, stripping the injected prefix, a line break and the message equals stripping the message. |
| `RecallPrefix.StripIsIdempotent` | openclaw/extensions/active-memory/index.ts:1486-1515 | Stripping twice is stripping once, on every text. |
| `RecallPrefix.StripKeepsOtherText` | openclaw/extensions/active-memory/index.ts:1486-1515 | A text without an injected block keeps all its words, joined by single spaces. |
| `RecallPrefix.StripRemovesBlock` | openclaw/extensions/active-memory/index.ts:1486-1515 | Stripping removes exactly a block: the words before the first one stay, it goes to its first closing tag, and the rest is stripped in turn. |
| `RecallPrefix.StripRemovesFirstAndLast` | openclaw/extensions/active-memory/index.ts:1486-1515 | The same for a block at the start or the end of a text. |
| `RecallPrefix.StartsIff` | openclaw/extensions/active-memory/index.ts:1495-1506 | A block starts exactly where a line is the header, the next the opening tag, and a later one the closing tag, blanks aside. |
| `RecallPrefix.PrefixText` | openclaw/extensions/active-memory/index.ts:1341-1358 | The injected text spelled out; there is none for an empty summary. |
| `RecallPrefix.EntityTable` | openclaw/extensions/active-memory/index.ts:1296-1303 | The five escapes spelled out; every other character stays. |
| `RecallPrefix.StripInjectedActiveMemoryPrefixOnly` | openclaw/extensions/active-memory/index.ts:1486-1515 | The loop with its jumping index leaves the words outside injected blocks. |
| `RecallPrefix.FindClosingTag` | openclaw/extensions/active-memory/index.ts:1499-1505 | The probe finds the first closing tag or -1. |
| `Whitespace.BlankTable` | openclaw/extensions/active-memory/index.ts:1491 | What counts as blank, by code point. |
| `Whitespace.TrimIs` | openclaw/extensions/active-memory/index.ts:1491 | Trimming takes blanks off both ends, and all of them. |
| `Whitespace.CollapsedIsWords` | openclaw/extensions/active-memory/index.ts:1514 | Collapsing whitespace and trimming leaves exactly the words joined by single spaces. |
| `MapConcurrent.EveryScheduleKeepsInv` | openclaw/scripts/update-clawtributors.ts:490-506 | Under every schedule each claimed index is held by one worker or has its result. |
| `MapConcurrent.BoundedAndClaimedOnce` | openclaw/scripts/update-clawtributors.ts:495-505 | No more mapper calls are in flight than the limit (one for a smaller limit), and no index is claimed twice. |
| `MapConcurrent.PoolIsFull` | openclaw/scripts/update-clawtributors.ts:497-498 | There are as many workers as limit and items allow, one at least, and none stops before every item is taken. |
| `MapConcurrent.QuiescentOutcome` | openclaw/scripts/update-clawtributors.ts:497-504 | When nothing is in flight, all items were claimed unless every worker was rejected, and missing results are exactly the rejected items. |
| `MapConcurrent.AllResolvedIsMap` | openclaw/scripts/update-clawtributors.ts:490-506 | If no mapper rejects, the finished results are the mapper's value at every index. |
| `MapConcurrent.PromiseSettlesIff` | openclaw/scripts/update-clawtributors.ts:497-505 | Under every schedule the promise the caller awaits has rejected if and only if some worker has, and has resolved if and only if every worker is done and none rejected; it then holds the mapper's value at every index. |
| `MapConcurrent.RejectsWithFirst` | openclaw/scripts/update-clawtributors.ts:504 | A rejected promise carries the call that was rejected first. |
| `MapConcurrent.SettledStays` | openclaw/scripts/update-clawtributors.ts:504-505 | Whatever workers still running do, a settled promise stays as it is. |
| `MapConcurrent.SettledOncePerItem` | openclaw/scripts/update-clawtributors.ts:498-502 | Calls settled and calls in flight add up to the indices claimed: each item's call settles once. |
| `MapConcurrent.Pool.Enter` | openclaw/scripts/update-clawtributors.ts:498-499 | A worker takes the shared next index and advances it in the same step, or finishes. |
| `MapConcurrent.Pool.Resolve` | openclaw/scripts/update-clawtributors.ts:500-501 | A resolved call writes its own slot in place and its worker goes on. |
| `MapConcurrent.Pool.Reject` | openclaw/scripts/update-clawtributors.ts:497-504 | A rejected call ends its worker; the others go on. |
| `JpegScanner.ReadJpegDimensions` | openclaw/scripts/update-clawtributors.ts:546-590 | The scan ends on every buffer and every read is in range. |
| `JpegScanner.ScanFindsFrame` | openclaw/scripts/update-clawtributors.ts:546-590 | Over any run of stray bytes, bare markers and length-bearing segments (section B.1.1.4 of ITU-T T.81) before a frame header (section B.2.2), the size returned is the encoded one. |
| `JpegScanner.ScanIsSound` | openclaw/scripts/update-clawtributors.ts:546-590 | Any size returned stands in a frame header that such a run leads to. |
| `JpegScanner.ReturnsSizeIff` | openclaw/scripts/update-clawtributors.ts:546-590 | A size is returned if and only if the bytes after SOI are such a run, a header with that size, and at least one byte beyond its nine fixed ones. |
| `JpegScanner.MarkerTable` | openclaw/scripts/update-clawtributors.ts:556-580 | The markers without a length and the frame headers by number (Table B.1 of ITU-T T.81). |
| `JpegScanner.FillBytesHideFrame` | openclaw/scripts/update-clawtributors.ts:553-586 | For every run of items, frame header and number of fill bytes before it (section B.1.1.2 of ITU-T T.81): the first fill byte is read as a marker whose segment takes at least 0xc000 bytes, the header among them; with fewer bytes left no size is found, else the scan goes on after them. |
| `JpegScanner.ScanItems` | openclaw/scripts/update-clawtributors.ts:546-586 | The scan steps over any run of items when at least ten bytes follow. |
| `JpegScanner.FillByteHidesFrame` | openclaw/scripts/update-clawtributors.ts:553-569 | The smallest case: one fill byte takes a 1 by 1 image its size. |
| `DiscoveryCache.EveryRunKeepsInv` | openclaw/extensions/amazon-bedrock/discovery.ts:309-429 | Under every interleaving of callers and fetches, each cache entry is that of its key's one running fetch or the value of a finished one. |
| `DiscoveryCache.OneFetchInFlight` | openclaw/extensions/amazon-bedrock/discovery.ts:331-406 | With a positive refresh interval at most one fetch per key is in flight. |
| `DiscoveryCache.LandReplacesOwnEntry` | openclaw/extensions/amazon-bedrock/discovery.ts:408-421 | A finished fetch replaces or removes only its own entry; a failed one leaves no entry. |
| `DiscoveryCache.ServedValueIsFresh` | openclaw/extensions/amazon-bedrock/discovery.ts:331-335 | A value served from the cache comes from a fetch of the same key started less than one refresh interval before. |
| `DiscoveryCache.EveryRunKeepsLatest` | openclaw/extensions/amazon-bedrock/discovery.ts:331-421 | After every run the cache holds for each key with a refresh interval what its latest fetch left, and nothing else. |
| `DiscoveryCache.FreshIsServed` | openclaw/extensions/amazon-bedrock/discovery.ts:331-335 | While the latest fetch of the key is fresh, a call is served its value and starts nothing. |
| `DiscoveryCache.UnlandedIsJoined` | openclaw/extensions/amazon-bedrock/discovery.ts:336-338 | While a fetch of the key has not landed, a call joins it and starts nothing. |
| `DiscoveryCache.OtherwiseStarts` | openclaw/extensions/amazon-bedrock/discovery.ts:341-406 | In every other case a call with a working client starts a new fetch, cached if there is an interval; without a client it changes nothing. |
| `DiscoveryCache.FetchSettles` | openclaw/extensions/amazon-bedrock/discovery.ts:344-409 | A running fetch settles with what the service returns. |
| `DiscoveryCache.CallersAgree` | openclaw/extensions/amazon-bedrock/discovery.ts:336-429 | Callers of one fetch receive the same list; when it fails the starter gets the empty list and the others the rejection; nobody's result changes later. |
| `DiscoveryCache.AdvancesOverRun` | openclaw/extensions/amazon-bedrock/discovery.ts:309-429 | A settled fetch keeps its outcome and answers are never withdrawn. |
| `DiscoveryCache.Discovery.DiscoverBedrockModels` | openclaw/extensions/amazon-bedrock/discovery.ts:331-406 | The code up to the first await is one step of the protocol. |
| `DiscoveryCache.Discovery.Resume` | openclaw/extensions/amazon-bedrock/discovery.ts:408-428 | The code after the await is one step of the protocol. |
| `BedrockModels.CollectModels` | openclaw/extensions/amazon-bedrock/discovery.ts:354-386 | The list before sorting is the models of all included summaries, then exactly the usable profiles whose id is new, in order. |
| `BedrockModels.ListFoundation` | openclaw/extensions/amazon-bedrock/discovery.ts:354-371 | The first loop lists exactly the summaries that pass the filters and maps each normalised id to the last model under it. |
| `BedrockModels.ResolveInferenceProfiles` | openclaw/extensions/amazon-bedrock/discovery.ts:244-290 | Exactly the active profiles with an id that pass the provider filter become models, each with the capabilities of the foundation model it stands for, or the defaults. |
| `BedrockModels.RegionalProfileInherits` | openclaw/extensions/amazon-bedrock/discovery.ts:231-289 | A system-defined profile named after a foundation model under a region prefix has that model's capabilities. |
| `BedrockModels.FoundationIsFiltered` | openclaw/extensions/amazon-bedrock/discovery.ts:359-371 | The foundation list is exactly the included summaries as models, in order. |
| `BedrockModels.ResolvedIsFiltered` | openclaw/extensions/amazon-bedrock/discovery.ts:251-289 | The profile list is exactly the usable profiles as models, in order. |
| `BedrockModels.ResolvedFields` | openclaw/extensions/amazon-bedrock/discovery.ts:273-287 | A profile keeps its id, has its trimmed name or the id, inherits from the last foundation model with its base id, and else has the defaults. |
| `BedrockEntries.IncludedIff` | openclaw/extensions/amazon-bedrock/discovery.ts:121-153 | A summary is used if and only if it has an id, a wanted provider, streams, gives text and is active. |
| `BedrockEntries.ModelFields` | openclaw/extensions/amazon-bedrock/discovery.ts:155-169 | The fields of a foundation model, from its summary. |
| `BedrockEntries.UsableIff` | openclaw/extensions/amazon-bedrock/discovery.ts:251-270 | A profile is used if and only if it has an id, is active and one of its models has a wanted provider. |
| `BedrockEntries.ArnMatchesIff` | openclaw/extensions/amazon-bedrock/discovery.ts:259-266 | An ARN has a wanted provider if and only if its part between the first two slashes starts with one, up to a dot. |
| `BedrockEntries.BaseIdIsNamed` | openclaw/extensions/amazon-bedrock/discovery.ts:185-203 | Whatever base a profile is given ends its first ARN after the mark, or follows a region and a dot in its id. |
| `BedrockModels.LastNamedIsLast` | openclaw/extensions/amazon-bedrock/discovery.ts:356-371 | The lookup gives the last model under an id. |
| `BedrockModels.LastNamedNone` | openclaw/extensions/amazon-bedrock/discovery.ts:356-371 | The lookup finds nothing exactly when no model has the id. |
| `BedrockEntries.RegionPrefixNamesBase` | openclaw/extensions/amazon-bedrock/discovery.ts:174-203 | A system-defined profile under one of the five region prefixes, in any case, stands for the model named after the prefix. |
| `BedrockEntries.ArnNamesBase` | openclaw/extensions/amazon-bedrock/discovery.ts:188-195 | A profile whose first ARN ends in a foundation model id stands for that model. |
| `BedrockEntries.KnownInputsIff` | openclaw/extensions/amazon-bedrock/discovery.ts:83-99 | A model accepts exactly the known input modalities it lists, each once, and text when it lists none. |
| `BedrockModels.MergeProfiles` | openclaw/extensions/amazon-bedrock/discovery.ts:380-386 | A profile is added if and only if neither a foundation model nor an earlier profile has its id. |
| `BedrockModels.MergeHasEachIdOnce` | openclaw/extensions/amazon-bedrock/discovery.ts:380-386 | No added profile repeats an id, and the ids of the list are exactly those of the models and the profiles. |
| `RunCommand.SettlesAtMostOnce` | openclaw/scripts/openclaw-cross-os-release-checks.ts:2660-2668 | In every event order the promise settles at most once. |
| `RunCommand.OutcomeNeverChanges` | openclaw/scripts/openclaw-cross-os-release-checks.ts:2660-2668 | The outcome of a settled command never changes. |
| `RunCommand.TimedOutNeverResolves` | openclaw/scripts/openclaw-cross-os-release-checks.ts:2689-2748 | If the timeout has fired the command can only reject. |
| `RunCommand.TimerNeedsUnsettled` | openclaw/scripts/openclaw-cross-os-release-checks.ts:2651-2668 | The timeout is armed only while the command is unsettled, and the kill-wait timer only after a timeout. |
| `RunCommand.ArmedAfterSettlingIff` | openclaw/scripts/openclaw-cross-os-release-checks.ts:2651-2708 | After settling a timer is armed if and only if the timeout's kill made the child report an error at once and the kill-wait timer armed after that has not run. |
| `RunCommand.KillErrorLeavesTimerArmed` | openclaw/scripts/openclaw-cross-os-release-checks.ts:2692-2706 | The one event that leaves the kill-wait timer armed behind a settled promise. |
| `RunCommand.OutcomeIsFirstSettling` | openclaw/scripts/openclaw-cross-os-release-checks.ts:2660-2748 | In every event order the first event that settles, judged by the events before it alone, decides the outcome. |
| `RunCommand.NoneSettlingNoOutcome` | openclaw/scripts/openclaw-cross-os-release-checks.ts:2660-2668 | There is no outcome exactly while no event has settled the command. |
| `RunCommand.UnsettledIff` | openclaw/scripts/openclaw-cross-os-release-checks.ts:2689-2708 | Until then the timeout is armed exactly before it has fired, and the kill-wait timer exactly after. |
| `RunCommand.ChunksGrow` | openclaw/scripts/openclaw-cross-os-release-checks.ts:2710-2719 | A chunk goes to the end of its own stream. |
| `RunCommand.OutputIsConcatenation` | openclaw/scripts/openclaw-cross-os-release-checks.ts:2710-2719 | Each collected stream is the in-order concatenation of its chunks. |
| `RunCommand.ResolvedIsInOrderOutput` | openclaw/scripts/openclaw-cross-os-release-checks.ts:2725-2748 | A resolved result holds exactly the chunks received before the close that settled it, and with checking only exit code 0 resolves. |
| `RunCommand.LateWritesAreLateChunks` | openclaw/scripts/openclaw-cross-os-release-checks.ts:2710-2719 | The ended log is written to once for each chunk after settling and by nothing else. |
| `RunCommand.Command.Finalize` | openclaw/scripts/openclaw-cross-os-release-checks.ts:2660-2668 | The first caller settles and clears both timers; later calls do nothing. |
| `RunCommand.Command.Deliver` | openclaw/scripts/openclaw-cross-os-release-checks.ts:2643-2749 | Handling one event takes the shared variables to the next state of the event machine. |
| `Utf16.WellFormedIffPaired` | openclaw/src/utils.ts:80-86 | Decoding from the left (section 2.2 of RFC 2781) succeeds if and only if every surrogate has its partner beside it. |
| `Utf16.SliceUtf16Safe` | openclaw/src/utils.ts:88-115 | For every string and integer bounds the slice is the longest stretch of the clamped, ordered range that starts and ends between characters, at most two units shorter than the range. |
| `Utf16.SurrogateRanges` | openclaw/src/utils.ts:80-86 | Surrogates are the units that start with 110110 or 110111 (section 2.1 of RFC 2781). |
| `Utf16.RangeMeaning` | openclaw/src/utils.ts:88-97 | A bound is an index, counts from the end when negative, and stops at the ends of the text; the two are put in order. |
| `Utf16.SafeSliceWellFormed` | openclaw/src/utils.ts:88-115 | A slice of well-formed UTF-16 is well formed. |
| `Utf16.SliceIsLongestWellFormed` | openclaw/src/utils.ts:88-115 | No well-formed piece of the range is longer than the slice. |
| `Utf16.TruncateUtf16Safe` | openclaw/src/utils.ts:117-123 | Truncation gives a prefix; over-long text is cut to the limit or, inside a pair, one unit less; well-formed stays well formed. |

## Left out

- Order of components: the locale-aware sorting of components and of their files, and of imports, is not modelled; the report and the witness theorems hold for any order.
- Import extraction: parsing TypeScript, matching import patterns and resolving paths are inputs, given as a graph; resolved paths are taken to be non-empty.
- Hashes: digests are parameters; only that a cache key is non-empty and determines key and text hash is used.
- Files: JSON, generated TypeScript and their formatting are a value and whether the bytes are the printed form of it; reading a printed value gives it back, and formatting is deterministic.
- Directories, the temporary file and the rename of the toggle store are one write that succeeds or fails as a whole; the four files of a sync are written together.
- Object key order: JavaScript's special ordering of integer-like keys and the `__proto__` key are not modelled; entries keep insertion order.
- TranslationObjects.TranslationObject.SetNestedValue: the source's cursor loop is written as recursion down the parts, because the proof follows the object graph; each step still mutates in place.
- TranslationBatches.BuildTranslationBatches: the budget is an integer; a fractional one acts as its integer part since sizes are whole numbers.
- TranslateBatch.TranslateBatch: the service is a function of the attempt number and the items, covering the client, its resets and the delays; an attempt whose client cannot be created sends no prompt, so the bound is on attempts. Lower-casing of error texts is ASCII only.
- PiRpcClient.RepliesReachTheirPrompt: assumes the process answers each request with at most one `agent_end`, as the client itself does; the decoding of that line into a text is an input.
- SyncLocale.SyncLocale: prompts, logging, the client's creation and the summary of all locales are not modelled; a run that aborts writes nothing, and its partial memory is dropped as in the source. The early return at lines 1192-1208 reports what the path below it reports, so both are one path.
- Session keys: they are taken as the caller passes them; the lookup trims its key and the setter does not, and a blank key is never found.
- Lock map: the map from state path to lock and the global toggle in the configuration are not modelled; one path is.
- RecallCache.AgreesWithPlainMap: stated for a clock that does not run back and non-empty keys; crowded caches are covered by `HitIsLatestUnexpired` and `InsertEvictsOldestOnly`.
- JpegScanner.ReadJpegDimensions: the two-byte signature test and the PNG reader, which reads two fixed fields, are not modelled; neither carries an invariant of its own.
- Utf16.SliceUtf16Safe: bounds are integers; NaN, infinite and fractional bounds are not modelled. Truncation takes any real limit.
- DiscoveryCache.EveryRunKeepsInv: the cache key is the whole parameter record, its serialisation being injective; the reset used in tests is left out because it breaks the guarantee on purpose.
- BedrockModels.CollectModels: the final sort of the list, global profiles first and then by locale order of names, is not modelled. Paging of the profile list and its failure, which yields no profiles, are the input. Lower-casing is ASCII only.
- RunCommand.Command.Deliver: spawning, exceptions thrown by spawn or kill, and the Windows kill command are environment events.
- Other recall code: the noise stripper, summary truncation, query building and prompts carry no law the code keeps on all inputs.
- Rest of the repository: the other scripts, providers, configuration, packaging and user interface; their checks and parsers carry no invariant of their own.
