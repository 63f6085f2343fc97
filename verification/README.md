# Verified model of the SpiffArena runner and its test tools

This project models, in Dafny, the parts of the repository that keep state or search structures, and proves
what they keep over every input and every run. Check it with `dafny verify dfyconfig.toml`.

- **Replay** (`Replay.dfy`, `Runner.dfy`, `ReplayProofs.dfy`, `ReplaySafety.dfy`, `ReplayOrder.dfy`): the advance loop
  of the workflow runner, which steps tasks, consumes a recorded fixture and force-fires recorded timers. The workflow
  engine is an arbitrary function from the calls made so far to what the workflow then looks like, so each result holds
  for every engine behaviour, including exceptions. `Runner.Workflow` is the loop as it runs, on an object updated in
  place; `ReplayOrder` describes its calls one by one, without the loops.
- **Sessions** (`Sessions.dfy`, `SessionCache.dfy`, `SessionProofs.dfy`, `SessionExamples.dfy`): the per-session
  workflow cache and the step history capped at 64 live steps, with jumps, truncation and clearing.
  `SessionCache.Caches` holds the two dictionaries; the proofs relate them to an uncapped history over every sequence
  of calls.
- **Codec** (`Json.dfy`, `Codec.dfy`): the tagged JSON codec for workflow state.
- **Coverage** (`Reachability.dfy`, `Coverage.dfy`): the search for embedded subprocesses with a shared, mutated
  `seen` set, the attribution of completed tasks to specs, and the tally.
- **Lazy loading** (`LazyLoading.dfy`): the rounds in which a test case loads called processes.
- **Schema references** (`Strings.dfy`, `SchemaRefs.dfy`): the worklist that collects referenced OpenAPI schemas.
- **Redaction** (`FieldNames.dfy`, `Redaction.dfy`): which field names are sensitive, and the redacted document.
- **Time range** (`TimeRange.dfy`): splitting a UTC timestamp for the date picker and building it again.
- **Percentile** (`Percentile.dfy`): the interpolating percentile of the load tests.

`Basics.dfy` holds the shared datatypes and the mutable set that recursive searches pass around.

Python exceptions and missing keys are results (`Option`, `Result`, an error constructor). Engine, serializer, text
forms of UUIDs and dates, `repr` and `sorted` are foreign code: they are parameters, and where a result needs a law
about them (parsing inverts formatting, sorting sorts) the law is a stated hypothesis. Those about the serializer are
`SessionProofs.Lawful` and, only where named, `Faithful` (one workflow survives being serialized), `LeavesState` (what
`from_dict` does to the dictionary it is given) and `TagsLikeTheCodec`; `SessionExamples.ToyIsLawful` and
`ToyTagsLikeTheCodec` show a serializer that has them all.

## What the proofs show about the code

- Two specs that embed the same subprocess id do not both get credit for it: only the last one in dictionary order
  does (`Coverage.OnlyLastEmbedderIsCredited`; the smallest case is `Coverage.FirstEmbedderGetsNoCredit`).
- A cached session changes what a call of `hydrate_workflow` does in exactly the cases of
  `SessionProofs.CacheIsTransparentIff`. One of them is a minimal state: the comment at runner.py:461-462 says it is
  treated as empty, which the code does only when the session has no cached workflow; where it has one, the call raises
  (`SessionExamples.MinimalStateIsRefused`).
- A jump to a live step restores the recorded workflow in every run, whatever is cached, if that workflow survives being
  serialized (`SessionProofs.JumpRestoresRecordedWorkflow`). A step restored from before needs one thing more, because
  the runner hands `from_dict` the history's own dictionary: that `from_dict` changes nothing in it but the spec entries.
  The backend copies the dictionary before such a call (process_instance_runtime.py:244-246), the runner does not; were
  the dictionary emptied, a second jump would start a new workflow (`SessionExamples.SecondJumpNeedsTheState`).
- A compressed state, which nothing in the repository asks for yet, restores its workflow exactly when the state holds no
  bare date: neither the codec nor the serializer it imitates has a form for one, and it comes back as a midnight
  (`SessionProofs.CompressedStateRestoresIff`).
- A fixture file and an inline fixture drive a run alike except that `unittest` looks for missing called processes
  only with the inline form: the runs differ exactly when some step of the file run leaves one missing
  (`ReplaySafety.FileRefinesInline`).
- If the first round of a recording test still lists called processes, later rounds run without the recording and
  decide the test (`LazyLoading.LaterRoundsIgnoreRecording`).
- Timestamps of the years 0 to 99 are not rebuilt: two-digit years mean the twentieth century
  (`TimeRange.RebuiltIffFourDigitYear`, `TimeRange.YearFiftyIsNotRebuilt`). Two times within one minute pass the order
  check in either order (`TimeRange.UneditedRange`).

## Model

| member | source | states |
|---|---|---|
| Replay.CursorIsTop | spiff-arena-common/src/spiff_arena_common/runner.py:535-594 | file with index and inline list are one stack: the cursor is the top of what remains, consuming drops exactly the top |
| Replay.WholeRecording | spiff-arena-common/src/spiff_arena_common/runner.py:535-588 | a fixture starts with the whole recording, or what its index leaves of it, or the whole list; what is reported when nothing is left |
| Replay.FirstReadyFinds | spiff-arena-common/src/spiff_arena_common/runner.py:501-515 | the search finds the first ready task of the traversal, and finds none only if there is none |
| Replay.FirstTimerFinds | spiff-arena-common/src/spiff_arena_common/runner.py:597-608 | the timer found is the first of the traversal that waits, is a timer and carries the recorded id; none is found only if there is none |
| Runner.Workflow.NextTask | spiff-arena-common/src/spiff_arena_common/runner.py:501-515 | the loop over a traversal returns its first ready task |
| Runner.Workflow.ConsumeEntry | spiff-arena-common/src/spiff_arena_common/runner.py:590-594 | writes the index or pops the list, as the abstract consumption does |
| Runner.Workflow.ReplayRecordedTimer | spiff-arena-common/src/spiff_arena_common/runner.py:625-659 | each of the four ends of a timer replay, with the state it leaves |
| Runner.Workflow.ReplayRecordedTimers | spiff-arena-common/src/spiff_arena_common/runner.py:710-727 | the inner loop ends for every engine and leaves the state of the specification |
| Runner.Workflow.DispatchTask | spiff-arena-common/src/spiff_arena_common/runner.py:739-801 | what each strategy does with the next task, with every way to stop |
| Runner.Workflow.AdvanceWorkflow | spiff-arena-common/src/spiff_arena_common/runner.py:662-802 | the in-place loop leaves the state and outcome of the specification that the lemmas below are about |
| ReplayProofs.RunKeepsLedger | spiff-arena-common/src/spiff_arena_common/runner.py:662-802 | conservation: consumed entries followed by the remaining ones, top first, never change over a run |
| ReplayProofs.ConsumesLastEntries | spiff-arena-common/src/spiff_arena_common/runner.py:597-802 | the entries consumed are exactly the last k of the stack, in reverse order, each once |
| ReplayProofs.RunJustified | spiff-arena-common/src/spiff_arena_common/runner.py:597-802 | every call outside the steps, raising or not, is made for the entry then on top of the fixture: a waiting timer for a force_timer entry with its id, a checkpoint for an ordinary one with its id; each consumption answers such a call of its own |
| ReplaySafety.NextReadySelects | spiff-arena-common/src/spiff_arena_common/runner.py:703-707 | the next task is the first ready one below the completed task or, without any there, of the whole workflow; there is none only if none is ready |
| ReplayOrder.AdvanceInOrder | spiff-arena-common/src/spiff_arena_common/runner.py:662-801 | the first step is on the given task, and every later call is the one that the last call, the engine and the top entry determine: the step of a task just run for an entry with data, else under `unittest` the first waiting timer recorded, else the task in hand, run for its entry if it needs input and stepped otherwise |
| ReplaySafety.RunStepsAllowedTasks | spiff-arena-common/src/spiff_arena_common/runner.py:668-801 | after the first task `greedy` never steps a checkpoint, `oneAtATime` never a task with a bpmn id, `unittest` a checkpoint only right after running it for the entry with its id (which RunJustified says was the top one) |
| ReplaySafety.RunStepsFollowEngine | spiff-arena-common/src/spiff_arena_common/runner.py:675-701 | a step completes its task exactly when it has started; nothing follows a step that raised or that left a called process missing |
| ReplaySafety.RunIsBounded | spiff-arena-common/src/spiff_arena_common/runner.py:667-669 | at most 5000 steps, plus one engine call for each entry consumed, plus one that fails |
| ReplaySafety.AdvanceIsBounded | spiff-arena-common/src/spiff_arena_common/runner.py:667-727 | a whole call makes at most 5000 + (entries recorded) + 1 engine calls |
| ReplayOrder.AdvanceStops | spiff-arena-common/src/spiff_arena_common/runner.py:662-797 | for each reason a call ends with: the strategy, the last engine call, the task in hand and the entry on top that it claims; the iteration limit is reached only after 5000 steps |
| ReplaySafety.TimerLoopHandsOn | spiff-arena-common/src/spiff_arena_common/runner.py:637-640 | a recorded timer that is not waiting does not hold up a task that needs no input |
| ReplaySafety.FileRefinesInline | spiff-arena-common/src/spiff_arena_common/runner.py:535-699 | the calls of an inline run are a prefix of those of the file run with the same entries; calls, consumptions and stop agree if and only if it is not `unittest` with a step of the file run that left a called process missing |
| ReplaySafety.IndexNeverOutOfBounds | spiff-arena-common/src/spiff_arena_common/runner.py:547-562 | from a valid index the index stays valid and `fixture_index_out_of_bounds` is never reported |
| SessionCache.Caches.HydrateWorkflow | spiff-arena-common/src/spiff_arena_common/runner.py:414-488 | the five ways to hydrate, the cache left and the state dictionary as the call leaves it, with spec objects in it or what `from_dict` leaves of that |
| SessionCache.Caches.StoreStep | spiff-arena-common/src/spiff_arena_common/runner.py:975-992 | the step is appended, the oldest live one beyond 64 dropped, and the index of the new step returned |
| SessionCache.Caches.JumpAndHydrate | spiff-arena-common/src/spiff_arena_common/runner.py:820-828 | a jump hydrates from the recorded step's own dictionary, and what `from_dict` leaves of it stays in the history |
| SessionCache.Caches.AdvanceWorkflow | spiff-arena-common/src/spiff_arena_common/runner.py:820-853 | both attempts to respond, each of which may fail before or after the step is stored |
| SessionCache.Caches.TruncateStepHistory | spiff-arena-common/src/spiff_arena_common/runner.py:1003-1020 | the history left and the number of steps removed |
| SessionCache.Caches.ClearWorkflowCache | spiff-arena-common/src/spiff_arena_common/runner.py:1022-1051 | the caches left and the number of entries cleared |
| SessionProofs.AppendMatches | spiff-arena-common/src/spiff_arena_common/runner.py:981-989 | appending with the cap keeps the live steps a suffix of at most 64 that holds the uncapped history; beyond 64 it drops just the step 64 before the new one |
| SessionProofs.AdvanceMatches | spiff-arena-common/src/spiff_arena_common/runner.py:820-853 | an advance, with or without a jump, adds exactly the recorded workflows to the uncapped history and marks no step as restored from but the one jumped to; a returned `step_idx` is its last index |
| SessionProofs.AdvanceEffect | spiff-arena-common/src/spiff_arena_common/runner.py:820-853 | a call hydrates from the recorded step if it jumps to one, else from its state argument; the engine gets that workflow, which is left in the session's cache and recorded once for each response attempt that stored a step; no other session is touched, nothing is stored without one |
| SessionProofs.TruncateMatches | spiff-arena-common/src/spiff_arena_common/runner.py:1003-1020 | truncation agrees with the uncapped history, in the steps left and in the number it returns |
| SessionProofs.ClearEffect | spiff-arena-common/src/spiff_arena_common/runner.py:1022-1051 | a cleared session is in neither cache, others are untouched; the count is that of the entries that were there |
| SessionProofs.HydrationKeepsTaskState | spiff-arena-common/src/spiff_arena_common/runner.py:444-449 | the given dictionary is left as it was, or as `from_dict` leaves it once completed; its task state is unchanged if `from_dict` leaves the state |
| SessionProofs.HydratedIsCached | spiff-arena-common/src/spiff_arena_common/runner.py:425-488 | in every branch with a session the returned workflow is the one left in the cache |
| SessionProofs.HydrationCases | spiff-arena-common/src/spiff_arena_common/runner.py:414-488 | what every kind of state argument yields, with and without a cached workflow: the cached one, a new one, one restored with the spec objects, or an exception |
| SessionProofs.CacheIsTransparentIff | spiff-arena-common/src/spiff_arena_common/runner.py:414-488 | for every state argument, exactly when hydrating with and without a cached session agree |
| SessionExamples.MinimalStateIsRefused | spiff-arena-common/src/spiff_arena_common/runner.py:461-469 | a nonempty minimal state with which hydration raises where the session is cached and starts a new workflow where it is not |
| SessionProofs.CompressedStateRestoresIff | spiff-arena-common/src/spiff_arena_common/runner.py:874-894 | read back with the codec, a state restores the workflow it was taken from, with or without a cached session, exactly when it holds no bare date |
| SessionProofs.JumpRestoresRecordedWorkflow | spiff-arena-common/src/spiff_arena_common/runner.py:821-828 | after every sequence of calls, a jump to a live step with its own specs yields the very workflow recorded there if and only if that survives being serialized; for a step restored from before, if `from_dict` leaves the state of its dictionary |
| SessionExamples.SecondJumpNeedsTheState | spiff-arena-common/src/spiff_arena_common/runner.py:444-449 | an input at which that condition is needed: with a `from_dict` that empties the dictionary, the second jump to a step starts a new workflow |
| SessionProofs.JumpReadsRecordedState | spiff-arena-common/src/spiff_arena_common/runner.py:821-828 | with any specs, a jump to a live step returns exactly what `from_dict` makes of the recorded state with these specs and fails exactly where that fails, independently of the cache |
| SessionProofs.JumpToEvictedKeepsCached | spiff-arena-common/src/spiff_arena_common/runner.py:425-427 | a jump to an evicted step continues the cached workflow, never a new one |
| SessionProofs.EveryRunMatches | spiff-arena-common/src/spiff_arena_common/runner.py:820-1051 | after every sequence of advances, jumps, truncations and clears the capped history refines the uncapped one and each session with history has a cached workflow |
| Codec.RoundTripRounds | spiff-arena-common/src/spiff_arena_common/runner.py:18-37 | decoding an encoded value without reserved dictionaries rounds dates to midnights and timedeltas to seconds, and changes nothing else |
| Codec.RoundTripIsIdentityIff | spiff-arena-common/src/spiff_arena_common/runner.py:18-37 | a round trip is the identity on exactly the values without bare dates, sub-second timedeltas and reserved dictionaries |
| Codec.RoundTripIsIdempotent | spiff-arena-common/src/spiff_arena_common/runner.py:18-37 | a second round trip changes nothing more |
| Codec.TimedeltaIsSum | spiff-arena-common/src/spiff_arena_common/runner.py:30-37 | a tagged timedelta with any days and seconds, booleans included, is read as their sum; it raises where one is no number and on overflow |
| Coverage.EmbeddedSubprocessIds | spiff-arena-common/src/spiff_arena_common/coverage.py:10-26 | with any `seen`: exactly the subprocesses reachable avoiding it, disjoint from it, and exactly what is added to it, on cyclic graphs too |
| Coverage.ClosedIsExact | spiff-arena-common/src/spiff_arena_common/coverage.py:14-26 | found soundly, avoiding `seen`, and closed under children means exactly the reachable set |
| Coverage.TaskIds | spiff-arena-common/src/spiff_arena_common/coverage.py:28-38 | exactly the bpmn tasks of the root and of every reachable subprocess |
| Coverage.SpecTasksExactly | spiff-arena-common/src/spiff_arena_common/coverage.py:10-38 | a task is counted for a spec exactly if it has a bpmn id and is in its process or at the end of a chain of subprocesses that run each other |
| Coverage.EmbeddedSubprocessOwners | spiff-arena-common/src/spiff_arena_common/coverage.py:40-47 | the owner map in dictionary order, on which OwnerIsLastEmbedder rests |
| Coverage.OwnerIsLastEmbedder | spiff-arena-common/src/spiff_arena_common/coverage.py:40-47 | a subprocess has an owner exactly when some spec embeds it, and the owner is the last such spec |
| Coverage.CovTasks | spiff-arena-common/src/spiff_arena_common/coverage.py:49-64 | the pairs of spec and task that a suite of test cases credits |
| Coverage.TaskCoverage | spiff-arena-common/src/spiff_arena_common/coverage.py:80-98 | for each spec all tasks, the credited ones among them and the missing ones |
| Coverage.CompletedAndMissingPartition | spiff-arena-common/src/spiff_arena_common/coverage.py:89-95 | completed and missing tasks partition all tasks |
| Coverage.NoEmbeddedTaskLost | spiff-arena-common/src/spiff_arena_common/coverage.py:59-95 | a completed bpmn task of an embedded subprocess is credited to exactly one spec, the last that embeds it, and survives the trim |
| Coverage.OnlyLastEmbedderIsCredited | spiff-arena-common/src/spiff_arena_common/coverage.py:40-64 | a spec that embeds a subprocess is credited for a run of it if and only if no later spec embeds it |
| Coverage.FirstEmbedderGetsNoCredit | spiff-arena-common/src/spiff_arena_common/coverage.py:40-64 | two specs that embed one subprocess: its completed task is missing from the first and covered in the second |
| Coverage.CompletedExactly | spiff-arena-common/src/spiff_arena_common/coverage.py:49-95 | a task of a spec is covered exactly when some test case completed it in its main process, in a subprocess the spec is the last to embed, or in the spec's own run as a called process |
| Coverage.MoreTestsCoverMore | spiff-arena-common/src/spiff_arena_common/coverage.py:80-98 | coverage does not depend on the order of test cases and never shrinks when one is added |
| Coverage.TallyCoverage | spiff-arena-common/src/spiff_arena_common/coverage.py:66-78 | exact percentages, totals that sum the breakdown, and division by zero exactly when some spec has no tasks or there is none |
| Coverage.OverallBetweenBreakdowns | spiff-arena-common/src/spiff_arena_common/coverage.py:66-78 | any bounds on the percentages of the breakdown bound the overall percentage |
| Coverage.PercentNeverFalls | spiff-arena-common/src/spiff_arena_common/coverage.py:66-98 | adding test cases never lowers the overall percentage, which stays at most 100 |
| LazyLoading.BpmnTestCase.LazyLoad | spiff-arena-common/src/spiff_arena_common/tester.py:29-36 | loads file by file; raises exactly when an id is unknown, with what was loaded before it |
| LazyLoading.LoadAddsDefinitions | spiff-arena-common/src/spiff_arena_common/tester.py:29-36 | with one definition per id, loading adds exactly the listed ids and what they embed and changes no loaded definition |
| LazyLoading.LoadOrderIrrelevant | spiff-arena-common/src/spiff_arena_common/tester.py:29-36 | neither the order nor repetitions of the ids matter |
| LazyLoading.LastDefinitionWins | spiff-arena-common/src/spiff_arena_common/tester.py:29-36 | for any catalogue: each id has the definition of the last listed file that defines it, an embedded one over the file's own, or the one it had |
| LazyLoading.BpmnTestCase.RunTest | spiff-arena-common/src/spiff_arena_common/tester.py:38-61 | the loop of at most 100 rounds, with every way to leave it, a round that raises included |
| LazyLoading.BpmnTestCase.RunRecordingTest | spiff-arena-common/src/spiff_arena_common/tester.py:154-184 | the preload and the loop in which only the first round passes the recording, with every way to leave it |
| LazyLoading.FirstRoundPassesRecording | spiff-arena-common/src/spiff_arena_common/tester.py:154-184 | the first round passes the recording and decides the test unless it asks for known processes; only then do rounds without it follow, from the second on |
| LazyLoading.RoundsReachFixpoint | spiff-arena-common/src/spiff_arena_common/tester.py:38-61 | rounds only add definitions; with fewer ids than rounds the last response is that of the final definitions, a fixpoint if the loop ran out of rounds |
| LazyLoading.PreloadedNeverGrows | spiff-arena-common/src/spiff_arena_common/tester.py:157-184 | after the preload of a recording test, nothing is ever added again |
| LazyLoading.LaterRoundsIgnoreRecording | spiff-arena-common/src/spiff_arena_common/tester.py:154-184 | a recording test that needs a second round is decided by a run without the recording |
| LazyLoading.RestartIsFresh | spiff-arena-common/src/spiff_arena_common/runner.py:461-469 | every minimal state survives the codec, is recognised as minimal and yields the same new workflow as the empty state |
| LazyLoading.MinimalIsRecognised | spiff-arena-common/src/spiff_arena_common/runner.py:896-932 | what `get_minimal_state` returns is recognised as minimal |
| SchemaRefs.ResolveRef | spiffworkflow-backend/bin/openapi/extract_openapi_operation_info.py:20-29 | the loop evaluates the tokens of a local reference and raises exactly where a lookup fails |
| SchemaRefs.ResolvePointer | spiffworkflow-backend/bin/openapi/extract_openapi_operation_info.py:20-29 | a reference written from tokens is evaluated token by token, as RFC 6901, section 4, has it without escapes |
| SchemaRefs.ResolveFollowsPath | spiffworkflow-backend/bin/openapi/extract_openapi_operation_info.py:20-29 | every reference that starts with `#/` leads where the path of its other segments leads, and no other is resolved |
| SchemaRefs.ExtractSchemaRefs | spiffworkflow-backend/bin/openapi/extract_openapi_operation_info.py:32-41 | adds to the caller's set exactly the references in a document, strings or not, and raises exactly when one is a list or a dictionary |
| SchemaRefs.RefsAtPaths | spiffworkflow-backend/bin/openapi/extract_openapi_operation_info.py:32-41 | the references of a document are exactly what its dictionaries hold under `$ref` at any path, but for lists and dictionaries |
| SchemaRefs.HashableAtPaths | spiffworkflow-backend/bin/openapi/extract_openapi_operation_info.py:32-41 | extraction raises exactly if at some path a `$ref` is a list or a dictionary |
| SchemaRefs.LeadsInside | spiffworkflow-backend/bin/openapi/extract_openapi_operation_info.py:66-68 | the references a schema leads to occur in the document, so the worklist is finite |
| SchemaRefs.FoundThroughSchemas | spiffworkflow-backend/bin/openapi/extract_openapi_operation_info.py:44-70 | a reference is found exactly if it is an initial one or a found component schema has it at some path |
| SchemaRefs.GetAllReferencedSchemas | spiffworkflow-backend/bin/openapi/extract_openapi_operation_info.py:44-70 | for every pop order: raises if and only if some reached reference is unusable (not a string, unresolved, or with references that cannot be added), else returns exactly the reached schemas by name; no reference is processed twice |
| SchemaRefs.ResultIsUnique | spiffworkflow-backend/bin/openapi/extract_openapi_operation_info.py:44-70 | with distinct last segments the result is the same for every pop order |
| FieldNames.NormalizedJoinsTokens | connector-proxies/async-http/main.py:32-34 | the normalised name is the name's tokens joined by underscores; normalising is idempotent |
| FieldNames.SplitAtCapital | connector-proxies/async-http/main.py:33 | a name is split before a capital that follows a lower-case letter or digit |
| FieldNames.SplitAtSeparator | connector-proxies/async-http/main.py:34 | a name is split at every character that is no letter or digit |
| FieldNames.NotSplitElsewhere | connector-proxies/async-http/main.py:32-34 | a stretch of letters and digits without such a capital is one token, in lower case |
| FieldNames.SensitiveIffToken | connector-proxies/async-http/main.py:14-39 | the nine patterns match exactly when one of the name's tokens is among seventeen words |
| FieldNames.CamelCaseIsSensitive | connector-proxies/async-http/main.py:32-39 | `clientSecret` is sensitive and `keyboard` is not |
| Redaction.Redact | connector-proxies/async-http/main.py:50-61 | the recursive loop builds the redacted document |
| Redaction.HidesExactly | connector-proxies/async-http/main.py:42-56 | a value is replaced exactly if its key has a sensitive token, or its key is the single token `value` and the dictionary has type `password` or one of five descriptors with a sensitive token |
| Redaction.KeepsTheRest | connector-proxies/async-http/main.py:50-61 | outside replaced positions keys, list lengths, nesting and scalars are kept, and no path is added |
| Redaction.NothingHiddenSurvives | connector-proxies/async-http/main.py:50-61 | a path into a replaced value ends in the mark at its first replaced step and leads nowhere beyond |
| Redaction.RedactedTwice | connector-proxies/async-http/main.py:42-61 | redacting is idempotent if no redacted descriptor field has a sensitive text that it did not have before, as none has that is no list or dictionary |
| Redaction.PlainIsSteady | connector-proxies/async-http/main.py:42-47 | descriptor fields that are no lists or dictionaries meet that condition whatever `repr` is |
| TimeRange.CivilRoundTrip | spiffworkflow-frontend/src/components/TimeRangeFilter.tsx:100-105 | splitting a day into year, month and date loses nothing |
| TimeRange.CalendarAdvances | spiffworkflow-frontend/src/components/TimeRangeFilter.tsx:100-105 | day 0 is the first of January 1970, and each day has the date that follows in the calendar, with its month lengths and leap years |
| TimeRange.RebuiltIffFourDigitYear | spiffworkflow-frontend/src/components/TimeRangeFilter.tsx:93-129 | over the whole range of dates, rebuilding gives the timestamp rounded down to the minute exactly outside the years 0 to 99 |
| TimeRange.YearFiftyIsNotRebuilt | spiffworkflow-frontend/src/components/TimeRangeFilter.tsx:100-129 | the first day of the year 50 is rebuilt as the first day of 1950 |
| TimeRange.TwoDigitYearsShift | spiffworkflow-frontend/src/components/TimeRangeFilter.tsx:100-129 | the picker shows the years 0 to 99 as 1900 to 1999, and takes them for those |
| TimeRange.RebuiltSinceEpoch | spiffworkflow-frontend/src/components/TimeRangeFilter.tsx:93-129 | every timestamp from the epoch on is rebuilt to the minute |
| TimeRange.TimeRangeFilter.OpenAbsolutePicker | spiffworkflow-frontend/src/components/TimeRangeFilter.tsx:228-241 | what reopening puts into the picker, for a range in force and for none |
| TimeRange.TimeRangeFilter.ApplyAbsoluteRange | spiffworkflow-frontend/src/components/TimeRangeFilter.tsx:243-266 | a missing date is passed over in silence; an invalid date or time, a reversed range and an accepted one |
| TimeRange.TimeRangeFilter.ReopenAndApply | spiffworkflow-frontend/src/components/TimeRangeFilter.tsx:228-266 | a range in force that is reopened and applied unedited ends as the check of its two rebuilt ends says |
| TimeRange.UneditedRange | spiffworkflow-frontend/src/components/TimeRangeFilter.tsx:243-266 | that check: invalid exactly when an end is no valid time; outside the years 0 to 99 accepted, to the minute, exactly when the ends are ordered to the minute, in particular whenever start <= end |
| Percentile.PercentileIsMonotone | spiffworkflow-backend/bin/load_tests/concurrent_message_starts.py:343-349 | the percentile lies within the values, rises with the fraction and ignores the order of the values |
| Percentile.PercentileEnds | spiffworkflow-backend/bin/load_tests/concurrent_message_starts.py:343-349 | fractions 0 and 1 give the smallest and the largest value |
| Percentile.PercentileBetween | spiffworkflow-backend/bin/load_tests/concurrent_message_starts.py:343-349 | the k-th of n ordered values lies at k / (n - 1), and between two the percentile is on the straight line between them |

## Left out

- The workflow engine, its parser and its serializer: foreign; arbitrary functions, with the laws named above where
  needed.
- Replay: one fixture source for a whole run, which the workflow itself does not write; the file is read once. Task and
  workflow data are otherwise part of the engine.
- Replay: an entry of the recording is a dictionary whose `id` and `data`, if present, are text; the printed break
  and progress lines are outcomes here and nothing is printed.
- `CustomServiceTask.handle_completed_result` is part of the engine's answer to a step.
- Sessions: the dictionary passed as `state` is not shared with the caller's later changes, nor any part of a recorded
  dictionary with a workflow; a workflow changed in place is modelled by writing it back to its cache entry.
- Sessions: the subprocess specs of a workflow, a dictionary of spec objects in the code, are one spec object here.
- Sessions: of `build_response` only the stored step, its index and where it may raise are modelled.
- Sessions: the external context, start parameters and the choice of the first task belong to the engine here.
- Sessions: a state with just `tasks` and `subprocesses` whose tasks are not dictionaries makes the check for a minimal
  state raise in the code; here it is not minimal, and restoring it raises.
- Codec: floats, tuples and dictionary keys that are not strings; dates carry no time zone.
- Coverage: JSON parsing of spec files; a task spec's other keys; a test case whose state was never set.
- Lazy loading: the codec round trip of the loaded specs, which is the identity on values decoded once
  (`Codec.RoundTripIsIdempotent`); the assertions on the last response.
- Schema references: the formatting of the operation's other details; `1` and `true` are one member of a Python set.
- Redaction: names are ASCII; a pattern is given by its alternatives and its two boundaries.
- Redaction.RedactedTwice: for descriptor fields with lists or dictionaries it rests on a hypothesis about `repr`, which
  is foreign.
- Time range: local (non-UTC) times, and `Number` on strings other than digits; the local midnight of the picker
  shows the date it was made from.
- Percentile: fractions outside 0 to 1; floating-point rounding here and in the tally.
