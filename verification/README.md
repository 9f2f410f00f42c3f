# xwebs: proofs about its stateful cores

xwebs is a WebSocket tool whose server and REPL react to messages with *handlers*. This project models
the parts of it that hold real state or real algorithms, and proves what they promise for all inputs and all
runs. `dafny verify dfyconfig.toml` checks everything.

| file | what it models |
|---|---|
| `Registry.dfy` | the handler registry as a class over its list and ten tables, and each operation as a function on values |
| `RegistryRuns.dfy` | runs of registry operations: sorted list, unique names, order, disabling, sequences, disconnects |
| `RegistryRename.dfy` | renaming a handler as a replacement of names in keys |
| `RegistryCases.dfy` | what each operation leaves in the list and the tables, case by case |
| `Dispatch.dfy` | which handlers a message reaches: `Match` and the chain in `handleMessage` |
| `Matchers.dfy`, `MatcherLeaves.dfy`, `Glob.dfy` | the matcher evaluator; what leaf tests answer and where captures come from; globs compiled to regular expressions |
| `SlowLog.dfy`, `StableSort.dfy` | the log of the slowest executions; stable sorting |
| `Debounce.dfy`, `PauseBuffer.dfy` | two concurrent parts as step relations, one step for each section under a lock |
| `Retry.dfy` | the retry loop and its backoff in 64-bit arithmetic |
| `RoundRobin.dfy`, `Builtins.dfy`, `OnceFirings.dfy` | builtins that keep their state in the registry; how often a once handler fires |
| `HistoryBlocks.dfy`, `HistoryAgreement.dfy`, `InputTexts.dfy` | the two state machines for multi-line input, when they agree, and the texts they give |
| `SplitCommand.dfy`, `CommandExecution.dfy`, `CommandCases.dfy`, `AliasExpansion.dfy`, `AliasArguments.dfy`, `EditDistance.dfy` | the REPL tokenizer, aliases and sourced scripts, what lines and scripts execute, what alias bodies stand for, "did you mean" |
| `HexDump.dfy`, `KvStore.dfy` | the hex dump printer; the key-value store with expiry |
| `Text.dfy`, `Remainders.dfy`, `Steps.dfy`, `Wrappers.dfy` | Go's string helpers; facts about remainders; runs of a step relation; options |

How the model is built:

- Code that changes things step by step is a method with the source's loops and branches, or a class with the
  source's fields. Its contract equates the result or the new state with a function on values. The properties are
  lemmas about these functions, so they hold of the methods.
- Regular expressions other than those `matchGlob` emits, jq, JSON path, JSON Schema, templates, validation of a
  handler's actions, the commands of the REPL, sending to a client and the outcome of an attempt are parameters:
  every lemma holds for every choice of them.
- Time is an integer that is passed in. Where a run of the store has several readings they do not decrease.

Where the code does something other than its documentation or a reader's first guess, the model follows the code,
and a lemma gives a concrete input or the exact condition:

- The project's README says that `:hedit` is aware of multi-line input. The block found in the history is not
  always the command that was entered: a line that both opens a heredoc and ends in a backslash, or a heredoc body
  line that ends in a backslash, makes the two state machines part
  (`HistoryAgreement.BackslashAfterHeredocMark`; the exact condition is in `HistoryAgreement.HistoryAgreesExactly`).
- `AddHandlers` and `ReplaceHandlers` do not look at names, so a batch can break their uniqueness
  (`RegistryRuns.BatchBreaksUnique`; the exact condition is in `RegistryRuns.BatchKeepsUnique`).
- The exponential backoff overflows: with an interval of a second the 35th wait is negative, that is, none
  (`Retry.BackoffOverflows`), and from the 65th on every wait is zero (`Retry.LateWaitsAreZero`; the exact condition
  is in `Retry.ExponentialWaitExactly`).
- `Delete` leaves the statistics of a handler, and a handler renamed to the free name takes them over
  (`RegistryRename.StatisticsAreInherited`; the exact condition is in `RegistryRename.StatisticsFollowExactly`).
- What renaming makes of tables keyed by name and suffix depends on the iteration order of Go's maps exactly if an
  entry belongs to the old name again once it is moved, as from `a` to `a:b` (`Registry.MigrationIsRenamingIff`).
- The once builtin is documented to execute exactly once. Messages matched before the first of them is executed
  can all fire the handler (`OnceFirings.TwoMessagesFireTwice`; the exact condition is in
  `OnceFirings.FiresOnceIffNoneWaits`).
- A message can overtake buffered ones after a resume (`PauseBuffer.OvertakingHappens`,
  `PauseBuffer.OrderKeptIffNotOvertaken`), and the flusher can miss the resume and leave the buffer as it is
  (`PauseBuffer.WakeUpIsLost`, `PauseBuffer.FlusherDrainsIffAwake`).
- A message debounced by the setting of a handler can be executed after the handler was deleted, in three ways
  (`Debounce.CallbackComesTooLate`, `Debounce.CallComesTooLate`, `Debounce.ForgottenTimerComesTooLate`; the exact
  condition is in `Debounce.RemovalIsFinalIffSettled`). One debounced by the debounce builtin is executed
  then unless its connection has ended or all handlers were replaced: its keys are not those that updating, deleting
  and renaming look for (`Debounce.BuiltinOutlivesHandler`,
  `Builtins.DebounceKeysStay`).
- A debounced message can be executed with the captures of another (`Debounce.CapturesOfAnother`; the exact condition
  is in `Debounce.CallbackIsOfItsCall`).
- The arguments of an alias are not substituted at once: an argument with a dollar sign is substituted into, a dollar
  sign before a placeholder makes another one of the argument, and one can be left over
  (`AliasExpansion.ArgumentIsSubstitutedInto`, `AliasExpansion.DollarBeforePlaceholder`,
  `AliasExpansion.PlaceholderIsLeft`; the exact conditions are in `AliasExpansion.SimultaneousIffUnambiguous` for
  bodies and in `AliasArguments.SimultaneousIffHarmless` for arguments).
- `Get` still finds a key at its exact expiry instant, `List` does not show it (`KvStore.ListAndGetAgree`).
- Empty arguments cannot be typed: quoting works exactly for lists without one (`SplitCommand.EscapingRoundTrip`).

## Model

| member | source | states |
|---|---|---|
| Registry.Registry.constructor | internal/handler/registry.go:93-117 | a new registry has no handlers and ten empty tables |
| Registry.Registry.Add | internal/handler/registry.go:120-139 | refuses invalid handlers and names in use without changing anything; otherwise the list is the one stable sort of the old one with the handler at its end; no table changes |
| Registry.Registry.AddHandlers | internal/handler/registry.go:233-246 | all or nothing: one invalid handler refuses the batch; otherwise the stable sort of the old list followed by the batch, whatever the names |
| Registry.Registry.ReplaceHandlers | internal/handler/registry.go:249-287 | all or nothing: the list is the stable sort of the batch and all ten tables are empty |
| Registry.Registry.UpdateHandler | internal/handler/registry.go:166-230 | unknown name before invalid handler; replaces the handler of that name, sorts again, and drops the objects and the prefixed counters of the name but neither its sequences nor its disabling nor its statistics |
| Registry.Registry.Delete | internal/handler/registry.go:290-344 | takes out the handler of that name, keeps the order of the rest, and drops what the ten tables hold under the name, or under the name with a colon behind it, except its statistics; what the debounce builtin has stored under other keys stays |
| Registry.Registry.RenameHandler | internal/handler/registry.go:347-428 | a new name in use is refused before an unknown old one is; otherwise one handler changes its name in place, seven tables have the name replaced, and three what some iteration of the moving loops makes of them; that is the renaming of their keys where entries move once |
| Registry.Registry.EnableHandler | internal/handler/registry.go:1081-1099 | removes the name from the disabled ones if it is registered, changes nothing else |
| Registry.Registry.DisableHandlerWithReason | internal/handler/registry.go:1102-1123 | stores a non-empty reason for a registered name, changes nothing else |
| Registry.Registry.GetNextSequenceIndex | internal/handler/registry.go:1161-1196 | the index to use now and the one stored for the handler, or for the handler and the connection; all other indices stay |
| Registry.Registry.ResetSequence | internal/handler/registry.go:1199-1205 | forgets the shared and all per-client indices of a handler and nothing else |
| Registry.Registry.ClearConnResources | internal/handler/registry.go:1323-1360 | drops what is kept for a connection from three tables and nothing else |
| Registry.Registry.GetLastThrottleBroadcast | internal/handler/registry.go:1256-1260 | the time stored under handler and connection |
| Registry.Registry.SetLastThrottleBroadcast | internal/handler/registry.go:1263-1267 | stores one time under handler and connection |
| Registry.Registry.GetRoundRobinIndex | internal/handler/registry.go:1270-1277 | the stored index within the present size of the pool |
| Registry.Registry.SetRoundRobinIndex | internal/handler/registry.go:1280-1284 | stores one index |
| Registry.Registry.GetNextSampleCount | internal/handler/registry.go:1307-1313 | counts one more than before under the key |
| Registry.Registry.RecordMatch | internal/handler/registry.go:950-955 | one more match for the name, made if need be; no other statistics change |
| Registry.Registry.Match | internal/handler/registry.go:438-477 | the results or the first matcher error, and the new match counts, also of the handlers before an error |
| Registry.MigratePrefixed | internal/handler/registry.go:399-426 | the loop, which adds to the table it iterates over, makes of it what some iteration does, in whatever order and whether or not it comes by added entries |
| Registry.VisitsMove | internal/handler/registry.go:399-426 | where entries move once, an iteration moves exactly the original entries of the old name that it has come by |
| Registry.CanMoveTwice | internal/handler/registry.go:399-405 | an entry that belongs to the old name again can be moved again |
| Registry.MigrationIsRenamingIff | internal/handler/registry.go:399-426 | every iteration comes to the renaming of the keys if and only if no entry belongs to the old name again once it is moved |
| Registry.SeparateMovesOnce | internal/handler/registry.go:399-426 | so it is for names of which neither with a colon starts the other |
| Registry.OwnedByOne | internal/handler/registry.go:399-405 | no key belongs to both of two names of which neither with a colon starts the other |
| Registry.MoveOne | internal/handler/registry.go:399-405 | one step of the migration: the entry moved is still the original one, and the part moved grows by it |
| Registry.DeletePrefixed | internal/handler/registry.go:206-223 | exactly the entries with the prefix go |
| Registry.DeleteSuffixed | internal/handler/registry.go:1323-1360 | exactly the entries with the suffix go |
| RegistryRuns.BatchKeepsUnique | internal/handler/registry.go:233-246 | after adding a batch names are unique if and only if they were, are in the batch, and none of the batch was in use |
| RegistryRuns.BatchBreaksUnique | internal/handler/registry.go:233-246 | a concrete batch after which they are not |
| RegistryRuns.StepKeepsValid | internal/handler/registry.go:119-435 | every operation keeps: sorted by descending priority, unique names, only registered names disabled |
| RegistryRuns.RunKeepsValid | internal/handler/registry.go:119-435 | the same over every run whose batches have fresh distinct names |
| RegistryRuns.EmptyIsValid | internal/handler/registry.go:93-117 | the empty registry meets the invariant |
| RegistryRuns.StepKeepsOrder | internal/handler/registry.go:119-435 | an operation other than Replace leaves the handlers it does not name the same and in the same order |
| RegistryRuns.RunKeepsOrder | internal/handler/registry.go:119-435 | the same over every run, for any set of names that no operation touches |
| RegistryRuns.StepKeepsDisabled | internal/handler/registry.go:1080-1144 | a disabled handler stays disabled under every operation that does not enable, delete or replace it, under its new name if renamed |
| RegistryRuns.RunKeepsDisabled | internal/handler/registry.go:1080-1144 | the same over every run, following the handler through its names; it also stays registered |
| RegistryRuns.MatchSkipsDisabled | internal/handler/registry.go:444-454 | no result of Match is disabled |
| RegistryRuns.DisabledIsNeverMatched | internal/handler/registry.go:438-477 | after any run that does not enable, delete or replace it, a disabled handler is in no result of Match |
| RegistryRuns.SequenceAdvances | internal/handler/registry.go:1161-1196 | if the index is where the k-th call finds it, the call returns it and leaves it where the next call finds it |
| RegistryRuns.OthersKeepIndex | internal/handler/registry.go:1161-1205 | no other operation that spares the sequence, in particular no call of another client or handler, moves its index |
| RegistryRuns.SequenceReplies | internal/handler/registry.go:1161-1196 | the k-th call returns k mod n when looping and min(k, n-1) otherwise, whatever happens in between that spares the sequence |
| RegistryRuns.DisconnectForgets | internal/handler/registry.go:1323-1360 | a closed connection starts every per-client sequence and throttle anew |
| RegistryRuns.DisconnectSparesOthers | internal/handler/registry.go:1323-1360 | other connections, with names free of colons, keep theirs |
| RegistryCases.AddRegisters | internal/handler/registry.go:120-139 | a valid handler with a new name is in the list afterwards, sorted by descending priority and behind those of its own; otherwise nothing changes and the refusal says why |
| RegistryCases.BatchRegisters | internal/handler/registry.go:233-246 | all of a batch of valid handlers are in the list afterwards, or none |
| RegistryCases.ReplaceLeavesTheBatch | internal/handler/registry.go:249-287 | the list holds the batch and nothing else, all tables are empty |
| RegistryCases.UpdateReplaces | internal/handler/registry.go:166-230 | the first handler of the name gives its place to the new one before sorting; no counter or object of the name is left, those of other names, the sequences, the disabling and the statistics are |
| RegistryCases.DeleteUnregisters | internal/handler/registry.go:290-344 | the first handler of the name is out, the others keep their order; nothing but its statistics is left under the name, all entries of other names are |
| RegistryCases.DeleteLeavesOthers | internal/handler/registry.go:290-344 | if names are unique, the name is not in use any more and every other is |
| RegistryCases.EnableFrees | internal/handler/registry.go:1081-1099 | an enabled handler is matched by what its matcher matches; the others are as before |
| RegistryCases.DisableMarks | internal/handler/registry.go:1102-1123 | a disabled handler is matched by nothing and its reason kept, `user` if it was empty; the others are as before |
| RegistryCases.RenameRenames | internal/handler/registry.go:347-366 | the refusals in their order; otherwise one handler changes its name and keeps its place |
| RegistryCases.SequenceStarts | internal/handler/registry.go:1161-1196 | the first call for a sequence that has not been used gets the first response, and so on in turn |
| RegistryCases.DisconnectDrops | internal/handler/registry.go:1323-1360 | no entry of the connection is left in three tables, all others are |
| RegistryCases.ThrottleReadsBack | internal/handler/registry.go:1256-1267 | a time stored reads back for its handler and connection and is seen by no other, as long as names hold no colon |
| RegistryCases.RoundRobinKeysDiffer | internal/handler/registry.go:1270-1284 | two handlers or two pools never share an index, as long as names hold no colon |
| RegistryRename.ColonFreeNamesAreSeparate | internal/handler/registry.go:399-426 | different names without a colon never share a key |
| RegistryRename.RenameKeyThereAndBack | internal/handler/registry.go:369-396 | for a table keyed by name, renaming there and back restores it if and only if the new name was not in it |
| RegistryRename.RenamePrefixIsBijection | internal/handler/registry.go:399-426 | for a table keyed by name and suffix without entries of the new name, renaming maps keys one to one, onto the new table, keeping values |
| RegistryRename.RenamePrefixThereAndBack | internal/handler/registry.go:399-426 | renaming there and back restores such a table if and only if it had no entry of the new name |
| RegistryRename.TablesThereAndBack | internal/handler/registry.go:368-426 | all ten tables are restored if and only if nothing was stored under the new name |
| RegistryRename.RenameThereAndBack | internal/handler/registry.go:347-428 | both renames succeed, and the whole registry is restored if and only if nothing was stored under the new name |
| RegistryRename.LookupsFollowTheName | internal/handler/registry.go:346-428 | sequence, throttle, round-robin and sample lookups, the disabled state and the statistics under the new name are those of the old name before |
| RegistryRename.OtherNamesKeepTheirs | internal/handler/registry.go:346-428 | renaming changes nothing for a third handler |
| RegistryRename.StatisticsFollowExactly | internal/handler/registry.go:385-388 | a renamed handler keeps its own statistics if and only if it has some or none are stored under the new name |
| RegistryRename.StatisticsAreInherited | internal/handler/registry.go:290-344 | the other case occurs: Delete leaves statistics behind that a handler renamed to the free name takes over |
| StableSort.SortIsTheStableSort | internal/handler/registry.go:431-435 | a list is the result of sorting if and only if it is descending and keeps, for every priority, the elements in their order: there is exactly one stable sort |
| StableSort.SelectSort | internal/handler/registry.go:431-435 | sorting and selecting commute, which is why the order among untouched handlers survives |
| StableSort.TakeInsert | internal/handler/registry.go:984-1007 | only the first n places decide the first n places after an insertion |
| Dispatch.MatchIsEnabledMatchingCut | internal/handler/registry.go:438-477 | Match returns exactly the enabled matching handlers in list order cut just after the first exclusive one, with their own captures; it fails only if a matcher does |
| Dispatch.ExclusiveOnlyLast | internal/handler/registry.go:471-474 | the cut is a prefix in which only the last handler can be exclusive, and it is shorter than the list only behind an exclusive one |
| Dispatch.EveryMatchIsCountedOnce | internal/handler/registry.go:464-469 | a successful Match adds to the match count of every name the number of its results and changes no other statistics |
| Dispatch.RunChain | internal/handler/dispatcher.go:308-365 | the events of the chain, one for each result it comes by: limited, debounced or executed as the handler and its limiter ask for; a drop or an exclusive handler that was executed ends it and nothing else does |
| Dispatch.ChainShape | internal/handler/dispatcher.go:308-365 | without the exclusive test the chain visits the results in order and ends early only behind a drop |
| Dispatch.ChainObeys | internal/handler/dispatcher.go:308-365 | a handler whose limiter refuses is limited, else one with a debounce setting is debounced, else it is executed; an executed one that drops the message or is exclusive ends the chain, and nothing else does |
| Dispatch.CheckIsRedundant | internal/handler/dispatcher.go:358-363 | if only the last result is exclusive, the chain with its exclusive test does what it does without |
| Dispatch.MessageIsHandledByTheCut | internal/handler/dispatcher.go:276-366 | handling a message visits the enabled matching handlers up to the first exclusive one, in order, until a drop, with or without the chain's own test, also when the exclusive handler is rate limited or debounced |
| Matchers.VerdictIsMeaning | internal/handler/registry.go:502-644 | a verdict, when there is one, is the boolean meaning of the matcher, whatever one supposes for leaf tests that would have failed |
| Matchers.NoErrorsNoError | internal/handler/registry.go:502-644 | if no leaf raises an error neither does the matcher |
| Matchers.MatchIsBoolean | internal/handler/registry.go:502-644 | without leaf errors the verdict is all of All, some of Any if present, the binary test and the leaf test, which is what MatcherLeaves says it is |
| Matchers.PartsReplaced | internal/handler/registry.go:502-644 | parts may be replaced by parts that say the same |
| Matchers.OrderDoesNotMatter | internal/handler/registry.go:503-536 | the verdict does not depend on order or repetition within All and Any |
| Matchers.FlattenAll | internal/handler/registry.go:503-515 | a pure All inside All may be replaced by its parts |
| Matchers.FlattenAny | internal/handler/registry.go:517-536 | a pure, non-empty Any inside Any may be replaced by its parts |
| Matchers.LeafPrecedence | internal/handler/registry.go:546-644 | of several leaf tests only the first in the fixed order counts |
| MatcherLeaves.TextIsEqual | internal/handler/registry.go:611-617 | a text pattern without wildcards matches if and only if the trimmed message is the pattern |
| MatcherLeaves.GlobIsGlob | internal/handler/registry.go:611-631 | a glob, or a text pattern with wildcards, matches if and only if the direct glob relation holds, with captures that refill it to the trimmed message |
| MatcherLeaves.OtherKindsAreAsked | internal/handler/registry.go:617-643 | patterns of the other kinds are what their library answers for pattern and trimmed message; the groups of a regular expression come without the whole match, unknown kinds are errors |
| MatcherLeaves.ShorthandsAreAsked | internal/handler/registry.go:546-609 | so are the shorthands, in their fixed order; without any leaf test the matcher matches |
| MatcherLeaves.BinaryIsAsked | internal/handler/registry.go:538-544 | a matcher that asks for binary or for text messages matches no others, and exactly those if it asks for nothing else |
| MatcherLeaves.CapturesComeFrom | internal/handler/registry.go:503-569 | the captures are those that the own leaf test gives, even if none; if it leaves them to the parts, the first non-empty ones among the All parts in order and the first Any part that matches |
| Glob.CompiledReadsBack | internal/handler/registry.go:646-662 | for every pattern the emitted text is a regular expression and reads back as the pattern's characters with groups for the wildcards |
| Glob.StarsReplaced | internal/handler/registry.go:653-653 | the first replacement hits exactly the stars of the pattern, never an escaped backslash before something else |
| Glob.QuestionsReplaced | internal/handler/registry.go:654-654 | the second replacement hits exactly the question marks, never the groups that the first one made |
| Glob.CapturesFill | internal/handler/registry.go:664-672 | captures found fill the wildcards to the message |
| Glob.FillsAreFound | internal/handler/registry.go:664-672 | if anything fills the wildcards to the message, captures are found, and greedier ones |
| Glob.GlobMatchesGivesFill | internal/handler/registry.go:646-673 | where the direct glob relation holds, the wildcards can be filled to the message |
| Glob.FillGivesGlobMatches | internal/handler/registry.go:646-673 | and conversely |
| Glob.GlobIsPreserved | internal/handler/registry.go:646-673 | matchGlob never rejects a pattern, its verdict is the direct glob relation, its captures refill the wildcards to the message and are the greediest |
| SlowLog.GlobalStats.constructor | internal/handler/registry.go:93-117 | starts with an empty log of capacity 50 |
| SlowLog.GlobalStats.RecordExecution | internal/handler/registry.go:958-1008 | keeps the log equal to the first 50 of all executions recorded so far in stable descending order, and counts executions and errors |
| SlowLog.GlobalStats.Place | internal/handler/registry.go:989-1007 | the search for a faster entry, the append and the trimming place an entry as sorted insertion and cutting would |
| SlowLog.GlobalStats.GetSlowLog | internal/handler/registry.go:1018-1029 | the matching prefix of the top 50 of everything recorded |
| SlowLog.SlowestOfExtension | internal/handler/registry.go:957-1008 | trimming after every insertion loses nothing |
| SlowLog.SlowestDominates | internal/handler/registry.go:957-1029 | the log splits the history: nothing outside took longer than anything inside, it is as long as it may be, descending, and ties stand in order of execution |
| Debounce.StepKeepsInv | internal/handler/registry.go:919-947 | every step, in any order, keeps the newest arrival pending or executed and a timer on its way for it; that calls stop timers is `Debounce.CallStopsTimer` |
| Debounce.RunKeepsInv | internal/handler/registry.go:919-947 | so does every interleaving |
| Debounce.EachMessageAtMostOnce | internal/handler/registry.go:917-947 | in every interleaving each message is executed at most once |
| Debounce.CallbackTakesNewest | internal/handler/registry.go:933-946 | a callback executes the newest message that has arrived, or nothing if that one has been executed |
| Debounce.CallbackIsOfItsCall | internal/handler/registry.go:919-947 | a callback executes the message of the call that armed its timer, and so with its own captures, if and only if the timer is the one in the timer field |
| Debounce.CapturesOfAnother | internal/handler/dispatcher.go:326-337 | a concrete interleaving in which a message is executed with the captures of an earlier one |
| Debounce.CallStopsTimer | internal/handler/registry.go:928-934 | after a call the timer in the timer field before it cannot go off any more; the one armed by the call can |
| Debounce.StepKeepsOneTimer | internal/handler/registry.go:919-947 | if no callback comes late, a step leaves at most one timer able to go off for each debouncer, that of its newest call |
| Debounce.OneTimerOverRun | internal/handler/registry.go:919-947 | so over every run in which no callback comes late |
| Debounce.CallFindsDebouncer | internal/handler/registry.go:919-926 | calls with the same key share a debouncer, and one with a new key makes one with nothing in it |
| Debounce.KeysMove | internal/handler/registry.go:334-391 | renaming takes the debouncer to the new key, deleting forgets the key; the other keys keep theirs |
| Debounce.PendingWillBeTaken | internal/handler/registry.go:928-946 | while a message is pending and the handler not removed, an armed or fired timer is there whose going on executes it |
| Debounce.NewestIsNeverLost | internal/handler/registry.go:917-947 | once no timer is left and the handler was not removed, the newest message has been executed |
| Debounce.StepKeepsSettled | internal/handler/registry.go:919-947 | once a removed handler's debouncer is settled, no step unsettles it or executes a message of it |
| Debounce.LateExecution | internal/handler/registry.go:919-947 | a debouncer that is not settled can execute a further message |
| Debounce.RemovalIsFinalIffSettled | internal/handler/registry.go:334-341 | the debouncer of a removed handler executes nothing any more, whatever happens, if and only if no call waits between its two locked sections and no message is pending or no timer left |
| Debounce.QuietRemovalIsFinal | internal/handler/registry.go:334-341 | deleting a handler with no call waiting, no callback under way and only the timer in the timer field leaves its debouncer settled, that is, silent for good |
| Debounce.CallbackComesTooLate | internal/handler/registry.go:334-341 | a concrete interleaving: the callback waits for the lock while the handler is deleted |
| Debounce.CallComesTooLate | internal/handler/registry.go:920-934 | another: a call has found the debouncer before the handler is deleted and arms the timer after |
| Debounce.ForgottenTimerComesTooLate | internal/handler/registry.go:928-941 | another: a late callback forgets the timer of a newer message, which then is not stopped |
| Debounce.BuiltinOutlivesHandler | internal/handler/builtins_impl.go:4203-4251 | updating or deleting a handler leaves the debouncers of its debounce builtin linked and armed, and a timer going on executes what is pending there |
| Builtins.DebounceKeysStay | internal/handler/builtins_impl.go:4203-4213 | Delete, Update and Rename leave in the table what the debounce builtin of the handler has put there |
| PauseBuffer.Dispatcher.constructor | internal/handler/dispatcher.go:147-184 | starts with nothing buffered and nothing handled |
| PauseBuffer.Dispatcher.AddToBuffer | internal/handler/dispatcher.go:247-254 | appends one message |
| PauseBuffer.Dispatcher.FlushBuffer | internal/handler/dispatcher.go:256-274 | handles what was buffered, in order, and empties the buffer, as the steps of the flusher do |
| PauseBuffer.StepKeepsInv | internal/handler/dispatcher.go:199-274 | every step of receiver, flusher, pause and resume keeps the account of where messages are; the order of arrival survives it exactly if it passes no message on while others wait |
| PauseBuffer.RunKeepsInv | internal/handler/dispatcher.go:199-274 | so does every interleaving |
| PauseBuffer.EachMessageIsSomewhereOnce | internal/handler/dispatcher.go:199-274 | each received message is exactly once among handled, batch, buffer and the receiver's hand |
| PauseBuffer.BufferedInOrder | internal/handler/dispatcher.go:256-274 | buffered messages are handled in order of arrival, and so are the others among themselves |
| PauseBuffer.OrderKeptIffNotOvertaken | internal/handler/dispatcher.go:233-239 | all messages are handled in order if and only if no step of the run passes one on while others wait |
| PauseBuffer.OvertakingHappens | internal/handler/dispatcher.go:199-245 | a concrete interleaving in which a later message is handled first |
| PauseBuffer.WakeUpIsLost | internal/server/server.go:826-847 | a concrete interleaving after which the server is not paused and the flusher sleeps on a message |
| PauseBuffer.SleepsOn | internal/server/server.go:837-847 | a flusher that is or falls asleep takes nothing from the buffer until somebody resumes the server again |
| PauseBuffer.FlusherDrainsIffAwake | internal/handler/dispatcher.go:203-220 | after a resume the flusher, left alone, handles the batch and the buffer in order if and only if there is nothing buffered or it did not miss the broadcast |
| Retry.Execute | internal/handler/dispatcher.go:403-478 | at least one and at most 1 + Count attempts, one without retries; all before the last failed and the wait after them was not cancelled; giving up means that 1 + Count attempts failed; the waits are those of the backoff, the time waited is within the bounds, and errors are handled exactly after the last attempt failed |
| Retry.ProductIsWrappedOnce | internal/handler/dispatcher.go:634-634 | that the power is wrapped before the product makes no difference |
| Retry.FirstWaits | internal/handler/dispatcher.go:623-649 | without settings the waits are 1, 2, 4, 8, 16 and 30 seconds, or 1, 2, 3, ... when linear; what a malformed interval and a malformed cap mean |
| Retry.ParsedWaits | internal/handler/dispatcher.go:623-649 | a parsed interval is what is doubled or multiplied, up to a parsed cap or half a minute |
| Retry.ExponentialWaitExactly | internal/handler/dispatcher.go:623-649 | the wait is min(I * 2^(n-1), cap) if and only if the product fits into 64 bits, or is too large for them and what they leave of it reaches the cap; for negative intervals too |
| Retry.LinearWaitExactly | internal/handler/dispatcher.go:643-645 | the linear wait is I * n if and only if that fits into 64 bits |
| Retry.BackoffOverflows | internal/handler/dispatcher.go:623-649 | a concrete configuration in which it is not |
| Retry.LateWaitsAreZero | internal/handler/dispatcher.go:623-649 | from the 65th exponential wait on nothing is waited at all, whatever the interval is |
| Retry.WaitLength | internal/handler/dispatcher.go:623-649 | as long as 64 bits suffice: the capped power of two, or the linear multiple |
| Retry.WaitsNonDecreasing | internal/handler/dispatcher.go:623-649 | waits never get shorter |
| Retry.CappedTotal | internal/handler/dispatcher.go:623-649 | k exponential waits take at most k times the cap, overflow or not |
| Retry.ExponentialTotal | internal/handler/dispatcher.go:623-649 | they take at most I * (2^k - 1), overflow or not |
| Retry.LinearTotalAtMost | internal/handler/dispatcher.go:643-645 | k linear waits take at most I * k * (k + 1) / 2, overflow or not |
| Retry.LinearTotal | internal/handler/dispatcher.go:643-645 | as long as 64 bits suffice they take exactly that |
| Retry.RetryTimeIsBounded | internal/handler/dispatcher.go:403-455 | the bounds with the configured number of retries, however many are needed |
| RoundRobin.Execute | internal/handler/builtins_impl.go:3804-3899 | a message goes to the first position from the stored index on, going around, that is connected and whose send succeeds, or to nobody if there is none; only a delivery moves the index, to the position after it |
| RoundRobin.SkipOne | internal/handler/builtins_impl.go:3879-3895 | the position tried is the next one going around, after all earlier ones failed |
| RoundRobin.DeliveryMovesOn | internal/handler/builtins_impl.go:3879-3895 | a delivery stores the next position, going around, under its key; nothing else changes, and nothing at all without a delivery |
| RoundRobin.DeliveriesAreServed | internal/handler/registry.go:1269-1284 | the index stored after a delivery is where the next one starts |
| RoundRobin.CountsAreRounds | internal/handler/builtins_impl.go:3833-3898 | delivery counts are always those of some full rounds and a part of one |
| RoundRobin.EveryMessageIsServed | internal/handler/builtins_impl.go:3833-3898 | no message is lost while somebody can be served |
| RoundRobin.RoundRobinIsFair | internal/handler/builtins_impl.go:3833-3898 | over any number of messages the delivery counts of two positions that can be served differ by at most one, and no other position is served |
| Builtins.ExecuteSequence | internal/handler/builtins_impl.go:1259-1285 | the response at the sequence index of the handler, or of the shared anonymous sequence; only the sequence tables change |
| Builtins.SequencesDiffer | internal/handler/builtins_impl.go:1259-1285 | two handlers share a sequence if and only if they have the same name, or one has none and the other is called like the sequence of those without |
| Builtins.ResponsesInTurn | internal/handler/builtins_impl.go:1259-1285 | the k-th time a fresh sequence of n responses is called it sends response k mod n when looping and response min(k, n-1) otherwise |
| Builtins.ExecuteOnce | internal/handler/builtins_impl.go:4120-4142 | fires only for a registered handler, which is then disabled |
| Builtins.OnceDisables | internal/handler/builtins_impl.go:4120-4142 | without a name, or if no handler has it, nothing fires or changes; otherwise it fires and the name is disabled, with the reason once |
| Builtins.FiredIsNotMatchedAgain | internal/handler/builtins_impl.go:4120-4142 | after firing, a handler is in no later result of Match in any run that does not enable, delete or replace it, under whatever name |
| OnceFirings.StepKeepsBound | internal/handler/dispatcher.go:276-366 | while the handler is disabled no step lets more messages fire it than have been matched |
| OnceFirings.FiringsAreBounded | internal/handler/dispatcher.go:276-366 | so over every run: it fires at most once for every message already matched |
| OnceFirings.FiresOnceIffNoneWaits | README.md:663 | a handler fires exactly once, whatever comes, if and only if no second message is matched and waiting when it fires first |
| OnceFirings.TwoMessagesFireTwice | README.md:663 | a concrete run in which it fires twice |
| HistoryBlocks.FindBlocks | internal/repl/command.go:2383-2439 | the blocks of a history |
| HistoryBlocks.FindHistoryBlock | internal/repl/command.go:2376-2449 | for every index in range the block that holds it, for others the index itself |
| HistoryBlocks.ScanPartitions | internal/repl/command.go:2383-2439 | the blocks cover all lines in order, without gaps or overlaps |
| HistoryBlocks.PartitionCovers | internal/repl/command.go:2441-2449 | every index lies in exactly one block |
| HistoryBlocks.LineAssembler.constructor | internal/repl/repl.go:96-124 | no buffer is in use at the start |
| HistoryBlocks.LineAssembler.ReadLine | internal/repl/repl.go:539-576 | an input is finished exactly when the line closes a group of lines, and is the text of that group: backslashes cut off, or the heredoc body behind what stood before its mark |
| InputTexts.OpeningLineParts | internal/repl/repl.go:566-573 | a line is split at its last mark: it opens a heredoc if and only if one word without quotes follows the mark, that word is the delimiter, and what stands before the mark goes into the input |
| InputTexts.ContinuedLine | internal/repl/repl.go:540-541 | a line is continued if and only if but for blanks it ends in a backslash |
| InputTexts.BackslashIsCut | internal/repl/repl.go:540-542 | the line goes into the input without that backslash and the blanks after it |
| InputTexts.HeredocIsOneInput | internal/repl/repl.go:539-576 | an opening line, body lines and the delimiter give one input: what stood before the mark and the body, a line each |
| InputTexts.ContinuationIsOneInput | internal/repl/repl.go:539-576 | lines continued with backslashes and the line after them give one input: the lines without the backslashes |
| HistoryAgreement.StaysRelated | internal/repl/repl.go:539-576 | unless the line makes them part, both state machines go on in step |
| HistoryAgreement.PartingIsForGood | internal/repl/command.go:2376-2449 | once they part, no later lines bring the groupings together again |
| HistoryAgreement.AgreementFrom | internal/repl/command.go:2376-2449 | from any pair of related states they group the remaining lines alike if and only if the condition holds |
| HistoryAgreement.HistoryAgreesExactly | internal/repl/command.go:2376-2449 | the blocks are the groups that Run joins if and only if the lines meet a condition readable line by line |
| HistoryAgreement.CleanAgrees | internal/repl/repl.go:539-576 | the condition holds if no line ending in a backslash opens a heredoc or lies in one |
| HistoryAgreement.HistoryBlockIsTheCommand | README.md:2293 | under the condition the block of any line is the whole command the line belongs to |
| HistoryAgreement.CleanLinesAgree | README.md:2293 | clean lines meet the condition, so their blocks are the groups that Run joins |
| HistoryAgreement.BackslashAfterHeredocMark | README.md:2293 | three lines that the history takes for one command and Run for two |
| SplitCommand.SplitLine | internal/repl/repl.go:969-1027 | the loop over the line, with its quotes, braces and escapes, finds the arguments |
| SplitCommand.SplitUndoesQuoting | internal/repl/repl.go:969-1027 | for every list of non-empty arguments, each typed piece by piece escaped, single quoted, double quoted, bare or in braces, the split gives back what was meant |
| SplitCommand.SplitIgnoresSpacing | internal/repl/repl.go:969-1027 | so it does with any runs of blanks and tabs between the arguments and around them |
| SplitCommand.TrailingBackslashStays | internal/repl/repl.go:969-1027 | a backslash at the end of the line stands for itself |
| SplitCommand.UnclosedQuoteTakesTheRest | internal/repl/repl.go:969-1027 | a quote that is not closed takes the rest of the line |
| SplitCommand.BackslashInBraces | internal/repl/repl.go:969-1027 | also in braces a backslash is dropped and the character behind it kept as it is |
| SplitCommand.NoEmptyParts | internal/repl/repl.go:969-1027 | no argument found is empty |
| SplitCommand.EscapingRoundTrip | internal/repl/repl.go:969-1027 | a backslash before every byte is undone if and only if no argument is empty |
| SplitCommand.SingleQuotingRoundTrip | internal/repl/repl.go:969-1027 | single quotes around arguments that hold none are undone if and only if no argument is empty |
| SplitCommand.BracedFragmentIsOneToken | internal/repl/repl.go:969-1027 | a balanced fragment with closed quotes stays one token, copied with its spaces and quotes |
| CommandExecution.REPL.constructor | internal/repl/repl.go:61-62 | starts at depth 0 |
| CommandExecution.REPL.ExecuteCommand | internal/repl/repl.go:603-697 | terminates for every alias table and all scripts, never takes the depth above 10, and leaves it at its entry value on every path |
| CommandExecution.REPL.ExecuteSource | internal/repl/command.go:1254-1309 | the same for `:source`, whose depth limit comes before opening the file |
| CommandExecution.REPL.ExecuteLines | internal/repl/command.go:1270-1308 | stops at the first line that fails; an exit stays an exit, other errors are marked with the script; that all lines before are executed is `CommandCases.ScriptExecutesItsLines` |
| AliasExpansion.ExpandAlias | internal/repl/repl.go:638-650 | where no dollar sign stands before a placeholder of the body and the arguments are harmless, as $HOME is, the passes give the body with every $1 to $9 and $@ replaced by what it stands for, read once, and leave no placeholder; for any number of arguments |
| AliasExpansion.PassFills | internal/repl/repl.go:640-650 | a pass fills exactly the placeholders of its name, if no literal dollar sign is followed by that name |
| AliasExpansion.SubstitutionIsSimultaneous | internal/repl/repl.go:638-650 | the same of the passes on values |
| AliasExpansion.AmbiguousGoesWrong | internal/repl/repl.go:638-650 | for every other body there are arguments with which the passes give something else |
| AliasExpansion.SimultaneousIffUnambiguous | internal/repl/repl.go:638-650 | the passes are substitution in one reading, for all harmless arguments, if and only if no dollar sign of the body stands directly before a placeholder |
| AliasExpansion.NoPlaceholderIsLeft | internal/repl/repl.go:647-650 | then no dollar sign of the result stands directly before 1 to 9 or @ |
| AliasExpansion.HarmlessOfNine | internal/repl/repl.go:640-645 | up to nine arguments are harmless if and only if every dollar sign in them is followed, in the same argument, by something other than 1 to 9 or @ |
| AliasArguments.AllGoesWrong | internal/repl/repl.go:644-650 | what the joined arguments hold or end in shows in the body $@1 |
| AliasArguments.ArgumentGoesWrong | internal/repl/repl.go:640-650 | a dollar sign at the end of one of the first nine arguments shows in the body of its placeholder and 1 |
| AliasArguments.SimultaneousIffHarmless | internal/repl/repl.go:638-650 | the passes are substitution in one reading, for all bodies without a dollar sign before a placeholder, if and only if the arguments are harmless; for any number of arguments, if none holds $@ |
| AliasArguments.AllInArgument | internal/repl/repl.go:644-645 | an argument $@ comes out right when it is alone |
| AliasArguments.AllInArgumentGoesWrong | internal/repl/repl.go:644-645 | and wrong when there is another |
| AliasExpansion.ArgumentIsSubstitutedInto | internal/repl/repl.go:640-643 | $1 with the arguments $2 and x gives x |
| AliasExpansion.DollarBeforePlaceholder | internal/repl/repl.go:640-643 | $$1 with the arguments 2 and x gives x |
| AliasExpansion.PlaceholderIsLeft | internal/repl/repl.go:647-650 | $$11 without arguments gives $1 |
| CommandExecution.SendIsNotBare | internal/repl/repl.go:610-613 | bare text is rewritten once: the rewritten line is a command |
| CommandExecution.DepthDoesNotShow | internal/repl/repl.go:603-653 | a line that does not meet the limit does the same from any smaller depth |
| CommandExecution.LinesDoNotShowDepth | internal/repl/command.go:1258-1308 | so does a script |
| CommandExecution.CyclesEndInError | internal/repl/repl.go:630-653 | any cycle of aliases, also by way of bare text, ends in the depth error and changes nothing |
| CommandExecution.SelfAliasEndsInError | internal/repl/repl.go:630-653 | in particular an alias that calls itself |
| CommandCases.ScriptExecutesItsLines | internal/repl/command.go:1270-1308 | every line that is neither blank nor a comment is executed, in order, each in the world that the one before leaves, up to the first that fails; the script fails if and only if one does, with its exit or its error |
| CommandCases.ScriptsJoin | internal/repl/command.go:1270-1308 | a script that succeeds followed by another does what they do one after the other |
| CommandCases.SourceExecutesTheFile | internal/repl/command.go:1254-1309 | `:source` executes the lines of the named file one level deeper; without a file name, at depth 10 or without such a file it fails and changes nothing |
| CommandCases.BlankLineDoesNothing | internal/repl/repl.go:604-607 | a line of white space does nothing |
| CommandCases.BareTextIsSent | internal/repl/repl.go:610-613 | bare text does what `:send` followed by it does |
| CommandCases.ShellGetsRawText | internal/repl/repl.go:615-620 | the shell gets the text after `:!` as it is |
| CommandCases.ScriptAliasExecutesItsBody | internal/repl/repl.go:630-653 | a script alias executes its body with the arguments put in, one level deeper, and fails at depth 10 |
| CommandCases.CommandGetsArguments | internal/repl/repl.go:655-697 | the command of the name, or the one a plain alias names, gets exactly the arguments typed; an alias is looked up once, and an unknown command changes nothing |
| CommandCases.TypedCall | internal/repl/repl.go:622-628 | a call typed in any quoting reaches the command with the arguments that were meant |
| EditDistance.Levenshtein | internal/repl/command.go:2592-2620 | the filled matrix holds the edit distance |
| EditDistance.DistSymmetric | internal/repl/command.go:2592-2620 | the distance is symmetric |
| EditDistance.DistZeroIffEqual | internal/repl/command.go:2592-2620 | it is zero if and only if the strings are equal |
| EditDistance.TriangleInequality | internal/repl/command.go:2592-2620 | it obeys the triangle inequality |
| EditDistance.NoShorterScript | internal/repl/command.go:2592-2620 | no script of insertions, deletions and substitutions is shorter |
| EditDistance.ShortestScript | internal/repl/command.go:2592-2620 | some script is as short |
| EditDistance.SuggestSimilarBuiltin | internal/repl/command.go:2572-2589 | the first name at minimal distance, counted in bytes of the lowered names, if that distance is at most 2, else the empty string |
| HexDump.Dump | internal/repl/format.go:277-310 | the lines of the dump, without a newline at the end |
| HexDump.WriteHexBytes | internal/repl/format.go:283-293 | the hex columns of a row, padded |
| HexDump.WriteSidebar | internal/repl/format.go:297-306 | the characters of a row |
| HexDump.DumpIsInvertible | internal/repl/format.go:277-310 | a reader of the hex columns gets back exactly the bytes, and there are ceil(n/16) lines |
| HexDump.LineReadsBack | internal/repl/format.go:280-307 | a line holds its bytes and no newline, whatever the bytes are |
| HexDump.LineIsLaidOut | internal/repl/format.go:281-307 | the offset reads back, the columns have fixed places, and every byte is shown between the bars as itself or a dot |
| HexDump.LineLayout | internal/repl/format.go:277-310 | so for every line of the dump, with offsets 0, 16, 32 and on |
| HexDump.OffsetReadsBack | internal/repl/format.go:281-281 | the offset has at least eight digits and reads back, also beyond 32 bits |
| KvStore.Store.constructor | internal/kv/store.go:20-26 | an empty store |
| KvStore.Store.Get | internal/kv/store.go:48-65 | what was last set and has not expired; evicting changes nothing a caller can see |
| KvStore.Store.Set | internal/kv/store.go:68-81 | the value is stored until the time of the call plus its time to live, or for good if that is not positive; no other entry changes |
| KvStore.Store.Delete | internal/kv/store.go:84-88 | the key is gone |
| KvStore.Store.List | internal/kv/store.go:91-103 | everything set that expires later or never |
| KvStore.Store.Cleanup | internal/kv/store.go:36-45 | drops exactly the expired entries; nothing a caller can see changes |
| KvStore.StepKeepsRefinement | internal/kv/store.go:36-103 | every call replies as a store that never evicts, and keeps only expired entries missing |
| KvStore.EvictionIsInvisible | internal/kv/store.go:36-103 | any run, with cleanup inserted anywhere, replies as the run without cleanup on a store that never evicts |
| KvStore.ListAndGetAgree | internal/kv/store.go:48-103 | List and Get agree on a key if and only if it is not the key's exact expiry instant |
| KvStore.EntriesLast | internal/kv/store.go:36-103 | after any calls Get gives the value last set and not deleted since, up to and including the end of its time to live, and List shows it before that; a time to live that is not positive never ends |

## Left out

- RegistryRename.RenameThereAndBack: requires that neither name followed by a colon starts with the other, and so do the lemmas on tables keyed by name and suffix; what happens to other names is `Registry.Registry.RenameHandler`, and when it is definite `Registry.MigrationIsRenamingIff`.
- Retry.WaitLength: requires that the products fit into 64 bits, and so do `Retry.WaitsNonDecreasing` and the exact `Retry.LinearTotal`; the exact conditions are `Retry.ExponentialWaitExactly` and `Retry.LinearWaitExactly`, and the bounds on the time waited need none.
- AliasArguments.SimultaneousIffHarmless: is about arguments without $@ in them. With $@, the text of all arguments is put into the argument and partly cleaned up again, which can come out as the argument itself: whether it does depends on the other arguments too (`AliasArguments.AllInArgument`, `AliasArguments.AllInArgumentGoesWrong`).
- OnceFirings.FiresOnceIffNoneWaits: an execution is one for a matched message; the retries of a handler may execute its builtin again.
- RegistryRuns.RunKeepsValid: requires batches with fresh distinct names, since the code does not look at names in batches; the exact condition is `RegistryRuns.BatchKeepsUnique`.
- RoundRobin.RoundRobinIsFair: the pool and the positions that can be served stay the same over the run; a failing send counts as a position that cannot be served.
- Network and process I/O and the builtins that wrap libraries or the operating system: HTTP, Redis, MQTT, NATS, Kafka, SQLite, Ollama, OpenAI, shell, files.
- The template engine, jq, JSON path, JSON Schema, Lua and the rate limiter: they appear as functions of the expression and the message, so a handler's own variables and base directory are not modelled.
- Regular expressions beyond those that globs compile to.
- Validation of handlers and actions (`internal/handler/config.go`): a predicate on one handler.
- The fields of a handler that neither Match nor the chain reads, and the actions that an attempt executes.
- Scoped limiters, their rates and bursts, Lua pools and states and compiled schemas: RenameHandler does not migrate them, and the operations that drop them do no more than that.
- The remaining small accessors of the registry: GetHandler, Handlers, GetStats, GetScopedLimiter, GetNextRoundRobinIndex, ResetRoundRobin, ResetSample and the like.
- The totals of latency and errors per handler in RecordExecution, and the wrap-around of its 64-bit counters.
- Slices shared outside the lock (`Handlers`, `Match`, `LifecycleHandlers`): each call is one step. So is `Get` of the store, which has two locked sections.
- Debounce.EachMessageAtMostOnce: durations are left out, so a timer may go off at any moment; this allows more interleavings than the clock does.
- PauseBuffer.EachMessageIsSomewhereOnce: handled means that handleMessage was called; the goroutines it starts, one for each message, may overtake each other afterwards.
- Ending of the goroutines by context or connection is modelled only where they look for it, and the two looks of WaitIfPaused at the flag are one.
- Interrupts and read errors in Run, which clear the continuation buffer, and the lines that `:hedit` feeds back.
- SIGINT, cancellation, help and sandbox errors of a REPL command: one function from the error to the error that is returned. Line length limits and read errors of scripts.
- Strings are sequences of code points: invalid UTF-8 is not modelled. Matcher kinds are lowered as ASCII; lowering of command names to bytes is a parameter.
- The slices that matrices and lists are kept in: capacity and aliasing of their backing arrays.
- Recorder, replayer, logger, mock scenarios, metrics, sampling and throttle spacing, and the user interface: easy next to the properties above.
