# Firebat: schedules, bindings, maze, pipeline, feed and app storage

A Dafny model of six parts of Firebat, with proofs of what they promise.

- **Schedule reconciliation.** A module declares schedules, a persisted record remembers which were
  registered, the clock holds the live jobs. `ScheduleSync` follows the loops of the reconciler call by
  call; `CoreFacade.Core` is the mutable form, proved equal to it. Each scheduler call may fail, by
  position in the log, and the hash map of live jobs may list its keys in any order; every theorem holds
  for every choice of both. `SyncPasses` says what each loop does under failures, `SyncSettle` gives one
  clean pass in closed form, `SyncRuns` treats runs with failures and owner deletions, `SyncRecovery` what a clean
  pass makes up for, `SyncOrder` the
  boot pass over all modules, `SyncCalls` the calls made and the files reported.
- **Screen actions.** `UiAction` pairs placed calls with their answers.
- **Page bindings.** `BindingGate` is the TTL cache and the single flight as a state machine whose steps
  are the stretches between two awaits; `BindingLaws` says what each step does, of the request itself; `CacheKeys` shows what a cache key determines, using the JSON
  printer of `Json`; `PageWalk` supplies the paths; `DeriveFold` is the in-place merge of derived blocks.
- **The maze.** `Maze`, `BreadthFirst`, `Chase`: the search over an array and a queue, and the rescue run.
- **The pipeline executor.** `Executor` (gates, fallback) and `ToolNames` (longest prefix, MCP names).
- **Feed and app text.** `Cdata`, `HtmlEscape`, `Json`, `JsonRoundTrip`, `Embed`, `StorageShim`.
- `Wrappers` holds what they share.

## Where the code does less than its comments say

- **A foreign id with the suffix.** Job ids are made without the `.json` of the file, but other ways of
  scheduling take any id (`infra/src/mcp_server.rs:1655`). With a live job named `module:x:a.json`, the orphan
  pass reads the file `a.json.json` off it, strips both suffixes, and withdraws `module:x:a`, the declared
  job, on every pass (`SyncSettle.ForeignIdWithdrawsDeclared`, `SyncSettle.ForeignIdExample`).
  `SyncSettle.Convergence` and `SyncSettle.Idempotence` state exactly when a pass converges and exactly when a
  second one has nothing to do; with the files the whitelist lets through on record, both come to this: no live
  id of the namespace carries the suffix (`SyncSettle.ConditionsMeet`). No run of passes puts one there.
- **Recovery.** A stale job withdrawn and then refused by the scheduler is on record and not on the clock,
  so it stays away (`SyncRecovery.LostExample`). `SyncRecovery.RecoveryExact` shows that this is the only thing a
  later clean pass cannot repair; undeclared jobs it always withdraws (`SyncRecovery.Recovery`).
- **Off and on again.** Turning a module off is said to clear its record, so that turning it on starts clean.
  It clears the record only when a job was there to withdraw (`SyncOrder.ToggleExample`), and a foreign id with
  the suffix costs a job its place even then. `SyncOrder.ToggleStartsClean` gives the exact condition.
- **One gate policy.** The gate for tool names is described as the same policy as the gate for module
  paths. `Executor.GatesAgree` gives the one case in which their verdicts differ, `Executor.GatesDiffer` such a
  case.
- **Cache keys.** Nothing keeps `|` or `#` out of a slug. A `|` does no harm between page blocks and live
  seeds (`CacheKeys.KeyFields`), because no JSON text ends in a shorter JSON text behind a `|`. A slug that
  itself reads as slug, `|`, block path, `#` step, `#derive:`, row count, `:`, date lets a block share its key
  with a derived analysis of another page, and no other slug does (`CacheKeys.KeyDeterminesRequest`).

## Model

| member | source | states |
|---|---|---|
| CoreFacade.Core.SyncModuleSchedules | core/src/core_facade.rs:69-204 | The mutable reconciler leaves exactly the clock, records and call log of the specification, and returns its added and removed files |
| CoreFacade.Core.RegisterDeclared | core/src/core_facade.rs:104-157 | The registration loop, with its early `continue`s, computes the specified clock, record and added list |
| CoreFacade.Core.WithdrawOrphans | core/src/core_facade.rs:165-194 | The orphan list (record first, then live ids in map order) and its withdrawal are the specified ones |
| CoreFacade.Core.WithdrawDisabled | core/src/core_facade.rs:78-97 | Disabling cancels declared then recorded files and clears the record only if something was removed |
| CoreFacade.Core.SyncAllModuleSchedules | core/src/core_facade.rs:209-230 | The boot loop is one synchronisation per listed name, in order |
| SyncPasses.RegisterAllFate | core/src/core_facade.rs:113-157 | Whatever fails, each declaration is skipped untouched, or on the clock fresh and on record, or (after a failed call only) untouched or absent with its record entry as before |
| SyncPasses.RegisterAllRecord | core/src/core_facade.rs:139-145 | With no failure exactly the unrecorded, newly registered files are appended, each once, in declaration order |
| SyncPasses.CancelEachClears | core/src/core_facade.rs:176-194 | With no failure every listed id is gone, and the lenient and strict removed counts mean what their branches say |
| SyncSettle.EnabledSettles | core/src/core_facade.rs:99-203 | A pass with no failed call equals a closed form: clock id by id, record as retained plus new files, other records untouched |
| SyncSettle.Convergence | core/src/core_facade.rs:53-66 | Outside the namespace nothing changes and the record lies within the declared files; the namespace shows exactly the declarations that were live or unrecorded, under the module's target and with every declared key at its declared value, if and only if the state is separable; with nothing declared or recorded, if and only if the namespace is empty |
| SyncSettle.TidyIsSeparable | core/src/core_facade.rs:76-76 | Names with exactly one `.json` satisfy the condition of convergence |
| SyncSettle.TidyDistinctIds | core/src/core_facade.rs:76-76 | Under such names job ids are distinct exactly when file names are |
| SyncSettle.WhitelistedIsCanonical | core/src/managers/module.rs:3107-3112 | Every file a declaration can be read from is such a name |
| SyncSettle.WhitelistMeans | core/src/managers/module.rs:3107-3112 | The stem is not empty and made of letters, digits, dashes and underscores, given by their codes |
| SyncSettle.Idempotence | core/src/core_facade.rs:59-62 | After one clean pass a second makes no call and changes nothing, if and only if no live id of the namespace carries the suffix and no orphan shares its id with a live, unrecorded job in order |
| SyncSettle.ConditionsMeet | core/src/core_facade.rs:172-181 | With whitelisted files on record the conditions of convergence and of idempotence are one: no live id of the namespace carries the suffix |
| SyncSettle.ForeignIdWithdrawsDeclared | core/src/core_facade.rs:172-181 | A live id made of a declared file with its suffix defeats both: every clean pass withdraws the declared job and leaves that id |
| SyncSettle.ForeignIdExample | core/src/core_facade.rs:172-181 | One such state, with `module:x:a.json` beside the declared `a.json` |
| SyncRuns.SyncConfined | core/src/core_facade.rs:69-203 | A pass, failing or not, calls, changes and records only within its own module |
| SyncRuns.CallsExplainClock | core/src/core_facade.rs:114-137 | Under any failures, replaying the calls by the scheduler's rules (system jobs stay, a job needs a trigger) gives the answers and the final clock, and no `schedule` was issued for an id still on it |
| SyncRuns.RecordsStayDistinct | core/src/core_facade.rs:140-144 | In every reachable state no record lists a file twice |
| SyncRuns.OwnerDeletionHolds | core/src/core_facade.rs:125-131 | A recorded file whose job is gone is never scheduled again, over any run of passes and deletions with failures, for as long as it is on record |
| SyncRuns.LeavesRecord | core/src/core_facade.rs:91-199 | It leaves the record exactly at a pass of its module that withdrew something while the module was disabled or the file undeclared |
| SyncRuns.StaysOrderly | core/src/core_facade.rs:139-145 | No run puts a file on record that cannot be declared, or a suffixed id on the clock |
| SyncRecovery.Recovery | core/src/core_facade.rs:158-199 | After any run, with any failures and changing declarations, one clean pass of a module that declares something withdraws every undeclared job of its namespace; it converges if and only if no live id carries the suffix |
| SyncRecovery.RecoveryExact | core/src/core_facade.rs:113-199 | After any number of failing passes among those of other modules, a clean one leaves the namespace of a single clean pass at the start, if and only if no recorded job was withdrawn as stale and then refused, save those a foreign id costs their place anyway |
| SyncRecovery.LostExample | core/src/core_facade.rs:132-156 | One such loss: the call that withdraws the job succeeds, the one that schedules it anew fails |
| SyncOrder.OutcomeLocal | core/src/core_facade.rs:165-181 | The outcome for a module depends on its own namespace and record alone |
| SyncOrder.OutcomeIdempotent | core/src/core_facade.rs:206-208 | Enabled or disabled, a second outcome is the first if and only if every declaration would be skipped again |
| SyncOrder.SyncAllOutcome | core/src/core_facade.rs:209-223 | After a clean boot pass every listed module is in its outcome from the initial state and nothing else changed |
| SyncOrder.OrderIndependence | core/src/core_facade.rs:209-223 | Two clean boot passes over the same modules, in any order and with any repetition, end with equal clocks and records |
| SyncOrder.ToggleStartsClean | core/src/core_facade.rs:59-62 | Switching a module off and on again, with no failed call, puts every declared job on the clock as declared, deleted ones included, if and only if a job was there to withdraw or none had been recorded, and no live id is a declared job's with the suffix left on |
| SyncOrder.ToggleExample | core/src/core_facade.rs:90-92 | A recorded job that is gone stays away: off and on again schedules nothing |
| SyncCalls.JobIdOf | core/src/core_facade.rs:76-76 | The job of `stem.json` is `module:<name>:stem` |
| SyncCalls.SchedulesDeclarations | core/src/core_facade.rs:134-138 | Whatever fails, every job offered to the scheduler is a declaration of the module under its target, key by key, with the zone and nothing else added |
| SyncCalls.CallsForDeclaration | core/src/core_facade.rs:118-131 | A pass calls the scheduler for an unshadowed declaration exactly when its live job has another target or lacks a declared key or value, or when it is neither live nor on record |
| SyncCalls.SyncReports | core/src/core_facade.rs:86-203 | The added files are those of the accepted schedule calls, in order; the removed ones those withdrawn (disabled) or cancelled without an error as orphans (enabled) |
| SyncCalls.EachNameOnce | core/src/core_facade.rs:79-84 | Switching off cancels the declared files first, then the others on record, none twice |
| SyncCalls.EachOrphanOnce | core/src/core_facade.rs:166-181 | The orphan pass cancels the undeclared files on record first, then those read off live ids, none twice |
| SyncCalls.SystemJobsStay | core/src/managers/schedule.rs:111-122 | No pass touches a system job |
| SyncSettle.DeclaredOrphan | core/src/core_facade.rs:172-181 | The orphan pass cancels a declared job's id exactly when some live id is that id with the suffix left on |
| UiAction.RunUiAction | core/src/core_facade.rs:326-405 | A failed or refused decision, or one without calls, places nothing; otherwise the log is decision, placed calls, report; the placed runs are those of the calls that name a module, each with its own input or `{}`, and the report pairs their answers |
| UiAction.PlaceAll | core/src/core_facade.rs:360-381 | Call i runs its own module with its own input, behind the runs of the calls before it, and no other run is placed; result i tells the answer to that run, or that the call has no module |
| BindingGate.PageBindingGate | lib/page-binding-gate.ts:35-49 | The requested action, or the declared one if none is, is let through exactly when the module declares an action, this is that or a further declared one, and it needs no approval |
| BindingGate.ClampTtlMs | lib/page-binding-gate.ts:70-73 | The lifetime lies between a minute and an hour, is 300 s when unset, the floored request in between, and the nearest end for a request out of range |
| BindingGate.OneRunPerKey | lib/page-binding-gate.ts:262-267 | Over every interleaving at most one run is outstanding per key, and `inflight` holds a key exactly while one is |
| BindingGate.CacheAgrees | lib/page-binding-gate.ts:247-274 | Over every interleaving a block or seed is given a non-empty list that a run of its own module, gated action and args returned; on a hit less than the stored lifetime, and less than an hour, before; after waiting not before the visitor came; for every slug that is not itself a derived prefix |
| BindingGate.SharedKeyServesForeign | lib/page-binding-gate.ts:193-209 | For every other slug some run of visitors serves the block what no run of its own request returned |
| BindingGate.ServedBySameFields | lib/page-binding-gate.ts:180-209 | Derived analyses included, every list served came from a run of equal module, action, args and key prefix; with plain slugs also of the same page, block, step, row count and last date |
| BindingGate.KeptOnlyOnFailure | lib/page-binding-gate.ts:251-273 | `_baked` is left as it was only after a gate refusal or an empty run of the own key, and a page block is never served an expired entry |
| BindingGate.InvHolds | lib/page-binding-gate.ts:61-64 | The invariant of cache, flights and visits holds in every reachable state |
| BindingGate.BoundedHolds | lib/page-binding-gate.ts:61-73 | No stored lifetime ever exceeds an hour |
| BindingGate.Resolver.Enter | lib/page-binding-gate.ts:252-266 | The await-free stretch: clear when over 1000 entries, serve a fresh hit, join a flight, or start one |
| BindingGate.Resolver.ArriveVisitor | lib/page-binding-gate.ts:247-266 | The same with the gate in front, keeping the invariant |
| BindingGate.Resolver.SettleRun | lib/page-binding-gate.ts:264-264 | The `finally` takes the key out of `inflight` and keeps the invariant |
| BindingGate.Resolver.ResumeVisitor | lib/page-binding-gate.ts:267-273 | Behind the await: store with the arrival time, keep what was there, or (seed, derived) read the cache again |
| BindingLaws.Arrival | lib/page-binding-gate.ts:247-267 | After any run, a visitor let through is served exactly what is stored under its key if and only if less than the stored lifetime has passed (and the cache has at most 1000 entries); otherwise it joins the flight under its key or starts one; the gate, key and lifetime are those of its own request |
| BindingLaws.VisitsFollow | lib/page-binding-gate.ts:247-255 | Over every run each visit carries its own block, gated action, key and lifetime: whole seconds of its `cacheTtl` between a minute and an hour, 300 s when unset |
| BindingLaws.EntriesStored | lib/page-binding-gate.ts:268-269 | Over every run each entry was stored by a visit its run served, as of that visit's arrival and for its lifetime |
| BindingLaws.Settling | lib/page-binding-gate.ts:86-97 | A run ends with what it returned, an empty list counting as nothing, and leaves the flight |
| BindingLaws.NowIsElapsed | lib/page-binding-gate.ts:254-254 | The time a lifetime is measured by is the time that has passed |
| BindingLaws.GoingOn | lib/page-binding-gate.ts:267-273 | A waiter stores and is served what its run returned; after an empty run a page block keeps what it had and the others read the cache |
| CacheKeys.NoNestedJson | lib/page-binding-gate.ts:66-68 | No JSON text is some text, a `\|` and another JSON text |
| CacheKeys.KeyFields | lib/page-binding-gate.ts:66-68 | With `\|`-free names, equal keys mean equal module, action and args, whatever the slugs |
| CacheKeys.KeyDeterminesRequest | lib/page-binding-gate.ts:66-92 | All that can share the key of a block or seed asks the very same request, if and only if its slug is not itself a derived prefix |
| CacheKeys.CollidingSpec | lib/page-binding-gate.ts:193-196 | Otherwise there is a derived analysis, of another page, with that key |
| CacheKeys.KeyInjective | lib/page-binding-gate.ts:66-196 | Between pages whose slugs are no derived prefixes, equal keys mean equal slug, path, resolver, step, row count, last date, module, action and args |
| CacheKeys.KeyText | lib/page-binding-gate.ts:66-68 | A key is slug, path, module, action and args between bars, no args being `{}` |
| CacheKeys.SuffixText | lib/page-binding-gate.ts:140-196 | Behind the path stand nothing, `#seed`, or `#` step `#derive:` rows `:` date |
| PageWalk.WalkTasks | lib/page-binding-gate.ts:108-134 | The tasks are exactly the blocks that ask, under their paths, met without entering a module or live block |
| PageWalk.ClassMeans | lib/page-binding-gate.ts:106-131 | A block typed `module` asks exactly when its props say `when: "request"` and name a module, a live chart under its four names exactly when its seed names one, in any mixture of cases |
| PageWalk.FieldIsLast | lib/page-binding-gate.ts:114-118 | A field of an object is its last member of that name |
| PageWalk.OneTaskEach | lib/page-binding-gate.ts:108-134 | There are as many tasks as asking blocks met, counted where they stand |
| PageWalk.TaskPaths | lib/page-binding-gate.ts:99-111 | Every task of a page's body has the path `CacheKeys` expects of a block |
| DeriveFold.MergeInto | lib/page-binding-gate.ts:211-228 | The in-place merge of one block, key by key in any order, equals the specified map and writes no existing array |
| DeriveFold.RunDeriveSteps | lib/page-binding-gate.ts:163-169 | All steps in order with `_after` behind them equal the specified fold; no array that existed before is changed |
| DeriveFold.DeclarationsKept | lib/page-binding-gate.ts:212-214 | `seed` and `derive` are never overwritten |
| DeriveFold.StepMeans | lib/page-binding-gate.ts:211-228 | One step, key by key: declarations stay, a list of annotations joins a list, the greater number of slots stays, anything else is set |
| DeriveFold.AnnotationsJoined | lib/page-binding-gate.ts:215-221 | When all annotation values are lists they end joined in step order behind the chart's own |
| DeriveFold.SlotsMaximal | lib/page-binding-gate.ts:222-226 | When all `futureSlots` are numbers the greatest remains |
| DeriveFold.LastStepWins | lib/page-binding-gate.ts:227-228 | Every other key ends as the last value seen |
| DeriveFold.AfterIsTails | lib/page-binding-gate.ts:163-169 | In `_after` each step's tail stands right behind those of the steps before it, with nothing after the last, whatever a block put there; the key is absent exactly when every tail is empty |
| BreadthFirst.Bfs | app/admin/page.tsx:1830-1840 | The table holds the exact length of a shortest walk, from cell to cell one column or one row apart, inside the grid and off its walls, for every reachable cell and -1 elsewhere; all -1 for a wall target; the queue loop ends |
| BreadthFirst.Expand | app/admin/page.tsx:1837-1837 | One round keeps the frontier invariant: sorted queue, grounded distances, relaxed cells |
| Maze.TableIsDistance | app/admin/page.tsx:1830-1840 | A grounded, relaxed table is the shortest-path table |
| Maze.DirsAreNeighbours | app/admin/page.tsx:1828-1828 | The four steps lead to the cells one column or one row apart, all of them and no others |
| Chase.BlueDir | app/admin/page.tsx:1844-1853 | The direction chosen leads to the open neighbour nearest to the target, the first of several in the order right, left, down, up, an unreachable one being farthest; away from the target it lowers the distance by exactly one; walled in it stands still |
| Chase.LeastOption | app/admin/page.tsx:1850-1851 | The scan finds the first option whose table entry is least among the non-negative ones, and falls back to the first option |
| Chase.CloserNeighbour | app/admin/page.tsx:1849-1851 | Away from the target some neighbour is exactly one hop closer |
| Chase.Mover.Advance | app/admin/page.tsx:1907-1915 | Short of a full hop only the progress moves; at a full hop the mover enters the cell it headed for and heads where the choice leads |
| Chase.Mover.Rescue | app/admin/page.tsx:1985-1996 | Frame after frame the mover reaches the target, entering exactly n + 1 cells from a heading at distance n, the k-th at distance n - k, none a wall, fifteen frames to a cell from a standing start |
| Executor.ExtractRoundTrip | core/src/task_executor_impl.rs:248-262 | The module name read off a provider's path is the provider's exactly when it has no slash |
| Executor.ExtractedIsNamed | core/src/task_executor_impl.rs:248-252 | The module of a path is the segment behind its first segment `modules`, and none without one |
| Executor.GateMeans | core/src/task_executor_impl.rs:98-150 | The gate refuses exactly a disabled module, a screen-only action off screen, an approval-gated one outside cron, and as a fallback any module that declares a gated action; disabled before screen before approval |
| Executor.GatesAgree | core/src/task_executor_impl.rs:173-177 | The path gate and the tool gate give one verdict for an enabled system module except for an approval-gated action of a confirmed screen action outside cron |
| Executor.GatesDiffer | core/src/task_executor_impl.rs:98-231 | Such a case: the tool gate lets a listed action through on a confirmed screen action, the path gate asks for approval |
| Executor.ExecuteModule | core/src/task_executor_impl.rs:266-347 | A path is sent exactly when its module is enabled and its action, under a readable config, neither screen-only off screen nor approval-gated outside cron; then the runs are the path and the candidates that may be fallbacks, all in order, up to the first success; if all fail the error is the primary module's |
| Executor.FallbackSafety | core/src/task_executor_impl.rs:98-150 | Everything sent might be sent, the path asked for included; a fallback, by the name on its path, is enabled and under a readable config declares no approval-gated action |
| ToolNames.ResolveSysmodModule | core/src/task_executor_impl.rs:157-171 | The loop returns the first of the longest matching modules, none without prefix or match |
| ToolNames.ResolutionUnique | core/src/task_executor_impl.rs:157-171 | With names distinct after normalisation the module found is the only longest match, whatever the listing order and the spelling |
| ToolNames.SameNormFirstWins | core/src/task_executor_impl.rs:163-168 | All listings of the same modules resolve alike if and only if no two different modules match longest; otherwise the one listed first wins |
| ToolNames.FrontWins | core/src/task_executor_impl.rs:163-168 | Whatever matches longest is found when it is listed first |
| ToolNames.GatedActionTurned | core/src/task_executor_impl.rs:152-231 | By every name of which a module is the longest match it is reached exactly when its config cannot be read or the action is neither screen-only off screen nor approval-gated outside cron and screen actions |
| ToolNames.DomainMatches | core/src/task_executor_impl.rs:152-156 | A name matches a module exactly when it is the module's in some spelling, alone or with an underscore and a domain behind it |
| ToolNames.SplitRoundTrip | core/src/task_executor_impl.rs:235-244 | A combined name comes apart into its server and tool exactly when neither is empty and the server has no double underscore and no underscore at its end |
| ToolNames.OtherNamesKept | core/src/task_executor_impl.rs:235-244 | Any name not so made, with or without `mcp__` in front, leaves server and tool as they were |
| Cdata.CdataRoundTrip | lib/spec-to-rss-html.ts:86-89 | Every string is the concatenation of the CDATA sections read back, none of which contains `]]>` |
| HtmlEscape.EscapeRoundTrip | lib/spec-to-rss-html.ts:12-18 | The four passes leave no angle bracket or quote and are undone by reading the references |
| JsonRoundTrip.PrintRoundTrip | lib/page-app.ts:190-191 | Reading printed JSON gives back every value, with or without the extra escapes |
| JsonRoundTrip.ObjectPrinted | lib/page-app.ts:191-191 | Members stand between braces with commas, each a quoted key, a colon and its value (`JsonRoundTrip.MemberPrinted`), items between brackets (`JsonRoundTrip.ArrayPrinted`), literals by name (`JsonRoundTrip.LiteralsPrinted`) |
| JsonRoundTrip.OthersPrinted | lib/page-app.ts:191-191 | A unit that needs no escape is printed as it is |
| JsonRoundTrip.ShortEscapesPrinted | lib/page-app.ts:191-191 | The printed escapes are those of `JSON.stringify`, short where there is one |
| JsonRoundTrip.HexEscapesPrinted | lib/page-app.ts:190-196 | The others are lower-case hexadecimal |
| Embed.FourPassesAreOne | lib/page-app.ts:190-196 | No pass touches what an earlier one wrote |
| Embed.EmbedSafeAndFaithful | lib/page-app.ts:184-196 | For every JSON value the embedded text holds no angle bracket and no line or paragraph separator, and parses to the value |
| StorageShim.PostedMessagesReplay | lib/page-app.ts:248-258 | After any operations the persistent store is the seed with all posted messages applied; the session store posts nothing |
| StorageShim.StepPosts | lib/page-app.ts:251-253 | The persistent store posts one message for a write or a removal and one for each key listed by a clearing, in order; the session store none |
| StorageShim.GetIsLastWrite | lib/page-app.ts:250-253 | A read returns the last write that no later removal or clear undid, or the seed |
| StorageShim.Shim.SetItem | lib/page-app.ts:251-251 | The new store and messages, with the replay property kept |
| StorageShim.Shim.RemoveItem | lib/page-app.ts:252-252 | The same for a removal, posted even when the key is absent |
| StorageShim.Shim.Clear | lib/page-app.ts:253-253 | One delete per key and an empty store, with the replay property kept |
| StorageShim.Shim.GetItem | lib/page-app.ts:250-250 | The last value written under the key that nothing later removed, or the seed's; for the persistent store also what the framing page holds |
| StorageShim.Shim.Length | lib/page-app.ts:255-255 | The number of keys is the size of the store |
| StorageShim.Shim.Key | lib/page-app.ts:254-254 | The i-th listed key, or nothing past the end or for the empty key |

## Left out

- Reading declarations from config files and settings: a module arrives with its declared jobs, under files the whitelist lets through where that matters (`Readable`). A listed file that cannot be read is skipped before the reconciler sees it.
- The result of `set_registered_schedules`, which the reconciler ignores: a record is always written.
- `declaration_is_live` on values that do not serialise to an object: a schedule declaration always does. Options are the set keys with their serialised values.
- Other users of the clock during one synchronisation: between two calls of a pass the clock does not change by itself.
- Causes of a refused `schedule` beyond trigger and duplicate (expression syntax, past times): they are failures by position.
- SyncSettle.Convergence: the same file declared twice is excluded by `DistinctIds`.
- SyncRecovery.RecoveryExact: the passes stamp one zone and the module's declarations do not change among them; files on record are whitelisted.
- SyncOrder.SyncAllOutcome: for a name listed more than once its second pass must skip what is declared, the exact condition of `SyncOrder.OutcomeIdempotent`.
- SyncOrder.ToggleStartsClean: files on record are whitelisted, which every run keeps (`SyncRuns.StaysOrderly`).
- `UiAction`: JSON bodies are carried as text, apart from the list of calls.
- BindingGate.CacheAgrees: derived analyses are not claimed, because their key holds a row count and a last date and not the rows; `BindingGate.ServedBySameFields` says what holds of them.
- BindingGate: the config cache in front of the gate; a visitor brings the config it was answered with. The clock never runs backwards.
- `trim` on action names: they arrive trimmed. Inherited property names that `in` finds on the extra actions count as extra.
- `firstDataArray` and the choice of rows for a derived step.
- `DeriveFold`: elements of arrays are opaque; `_after` set to undefined counts as absent.
- The other movers of the maze, play before the rescue run, drawing; frame progress is a real number, so rounding of the frame sum is not modelled.
- Executor.FallbackSafety: a config that cannot be read lets a candidate through, as in the code; lengths of names are counted in characters.
- Executor: page saving, network requests, text transformation and external MCP servers.
- `renderBlock`: one markup template per component.
- `injectBootstrap`, the content security policies and the message transport of the app bootstrap.
- `Json`: numbers are their printed tokens; insignificant white space, which the printer never writes, is not read.
- StorageShim: coercion of keys and values to strings, and the special `__proto__` key.
