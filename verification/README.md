# Verification of the NDK's build scheduler, native app glue and bundled make

Dafny models of the parts of the Android NDK repository in which state, concurrency or text
manipulation is hardest to follow, with proofs about every run, every input or every reachable
state. `dafny verify dfyconfig.toml` checks all of it.

**Native app glue** (`AppGlue*.dfy`, `AndroidApp.dfy`). The handshake between the activity thread
and the app thread as a step system. The app thread's steps are its critical sections and the
reads between them. The activity thread takes one step per write to the pipe, because the app
thread may read a command before the mutex is released. `AppGlueInvariants` holds the invariant,
`AppGlueSteps` and `AppGlueCalls` prove that each thread keeps it, `AppGlueTheorems` and
`AppGlueWindows` draw the conclusions, and `AppGlueDiscipline` says exactly when window callbacks
are harmless. `AppGlueCommands` follows single commands to their handlers. `AndroidApp` is the
struct as an object whose methods do what the steps do.

**Build scheduler** (`Graph`, `Deps`, `Manager`, `WorkQueue`, `BuildPool`, `BuildTrace`, `Builder`,
`Closure`, `BuildRequest`). Cycle detection, the dependency manager, the sharded work queue with any
number of workers, the loop that launches and awaits builds on such a queue, and the selection of
modules. What becomes of each build is an input; which result arrives next is up to the workers.

**GNU make 3.81** (`Make*.dfy`). Variable expansion with its recursion guards, and
what each kind of reference stands for as it is written (`MakeReferences`); substitution, pattern
matching, `filter`, `abspath`, splitting of commands, the lazy directory cache, the file table with
rules, renaming and merging, and packed timestamps.

**ELF notes** (`ElfNote.dfy`). Reading a note section.

## Where the code differs from what is said or expected of it

- `android_app_set_window` called with the window that is already there: the TERM_WINDOW handler may
  see NULL and a true wait condition may become false again (`AppGlueExamples`), and this is exactly
  the call that makes it possible (`AppGlueDiscipline.NewWindowExactly`).
- `get_modules_to_build` says that it collects unknown names, but raises KeyError at the first
  unknown requested one (`Closure.GetModulesToBuild`).
- `DependencyManager.complete` raises KeyError in a build whose tasks all succeed exactly if a module
  that is built for several architectures is depended on (`BuildRequest.BuildRequested`, with an
  input in `BuildRequest.NeededSplitRaises`), and `--skip-deps` never skips
  such a module (`BuildRequest.SplitNeverSkipped`).
- `patsubst` with an empty pattern appends the replacement to a text that is empty or ends with a
  blank (`MakePatsubst.ResultWords`).
- `filter` keeps the length of a pattern from before its backslashes are removed, so a literal
  with a quoted percent sign selects nothing (`MakeFilter.QuotedLiteralSelectsNothing`).
- `rename_file` through a record that has been merged away gives up when the live record has
  moved on, and otherwise leaves the live record's `name` as it was
  (`MakeFileTable.FileTable.RenameFile`).
- In `variable_expand_string`, the test for a blank before a one-letter reference looks at the
  dollar sign and is never true; `$ ` is a reference to the variable named by a blank
  (`MakeExpand.DollarBlank`).

## Model

| member | source | states |
|---|---|---|
| `AppGlueTheorems.ReachableInv` | sources/android/native_app_glue/android_native_app_glue.c:49-168 | every state reachable by any interleaving of callbacks, app-thread steps and spurious wake-ups satisfies the whole invariant (pending commands converge, no lost wake-up, blocks owned once, orderly exit) |
| `AppGlueTheorems.CommandsConverge` | sources/android/native_app_glue/android_native_app_glue.c:287-319 | in every reachable state, processing just the command in hand and those still to be read takes `window`, `inputQueue` and `activityState` to what was asked for last |
| `AppGlueTheorems.NoStuckWait` | sources/android/native_app_glue/android_native_app_glue.c:287-319 | from any reachable state with a blocked callback, the app thread alone takes at most `Rank` steps; a sleeping waiter means it still has a step; when it has none the condition is true, the waiter has been woken, and two of its own steps end the callback |
| `AppGlueTheorems.QuietMeansSatisfied` | sources/android/native_app_glue/android_native_app_glue.c:351-373 | when the app thread can do nothing more, whatever the activity thread waits for is true and the broadcast has reached it |
| `AppGlueTheorems.AppRunBounded` | sources/android/native_app_glue/android_native_app_glue.c:201-237 | while the activity thread is blocked, any sequence of app-thread steps is no longer than the rank of its first state and leaves the waiter where it is |
| `AppGlueTheorems.CallbackFreeBounded` | sources/android/native_app_glue/android_native_app_glue.c:287-373 | however the waiter wakes and sleeps in between, the app thread takes at most `Rank` steps until the next callback |
| `AppGlueTheorems.NoEndlessWait` | sources/android/native_app_glue/android_native_app_glue.c:287-373 | the same from any reachable state with a blocked callback; if it is still blocked when the app thread can do no more, its condition is true and it has been woken |
| `AppGlueTheorems.AppStepLowersRank` | sources/android/native_app_glue/android_native_app_glue.c:201-237 | each step of the app thread lowers the rank |
| `AppGlueTheorems.ConditionStays` | sources/android/native_app_glue/android_native_app_glue.c:312-319 | once a condition other than the window's is true for a blocked callback, no step of the app thread makes it false again |
| `AppGlueTheorems.BlocksOwnedOnce` | sources/android/native_app_glue/android_native_app_glue.c:351-373 | over every run each saved-state block is in exactly one of three places: freed once, handed to the framework once, or in `savedState`; nothing else is ever freed; none is left when the struct is gone |
| `AppGlueTheorems.SaveReturnsItsOwnBlock` | sources/android/native_app_glue/android_native_app_glue.c:351-373 | the n-th save callback returns the block stored while the n-th request was handled, NULL if none was |
| `AppGlueTheorems.NoStepAfterFree` | sources/android/native_app_glue/android_native_app_glue.c:321-334 | once the struct is freed the app thread has exited, can take no step, and no queue is attached |
| `AppGlueCommands.CommandHandled` | sources/android/native_app_glue/android_native_app_glue.c:201-237 | on its own, the app thread comes to handle any command in the pipe, after exactly those in front of it |
| `AppGlueCommands.NoticeHandled` | sources/android/native_app_glue/android_native_app_glue.c:385-401 | a change of focus or configuration or a low-memory notice, announced in any reachable state without a callback in progress, reaches its handler |
| `AppGlueCommands.ResumeForgets` | sources/android/native_app_glue/android_native_app_glue.c:146-168 | over every run, a processed RESUME frees the block that is held, once, and `savedState` stays NULL over every continuation until the framework asks for a state to be saved |
| `AppGlueSteps.AppStepKeepsInv` | sources/android/native_app_glue/android_native_app_glue.c:174-237 | every step of the app thread, including leaving `android_main`, keeps the invariant |
| `AppGlueCalls.BeginKeepsInv` | sources/android/native_app_glue/android_native_app_glue.c:287-373 | entering any callback keeps the invariant |
| `AppGlueCalls.MainStepKeepsInv` | sources/android/native_app_glue/android_native_app_glue.c:287-373 | every further step of a callback, the wait and its return included, keeps the invariant |
| `AppGlueCalls.WakeKeepsInv` | sources/android/native_app_glue/android_native_app_glue.c:287-373 | a spurious wake-up keeps the invariant |
| `AppGlueWindows.WindowTeardown` | sources/android/native_app_glue/android_native_app_glue.c:297-310 | after a window callback with NULL has returned, `window` stays NULL over every continuation in which no window is announced |
| `AppGlueWindows.InputTeardown` | sources/android/native_app_glue/android_native_app_glue.c:287-295 | the same for input queues, and none is attached to the looper |
| `AppGlueWindows.AttachedExactly` | sources/android/native_app_glue/android_native_app_glue.c:91-105 | in every reachable state the attached queues are the current one, or none if it is NULL or the thread has exited |
| `AppGlueDiscipline.NewWindowExactly` | sources/android/native_app_glue/android_native_app_glue.c:297-310 | in any reachable state without a callback in progress and after new windows only, announcing a window is harmless if and only if it is not the one already there: exactly then no continuation with new windows only leads the TERM_WINDOW handler to NULL, and exactly then none makes the condition of a waiting window callback false again |
| `AppGlueDiscipline.RepeatedSeesNull` | sources/android/native_app_glue/android_native_app_glue.c:116-119 | from every state that shows a window, announcing it again can be continued, with new windows only, to a TERM_WINDOW handler that sees NULL |
| `AppGlueDiscipline.RepeatedFlickers` | sources/android/native_app_glue/android_native_app_glue.c:297-310 | and to a waiting callback whose true condition the next step of the app thread makes false |
| `AppGlueWindows.DisciplinedWindows` | sources/android/native_app_glue/android_native_app_glue.c:116-119 | if no window is announced twice in a row, the TERM_WINDOW handler always sees the old, non-NULL window, no window command is left behind, and a window condition that is true stays true |
| `AppGlueExamples.TermHandlerMaySeeNull` | sources/android/native_app_glue/android_native_app_glue.c:116-119 | announcing the same window twice leads to a reachable state in which the TERM_WINDOW handler sees NULL |
| `AppGlueExamples.WindowConditionMayFlicker` | sources/android/native_app_glue/android_native_app_glue.c:297-310 | and to one in which a woken waiter's true condition is made false again by the app thread |
| `AndroidAppObject.AndroidApp.constructor` | sources/android/native_app_glue/android_native_app_glue.c:243-279 | all fields zero except for the restored block |
| `AndroidAppObject.AndroidApp.FreeSavedState` | sources/android/native_app_glue/android_native_app_glue.c:39-47 | the block, if any, is freed and forgotten; everything else stays |
| `AndroidAppObject.AndroidApp.ReadCmd` | sources/android/native_app_glue/android_native_app_glue.c:49-62 | takes the first byte of the pipe, freeing the block for a save request; an empty pipe changes nothing |
| `AndroidAppObject.AndroidApp.PreExecCmd` | sources/android/native_app_glue/android_native_app_glue.c:89-144 | the struct after it is the step system's struct after the pre-processing of the command |
| `AndroidAppObject.AndroidApp.PostExecCmd` | sources/android/native_app_glue/android_native_app_glue.c:146-168 | the same for the post-processing: TERM_WINDOW clears the window, SAVE_STATE raises the flag, RESUME frees the saved state |
| `AndroidAppObject.AndroidApp.ProcessCmd` | sources/android/native_app_glue/android_native_app_glue.c:201-206 | reading, pre-processing, the application's handler, which may store a block, and post-processing |
| `AndroidAppObject.AndroidApp.ProcessPending` | sources/android/native_app_glue/android_native_app_glue.c:201-206 | draining the pipe leaves every field at the fold over the commands that were in it and sets the flags exactly if their command was there; the block held is none after a RESUME without a later save request, otherwise that of the last save request, or the old one if neither came; all other blocks have been freed, in the order in which they were stored |
| `AndroidAppObject.SavedAfterMeans` | sources/android/native_app_glue/android_native_app_glue.c:146-168 | which block is held in the end, in terms of the last commands that matter |
| `AndroidAppObject.AndroidApp.RequestWindow` | sources/android/native_app_glue/android_native_app_glue.c:297-305 | is the steps of a window callback up to its wait, and keeps the promise that processing the pipe brings the pending window and queue |
| `AndroidAppObject.AndroidApp.RequestInput` | sources/android/native_app_glue/android_native_app_glue.c:287-290 | the same for an input callback |
| `AndroidAppObject.AndroidApp.RequestState` | sources/android/native_app_glue/android_native_app_glue.c:312-314 | the same for a state callback: the commands in the pipe will leave the state asked for |
| `AndroidAppObject.AndroidApp.RequestSave` | sources/android/native_app_glue/android_native_app_glue.c:351-358 | the same for a save callback: the flag is down and the command that raises it is in the pipe |
| `AndroidAppObject.AndroidApp.TakeSavedState` | sources/android/native_app_glue/android_native_app_glue.c:363-372 | the pointer returned is the answer that the step system records, and the block leaves the struct for the caller without being freed |
| `AndroidAppObject.ProcessedFields` | sources/android/native_app_glue/android_native_app_glue.c:201-206 | processing one command leaves the outcome of processing all of them unchanged, for every field, both flags and the blocks |
| `AndroidAppObject.ProcessIsRun` | sources/android/native_app_glue/android_native_app_glue.c:201-206 | five steps of the app thread, or six when the handler stores a block, can always be taken from the event loop and do to the struct what `process_cmd` does |
| `Graph.FindCycle` | ndk/graph.py:48-60 | reports none if and only if the graph has a topological order; what it reports is a closed walk along real edges that repeats no node but its ends; terminates on every finite graph |
| `Graph.FindCycleFromNode` | ndk/graph.py:62-102 | either a simple cycle, or the search state is restored and the node has been finished after everything it leads to |
| `Graph.CycleExcludesOrder` | ndk/graph.py:48-102 | a closed walk and a topological order exclude each other |
| `Graph.NodeLeft` | ndk/graph.py:62-102 | finishing a node whose successors are finished keeps the finished nodes in topological order |
| `Deps.ProveAcyclic` | ndk/deps.py:29-46 | accepts exactly the dep-closed module lists that can be built in some order; otherwise names a missing dependency or a cycle of real dependencies |
| `Deps.AddEdges` | ndk/deps.py:38-42 | adds exactly the dependencies of one module, or reports one that is not a node |
| `Deps.DepCycleExcludesOrder` | ndk/deps.py:29-46 | a cycle of dependencies leaves no order to build in |
| `Manager.Create` | ndk/deps.py:58-76 | fails exactly for an empty list, a missing dependency or a cycle; otherwise the modules without dependencies are buildable and the others wait for all of theirs |
| `Manager.ReverseMap` | ndk/deps.py:71-76 | for each name the modules that depend on it, in the order of the list |
| `Manager.DependentsExact` | ndk/deps.py:71-76 | the entry of a name holds exactly the modules that depend on it |
| `Manager.DependencyManager.constructor` | ndk/deps.py:64-76 | splits the modules into buildable and blocked ones |
| `Manager.DependencyManager.GetBuildable` | ndk/deps.py:78-88 | hands out the buildable modules and forgets them |
| `Manager.DependencyManager.Unblock` | ndk/deps.py:99-105 | one module stops waiting for a name and becomes buildable if it waited for nothing else |
| `Manager.DependencyManager.Complete` | ndk/deps.py:90-105 | raises KeyError exactly if the name is unknown or some dependent does not wait for it; otherwise every dependent stops waiting for it |
| `BuildTrace.Completed` | ndk/deps.py:90-105 | completing a module keeps the invariant: every module is in one place, blocked ones wait for exactly their uncompleted dependencies |
| `BuildTrace.KeyErrorMeansUnsafe` | ndk/deps.py:99-105 | a completion can fail only if two modules share a name that something depends on |
| `BuildTrace.NothingLeftBehind` | checkbuild.py:2427-2451 | with nothing to hand out and no task outstanding, no module is blocked and all are completed |
| `BuildTrace.QueuedExactly` | checkbuild.py:2409-2424 | nothing to be skipped is ever queued, and everything completed was queued or to be skipped |
| `Builder.LaunchHeld` | checkbuild.py:2420-2424 | each module handed out is queued once or, if it is to be skipped, completed on the spot |
| `Builder.LaunchBuildable` | checkbuild.py:2409-2424 | afterwards nothing buildable is left, however many skipped modules free others on the way |
| `Builder.TakeResult` | checkbuild.py:2433-2447 | one round: some outstanding build ends; a success completes it, launches what it frees and brings the build nearer its end, a failure or exception ends it and is that of a queued module |
| `Builder.WaitForBuild` | checkbuild.py:2427-2451 | for every order of results and whatever becomes of each build it ends: with nothing outstanding, or with a failed or raising module that was queued, or with a KeyError that a shared name explains |
| `Builder.BuildNdk` | checkbuild.py:2454-2494 | for all modules, skip sets, numbers of jobs, fates and result orders: queued only after all dependencies completed, never twice, never if skipped, nothing but these modules; ends well if and only if it can start, all builds succeed and no shared name is depended on, having then queued all others; if all succeed, KeyError exactly for a shared name that is depended on; failures name a queued module; 'stopped early' never happens |
| `Builder.BuildEnds` | checkbuild.py:2454-2494 | a finished build has queued exactly the modules not skipped, completed all, and all of them succeeded |
| `BuildPool.TaskPool.constructor` | ndk/workqueue.py:181-219 | a work queue of one group with its workers and no task |
| `BuildPool.TaskPool.AddTask` | ndk/workqueue.py:221-233 | exactly that module becomes outstanding |
| `BuildPool.TaskPool.Step` | ndk/workqueue.py:130-147 | a worker's step changes nothing for the producer and lowers the rank |
| `BuildPool.TaskPool.Progress` | ndk/workqueue.py:235-237 | with a task outstanding and nothing raised, the workers, in any order, come to a result |
| `BuildPool.TaskPool.IsFinished` | ndk/workqueue.py:261-263 | true exactly if no module is outstanding |
| `BuildPool.TaskPool.GetResult` | ndk/workqueue.py:235-241 | delivers an outstanding module with the result of its build and takes exactly it off, or raises exactly if that module's build does |
| `Closure.TransitiveDeps` | checkbuild.py:2222-2227 | exactly the modules reachable from the root other than the root, on cyclic graphs too, and exactly the unregistered names they mention |
| `Closure.CollectDeps` | checkbuild.py:2203-2219 | the recursive walk terminates and leaves the seen set closed but for the modules still being walked |
| `Closure.GetModulesToBuild` | checkbuild.py:2230-2266 | the requested modules with everything they need, dep-closed; `deps_only` is that minus the requested names; a requested name that is not registered raises KeyError at the first one |
| `BuildRequest.SplitByArch` | checkbuild.py:2268-2273 | each module once, or once per architecture |
| `BuildRequest.SplitModuleExact` | checkbuild.py:2193-2200 | one module becomes one per architecture, all of its name and all different |
| `BuildRequest.RequestDepClosed` | checkbuild.py:2230-2273 | the modules handed to the builder are dep-closed, also after the split |
| `BuildRequest.SplitSafeExactly` | ndk/builds.py:205-217 | two modules share a name that something depends on if and only if a module built for several architectures is needed |
| `BuildRequest.NeededSplitRaises` | ndk/deps.py:99-105 | a request that always ends in KeyError although every build succeeds: a module needs one that is built for two architectures |
| `BuildRequest.SplitNeverSkipped` | checkbuild.py:2420-2423 | `--skip-deps` compares split modules with unsplit ones and so never skips them |
| `BuildRequest.BuildRequested` | checkbuild.py:2454-2494 | from requested names to the end: the exact selection or the exact unknown names; built to the end if and only if something is requested, there is no cycle, all builds succeed and no module built for several architectures is needed; KeyError, if all succeed, exactly in that last case; with `--skip-deps` every module that is not requested and not split is skipped, never queued, and nothing else is ever skipped; nothing is queued or skipped before its dependencies are completed |
| `BuildRequest.SkippedExactly` | checkbuild.py:2420-2424 | every recorded build skips only unrequested modules that are not split, and only with `--skip-deps`, and then queues none of them |
| `BuildRequest.SpecsInOrder` | checkbuild.py:2409-2424 | in every recorded build each dependency of a wanted module is completed before that module is queued or skipped |
| `WorkQueue.StepKeepsInv` | ndk/workqueue.py:130-147 | every step of the producer and of any worker keeps the invariant: each task is in one place, queues are first in first out, workers run tasks of their own group |
| `WorkQueue.ReachableInv` | ndk/run_tests.py:651-689 | the invariant holds after every interleaving of one producer and any number of workers in any groups |
| `WorkQueue.CountExact` | ndk/workqueue.py:221-241 | between calls of the producer, `num_tasks` is queued + running + undelivered + raised |
| `WorkQueue.TaskOnce` | ndk/run_tests.py:651-677 | no task is delivered twice or both delivered and raised; it runs only on a worker of its own group; groups start tasks in the order added |
| `WorkQueue.FinishedMeansDelivered` | ndk/workqueue.py:261-263 | if `finished()` is true, each task added has been delivered exactly once and none raised |
| `WorkQueue.NeverFinishedAfterError` | ndk/workqueue.py:235-241 | after a raised error `finished()` stays false over every continuation |
| `WorkQueue.NoStuckGet` | ndk/workqueue.py:235-241 | with tasks outstanding, no error raised and a worker in every group, a caller of `get_result` finds a result or a worker that can step |
| `WorkQueue.WorkerStepLowersRank` | ndk/workqueue.py:130-147 | every worker step lowers a rank, so results arrive in finitely many steps |
| `WorkQueue.ShardingWorkQueue.constructor` | ndk/run_tests.py:652-664 | one empty queue per group, idle workers, nothing counted |
| `WorkQueue.ShardingWorkQueue.AddTask` | ndk/run_tests.py:666-669 | a put followed by a count; an unknown group changes nothing |
| `WorkQueue.ShardingWorkQueue.GetResult` | ndk/run_tests.py:671-677 | the first result; the count goes down exactly for a value |
| `WorkQueue.OutstandingCounted` | ndk/workqueue.py:221-241 | between calls of the producer, `num_tasks` is the number of tasks neither delivered nor raised, plus the raised ones |
| `WorkQueue.ProducerView` | ndk/workqueue.py:221-241 | adding makes exactly the new task outstanding, delivering takes exactly the delivered one off, and no step of a worker changes what is outstanding |
| `WorkQueue.ShardingWorkQueue.IsFinished` | ndk/run_tests.py:687-689 | true exactly if every task has been delivered and none has raised |
| `WorkQueue.ShardingWorkQueue.StartTask` | ndk/workqueue.py:135-137 | an idle worker takes the first task of its own group, and the invariant stays |
| `WorkQueue.ShardingWorkQueue.EndTask` | ndk/workqueue.py:139-147 | a running task ends with a value or an exception, and the invariant stays |
| `WorkQueue.ShardingWorkQueue.ReportResult` | ndk/workqueue.py:109-112 | the result reaches the result queue; after an exception the worker is gone; the invariant stays |
| `WorkQueue.ShardingWorkQueue.WorkOnce` | ndk/workqueue.py:130-147 | a worker's round is a start, an end and a report of the step system, and what is outstanding stays the same |
| `MakeExpand.GuardsAreExact` | sources/host-tools/make-3.81/expand.c:99-155 | expansion with `expanding` guards equals the simple recursive meaning wherever that converges, and reports a self-reference if and only if the simple expansion would never end |
| `MakeExpand.LetThrough` | sources/host-tools/make-3.81/expand.c:99-155 | what the guards let through needs no deeper nesting than there are variables not being expanded |
| `MakeExpand.Stopped` | sources/host-tools/make-3.81/expand.c:123-130 | what the guards stop has no end, whatever the depth allowed |
| `MakeExpand.MoreFuel` | sources/host-tools/make-3.81/expand.c:163-185 | more depth never changes an outcome of the simple meaning |
| `MakeExpand.ClosingExactly` | sources/host-tools/make-3.81/expand.c:268-282 | a computed name ends at the first parenthesis that closes more than has been opened |
| `MakeExpand.EscapedStandsForItself` | sources/host-tools/make-3.81/expand.c:216-238 | every text with its dollar signs doubled expands to itself, whatever the variables |
| `MakeExpand.DollarBlank` | sources/host-tools/make-3.81/expand.c:386-394 | a blank behind a dollar sign is the name of a variable |
| `MakeReferences.PlainPrefix` | sources/host-tools/make-3.81/expand.c:216-229 | text in front of a reference is copied |
| `MakeReferences.PlainReference` | sources/host-tools/make-3.81/expand.c:240-376 | `$(n)` and `${n}`, whatever follows, are the value of a simple variable, nothing for an unset one, the expansion of the value of a recursive one, and a self-reference exactly if that one is being expanded and not empty |
| `MakeReferences.OneLetterReference` | sources/host-tools/make-3.81/expand.c:386-395 | the same for `$c` |
| `MakeReferences.BrokenReference` | sources/host-tools/make-3.81/expand.c:258-263 | a parenthesis or brace that is never closed is an error; a dollar sign at the end is nothing |
| `MakeReferences.SuffixReference` | sources/host-tools/make-3.81/expand.c:300-370 | the words of `$(n:a=b)` are the words of the value with the suffix `a` replaced by `b`, empties dropped; for any kind of variable, and errors are passed on |
| `MakeReferences.PercentReference` | sources/host-tools/make-3.81/expand.c:300-370 | the words of `$(n:p%q=a%b)` are those of the value with `a` and `b` in place of `p` and `q` around the stem |
| `MakeReferences.ComputedReference` | sources/host-tools/make-3.81/expand.c:264-290 | a reference inside a name, with either kind of parentheses, is replaced by its value, and what comes out names the variable that is meant |
| `MakeReferences.FilledIn` | sources/host-tools/make-3.81/expand.c:264-290 | a reference with a reference in its name, substitution or not, means the one with the name filled in |
| `MakeReferences.UnmatchedReference` | sources/host-tools/make-3.81/expand.c:268-290 | without a closing parenthesis of its own it ends at the inner one, as a variable with an odd name, and the rest of the text is lost |
| `MakeExpander.Expander.VariableExpandString` | sources/host-tools/make-3.81/expand.c:197-408 | for every text it terminates, appends exactly the guarded meaning to the buffer or reports why there is none, and takes off every guard it set; `MakeReferences` says what that meaning is, reference by reference |
| `MakeExpander.Expander.RecursivelyExpand` | sources/host-tools/make-3.81/expand.c:99-155 | reports a self-reference exactly if the variable is being expanded; otherwise its value's meaning, with guards and outer buffer restored |
| `MakeExpander.Expander.AllocatedVariableExpand` | sources/host-tools/make-3.81/expand.c:539-559 | the meaning of a text, with the outer buffer restored |
| `MakeExpander.Expander.ReferenceVariable` | sources/host-tools/make-3.81/expand.c:163-185 | appends what a plain reference stands for; nothing for an unset or empty variable |
| `MakeExpander.Expander.SubstitutionReference` | sources/host-tools/make-3.81/expand.c:302-370 | appends the value with its words substituted |
| `MakeExpander.Expander.Dereference` | sources/host-tools/make-3.81/expand.c:296-376 | a colon followed later by an equals sign makes a substitution, anything else is a name |
| `MakeExpander.Expander.ExpandParen` | sources/host-tools/make-3.81/expand.c:240-381 | one parenthesised reference: unterminated, plain, computed, or plain with the rest of the text given up when the parentheses do not match |
| `MakeExpander.Expander.ExpandDollar` | sources/host-tools/make-3.81/expand.c:231-395 | what follows a dollar sign, case by case |
| `MakeExpander.Substitute` | sources/host-tools/make-3.81/expand.c:333-365 | a pattern without percent sign stands for a suffix and the replacement is then taken literally; otherwise both are patterns |
| `MakeExpander.CountParens` | sources/host-tools/make-3.81/expand.c:272-279 | the counting loop finds the closing parenthesis of the specification |
| `MakeExpander.Index` | sources/host-tools/make-3.81/misc.c:405-412 | the first occurrence at or behind a place |
| `MakeText.NextToken` | sources/host-tools/make-3.81/misc.c:457-462 | skips blanks and nothing else |
| `MakeText.EndOfToken` | sources/host-tools/make-3.81/misc.c:417-422 | ends at the first blank or the end |
| `MakeText.WordsAppend` | sources/host-tools/make-3.81/misc.c:468-480 | what is written after a blank is separate from what is there |
| `MakeText.WordsAre` | sources/host-tools/make-3.81/misc.c:457-480 | spaces and tabs separate words and nothing else does |
| `MakeText.JoinedAppend` | sources/host-tools/make-3.81/function.c:1025-1044 | joined words have single spaces between them |
| `MakeText.WordsOfJoined` | sources/host-tools/make-3.81/misc.c:457-480 | words joined by single spaces come apart again into the same words |
| `MakeSubst.SubstNonEmpty` | sources/host-tools/make-3.81/function.c:92-130 | occurrences from the left, without overlap, each replaced; by words only those between blanks or the ends |
| `MakeSubst.ScannedByWord` | sources/host-tools/make-3.81/function.c:113-125 | for a pattern without blanks, scanning by words replaces the words equal to it and not one other character |
| `MakeSubst.ScannedIdentity` | sources/host-tools/make-3.81/function.c:92-130 | replacing a text by itself changes nothing |
| `MakeSubst.SubstEmptyByWord` | sources/host-tools/make-3.81/function.c:77-133 | with an empty pattern: the text unchanged, and the replacement at its end if it is empty or ends with a blank |
| `MakeSubst.SubstExpand` | sources/host-tools/make-3.81/function.c:77-133 | all cases together, for any pattern: plain or by words, empty or not |
| `MakeSubst.MapWordsWords` | sources/host-tools/make-3.81/function.c:77-133 | the words of the result are the words of the text, each replaced if equal, empties dropped |
| `MakeSubst.MapWordsMeans` | sources/host-tools/make-3.81/function.c:113-125 | replacing words goes piece by piece, and spaces and tabs stay where they are |
| `MakeSubst.WholeWord` | sources/host-tools/make-3.81/function.c:113-125 | a text that is a single word is replaced exactly if it is the one looked for |
| `MakeSubst.SubstMeans` | sources/host-tools/make-3.81/function.c:77-133 | without regard to words: the first occurrence is replaced and the rest treated alike, a text without any stays, and for nothing to look for the replacement is appended |
| `MakeSubst.EmptySubstExact` | sources/host-tools/make-3.81/function.c:77-133 | the empty pattern leaves the words alone if and only if the replacement is empty or the text ends in a word |
| `MakePattern.FindPercent` | sources/host-tools/make-3.81/read.c:2142-2238 | the in-place scan halves the backslashes in front of each percent sign up to the first unquoted one, which it finds |
| `MakePattern.UnquotedInRange` | sources/host-tools/make-3.81/read.c:2142-2238 | the place it returns holds a percent sign |
| `MakePattern.QuotingProtects` | sources/host-tools/make-3.81/read.c:2142-2238 | every text can be quoted so that the scan gives it back unchanged and finds no percent sign in it |
| `MakePattern.EveryPattern` | sources/host-tools/make-3.81/read.c:2142-2238 | any two texts can be written around the percent sign of a pattern, the first one quoted, the second as it is |
| `MakePattern.TestsAgree` | sources/host-tools/make-3.81/function.c:198-215 | the inline prefix and suffix test, `pattern_matches` and the meaning 'starts and ends as the pattern without overlap' are the same |
| `MakePattern.StemRestores` | sources/host-tools/make-3.81/function.c:280-303 | pattern parts and stem put a matching word together again |
| `MakePattern.EveryStem` | sources/host-tools/make-3.81/function.c:198-215 | every word of the pattern's shape matches, with what stands for the percent sign as its stem |
| `MakePatsubst.PatsubstPercent` | sources/host-tools/make-3.81/function.c:194-252 | exactly the substituted words, each with one space, the last space taken back |
| `MakePatsubst.EndsWithSpace` | sources/host-tools/make-3.81/function.c:240-250 | the character taken back at the end is always a space |
| `MakePatsubst.PatsubstWords` | sources/host-tools/make-3.81/function.c:147-253 | for a blank-free replacement the words written are the words of the text, each substituted if matching, empties dropped |
| `MakePatsubst.SubstWordMeans` | sources/host-tools/make-3.81/function.c:198-232 | a word of the pattern's shape has its surroundings exchanged or is replaced, any other stays |
| `MakePatsubst.PatsubstJoined` | sources/host-tools/make-3.81/function.c:194-252 | the substituted words are written with single spaces between them, unless one comes to nothing that was not replaced by nothing |
| `MakePatsubst.PatsubstExpand` | sources/host-tools/make-3.81/function.c:147-253 | the exact text for any pattern and replacement |
| `MakePatsubst.ResultWords` | sources/host-tools/make-3.81/function.c:147-253 | without blanks in replacement and literal pattern the words are the substituted words, exactly unless the pattern is empty, the replacement is not, and the text is empty or ends with a blank; then one stray word is appended |
| `MakePatsubst.StrayExample` | sources/host-tools/make-3.81/function.c:147-253 | an input with the stray word |
| `MakeFilter.FilterFilterout` | sources/host-tools/make-3.81/function.c:920-1046 | exactly the words selected by at least one pattern (or by none), in order, with single spaces; the same with and without the hash table |
| `MakeFilter.MarkWords` | sources/host-tools/make-3.81/function.c:984-1023 | a word is marked if and only if some pattern selects it, whichever way literals are looked up |
| `MakeFilter.MarkChain` | sources/host-tools/make-3.81/function.c:1007-1018 | following the chain marks every occurrence of a literal and nothing else |
| `MakeFilter.MarkScan` | sources/host-tools/make-3.81/function.c:1004-1022 | scanning marks what the pattern selects |
| `MakeFilter.BuildTable` | sources/host-tools/make-3.81/function.c:986-995 | the table holds the last place of each word, and each place is chained to the one before |
| `MakeFilter.Tokens` | sources/host-tools/make-3.81/function.c:964-981 | the blank-separated words |
| `MakeFilter.Entries` | sources/host-tools/make-3.81/function.c:941-959 | each pattern unquoted, with the length it had before |
| `MakeFilter.Partition` | sources/host-tools/make-3.81/function.c:920-1046 | `filter` and `filter-out` share the words out between them, each as often as it occurs |
| `MakeFilter.ChosenExactly` | sources/host-tools/make-3.81/function.c:1025-1036 | a word is in the output exactly if it is in the text and selected, or not |
| `MakeFilter.ChosenInOrder` | sources/host-tools/make-3.81/function.c:1025-1036 | words are chosen one by one and keep their order |
| `MakeFilter.FilteredWords` | sources/host-tools/make-3.81/function.c:1025-1044 | the words of the output are the chosen words |
| `MakeFilter.QuotedLiteralSelectsNothing` | sources/host-tools/make-3.81/function.c:952-957 | a pattern selects what it matches if and only if it has a percent sign or nothing in it was quoted; a literal with a quoted percent sign selects nothing |
| `MakeAbspath.Abspath` | sources/host-tools/make-3.81/function.c:1882-1953 | refines a walk over a stack of components: NULL exactly for an empty name, a relative one without working directory, or a name on the way that does not fit; all writes stay inside the buffer |
| `MakeAbspath.BackUp` | sources/host-tools/make-3.81/function.c:1926-1931 | `..` takes exactly the last component off, and stays at the root |
| `MakeAbspath.Push` | sources/host-tools/make-3.81/function.c:1932-1943 | a component is appended behind one separator, or refused exactly if the name would not fit |
| `MakeAbspath.NextPart` | sources/host-tools/make-3.81/function.c:1912-1923 | the next component, repeated separators skipped |
| `MakeAbspath.CanonicalName` | sources/host-tools/make-3.81/function.c:1882-1953 | a result is absolute, fits, and is the name of its components, none of them empty, `.` or `..`: no repeated or trailing separator |
| `MakeAbspath.AbsoluteIdempotent` | sources/host-tools/make-3.81/function.c:1882-1953 | applied again, from any directory, it changes nothing |
| `MakeAbspath.AbsoluteComposes` | sources/host-tools/make-3.81/function.c:1882-1953 | `a/b` is `b` as seen from `a`, failures included |
| `MakeAbspath.OneComponent` | sources/host-tools/make-3.81/function.c:1908-1943 | one component as seen from a directory: `.` is the directory, `..` its parent or the root, any other is one further exactly if its name fits; an empty name, or a relative one without a directory, has no result |
| `MakeAbspath.DotsIgnored` | sources/host-tools/make-3.81/function.c:1924-1925 | names that differ only in `.` components have the same result |
| `MakeAbspath.DotInside` | sources/host-tools/make-3.81/function.c:1924-1925 | `a/./b` is `a/b` |
| `MakeAbspath.DownAndUp` | sources/host-tools/make-3.81/function.c:1926-1943 | `a/c/../b` is `a/b` if `a/c` fits, and has no result otherwise |
| `MakeAbspath.SlashesIgnored` | sources/host-tools/make-3.81/function.c:1912-1914 | repeated and trailing separators make no difference |
| `MakeAbspath.CleanResult` | sources/host-tools/make-3.81/function.c:1932-1950 | in a result no two separators stand next to each other and none at the end |
| `MakeAbspath.CanonicalStays` | sources/host-tools/make-3.81/function.c:1882-1953 | a canonical name that fits stands for itself, from anywhere |
| `MakeChop.Chop` | sources/host-tools/make-3.81/commands.c:285-329 | the lines put together with newlines give the text back up to the last newline; separating newlines follow an even run of backslashes in their line, kept ones an odd run |
| `MakeChop.OnlyOneWay` | sources/host-tools/make-3.81/commands.c:285-329 | there is only one such split of a text |
| `MakeChop.FindEnd` | sources/host-tools/make-3.81/commands.c:291-307 | the end of a line is its first unquoted newline or the end of the text |
| `MakeChop.OddBackslashes` | sources/host-tools/make-3.81/commands.c:296-302 | quoted exactly if the run, counted back to the start of the line, is odd |
| `MakeChop.Commands.ChopCommands` | sources/host-tools/make-3.81/commands.c:269-329 | commands already split are left alone |
| `MakeDir.Answers` | sources/host-tools/make-3.81/dir.c:734-738 | any sequence of questions about any directories under any names is answered as by listing the whole directory |
| `MakeDir.DirectoryCache.DirFileExists` | sources/host-tools/make-3.81/dir.c:734-738 | the lazy answer is the eager one; open streams are counted exactly and below the maximum between calls |
| `MakeDir.DirectoryCache.FindDirectory` | sources/host-tools/make-3.81/dir.c:420-574 | a name leads to the contents of its inode, shared by all its aliases |
| `MakeDir.DirectoryCache.Enter` | sources/host-tools/make-3.81/dir.c:509-566 | a directory is opened once per inode, and read and closed at once when too many are open |
| `MakeDir.DirectoryCache.ContentsFileExists` | sources/host-tools/make-3.81/dir.c:580-727 | finds a name among those read or reads on; without a name reads and closes the stream |
| `MakeDir.DirectoryCache.ReadFurther` | sources/host-tools/make-3.81/dir.c:671-726 | the names known are always those in front of the stream, all of them once it is closed |
| `MakeDir.DirectoryCache.constructor` | sources/host-tools/make-3.81/dir.c:368-375 | an empty cache with nothing open |
| `MakeFileTable.RunOps` | sources/host-tools/make-3.81/file.c:135-331 | over every run of rules and renamings through any records, stale ones included: goes on exactly until an operation gives up, and leaves the records and the table of `After` |
| `MakeFileTable.After` | sources/host-tools/make-3.81/file.c:135-331 | after every run each table entry is stored under its own name, every renaming chain ends at a table entry, and each file in the table has exactly the dependencies given through the records that lead to it |
| `MakeFileTable.AllGiven` | sources/host-tools/make-3.81/file.c:135-331 | what the records have been given is what the rules gave: no dependency is lost or made up |
| `MakeFileTable.CommandsStay` | sources/host-tools/make-3.81/file.c:260-268 | over every run a file that has commands keeps them through all renamings and merges until a rule gives it others |
| `MakeFileTable.FileTable.RehashFile` | sources/host-tools/make-3.81/file.c:220-331 | moves the live record, or merges it: the file that has the name takes in the other's dependencies behind its own, its commands if it has none itself, the later time and all flags, and no other record changes; gives up exactly if the record at the end of the chain goes by another name than the handle; the other abort never happens |
| `MakeFileTable.FileTable.RenameFile` | sources/host-tools/make-3.81/file.c:205-213 | also sets the name of the record it was called with; through a stale record the live one keeps its old name |
| `MakeFileTable.FileTable.EnterFile` | sources/host-tools/make-3.81/file.c:135-198 | the record of that name, created empty if there is none |
| `MakeFileTable.FileTable.AddRule` | sources/host-tools/make-3.81/read.c:1965-2057 | a rule makes the file a target; its commands, if it has any, replace those of earlier rules; its line of dependencies goes to the end, but in front of the last line if the file has commands and the rule has none |
| `MakeFileTable.PrincipalLast` | sources/host-tools/make-3.81/read.c:2020-2040 | whatever rules a file has, before and after, the line of the last rule that came with commands is the last of all |
| `MakeFileTable.LinesInOrder` | sources/host-tools/make-3.81/read.c:2009-2045 | without commands the lines stay in the order of the rules |
| `MakeFileTable.FileTable.CheckRenamed` | sources/host-tools/make-3.81/filedef.h:198-199 | following renamings ends at the record in the table |
| `MakeFileTable.FileTable.constructor` | sources/host-tools/make-3.81/file.c:1045-1050 | an empty table |
| `MakeFileTable.RehashKeeps` | sources/host-tools/make-3.81/file.c:220-331 | moving a record to a free name and merging it into another keep table, chains and owners in order |
| `MakeFileTable.EnterKeeps` | sources/host-tools/make-3.81/file.c:179-188 | a new record keeps them in order |
| `MakeFileTable.MergeOwned` | sources/host-tools/make-3.81/file.c:286-296 | after a merge the file in the table owns exactly what was given through either class of records |
| `MakeFileTable.MergeAssociates` | sources/host-tools/make-3.81/file.c:254-327 | merging three files gives the same record whichever pair is merged first: dependencies in order, first commands, latest time, all flags |
| `MakeFileTable.StaleHandleLost` | sources/host-tools/make-3.81/file.c:232-237 | a run of four operations after which renaming through the merged record gives up, through the live one does not, and the live one has both files' dependencies and its own commands |
| `MakeTimestamp.ConsIs` | sources/host-tools/make-3.81/file.c:768-786 | with 64-bit wrap-around: seconds and nanoseconds packed in range, the first or last timestamp outside it |
| `MakeTimestamp.PartsRestored` | sources/host-tools/make-3.81/filedef.h:129-135 | seconds and nanoseconds of a time in range can be read back |
| `MakeTimestamp.OrderKept` | sources/host-tools/make-3.81/file.c:768-786 | a later time never has an earlier timestamp, strictly later exactly where the range allows, and none is a special value |
| `ElfNote.IterateNotes` | parse_elfnote.py:76-91 | on arbitrary bytes it terminates with the notes that fill the section, or with those before a truncated header or body, and says which |
| `ElfNote.ReadingUnique` | parse_elfnote.py:76-91 | notes and ending are determined by the bytes |
| `ElfNote.OnlyOneReading` | parse_elfnote.py:76-91 | a section is made of whole notes and a rest from which none can be read in only one way |
| `ElfNote.RoundTrip` | parse_elfnote.py:76-91 | encoding any notes with NUL-terminated names and 4-byte padding and reading them gives the same notes, to the end |
| `ElfNote.CompleteExactly` | parse_elfnote.py:76-91 | a section is read to its end if and only if it is made of whole notes, whatever fills the padding |
| `ElfNote.RoundUp` | parse_elfnote.py:45-48 | the least multiple that is not below the value |
| `ElfNote.StructParser.constructor` | parse_elfnote.py:51-54 | starts at the beginning |
| `ElfNote.StructParser.ReadStruct` | parse_elfnote.py:64-73 | the next bytes, or a truncation that moves nothing |
| `ElfNote.Encode32Inverse` | parse_elfnote.py:79-79 | little-endian words and numbers correspond one to one |
| `ElfNote.LittleEndian` | parse_elfnote.py:79-79 | the first byte of a word is the lowest, the last the highest |
| `ElfNote.OneNote` | parse_elfnote.py:76-91 | sizes, kind, name and descriptor in this order, with their padding, are read as that one note and nothing else |
| `ElfNote.PlainSection` | parse_elfnote.py:76-91 | a section byte by byte: note ABC of kind 1 with four bytes |
| `ElfNote.PaddedSection` | parse_elfnote.py:76-91 | and one with two sizes, no NUL and padding that is not zero |

## Left out

Native app glue:
- Errors of `read` and `write` on the pipe, and a full pipe: commands are neither lost nor delayed.
- `android_main` returning before it has seen `destroyRequested`, and handlers that write the protocol fields themselves; a handler stores at most one block, and only while `savedState` is NULL.
- `savedStateSize`, configuration objects, `contentRect`, input events and the poll sources: data that the protocol only passes on.
- Other callers of the struct than the two threads.

Build scheduler:
- Sorting of modules and nodes, log files, the progress display and the packaging steps after a build.
- What a module does when it is built: its build succeeds, fails or raises, as the input says.
- Process groups, signals, SIGKILL timeouts and `SystemExit` in workers; `terminate` and `join`; the single-process `DummyWorkQueue`.
- BuildPool.TaskPool.constructor: requires at least one job; without workers no result ever arrives.
- BuildRequest.SplitByArch: requires at least one architecture and no repeats, as the fixed list of architectures has.

GNU make:
- Built-in functions inside expansions, `call` with its expansion counter, target-specific `+=`, warnings for undefined variables and the bookkeeping of file locations.
- The growth of `variable_buffer`: the buffer is a text of any length.
- MakeExpander.Expander.VariableExpandString: covers texts in which no reference starts with the name of a built-in function.
- MakePatsubst.ResultWords: the statement about words is for blank-free replacements and literal patterns; `PatsubstExpand` states the exact text for all of them.
- MakeAbspath.Abspath: takes the working directory in the canonical form in which `getcwd` returns it, shorter than the buffer.
- `realpath`, `lines_flags` and `any_recurse` in `chop_commands`, and the names that `lookup_file` strips of `./`.
- MakeDir.Answers: directories do not change between questions, a directory that can be opened can be opened under all its names, and nothing has been marked impossible.
- Double-colon rules, variable sets, `.DEFAULT` and `.SUFFIXES`, and error messages in the file table.
- MakeReferences.SuffixReference: the statement about words is for blank-free replacements; `MakePatsubst.PatsubstPercent` gives the exact text for all of them.
- MakeReferences.PercentReference: the same.
- MakeFileTable.FileTable.RehashFile: dependencies are a sequence in each record; that the linked lists of two records share their nodes after a merge is not modelled.
- Windows, VMS, MSDOS, Amiga and case-insensitive branches.

ELF notes:
- Finding the section with `readelf`, printing the Android note, and the warning for names without NUL.
