# plex scheduling core in Dafny

plex runs a flow of shell tasks, each in its own tmux pane, in dependency
order. A task becomes runnable once no incomplete or failed task carries the
name of one of its dependencies. Each pane's shell appends `<code> <name>` to a
progress file when its command exits. A listener thread tails that file and
queues one event per line. The coordinator loop (`traverse`) launches runnable
tasks, applies completions, and decides when the flow is over. After a run the
tasks are saved. On the next start `load` keeps the saved tasks that SUCCEEDED
and resets those that started and did not succeed.

This project models that core and proves properties of the model:

- `wrappers.dfy`: `Option` and `Result`.
- `pytext.dfy`: the pieces of Python 2 text handling the core relies on: `str.strip()`, `int()` on a string, and the shell's decimal rendering of `$?`.
- `tasks.dfy`: the task. Its fields are given both as a value (`TaskState`) and as the mutable `Task` object the coordinator updates in place. It also holds `status`, `start` and `complete`.
- `readiness.dfy`: `get_run_status`. Its four lists are given as ascending positions in the flow.
- `completion_log.dfy`: the line the pane's exit trap appends, `tail_f`'s reassembly of lines from `readline` chunks, and `tail_f_loop`'s parse of a line into an event.
- `scheduler.dfy`: `traverse`. It is first a specification on task values (`Step`, `Poll`, `RunFrom`, `Run`). It is then the method `Traverse` over the `Task` objects, proved to leave every object as the specification's final state has it.
- `traversal_facts.dfy`: what the loop guarantees:
  - starts happen at most once, and only for ready tasks;
  - an event settles at most one task: the first incomplete task with its name, else the first failed one;
  - SUCCEEDED tasks are never touched;
  - the returned verdict means what it says;
  - dead-pane sweeps happen only at quiet iterations.
- `persistence.dfy`: `task_repr`, `should_reset`, `reset_task`, `Task(**dct)` and `load`, over a model of the values YAML loads to.
- `resume.dfy`: save-and-resume guarantees that combine the scheduler and persistence.

The outside world enters `traverse` as inputs. Iteration `i` of the loop sees `ticks[i]`, which holds:

- the clock;
- whether every pane but the coordinator's is dead (the "possibly done" test);
- what `queue.get(timeout=0.1)` returned: an event, or nothing for `Queue.Empty`.

Starting a task is a `Launcher` `(i, name) -> Option<PaneId>`, where None stands for `run_in_pane` raising one of the two exception types `traverse` catches, `TmuxpException` and `RuntimeError` (plex.py:136-139). `Traverse` follows the loop for as many iterations as there are ticks. It ends `Unfinished` when the ticks run out, `Returned(b)` where `traverse` returns `b`, and `Raised` where an exception escapes it. Of the exceptions that can escape, the model keeps two:

- `int(return_code)` in `complete` failing;
- the table printed at the end of an iteration failing to build. `min` over no truthy start time raises, and so does subtracting a missing time for a started task.

Some behaviours of the code are easy to misread; the model follows the code:

- Events carry a task NAME and are matched by name against `incomplete + failed`, not by pane handle. The line format is `<code> <name>` (plex.py:48, plex.py:146-149, plex.py:208).
- A task without a return code is in `failed`, because `None != 0` is true. So a run that ends with blocked PENDING tasks returns False; their presence is not neutral to success (plex.py:152, plex.py:162).
- Completions also apply to tasks that are not STARTED. This covers a PENDING task with the reported name, and a FAILED task reported again, which may then become SUCCEEDED. So `complete` has no "must be started" precondition and FAILED is not terminal (plex.py:146-149).
- A saved task that was never started is kept as saved rather than reset. A saved task marked started and completed whose `return_code` is saved as None is reset, because `None != 0`. When the `return_code` key is missing altogether, the code counts as 0 and the task is kept (plex.py:272-279).
- A task name that ends in whitespace is logged as is, but `strip()` removes that whitespace from the line read back. The event carries the stripped name. If a task of the flow has that name, the first incomplete (else the first failed) one is completed with this code, even when it never ran (`TargetFirstIncomplete`, `TargetFirstFailed`). No event ever carries the task's own name, so the task itself stays STARTED in every case and `traverse` never returns a verdict. A name that is empty or all whitespace gives a line with no space left after `strip()`, so the unpacking at plex.py:208 raises and the listener thread ends; no later event reaches the queue (`ParseLogLineStripsName`, `ParseLogLineBlankName`, and `Forward`, which stops at the first line that does not parse). The end-to-end lemmas `ForwardLogLines` and `ListenerDeliversAll` are stated for the other names (plex.py:48, plex.py:208).
- Dead panes are killed when `(i - last_done) % 20 == 19` on a timeout. The counter is not reset by the sweep itself (plex.py:153-154).

## Model

| member | source | states |
|---|---|---|
| PyText.LStrip | plex.py:208 | the result is the suffix left after dropping leading whitespace, every dropped character is whitespace, and the result does not start with whitespace |
| PyText.RStrip | plex.py:208 | the result is the prefix left after dropping trailing whitespace, every dropped character is whitespace, and the result does not end with whitespace |
| PyText.StripTrimmed | plex.py:208 | a string that starts and ends with non-whitespace is unchanged by `strip()` |
| PyText.DecimalRoundTrip | plex.py:47-48 | the decimal text the shell prints for a code is a non-empty digit run that denotes that code |
| PyText.Strip | plex.py:208 | definition: `rstrip` of `lstrip`; its properties are `LStrip`, `RStrip` and `StripTrimmed` |
| PyText.Decimal | plex.py:47-48 | definition: the digits the shell prints for `$RC`; `DecimalRoundTrip` proves they denote the code |
| PyText.Unsigned | plex.py:104 | definition: what `int()` reads after the sign, skipping whitespace before a digit run; its property is `UnsignedOfLStrip` |
| PyText.UnsignedOfLStrip | plex.py:104 | after the sign, `int()` reads exactly the digit run `lstrip()` leaves, and raises when `lstrip()` leaves anything else |
| PyText.PyInt | plex.py:104 | `int()` accepts only text that is non-empty after stripping |
| PyText.PyIntSigned | plex.py:104 | a sign, then any whitespace, then a digit run, converts to the signed value of the digits |
| PyText.PyIntSpaceAfterSign | plex.py:104 | `int()` skips whitespace between the sign and the digits, so `int("- 1")` is -1 |
| PyText.PyIntOfDecimal | plex.py:104 | `int()` reads back every integer printed in decimal, with a minus sign when negative |
| PyText.PyIntRejectsNonNumeric | plex.py:104 | `int()` raises on every string holding no digit |
| Tasks.Fresh | plex.py:80-90 | a new task has the given name, command and dependencies, is neither started nor completed, and has no code, no pane, no start time and no end time |
| Tasks.StatusOf | plex.py:106-116 | SUCCEEDED iff completed with code 0; FAILED iff completed with any other code or none; STARTED iff started and not completed; PENDING iff neither |
| Tasks.AfterStart | plex.py:95-98 | `start` sets the pane, `started` and the start time, and changes nothing else |
| Tasks.AfterComplete | plex.py:100-104 | `complete` clears the pane and sets `completed` and the end time. It raises exactly when `int(rc)` fails, and then the code is left as it was; otherwise the code becomes `int(rc)`. Nothing else changes |
| Tasks.StartMakesStarted | plex.py:95-116 | starting a task that has not completed makes it STARTED |
| Tasks.CompleteWithCode | plex.py:100-116 | completing with the decimal text of `n` does not raise, stores `n`, and gives SUCCEEDED iff `n` is 0, otherwise FAILED |
| Tasks.Task.constructor | plex.py:80-93 | a task object holds exactly the given field values |
| Tasks.Task.Start | plex.py:95-98 | the object's new state is `AfterStart` of its old state |
| Tasks.Task.Complete | plex.py:100-104 | the object's new state, and whether it raised, are `AfterComplete` of its old state |
| Readiness.Where | plex.py:161-165 | a list comprehension keeps exactly the listed positions whose task passes the test, and no more of them than were listed |
| Readiness.WhereAscending | plex.py:161-165 | the comprehension keeps the order of the list it filters |
| Readiness.Names | plex.py:160 | the set of names holds exactly the names of the listed tasks |
| Readiness.GetRunStatus | plex.py:159-166 | incomplete iff not completed; failed iff the code is not 0; running iff incomplete and started; runnable iff incomplete, not started, and no dependency names an incomplete or failed task; each list is in flow order |
| Readiness.Membership | plex.py:159-166 | the four lists in terms of status: runnable iff PENDING with every dependency that names a task of the flow SUCCEEDED; running iff STARTED; incomplete iff PENDING or STARTED; failed iff the code is not 0 |
| Readiness.RunnableIffReady | plex.py:163-165 | a task is runnable iff it is PENDING and every dependency naming a task of the flow has SUCCEEDED |
| Readiness.Partition | plex.py:159-166 | running and runnable are disjoint sublists of incomplete; every incomplete task without a code is also failed; runnable tasks' dependencies avoid every incomplete or failed name |
| Readiness.FailedDependencyBlocks | plex.py:164-165 | a task with a FAILED dependency is not runnable |
| Readiness.NoFailedIffAllZero | plex.py:162 | `failed` is empty iff every task's code is 0 |
| CompletionLog.Concat | plex.py:201 | definition of `''.join`; `ConcatAppend` proves it distributes over `+` |
| CompletionLog.Feed | plex.py:198-201 | definition: one `readline` piece is held, and a piece ending in a newline yields the joined held pieces and clears them; its properties are `FeedKeeps` and `FeedText` |
| CompletionLog.Accumulate | plex.py:196-202 | definition: `Feed` over the pieces in order from nothing held; its properties are `AccumulateFacts`, `ReadlineLines`, `WholeLinesPassThrough` and `TailF` |
| CompletionLog.AccumulateFacts | plex.py:196-202 | every yielded line ends in a newline and every held piece does not; the yielded lines followed by the held pieces are exactly the text read |
| CompletionLog.ReadlineLines | plex.py:198-202 | when each chunk has its only newline at its end, each yielded line holds exactly one newline, at its end, and the held text holds none |
| CompletionLog.WholeLinesPassThrough | plex.py:198-202 | chunks that are whole lines are yielded unchanged, with nothing held back |
| CompletionLog.TailF | plex.py:194-202 | the `tail_f` loop yields the lines, and holds the pieces, that `Accumulate` specifies |
| CompletionLog.SplitFirstSpace | plex.py:208 | `split(' ', 1)` gives two parts iff there is a space; the parts rejoin with one space to the input, and the first part has no space |
| CompletionLog.ParseLine | plex.py:208 | definition: strip, split at the first space, code first and name second; None where the unpacking raises; its properties are `ParseLogLine`, `ParseLogLineStripsName` and `ParseLogLineBlankName` |
| CompletionLog.ParseLogLine | plex.py:48 | for a code without whitespace and a loggable name (non-empty, not ending in whitespace, no newline), the line written parses back to exactly that event, even when the name contains spaces |
| CompletionLog.StripLogLine | plex.py:48 | `strip()` of a logged line with a whitespace-free code is the code, a space and the name without its trailing whitespace, or just the code when the name is all whitespace |
| CompletionLog.ParseLogLineStripsName | plex.py:48 | a name that ends in whitespace is read back without that whitespace, so the event carries a different name than the task |
| CompletionLog.ParseLogLineBlankName | plex.py:48 | a line logged for an empty or all-whitespace name does not split, so the unpacking raises |
| CompletionLog.Leading | plex.py:206-209 | of the parsed lines, the events of the leading ones that split, stopping at the first that does not |
| CompletionLog.LeadingAllSome | plex.py:206-209 | when every line splits, every event is queued, in order |
| CompletionLog.Forward | plex.py:206-209 | the queued events are the parses of the leading lines, in order, up to the first line that does not split, where the thread stops |
| CompletionLog.LogLine | plex.py:46-51 | definition: the code text, a space, the name and a newline; its properties are `LogLineEndsLine`, `LogLineReadWhole` and `ParseLogLine` |
| CompletionLog.LogLines | plex.py:48 | the log holds one line per finished task, in order |
| CompletionLog.LogLineEndsLine | plex.py:48 | a logged line ends in a newline |
| CompletionLog.LogLineReadWhole | plex.py:48 | a logged line whose code and name hold no newline ends in a newline and has no other, so `readline` returns it as one piece; names that are empty or end in whitespace included |
| CompletionLog.ForwardLogLines | plex.py:206-209 | when every code is free of whitespace and every name is loggable, the listener queues exactly the logged events, in order |
| CompletionLog.ListenerDeliversAll | plex.py:194-209 | end to end, when every code is free of whitespace and every name is loggable: every logged line is one `readline` piece, a log read so is yielded as is, and it is turned into exactly its events |
| Scheduler.Launched | plex.py:135-141 | definition: a task whose launch gives a pane is started in it, otherwise it is left as it was; `TraversalFacts.LaunchEachFlow` applies it to every listed task |
| Scheduler.ReportRaises | plex.py:174-190 | definition: `report` raises when no task has a truthy start time, or a started task lacks its start time or, once completed, its end time |
| Scheduler.Settle | plex.py:156 | definition: the iteration stops as `Raised` iff `ReportRaises` holds, and otherwise goes on with the same state |
| Scheduler.Step | plex.py:125-156 | definition: the status at the top, the launches, then `Poll`; its properties are `StepStarts`, `StepKeeps`, `StepAdvances`, `StepReturns` and `EventSettlesTarget` |
| Scheduler.Poll | plex.py:143-156 | definition of the rest of an iteration; its properties are `PollEvent`, `PollKeeps`, `PollReturns` and `PollSweeps` |
| Scheduler.RunFrom | plex.py:124-156 | definition: iterations from `i` on until one stops or the ticks run out; its property is `RunFromTracked` |
| Scheduler.Run | plex.py:122-156 | definition: `RunFrom` iteration 0 with `last_done` 0; its properties are `RunReturns`, `StartedAtMostOnce`, `SucceededUntouched`, `SweepsOnlyWhenQuiet` and `Traverse` |
| Scheduler.LaunchEach | plex.py:135-141 | launching keeps the number of tasks, `last_done` and the sweeps |
| Scheduler.FirstNamed | plex.py:146-149 | the search stops at a task with the event's name, and no earlier one has it; no result means no listed task has it |
| Scheduler.LaunchAll | plex.py:135-141 | the launch loop leaves the objects, and the record of starts, as `LaunchEach` specifies |
| Scheduler.Deliver | plex.py:146-149 | the event completes the first listed task with its name, and only that task; with no such task nothing changes |
| Scheduler.PollQueue | plex.py:143-156 | the rest of the iteration, over the objects, is `Poll` |
| Scheduler.Iterate | plex.py:125-156 | one iteration over the objects is `Step` |
| Scheduler.Traverse | plex.py:122-156 | the verdict, the final objects and the sweeps are those of `Run` on the initial task values |
| TraversalFacts.LaunchEachEffect | plex.py:135-141 | each listed task is launched once and no other task changes; exactly those whose launch gives a pane are recorded as started, in order |
| TraversalFacts.LaunchEachFlow | plex.py:135-141 | each listed task is replaced by its launch and every other task is left alone |
| TraversalFacts.LaunchEachAppends | plex.py:135-141 | the recorded starts grow by exactly the listed positions whose launch gives a pane, in list order |
| TraversalFacts.LaunchEachStarts | plex.py:135-141 | the recorded starts keep their prefix and grow, in ascending order, by exactly the listed tasks whose launch gives a pane |
| TraversalFacts.Target | plex.py:146-149 | the task an event settles is incomplete or failed and has the event's name |
| TraversalFacts.TargetNone | plex.py:146-149 | an event settles no task iff no incomplete or failed task has its name |
| TraversalFacts.TargetFirstIncomplete | plex.py:146-149 | when an incomplete task has the name, the first such task is settled |
| TraversalFacts.TargetFirstFailed | plex.py:146-149 | when only failed tasks have the name, the first such task is settled |
| TraversalFacts.PollEvent | plex.py:143-149 | a poll that gets an event sets `last_done`, completes exactly the task the event names, and stops, as Raised, iff the code does not convert or the table cannot be built |
| TraversalFacts.PollKeeps | plex.py:143-156 | a poll records no start, starts and unstarts no task, keeps names, commands and dependencies, and changes only an incomplete or failed task |
| TraversalFacts.EventSettlesTarget | plex.py:143-149 | an event sets `last_done`, completes exactly its target, and leaves the other tasks as the launches did; the iteration stops, as Raised, iff the code does not convert or the table cannot be built |
| TraversalFacts.StepStarts | plex.py:128-141 | an iteration starts exactly the runnable tasks whose launch gives a pane, records them in flow order, and they end the iteration started |
| TraversalFacts.IterationStarts | plex.py:128-149 | for any well-formed status lists, the iteration starts exactly the runnable tasks whose launch gives a pane, in order |
| TraversalFacts.StepKeeps | plex.py:125-156 | an iteration starts no other task, unstarts none, changes no name, command or dependencies, and leaves SUCCEEDED tasks as they were |
| TraversalFacts.IterationKeeps | plex.py:128-149 | for status lists that keep SUCCEEDED tasks out, the iteration starts no unlisted task, unstarts none, keeps names, commands and dependencies, and leaves SUCCEEDED tasks alone |
| TraversalFacts.StepAdvances | plex.py:125-156 | an iteration only appends fresh, ascending, previously unstarted and incomplete positions to the record of starts, and keeps the rest of what `StepKeeps` states |
| TraversalFacts.AdvanceTracked | plex.py:125-156 | a state change of that kind keeps the run invariant |
| TraversalFacts.StartsOnlyWhenReady | plex.py:128-141 | an iteration records a start for a task iff it is PENDING, every dependency naming a task of the flow has SUCCEEDED, and its launch gives a pane; the flow keeps its length, and a task not started before ends the iteration started iff a start is recorded for it, so a failed launch leaves it unstarted |
| TraversalFacts.RunFromTracked | plex.py:125-156 | the run invariant holds from any iteration to the end of the run |
| TraversalFacts.StartedAtMostOnce | plex.py:122-156 | over a run, every task is started at most once, and only if it was not started at the beginning; a task ends started iff it began started or the run started it; names, commands and dependencies never change |
| TraversalFacts.SucceededUntouched | plex.py:122-156 | a task SUCCEEDED at the beginning is never started and never changed |
| TraversalFacts.StepReturns | plex.py:150-152 | an iteration returns iff the poll timed out, nothing was runnable or running and every other pane was dead; it then changes no task and returns True iff every code is 0 |
| TraversalFacts.PollReturns | plex.py:150-152 | a poll returns iff it timed out with nothing runnable or running and idle panes; it then changes nothing and returns True iff `failed` is empty |
| TraversalFacts.RunReturns | plex.py:122-156 | where `traverse` returns, nothing is runnable or running, and it returns True iff every code is 0 |
| TraversalFacts.SuccessMeansAllSucceeded | plex.py:122-156 | when only completed tasks carry codes, `traverse` returns True iff every task SUCCEEDED |
| TraversalFacts.LastDelivery | plex.py:145 | `last_done` at iteration `i` is the last earlier iteration with an event, or 0 |
| TraversalFacts.QuietIterations | plex.py:153-154 | lists exactly the iterations before `n` that timed out with `(i - last_done) % 20 == 19` |
| TraversalFacts.PollSweeps | plex.py:143-156 | a poll moves `last_done` and the sweeps on exactly as the ticks determine them |
| TraversalFacts.SweepsOnlyWhenQuiet | plex.py:150-154 | dead panes are killed only at such quiet iterations, and in a run that neither returns nor raises, at every one of them |
| Persistence.ResetTask | plex.py:281 | `reset_task` keeps exactly `name`, `command` and `depends` with their values, and raises `KeyError` for the first of them that is missing |
| Persistence.ShouldReset | plex.py:272-279 | definition of `should_reset`, with a missing code counting as 0; its properties are `ShouldResetRepr` and `ResetLoadsPending` |
| Persistence.DependsSet | plex.py:82 | a falsy `depends` gives no dependencies, and a non-empty list of names gives exactly those names |
| Persistence.TimeField | plex.py:92-93 | definition: a saved time is None or a number; anything else is `Unsupported` |
| Persistence.PaneField | plex.py:92-93 | definition: a saved pane id is None or a string; anything else is `Unsupported` |
| Persistence.CodeField | plex.py:92-93 | a loaded code is 0 exactly when the saved value equals 0 in Python |
| Persistence.Construct | plex.py:80-93 | `Task(**dct)` raises `TypeError` without `name` or `command`, and `AttributeError` for a `status` key; it succeeds exactly when every field converts, and the task then has the record's name and command, the truth values of `started` and `completed`, and its `depends`, times, code and pane id converted |
| Persistence.LoadTask | plex.py:287 | an element that is not a mapping raises `AttributeError` |
| Persistence.FirstError | plex.py:287 | the results of a comprehension are all values, in order, or the first error raised |
| Persistence.LoadTasks | plex.py:287 | every element loads, and the flow is their tasks in order; or the first element that fails raises its error |
| Persistence.FlowItems | plex.py:287 | definition: iterating `manifest['flow']`; a list gives its elements, an empty string or mapping nothing, a non-empty one elements without `.get`, and a scalar raises `TypeError` |
| Persistence.EnvOf | plex.py:288 | definition of `dict(manifest['env'])`: a mapping is kept, an empty string or list gives an empty mapping, a non-empty string raises `ValueError`, and a scalar `TypeError` |
| Persistence.LoadTasksAllOk | plex.py:287 | when every element loads, the comprehension gives exactly their tasks, in order |
| Persistence.LoadManifest | plex.py:284-288 | `load` raises `KeyError` without `flow`, then the error of iterating `flow`, then the first failing element's error (through `LoadTasks`), then `KeyError` without `env`, then the error of `dict(env)`; otherwise it succeeds with the loaded elements of `flow` and `dict(env)` |
| Persistence.TaskRepr | plex.py:255-266 | a task is saved with exactly eight keys, and the pane id is not one of them |
| Persistence.ConstructRepr | plex.py:255-266 | a saved task rebuilt with `Task(**dct)` equals the task, except that it has no pane id |
| Persistence.ReprDepends | plex.py:82 | the saved `list(task.depends)` converts back to exactly the task's dependencies |
| Persistence.ShouldResetRepr | plex.py:272-279 | a saved task is reset iff it was started and has not SUCCEEDED |
| Persistence.Resumed | plex.py:272-287 | a resumed task keeps its name, command and dependencies and has no pane; it is PENDING if it was started and did not succeed, and otherwise has its saved status |
| Persistence.ResumeTask | plex.py:272-287 | loading a saved task gives a fresh PENDING task if it was started and did not succeed, and otherwise the task as saved |
| Persistence.ResetLoadsPending | plex.py:281-287 | a reset record is never reset again, and it loads as a fresh PENDING task with the record's name, command and dependencies |
| Persistence.SaveManifest | plex.py:255-266 | the saved document holds exactly the keys `flow` and `env`: `env` is the environment as given, and `flow` is a list with one record per task |
| Persistence.ResumeManifest | plex.py:284-288 | loading a saved flow gives each task as `Resumed`, in order, and the same environment |
| Persistence.Load | plex.py:284-288 | `load` builds one fresh, distinct task object per saved task, holding the values `LoadManifest` specifies, or raises its error |
| Resume.SucceededNeverRerun | plex.py:272-287 | a task SUCCEEDED when saved comes back as saved, apart from its pane id; a resumed run never starts it and ends with it unchanged |
| Resume.UnfinishedStartsAgain | plex.py:272-287 | a task started but not SUCCEEDED when saved comes back as a fresh PENDING task |
| Resume.ResumedSuccess | plex.py:272-287 | after resuming, a returning run reports True iff every task SUCCEEDED |

## Left out

- tmux is not modelled. Windows, panes, `respawn-pane`, `split_window`, the 4-pane cap in `run_in_pane`, and the script file are all replaced by the `Launcher` input.
- The "every other pane is dead" test is not modelled; it is the `panesIdle` input.
- `kill_dead_panes` is not modelled. Only when it is called is recorded, in `sweeps`.
- The listener thread and the queue are not modelled as concurrency. The coordinator sees, at each poll, either one event or a timeout, as a tick input. `tail_f` is modelled over the chunks `readline` returns. Its `time.sleep` polling, and the file I/O, are left out.
- The exit trap's shell quoting is not modelled. The trap writes `{name!r}`, and the shell strips the quotes, so `LogLine` assumes the shell writes back exactly the name. Names whose `repr` the shell would not give back verbatim are out of scope.
- The clock is not modelled. `time.time()` is the tick's `now`.
- The table display is not modelled: `fmt_time`, `tabulate`, `click` output, the spinner, and `print_conclusion`. Only the ways `report` raises are kept, because they end `traverse`.
- `run`, `main` and `get_window` are not modelled. Neither are the click flags, the save-path choice, the fallback to the manifest on `IOError`, and `yaml.dump`/`yaml.safe_load` themselves. A saved document is modelled as the value it loads to, and the top level is assumed to be a mapping.
- `setup.py` is not part of this model.
- Exceptions other than the two kept ones end `traverse` in the code and are not modelled: an `IOError` writing the script file (plex.py:55-56), any other exception from `run_in_pane`, and any error from `window.list_panes()` (plex.py:130) or `kill_dead_panes` (plex.py:154).
- Persistence.Construct: `started` and `completed` are kept only as their truth value. The code only ever tests their truth, but a later save would write back the raw value.
- Persistence.Construct: a return code that is a float, string, list or mapping is reported as `Unsupported` rather than kept. The same goes for a time that is neither None nor an int or float (a `bool` too, which Python would keep), a pane id that is not a string, a non-string name or command, and a `depends` list holding non-strings. Python also applies the keys in whatever order the mapping gives, so with several such values it may raise for a different one first.
- Persistence.Construct: every extra key becomes an attribute of the task (plex.py:92-93). Only `status` is modelled, as the `AttributeError` it raises. Keys `start`, `complete` and `spinner` replace the method or the iterator of that name, so the later `traverse` raises when it calls them; that failure is not modelled, and such a record loads as an ordinary task. Any other extra key sets an attribute nothing reads, so it is ignored.
- Persistence.Construct: the keys of a saved record are strings here; a YAML mapping with other keys is not representable.
- Persistence.EnvOf: `dict()` of a non-empty list is reported as `Unsupported`. Python builds a mapping from a list of key-value pairs and raises `TypeError` or `ValueError` for any other list.
- Persistence.TaskRepr: the order `list(task.depends)` gives is a parameter, since Python leaves it unspecified.
- Readiness.Where: its own contract states which positions are kept, not their order; the order is proved separately, by `WhereAscending`.
- Scheduler.LaunchEach: the launcher is keyed by iteration and task name, so same-named tasks launched in one iteration get the same outcome and pane id. plex.py calls `run_in_pane` once per task object, and the 4-pane cap can make only the second of two such calls raise; those runs are not modelled.
- CompletionLog.ForwardLogLines: only promises exact delivery when every code is free of whitespace and every name is loggable. For other names only the per-line lemmas hold: a name ending in whitespace comes back stripped, and an empty or all-whitespace name stops the listener.
- CompletionLog.ListenerDeliversAll: the same bound on codes and names as `ForwardLogLines`; its first fact, that each logged line is one `readline` piece, needs only that codes and names hold no newline (`LogLineReadWhole`).
- Scheduler.Traverse: only finitely many iterations are followed; a run that has not ended when the ticks are used up is `Unfinished`.
