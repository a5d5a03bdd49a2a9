# Task board: a verified model of its state machine

The repository is a browser task board (`script.js`). A user adds tasks with a
name, due date and priority. Tasks are dragged between a "task list" (not
started) and a "Do Now" column (in progress). Each in-progress task runs a
once-a-second countdown, 25 minutes by default. When the countdown runs out
the task is marked done.

The logic that is not DOM plumbing lives in three pieces of module state:
`tasklist`, `timers` and `dragTaskId`. The handlers that change them are add,
`updatePriority`, `updateStatus`, the interval callback of `startTimer`,
`editTask`, `deleteTask`, the drag and drop handlers and the on-load restart
loop. There is also one pure function, `formatTime`. This project models all
of them in Dafny:

- `wrappers.dfy` (`Wrappers`): `Option`, standing for `undefined`/`null`.
- `time_format.dfy` (`TimeFormat`): `formatTime`, and `ParseClock`, its inverse.
- `tasks.dfy` (`Tasks`): the task record and the per-record changes
  (`WithStatus`, `Ticked`). It also holds `trim`, `find` (`IndexOf`),
  `filter` (`Without`) and the column partition of `renderTasks`.
- `transitions.dfy` (`Transitions`): the board as a value (`State`), one
  function per handler, and the invariants `Valid` and `Timed`.
- `properties.dfy` (`Properties`): lemmas stating what each handler promises.
- `board.dfy` (`Board`): class `TaskBoard`. Its fields are updated in place by
  one method per handler, and each method is proved to leave the state that
  the matching `Transitions` function gives. The on-load loop appears twice:
  `RestartTimersAsWritten` uses the test of script.js:184 as written, and
  `RestartTimers` uses the corrected test described under "## Findings".

Intervals are modelled by their handles. `timers` maps a task id to the handle
that `setInterval` returned; as in the code, a key survives `clearInterval` on
expiry and on delete. `live` holds the intervals still running, each mapped to
the id of the task it counts down. A firing of interval `h` is an explicit
`Tick(h)` call. Handles are positive, so `if (timers[id])` is a presence test.

`Valid` says the following:
- ids are distinct;
- a task has a countdown exactly while it is in progress;
- a live interval is the one registered under its task's id;
- a live interval counts down a task that is in progress.

`Timed` adds that every task in progress has a live interval. Together they
give: exactly one live interval per in-progress task, and none for any other
task.

The model follows the code as written, including:
- `updatePriority` stores any string.
- Entering in-progress restarts the countdown at 1500 when it is absent *or 0*
  (`!t.remainingTime`).
- No expiry notification is emitted.
- `deleteTask` and expiry stop the interval but keep the `timers` key.

## Model

| member | source | states |
|---|---|---|
| `TimeFormat.FormatTime` | script.js:82-87 | `formatTime`; no contract of its own: pinned down by `TimeFormat.FormatTimeRoundTrip` and `TimeFormat.FormatTimeLength` |
| `TimeFormat.FormatTimeRoundTrip` | script.js:82-87 | reading `formatTime(sec)` back as hours, minutes (< 60) and seconds (< 60) gives `sec` again for every natural `sec` |
| `TimeFormat.FormatTimeLength` | script.js:82-87 | the display is at least 8 characters, and exactly 8 if and only if `sec < 360000` |
| `TimeFormat.PaddedField` | script.js:83-85 | a `padStart(2, "0")` field is all digits, at least 2 long, exactly 2 if and only if the number is below 100, and keeps the number's value |
| `TimeFormat.DecimalString` | script.js:83-85 | `String(n)` is a non-empty digit string with no leading zero except for 0 itself; it has one digit if and only if `n < 10`, and at most two if and only if `n < 100` |
| `TimeFormat.DecimalStringValue` | script.js:83-85 | the digits of `String(n)` read back to `n` |
| `TimeFormat.ClockArithmetic` | script.js:83-85 | minutes and seconds are below 60 and `h*3600 + m*60 + s == sec` |
| `Tasks.Trim` | script.js:129 | `String.prototype.trim`; no contract of its own: pinned down by `Tasks.TrimStart`, `Tasks.TrimEnd` and `Tasks.TrimIsEmptyIffBlank` |
| `Tasks.TrimStart` | script.js:129 | the result is a suffix of the input, starts with a non-space, and everything cut off is white space |
| `Tasks.TrimEnd` | script.js:129 | the result is a prefix of the input, ends with a non-space, and everything cut off is white space |
| `Tasks.TrimIsEmptyIffBlank` | script.js:129-132 | a name trims to the empty string if and only if every character is white space |
| `Tasks.IndexOf` | script.js:57 | `find` gives the first position holding the id, or none when no task has that id |
| `Tasks.IndexOfUnique` | script.js:65 | with distinct ids, `find` returns the one task carrying the id |
| `Tasks.Without` | script.js:120 | the `filter` of `deleteTask`; no contract of its own: pinned down by `Tasks.WithoutMembers`, `Tasks.WithoutAbsent` and `Tasks.WithoutAt` |
| `Tasks.WithoutMembers` | script.js:120 | a task is in the filtered list if and only if it was in the list and its id differs from the deleted one |
| `Tasks.WithoutAbsent` | script.js:120 | filtering out an id no task has keeps the list unchanged |
| `Tasks.WithoutAt` | script.js:120 | with distinct ids, deleting the id of the task at `i` gives `tasks[..i] + tasks[i+1..]`: one task gone, the others kept in order |
| `Tasks.RemoveAtKeepsUnique` | script.js:120 | removing a task keeps the remaining ids distinct |
| `Tasks.WithStatus` | script.js:67-75 | the record after `updateStatus` sets its status; no contract of its own: pinned down by `Properties.EnterInProgressEffect` and `Properties.LeaveInProgressEffect` |
| `Tasks.Ticked` | script.js:92-103 | the record after one firing; no contract of its own: pinned down by `Tasks.CountdownTicks` and `Properties.TickEffect` |
| `Tasks.CountdownTicks` | script.js:91-103 | from a countdown of `n`, `n` ticks reach 0 with the task still in progress, and tick `n+1` marks it done and drops the countdown |
| `Tasks.Column` | script.js:43-52 | the tasks of one status in list order; no contract of its own: pinned down by `Tasks.ColumnMembers` and `Tasks.ColumnOfConcat` |
| `Tasks.ColumnMembers` | script.js:43-52 | a column holds exactly the tasks of its status, and is no longer than the list |
| `Tasks.ColumnOfConcat` | script.js:15-53 | columns keep list order: the column of `a + b` is the column of `a` followed by that of `b` |
| `Tasks.Render` | script.js:15-53 | the two columns `renderTasks` fills; no contract of its own: pinned down by `Tasks.RenderPartitions` |
| `Tasks.RenderPartitions` | script.js:15-53 | Do Now shows the in-progress tasks in list order, each labelled `formatTime(remainingTime \|\| 0)`; the task list shows the not-started tasks; done tasks are shown nowhere |
| `Transitions.Initial` | script.js:1-3 | the state at load; no contract of its own: used by `Board.TaskBoard.constructor` |
| `Transitions.ClearTimer` | script.js:73 | `clearInterval(timers[id])`; no contract of its own: pinned down by `Properties.ClearTimerEffect` |
| `Transitions.StartTimer` | script.js:89-91 | `startTimer`; no contract of its own: pinned down by `Properties.StartTimerEffect` |
| `Transitions.AddTask` | script.js:128-134 | the save handler; no contract of its own: pinned down by `Properties.AddTaskEffect` |
| `Transitions.UpdatePriority` | script.js:56-62 | `updatePriority`; no contract of its own: pinned down by `Properties.UpdatePriorityEffect` and `Properties.MissingIdIsNoOp` |
| `Transitions.UpdateStatus` | script.js:64-80 | `updateStatus`; no contract of its own: pinned down by `Properties.EnterInProgressEffect`, `Properties.LeaveInProgressEffect` and `Properties.MissingIdIsNoOp` |
| `Transitions.Tick` | script.js:91-103 | one firing of an interval; no contract of its own: pinned down by `Properties.TickEffect` |
| `Transitions.EditTask` | script.js:107-116 | `editTask` with the `prompt` reply as a parameter; no contract of its own: pinned down by `Properties.EditTaskEffect` |
| `Transitions.DeleteTask` | script.js:118-123 | `deleteTask`; no contract of its own: pinned down by `Properties.DeleteTaskEffect` and `Properties.MissingIdDeleteIsNoOp` |
| `Transitions.DragStart` | script.js:144 | `onDragStart`; no contract of its own: used by `Board.TaskBoard.DragStart` |
| `Transitions.DragEnd` | script.js:145 | `onDragEnd`; no contract of its own: used by `Board.TaskBoard.DragEnd` |
| `Transitions.Drop` | script.js:156-178 | both drop handlers; no contract of its own: pinned down by `Properties.DropEffect` |
| `Transitions.RestartsOnLoadAsWritten` | script.js:184 | the on-load test as written; no contract of its own: see `Properties.RestartUpToAsWrittenEffect` |
| `Transitions.RestartsOnLoad` | script.js:184 | the corrected on-load test; no contract of its own: see `Properties.RestartUpToEffect` |
| `Transitions.RestartUpTo` | script.js:183-185 | the on-load loop over a prefix, with either test; no contract of its own: pinned down by `Properties.RestartUpToAsWrittenEffect` and `Properties.RestartUpToEffect` |
| `Transitions.RestartTimers` | script.js:183-185 | the corrected on-load loop over all tasks; no contract of its own: pinned down by `Properties.RestartTimersEffect` |
| `Properties.AddTaskEffect` | script.js:128-134 | saving leaves the board unchanged if and only if the name is blank; otherwise exactly one task is appended: trimmed name, given due date and priority, not started, no countdown |
| `Properties.AddTaskKeepsInvariant` | script.js:133 | adding under an id no task carries keeps `Valid` and `Timed` |
| `Properties.MissingIdIsNoOp` | script.js:56-66 | in every state, with an id no task has, `updatePriority`, `updateStatus` and `editTask` leave the board as it is |
| `Properties.MissingIdDeleteIsNoOp` | script.js:118-120 | in every valid state, `deleteTask` on an id no task has leaves the board as it is: a leftover `timers` key for it names no live interval |
| `Properties.UpdatePriorityEffect` | script.js:56-62 | on a present id only that task's priority changes (to the unchecked value); invariants kept |
| `Properties.EditTaskEffect` | script.js:107-116 | on a present id the name changes if and only if the reply is a non-empty string; nothing else changes; invariants kept |
| `Properties.ClearTimerEffect` | script.js:73 | `clearInterval(timers[id])` leaves no live interval for `id` and no other id's intervals change; `timers` is untouched |
| `Properties.StartTimerEffect` | script.js:89-91 | starting a timer leaves exactly one live interval for the task, the new handle, and other tasks' intervals are unchanged |
| `Properties.EnterInProgressEffect` | script.js:67-71 | moving to in-progress keeps a non-zero countdown or sets it to 1500, leaves exactly one live interval for the task (the old one is stopped), and keeps the invariants |
| `Properties.LeaveInProgressEffect` | script.js:72-76 | any other status drops the countdown, leaves no live interval and no `timers` key for the task, and keeps the invariants |
| `Properties.UpdateStatusKeepsInvariant` | script.js:64-80 | `updateStatus` keeps `Valid` and `Timed` for any id and status |
| `Properties.EnterInProgressTwice` | script.js:89-91 | selecting in-progress twice gives the same tasks and the same set of ids with live intervals as once, still with one interval for that task |
| `Properties.TickEffect` | script.js:91-103 | a firing with a positive countdown decrements it by exactly 1 and changes nothing else; at 0 the task becomes done, loses its countdown and the interval stops, while the key stays |
| `Properties.TickRepeatIdle` | script.js:98 | a stopped interval never fires again |
| `Properties.TickRepeatEffect` | script.js:91-103 | the whole state after `k` firings: the task is replaced by `k` record ticks, the interval stops once the task is done, and nothing else changes (`timers`, other intervals, `nextHandle`, `dragTaskId`) |
| `Properties.TickRepeatKeepsInvariant` | script.js:91-103 | any number of firings of any handle keeps `Valid` and `Timed` |
| `Properties.CountdownReachesDone` | script.js:91-103 | from a countdown of `n`, `n` firings reach 0 with the interval live, and firing `n+1` marks the task done and stops the interval |
| `Properties.UntimedTaskIgnoresTicks` | script.js:91-104 | a task no live interval counts down is left unchanged by every firing |
| `Properties.AtMostOneInterval` | script.js:89-91 | in every valid state no task has two live intervals |
| `Properties.OneIntervalPerRunningTask` | script.js:69-76 | with `Timed`, a task in progress has exactly one live interval and any other task has none |
| `Properties.DeleteTaskEffect` | script.js:118-120 | deleting removes that one task and keeps the others in order; it leaves no live interval for the id; it keeps the `timers` key and the other intervals |
| `Properties.DeleteTaskKeepsInvariant` | script.js:118-123 | `deleteTask` keeps `Valid` and `Timed` for any id |
| `Properties.DropEffect` | script.js:156-178 | with nothing dragged, or with the falsy id 0, a drop changes nothing; otherwise it is `updateStatus` to the zone's status, after which nothing is dragged; invariants kept |
| `Properties.RestartUpToAsWrittenEffect` | script.js:183-185 | the loop as written, over the first `k` tasks, keeps the tasks and `Valid`, starts an interval for each task in progress with a truthy countdown, and leaves every other task's intervals as they were |
| `Properties.RestartUpToEffect` | script.js:183-185 | the corrected loop over the first `k` tasks keeps the tasks and `Valid` and starts an interval for each of those in progress |
| `Properties.RestartTimersEffect` | script.js:183-185 | after the corrected on-load loop every task in progress has its interval running |
| `Properties.RestartAsWrittenStrandsExpiredTask` | script.js:184 | as written, a task saved in progress at 0 seconds gets no interval on load, so no firing ever changes it |
| `Board.TaskBoard.constructor` | script.js:1-3 | the board starts with the stored list (empty when none), no intervals and nothing dragged, and is `Valid` |
| `Board.TaskBoard.Find` | script.js:57 | the loop returns exactly `IndexOf(tasks, id)` |
| `Board.TaskBoard.ClearTimer` | script.js:73 | the new state is `Transitions.ClearTimer` of the old |
| `Board.TaskBoard.StartTimer` | script.js:89-91 | the new state is `Transitions.StartTimer` of the old |
| `Board.TaskBoard.AddTask` | script.js:128-134 | the new state is `Transitions.AddTask` of the old; `Valid` and `Timed` kept |
| `Board.TaskBoard.UpdatePriority` | script.js:56-62 | the new state is `Transitions.UpdatePriority` of the old; invariants kept |
| `Board.TaskBoard.UpdateStatus` | script.js:64-80 | the new state is `Transitions.UpdateStatus` of the old; invariants kept |
| `Board.TaskBoard.Tick` | script.js:91-103 | the new state is `Transitions.Tick` of the old; invariants kept |
| `Board.TaskBoard.EditTask` | script.js:107-116 | the new state is `Transitions.EditTask` of the old; invariants kept |
| `Board.TaskBoard.DeleteTask` | script.js:118-123 | the new state is `Transitions.DeleteTask` of the old; invariants kept |
| `Board.TaskBoard.DragStart` | script.js:144 | the new state is `Transitions.DragStart` of the old: only `dragTaskId` changes, to the given id |
| `Board.TaskBoard.DragEnd` | script.js:145 | the new state is `Transitions.DragEnd` of the old: only `dragTaskId` changes, to none |
| `Board.TaskBoard.Drop` | script.js:156-178 | the new state is `Transitions.Drop` of the old; invariants kept |
| `Board.TaskBoard.RestartTimersAsWritten` | script.js:183-185 | the loop with the test as written leaves the state `Transitions.RestartUpTo` gives with that test, and every task in progress with a truthy countdown timed |
| `Board.TaskBoard.RestartTimers` | script.js:183-185 | the loop leaves the state `Transitions.RestartTimers` gives, with every task in progress timed |

## Left out

- Persistence (`saveTasks`, `localStorage`, `JSON.parse`/`JSON.stringify`) is
  not modelled. The constructor receives the stored list, or none. It requires
  that list to be one this board saved: distinct ids, and a countdown exactly
  on the tasks in progress. Saving after each change has no effect on the
  modelled state.
- DOM work is not modelled: card markup, `innerHTML`, the CSS classes of the
  drop zones, the add-panel show/hide and form reset, and event wiring. Of
  `renderTasks`, only the column partition and the timer text are kept
  (`Tasks.Render`).
- The in-place update of the timer text on each tick (script.js:94-95) is
  display only and is not modelled.
- `prompt()` and `Date.now()` are I/O and the clock. They become the
  parameters `reply` and `id`; the id is required to differ from every id on
  the board.
- `setInterval` timing and wall-clock time are not modelled. Each firing is an
  explicit `Tick(h)`; an interval that was cleared never fires.
- Status values other than the three the select and the drop handlers pass
  cannot reach `updateStatus`, so `Status` has exactly three values. Priority
  is an arbitrary string, because the code does not check it.
- The interval callback holds the task object rather than its id. The model
  finds the task by id instead; with distinct ids this is the same record.
- `String.prototype.trim` is modelled with the ECMAScript white-space and
  line-terminator characters listed in `Tasks.IsJsSpace`. Unicode category
  lookups beyond that list are not modelled.

## Findings

| source | as written | input that shows it | evidently intended | confidence | as-written member | corrected member |
|---|---|---|---|---|---|---|
| script.js:184 | the on-load loop restarts a task only if it is in progress *and* `remainingTime` is truthy | a task saved in progress with `remainingTime` 0, i.e. saved by the tick that reached 0 and reloaded before the next tick | every task in progress gets its interval back, so the next tick marks it done | medium, not executed | `Properties.RestartAsWrittenStrandsExpiredTask` (loop `Board.TaskBoard.RestartTimersAsWritten`, general lemma `Properties.RestartUpToAsWrittenEffect`) | `Properties.RestartTimersEffect` (loop `Board.TaskBoard.RestartTimers`) |
