/**
  The board as a value: the three pieces of module state of script.js
  (`tasklist`, `timers`, `dragTaskId`) plus the browser's interval
  registry, and one function per handler giving the state it leaves
  behind. The class in board.dfy is proved to follow these functions; the
  lemmas here state what the handlers promise.

  Intervals are modelled by their handles: `timers` is the JavaScript
  object from task id to the handle `setInterval` returned (a key stays
  after `clearInterval` unless the code deletes it), `live` maps each
  interval the browser still runs to the id of the task its callback counts
  down, and `nextHandle` is the handle the next `setInterval` returns
  (handles are positive, so `if (timers[id])` is a presence test).
 */
module Transitions {
  import opened Wrappers
  import opened Tasks

  datatype State = State(tasks: seq<Task>, timers: map<int, nat>, live: map<nat, int>,
                         nextHandle: nat, dragTaskId: Option<int>)

  /** The two drop targets: the task list and the Do Now column. */
  datatype DropZone = TaskListZone | DoNowZone

  function Target(z: DropZone): Status
  {
    match z
    case TaskListZone => NotStarted
    case DoNowZone => InProgress
  }

  // ---------------------------------------------------------------- invariants

  /** The task with this id is on the board and in progress. */
  ghost predicate Running(tasks: seq<Task>, id: int)
  {
    exists t :: t in tasks && t.id == id && t.status == InProgress
  }

  /**
    The invariant every handler keeps: ids are distinct, a countdown exists
    exactly while a task is in progress, handles are issued in increasing
    order, a key whose interval still runs names the task that interval
    counts down, and every live interval is the one registered under its
    task's id and counts down a task that is in progress.
   */
  ghost predicate Valid(s: State)
  {
    && UniqueIds(s.tasks)
    && CountdownIffInProgress(s.tasks)
    && 1 <= s.nextHandle
    && (forall id :: id in s.timers ==> 1 <= s.timers[id] < s.nextHandle)
    && (forall id :: id in s.timers && s.timers[id] in s.live ==> s.live[s.timers[id]] == id)
    && (forall h :: h in s.live ==>
          s.live[h] in s.timers && s.timers[s.live[h]] == h && Running(s.tasks, s.live[h]))
  }

  /** A live interval is registered under `id` and counts down that task. */
  ghost predicate TimedId(s: State, id: int)
  {
    id in s.timers && s.timers[id] in s.live && s.live[s.timers[id]] == id
  }

  /** Every task in progress has its interval running. */
  ghost predicate Timed(s: State)
  {
    forall t :: t in s.tasks && t.status == InProgress ==> TimedId(s, t.id)
  }

  /** The live intervals counting down task `id`. */
  ghost function LiveHandles(s: State, id: int): set<nat>
  {
    set h | h in s.live && s.live[h] == id
  }

  /** The ids that have a live interval. */
  ghost function LiveIds(s: State): set<int>
  {
    s.live.Values
  }

  // ---------------------------------------------------------------- handlers

  /** script.js:1-3: the stored list (`|| []` when nothing is stored), no intervals, nothing dragged. */
  function Initial(stored: Option<seq<Task>>): State
  {
    State(if stored.Some? then stored.value else [], map[], map[], 1, None)
  }

  /** `clearInterval(timers[id])`: stops the interval registered under `id`, if any; the key stays. */
  function ClearTimer(s: State, id: int): State
  {
    if id in s.timers then s.(live := s.live - {s.timers[id]}) else s
  }

  /** `startTimer` (script.js:89-91, 104): stop the interval under `id`, register a new one. */
  function StartTimer(s: State, id: int): State
  {
    var c := ClearTimer(s, id);
    c.(timers := c.timers[id := c.nextHandle], live := c.live[c.nextHandle := id],
       nextHandle := c.nextHandle + 1)
  }

  /** The save-button handler (script.js:128-134); `id` stands for `Date.now()`. */
  function AddTask(s: State, id: int, rawName: string, due: string, priority: string): State
  {
    var name := Trim(rawName);
    if name == [] then s
    else s.(tasks := s.tasks + [Task(id, name, due, priority, NotStarted, None)])
  }

  /** `updatePriority` (script.js:56-62). */
  function UpdatePriority(s: State, id: int, val: string): State
  {
    match IndexOf(s.tasks, id)
    case None => s
    case Some(i) => s.(tasks := s.tasks[i := s.tasks[i].(priority := val)])
  }

  /** `updateStatus` (script.js:64-80). */
  function UpdateStatus(s: State, id: int, st: Status): State
  {
    match IndexOf(s.tasks, id)
    case None => s
    case Some(i) =>
      var marked := s.(tasks := s.tasks[i := WithStatus(s.tasks[i], st)]);
      if st == InProgress then StartTimer(marked, id)
      else
        var c := ClearTimer(marked, id);
        c.(timers := c.timers - {id})
  }

  /** One firing of interval `h` (script.js:91-103); an interval that was cleared does not fire. */
  function Tick(s: State, h: nat): State
  {
    if h !in s.live then s
    else
      var id := s.live[h];
      match IndexOf(s.tasks, id)
      case None => s
      case Some(i) =>
        var next := s.(tasks := s.tasks[i := Ticked(s.tasks[i])]);
        if TicksDown(s.tasks[i]) then next else ClearTimer(next, id)
  }

  /** `k` firings of interval `h`. */
  function TickRepeat(s: State, h: nat, k: nat): State
    decreases k
  {
    if k == 0 then s else TickRepeat(Tick(s, h), h, k - 1)
  }

  /**
    `editTask` (script.js:107-116); `reply` is what `prompt` returned
    (`None` when cancelled). Only a non-empty reply renames.
   */
  function EditTask(s: State, id: int, reply: Option<string>): State
  {
    match IndexOf(s.tasks, id)
    case None => s
    case Some(i) =>
      if reply.Some? && reply.value != [] then s.(tasks := s.tasks[i := s.tasks[i].(name := reply.value)])
      else s
  }

  /** `deleteTask` (script.js:118-123). */
  function DeleteTask(s: State, id: int): State
  {
    ClearTimer(s, id).(tasks := Without(s.tasks, id))
  }

  /** `onDragStart` (script.js:144). */
  function DragStart(s: State, id: int): State
  {
    s.(dragTaskId := Some(id))
  }

  /** `onDragEnd` (script.js:145). */
  function DragEnd(s: State): State
  {
    s.(dragTaskId := None)
  }

  /** The two drop handlers (script.js:156-163, 171-178); `if (dragTaskId)` is false for null and 0. */
  function Drop(s: State, zone: DropZone): State
  {
    if s.dragTaskId.Some? && s.dragTaskId.value != 0 then
      UpdateStatus(s, s.dragTaskId.value, Target(zone)).(dragTaskId := None)
    else s
  }

  /** The test of the on-load loop as script.js:184 writes it. */
  predicate RestartsOnLoadAsWritten(t: Task)
  {
    t.status == InProgress && Truthy(t.remainingTime)
  }

  /** The test the on-load loop needs: every task in progress gets its interval back. */
  predicate RestartsOnLoad(t: Task)
  {
    t.status == InProgress
  }

  /** The on-load loop (script.js:183-185) over the first `k` tasks, with test `restarts`. */
  function RestartUpTo(s: State, k: nat, restarts: Task -> bool): State
    requires k <= |s.tasks|
    decreases k
  {
    if k == 0 then s
    else
      var before := RestartUpTo(s, k - 1, restarts);
      if restarts(s.tasks[k - 1]) then StartTimer(before, s.tasks[k - 1].id) else before
  }

  function RestartTimers(s: State): State
  {
    RestartUpTo(s, |s.tasks|, RestartsOnLoad)
  }
}
