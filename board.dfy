/**
  The board of script.js: one object holding the module-level state that
  the handlers update in place. Each handler is a method proved to leave the
  state the matching function of module Transitions describes, and to keep
  the invariant `Valid` (and, once timers run, `Timed`). The on-load loop
  comes twice: `RestartTimersAsWritten` runs the test as script.js:184
  writes it, `RestartTimers` the corrected test that restarts every task in
  progress.
 */
module Board {
  import opened Wrappers
  import opened Tasks
  import opened Transitions
  import Properties

  class TaskBoard {
    /** `tasklist`. */
    var tasks: seq<Task>
    /** `timers`: task id to the handle of the interval registered for it. */
    var timers: map<int, nat>
    /** The intervals the browser still runs: handle to the id of the task its callback counts down. */
    var live: map<nat, int>
    /** The handle the next `setInterval` returns. */
    var nextHandle: nat
    /** `dragTaskId`. */
    var dragTaskId: Option<int>

    function Snapshot(): State
      reads this
    {
      State(tasks, timers, live, nextHandle, dragTaskId)
    }

    ghost predicate Valid()
      reads this
    {
      Transitions.Valid(Snapshot())
    }

    /**
      script.js:1-3: the list saved by an earlier session, or nothing. The
      saved list is one this board wrote, so it has distinct ids and a
      countdown exactly on the tasks in progress.
     */
    constructor (stored: Option<seq<Task>>)
      requires stored.Some? ==> UniqueIds(stored.value) && CountdownIffInProgress(stored.value)
      ensures Valid() && Snapshot() == Initial(stored)
    {
      tasks := if stored.Some? then stored.value else [];
      timers := map[];
      live := map[];
      nextHandle := 1;
      dragTaskId := None;
    }

    /** `tasklist.find(x => x.id === id)`, as the position of the task found. */
    method Find(id: int) returns (r: Option<nat>)
      ensures r == IndexOf(tasks, id)
    {
      var i := 0;
      while i < |tasks|
        invariant 0 <= i <= |tasks|
        invariant forall j :: 0 <= j < i ==> tasks[j].id != id
      {
        if tasks[i].id == id {
          return Some(i);
        }
        i := i + 1;
      }
      return None;
    }

    /** `clearInterval(timers[id])`; the key stays. */
    method ClearTimer(id: int)
      modifies this
      ensures Snapshot() == Transitions.ClearTimer(old(Snapshot()), id)
    {
      if id in timers {
        live := live - {timers[id]};
      }
    }

    /** `startTimer` (script.js:89-91, 104): the interval's body is `Tick`. */
    method StartTimer(id: int)
      modifies this
      ensures Snapshot() == Transitions.StartTimer(old(Snapshot()), id)
    {
      ClearTimer(id);
      timers := timers[id := nextHandle];
      live := live[nextHandle := id];
      nextHandle := nextHandle + 1;
    }

    /**
      The save-button handler (script.js:128-134). `id` stands for
      `Date.now()`: it differs from every id on the board.
     */
    method AddTask(id: int, rawName: string, due: string, priority: string)
      requires Valid() && !HasId(tasks, id)
      modifies this
      ensures Valid() && Snapshot() == Transitions.AddTask(old(Snapshot()), id, rawName, due, priority)
      ensures Timed(old(Snapshot())) ==> Timed(Snapshot())
    {
      Properties.AddTaskKeepsInvariant(Snapshot(), id, rawName, due, priority);
      var name := Trim(rawName);
      if name != [] {
        tasks := tasks + [Task(id, name, due, priority, NotStarted, None)];
      }
    }

    /** `updatePriority` (script.js:56-62): `val` is stored unchecked. */
    method UpdatePriority(id: int, val: string)
      requires Valid()
      modifies this
      ensures Valid() && Snapshot() == Transitions.UpdatePriority(old(Snapshot()), id, val)
      ensures Timed(old(Snapshot())) ==> Timed(Snapshot())
    {
      var found := Find(id);
      if found.Some? {
        var i := found.value;
        Properties.UpdatePriorityEffect(Snapshot(), i, val);
        tasks := tasks[i := tasks[i].(priority := val)];
      }
    }

    /** `updateStatus` (script.js:64-80). */
    method UpdateStatus(id: int, st: Status)
      requires Valid()
      modifies this
      ensures Valid() && Snapshot() == Transitions.UpdateStatus(old(Snapshot()), id, st)
      ensures Timed(old(Snapshot())) ==> Timed(Snapshot())
    {
      Properties.UpdateStatusKeepsInvariant(Snapshot(), id, st);
      var found := Find(id);
      if found.None? {
        return;
      }
      var i := found.value;
      var t := tasks[i].(status := st);
      if st == InProgress {
        if !Truthy(t.remainingTime) {
          t := t.(remainingTime := Some(DefaultCountdown));
        }
        tasks := tasks[i := t];
        StartTimer(t.id);
      } else {
        ClearTimer(t.id);
        timers := timers - {t.id};
        tasks := tasks[i := t.(remainingTime := None)];
      }
    }

    /**
      One firing of interval `h` (script.js:91-103). The callback holds the
      task object; with distinct ids, finding the task by the id the
      interval was registered for reaches the same record.
     */
    method Tick(h: nat)
      requires Valid()
      modifies this
      ensures Valid() && Snapshot() == Transitions.Tick(old(Snapshot()), h)
      ensures Timed(old(Snapshot())) ==> Timed(Snapshot())
    {
      if h !in live {
        return;
      }
      var id := live[h];
      var found := Find(id);
      if found.None? {
        return;
      }
      var i := found.value;
      Properties.TickEffect(Snapshot(), h, i);
      var t := tasks[i];
      if TicksDown(t) {
        tasks := tasks[i := t.(remainingTime := Some(t.remainingTime.value - 1))];
      } else {
        ClearTimer(id);
        tasks := tasks[i := t.(status := Done, remainingTime := None)];
      }
    }

    /**
      `editTask` (script.js:107-116); `reply` is what `prompt` returned,
      `None` when the dialog was cancelled.
     */
    method EditTask(id: int, reply: Option<string>)
      requires Valid()
      modifies this
      ensures Valid() && Snapshot() == Transitions.EditTask(old(Snapshot()), id, reply)
      ensures Timed(old(Snapshot())) ==> Timed(Snapshot())
    {
      var found := Find(id);
      if found.None? {
        return;
      }
      var i := found.value;
      Properties.EditTaskEffect(Snapshot(), i, reply);
      if reply.Some? && reply.value != [] {
        tasks := tasks[i := tasks[i].(name := reply.value)];
      }
    }

    /** `deleteTask` (script.js:118-123). */
    method DeleteTask(id: int)
      requires Valid()
      modifies this
      ensures Valid() && Snapshot() == Transitions.DeleteTask(old(Snapshot()), id)
      ensures Timed(old(Snapshot())) ==> Timed(Snapshot())
    {
      Properties.DeleteTaskKeepsInvariant(Snapshot(), id);
      ClearTimer(id);
      tasks := Without(tasks, id);
    }

    /** `onDragStart` (script.js:144). */
    method DragStart(id: int)
      requires Valid()
      modifies this
      ensures Valid() && Snapshot() == Transitions.DragStart(old(Snapshot()), id)
      ensures Timed(old(Snapshot())) ==> Timed(Snapshot())
    {
      dragTaskId := Some(id);
    }

    /** `onDragEnd` (script.js:145). */
    method DragEnd()
      requires Valid()
      modifies this
      ensures Valid() && Snapshot() == Transitions.DragEnd(old(Snapshot()))
      ensures Timed(old(Snapshot())) ==> Timed(Snapshot())
    {
      dragTaskId := None;
    }

    /** The drop handlers of the task list and of Do Now (script.js:156-163, 171-178). */
    method Drop(zone: DropZone)
      requires Valid()
      modifies this
      ensures Valid() && Snapshot() == Transitions.Drop(old(Snapshot()), zone)
      ensures Timed(old(Snapshot())) ==> Timed(Snapshot())
    {
      Properties.DropEffect(Snapshot(), zone);
      if dragTaskId.Some? && dragTaskId.value != 0 {
        UpdateStatus(dragTaskId.value, Target(zone));
        dragTaskId := None;
      }
    }

    /**
      The on-load loop (script.js:183-185) as written: only a task in progress
      with a truthy countdown gets its interval back.
     */
    method RestartTimersAsWritten()
      requires Valid()
      modifies this
      ensures tasks == old(tasks)
      ensures Valid() && Snapshot() == RestartUpTo(old(Snapshot()), |tasks|, RestartsOnLoadAsWritten)
      ensures forall t :: t in tasks && RestartsOnLoadAsWritten(t) ==> TimedId(Snapshot(), t.id)
    {
      Properties.RestartUpToAsWrittenEffect(Snapshot(), |tasks|);
      var i := 0;
      while i < |tasks|
        invariant 0 <= i <= |tasks| && tasks == old(tasks)
        invariant Snapshot() == RestartUpTo(old(Snapshot()), i, RestartsOnLoadAsWritten)
      {
        if RestartsOnLoadAsWritten(tasks[i]) {
          StartTimer(tasks[i].id);
        }
        i := i + 1;
      }
      forall t | t in tasks && RestartsOnLoadAsWritten(t) ensures TimedId(Snapshot(), t.id) {
        var j :| 0 <= j < |tasks| && tasks[j] == t;
      }
    }

    /**
      The on-load loop (script.js:183-185), with the test corrected to
      restart every task in progress: afterwards each of them has its
      interval running.
     */
    method RestartTimers()
      requires Valid()
      modifies this
      ensures Valid() && Timed(Snapshot())
      ensures Snapshot() == Transitions.RestartTimers(old(Snapshot()))
    {
      Properties.RestartTimersEffect(Snapshot());
      var i := 0;
      while i < |tasks|
        invariant 0 <= i <= |tasks| && tasks == old(tasks)
        invariant Snapshot() == RestartUpTo(old(Snapshot()), i, RestartsOnLoad)
      {
        if RestartsOnLoad(tasks[i]) {
          StartTimer(tasks[i].id);
        }
        i := i + 1;
      }
    }
  }
}
